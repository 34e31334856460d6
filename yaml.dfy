/**
 * The YAML serialiser of the conversion tool (js/convert.js, lines 546-593):
 * `formatYamlValue`, which quotes a string only when it holds ':', a line
 * break or a quote, and `jsonToYaml`, which writes a mapping line per entry
 * and a `- ` line per array item, two spaces deeper per level.
 */
module Yaml {
  import opened Wrappers
  import opened Text
  import opened Json

  // ---------------------------------------------------------------- formatYamlValue

  /** `value.includes(':') || value.includes('\n') || value.includes('"') || value.includes("'")`. */
  predicate NeedsQuotes(s: string) {
    ':' in s || '\n' in s || '"' in s || '\'' in s
  }

  /** `s.replace(/"/g, '\\"')`: a backslash before every double quote. */
  function EscapeQuotes(s: string): string
    decreases |s|
  {
    if s == [] then [] else (if s[0] == '"' then ['\\', '"'] else [s[0]]) + EscapeQuotes(s[1..])
  }

  /** `formatYamlValue(value)`. */
  function FormatYamlValue(v: Json): string {
    if v.Str? then
      if NeedsQuotes(v.s) then "\"" + EscapeQuotes(v.s) + "\"" else v.s
    else JsString(v)
  }

  /** Reading `\"` back as `"`, every other character as itself. */
  function UnescapeQuotes(t: string): string
    decreases |t|
  {
    if t == [] then []
    else if |t| >= 2 && t[0] == '\\' && t[1] == '"' then ['"'] + UnescapeQuotes(t[2..])
    else [t[0]] + UnescapeQuotes(t[1..])
  }

  lemma {:induction false} EscapeQuotesHead(s: string)
    ensures EscapeQuotes(s) == [] ==> s == []
    ensures EscapeQuotes(s) != [] ==> EscapeQuotes(s)[0] != '"'
  {
  }

  /** Removing the backslashes in front of the quotes gives the string back. */
  lemma {:induction false} UnescapeEscapeQuotes(s: string)
    ensures UnescapeQuotes(EscapeQuotes(s)) == s
    decreases |s|
  {
    if s != [] {
      UnescapeEscapeQuotes(s[1..]);
      var t := EscapeQuotes(s[1..]);
      if s[0] == '"' {
        var r := ['\\', '"'] + t;
        assert r[2..] == t;
      } else {
        var r := [s[0]] + t;
        assert r[1..] == t;
        if s[0] == '\\' {
          EscapeQuotesHead(s[1..]);
        }
      }
      HeadTail(s);
    }
  }

  /** Every double quote of the escaped text has a backslash right before it. */
  predicate QuotesBackslashed(t: string) {
    forall i :: 0 <= i < |t| && t[i] == '"' ==> 0 < i && t[i - 1] == '\\'
  }

  lemma {:induction false} QuotesEscaped(s: string)
    ensures QuotesBackslashed(EscapeQuotes(s))
    decreases |s|
  {
    if s != [] {
      QuotesEscaped(s[1..]);
      var h := if s[0] == '"' then ['\\', '"'] else [s[0]];
      var t := EscapeQuotes(s[1..]);
      forall i | 0 <= i < |h + t| && (h + t)[i] == '"'
        ensures 0 < i && (h + t)[i - 1] == '\\'
      {
        if i >= |h| {
          assert (h + t)[i] == t[i - |h|];
          if i - |h| > 0 {
            assert (h + t)[i - 1] == t[i - |h| - 1];
          }
        } else {
          assert (h + t)[i] == h[i];
          if i == 1 {
            assert (h + t)[0] == h[0];
          }
        }
      }
    }
  }

  /**
   * What `formatYamlValue` writes: a string that needs quotes is wrapped in
   * double quotes, its quotes escaped, and reads back by dropping those
   * backslashes; any other string is itself; other values are `String(value)`.
   */
  lemma FormatYamlValueShape(v: Json)
    ensures var r := FormatYamlValue(v);
      (v.Str? && NeedsQuotes(v.s) ==>
        |r| >= 2 && r[0] == '"' && r[|r| - 1] == '"' && UnescapeQuotes(r[1..|r| - 1]) == v.s)
      && (v.Str? && !NeedsQuotes(v.s) ==> r == v.s)
      && (!v.Str? ==> r == JsString(v))
  {
    if v.Str? && NeedsQuotes(v.s) {
      var t := EscapeQuotes(v.s);
      var r := "\"" + t + "\"";
      assert r[1..|r| - 1] == t;
      UnescapeEscapeQuotes(v.s);
    }
  }

  // ---------------------------------------------------------------- the quoted scalar, read as YAML reads it

  /**
   * The content of a double-quoted scalar as section 7.3.1 of YAML 1.2 reads
   * it, for the part of the grammar used here: the escapes `\\`, `\"` and
   * `\n`, and a lone line break folded into one space. Any other escape, a
   * trailing backslash and a run of line breaks are outside this model and
   * give `None`. The folding is that of a lenient reader: a strict one also
   * demands that a continuation line be indented deeper than the enclosing
   * block, and rejects a break followed by text at column 0.
   */
  function ReadDoubleQuoted(t: string): Option<string>
    decreases |t|
  {
    if t == [] then Some([])
    else if t[0] == '\\' then
      if |t| < 2 then None
      else
        var c := if t[1] == '\\' then Some('\\') else if t[1] == '"' then Some('"') else if t[1] == 'n' then Some('\n') else None;
        match c
        case None => None
        case Some(x) =>
          match ReadDoubleQuoted(t[2..])
          case None => None
          case Some(rest) => Some([x] + rest)
    else if t[0] == '\n' then
      if |t| >= 2 && t[1] == '\n' then None
      else
        match ReadDoubleQuoted(t[1..])
        case None => None
        case Some(rest) => Some([' '] + rest)
    else
      match ReadDoubleQuoted(t[1..])
      case None => None
      case Some(rest) => Some([t[0]] + rest)
  }

  /** A character that is neither a backslash nor a line break reads as itself. */
  lemma ReadPlain(c: char, t: string)
    requires c != '\\' && c != '\n' && ReadDoubleQuoted(t).Some?
    ensures ReadDoubleQuoted([c] + t) == Some([c] + ReadDoubleQuoted(t).value)
  {
    assert ([c] + t)[1..] == t;
  }

  /** `\n` reads as a line break. */
  lemma ReadEscapedBreak(t: string)
    requires ReadDoubleQuoted(t).Some?
    ensures ReadDoubleQuoted(['\\', 'n'] + t) == Some(['\n'] + ReadDoubleQuoted(t).value)
  {
    assert (['\\', 'n'] + t)[2..] == t;
  }

  /** A lone line break reads as a space. */
  lemma ReadLoneBreak(t: string)
    requires ReadDoubleQuoted(t).Some? && (t == [] || t[0] != '\n')
    ensures ReadDoubleQuoted(['\n'] + t) == Some([' '] + ReadDoubleQuoted(t).value)
  {
    assert (['\n'] + t)[1..] == t;
  }

  /** A string that needs quotes but holds no double quote is written between quotes as it is. */
  lemma QuotedAsIs(s: string)
    requires NeedsQuotes(s) && '"' !in s
    ensures FormatYamlValue(Str(s)) == "\"" + s + "\""
  {
    NoQuoteIdle(s);
  }

  /** `C:\new` is quoted (it holds ':') but its backslash is left bare, so YAML reads `\n` as a line break. */
  lemma BackslashMisread()
    ensures FormatYamlValue(Str("C:\\new")) == "\"" + "C:\\new" + "\""
    ensures ReadDoubleQuoted("C:\\new") == Some("C:\new")
    ensures ReadDoubleQuoted("C:\\new") != Some("C:\\new")
  {
    assert "C:\\new"[1] == ':';
    QuotedAsIs("C:\\new");
    ReadBackslashNew();
    assert "C:\new"[2] != "C:\\new"[2];
  }

  lemma ReadBackslashNew()
    ensures ReadDoubleQuoted("C:\\new") == Some("C:\new")
  {
    var t0: string := [];
    assert ReadDoubleQuoted(t0) == Some([]);
    ReadPlain('w', t0);
    assert ['w'] + t0 == ['w'];
    var t1 := ['w'] + t0;
    assert ReadDoubleQuoted(t1) == Some(['w']);
    ReadPlain('e', t1);
    var t2 := ['e'] + t1;
    assert ['e'] + ['w'] == ['e', 'w'];
    assert ReadDoubleQuoted(t2) == Some(['e', 'w']);
    ReadEscapedBreak(t2);
    var t3 := ['\\', 'n'] + t2;
    assert ['\n'] + ['e', 'w'] == ['\n', 'e', 'w'];
    assert ReadDoubleQuoted(t3) == Some(['\n', 'e', 'w']);
    ReadPlain(':', t3);
    var t4 := [':'] + t3;
    assert [':'] + ['\n', 'e', 'w'] == [':', '\n', 'e', 'w'];
    assert ReadDoubleQuoted(t4) == Some([':', '\n', 'e', 'w']);
    ReadPlain('C', t4);
    assert ['C'] + [':', '\n', 'e', 'w'] == "C:\new";
    assert "C:\\new" == ['C'] + t4;
  }

  /** A line break is quoted but written as is, and a lenient YAML reader folds it into a space. */
  lemma LineBreakFolded()
    ensures FormatYamlValue(Str("a\nb")) == "\"" + "a\nb" + "\""
    ensures ReadDoubleQuoted("a\nb") == Some("a b")
  {
    assert "a\nb"[1] == '\n';
    QuotedAsIs("a\nb");
    var t0: string := [];
    assert ReadDoubleQuoted(t0) == Some([]);
    ReadPlain('b', t0);
    assert ['b'] + t0 == ['b'];
    var t1 := ['b'] + t0;
    assert ReadDoubleQuoted(t1) == Some(['b']);
    ReadLoneBreak(t1);
    var t2 := ['\n'] + t1;
    assert [' '] + ['b'] == [' ', 'b'];
    assert ReadDoubleQuoted(t2) == Some([' ', 'b']);
    ReadPlain('a', t2);
    assert ['a'] + [' ', 'b'] == "a b";
    assert "a\nb" == ['a'] + t2;
  }

  lemma {:induction false} NoQuoteIdle(s: string)
    requires '"' !in s
    ensures EscapeQuotes(s) == s
    decreases |s|
  {
    if s != [] {
      assert s[0] in s;
      assert forall x :: x in s[1..] ==> x in s;
      NoQuoteIdle(s[1..]);
      HeadTail(s);
    }
  }

  /** The escaping a YAML double-quoted scalar needs: backslashes, quotes and line breaks. */
  function EscapeDoubleQuoted(s: string): string
    decreases |s|
  {
    if s == [] then []
    else
      (if s[0] == '\\' then "\\\\" else if s[0] == '"' then "\\\"" else if s[0] == '\n' then "\\n" else [s[0]])
      + EscapeDoubleQuoted(s[1..])
  }

  /** `formatYamlValue` with the escaping the double quotes call for. */
  function FormatYamlValueEscaped(v: Json): string {
    if v.Str? then
      if NeedsQuotes(v.s) then "\"" + EscapeDoubleQuoted(v.s) + "\"" else v.s
    else JsString(v)
  }

  lemma {:induction false} EscapeDoubleQuotedHead(s: string)
    ensures EscapeDoubleQuoted(s) != [] ==> EscapeDoubleQuoted(s)[0] != '\n'
  {
  }

  /** YAML reads the escaped text back as the original string. */
  lemma {:induction false} ReadEscapedDoubleQuoted(s: string)
    ensures ReadDoubleQuoted(EscapeDoubleQuoted(s)) == Some(s)
    decreases |s|
  {
    if s != [] {
      ReadEscapedDoubleQuoted(s[1..]);
      var t := EscapeDoubleQuoted(s[1..]);
      var h := if s[0] == '\\' then "\\\\" else if s[0] == '"' then "\\\"" else if s[0] == '\n' then "\\n" else [s[0]];
      var r := h + t;
      assert r[|h|..] == t;
      assert r[0] == h[0];
      if |h| == 2 {
        assert r[1] == h[1];
      }
      HeadTail(s);
    }
  }

  /** With the escaping in place, every quoted string reads back as itself. */
  lemma FormatEscapedReadsBack(v: Json)
    requires v.Str? && NeedsQuotes(v.s)
    ensures var r := FormatYamlValueEscaped(v);
      |r| >= 2 && r[0] == '"' && r[|r| - 1] == '"' && ReadDoubleQuoted(r[1..|r| - 1]) == Some(v.s)
  {
    var t := EscapeDoubleQuoted(v.s);
    var r := "\"" + t + "\"";
    assert r[1..|r| - 1] == t;
    ReadEscapedDoubleQuoted(v.s);
  }

  // ---------------------------------------------------------------- jsonToYaml

  /** `Object.entries(null)` throws a TypeError, which ends the conversion. */
  datatype YamlError = NullEntries

  /** `'  '.repeat(indent)`. */
  function Indentation(indent: nat): (r: string)
    ensures |r| == 2 * indent && forall i :: 0 <= i < |r| ==> r[i] == ' '
  {
    if indent == 0 then "" else "  " + Indentation(indent - 1)
  }

  /** `typeof item === 'object' && !Array.isArray(item)`. */
  predicate IsPlainObject(v: Json) {
    v.Null? || v.Obj?
  }

  /** `jsonToYaml(v, indent)`. */
  function YamlOf(v: Json, indent: nat): Result<string, YamlError>
    decreases v, 4
  {
    if v.Arr? then Sequence(v, |v.items|, indent)
    else
      match Entries(v)
      case None => Failure(NullEntries)
      case Some(entries) => Mapping(v, entries, |entries|, indent)
  }

  /** The item loop of lines 551-565 over the first `n` items. */
  function Sequence(arr: Json, n: nat, indent: nat): Result<string, YamlError>
    requires arr.Arr? && n <= |arr.items|
    decreases arr, 3, n
  {
    if n == 0 then Success("")
    else
      var before := Sequence(arr, n - 1, indent);
      if before.Failure? then before
      else
        var item := arr.items[n - 1];
        if IsPlainObject(item) then
          var sub := YamlOf(item, indent + 1);
          if sub.Failure? then sub
          else Success(before.value + ObjectItem(indent, Split(sub.value, '\n')))
        else Success(before.value + (Indentation(indent) + "- " + FormatYamlValue(item) + "\n"))
  }

  /** An object item: `- ` and its first line, then its other non-blank lines two spaces deeper. */
  function ObjectItem(indent: nat, lines: seq<string>): string
    requires |lines| >= 1
  {
    Indentation(indent) + "- " + lines[0] + "\n" + Reindented(lines, |lines|)
  }

  /** The line loop of lines 557-561, over `lines[1..n]`. */
  function Reindented(lines: seq<string>, n: nat): string
    requires 1 <= n <= |lines|
  {
    if n == 1 then ""
    else Reindented(lines, n - 1) + (if Trim(lines[n - 1]) != [] then "  " + lines[n - 1] + "\n" else "")
  }

  /** The entries loop of lines 567-579 over the first `n` entries. */
  function Mapping(v: Json, entries: seq<Member>, n: nat, indent: nat): Result<string, YamlError>
    requires Entries(v) == Some(entries) && n <= |entries|
    decreases v, 3, n
  {
    if n == 0 then Success("")
    else
      var before := Mapping(v, entries, n - 1, indent);
      if before.Failure? then before
      else
        EntriesBelow(v, entries);
        var last := EntryYaml(v, entries[n - 1], indent);
        if last.Failure? then last else Success(before.value + last.value)
  }

  /** What one entry of `v` adds. */
  function EntryYaml(v: Json, e: Member, indent: nat): Result<string, YamlError>
    requires e.value.Obj? || e.value.Arr? ==> e.value < v
    decreases v, 2
  {
    var value := e.value;
    if value.Null? then Success(Indentation(indent) + e.key + ": null\n")
    else if value.Obj? || value.Arr? then
      var sub := YamlOf(value, indent + 1);
      if sub.Failure? then sub else Success(Indentation(indent) + e.key + ":\n" + sub.value)
    else Success(Indentation(indent) + e.key + ": " + FormatYamlValue(value) + "\n")
  }

  /** `jsonToYaml`, as the tool runs it: a loop over the items of an array, or over the entries of anything else. */
  method JsonToYaml(obj: Json, indent: nat) returns (r: Result<string, YamlError>)
    ensures r == YamlOf(obj, indent)
    decreases obj, 1
  {
    if obj.Arr? {
      r := SequenceToYaml(obj, indent);
      return;
    }
    var indentStr := Indentation(indent);
    var yaml := "";
    var found := Entries(obj);
    if found.None? {
      return Failure(NullEntries);
    }
    var entries := found.value;
    EntriesBelow(obj, entries);
    for i := 0 to |entries|
      invariant Mapping(obj, entries, i, indent) == Success(yaml)
    {
      MappingNext(obj, entries, i, indent);
      var key, value := entries[i].key, entries[i].value;
      var piece: string;
      if value.Null? {
        piece := indentStr + key + ": null\n";
      } else if value.Obj? || value.Arr? {
        var sub := JsonToYaml(value, indent + 1);
        if sub.Failure? {
          MappingStays(obj, entries, i + 1, indent);
          return sub;
        }
        piece := indentStr + key + ":\n" + sub.value;
      } else {
        piece := indentStr + key + ": " + FormatYamlValue(value) + "\n";
      }
      assert EntryYaml(obj, entries[i], indent) == Success(piece);
      yaml := yaml + piece;
    }
    return Success(yaml);
  }

  /** The array branch of `jsonToYaml`, lines 551-565: one `- ` item per element. */
  method SequenceToYaml(obj: Json, indent: nat) returns (r: Result<string, YamlError>)
    requires obj.Arr?
    ensures r == Sequence(obj, |obj.items|, indent)
    decreases obj, 0
  {
    var indentStr := Indentation(indent);
    var yaml := "";
    for j := 0 to |obj.items|
      invariant Sequence(obj, j, indent) == Success(yaml)
    {
      var item := obj.items[j];
      assert item < obj;
      var piece: string;
      if IsPlainObject(item) {
        var itemYaml := JsonToYaml(item, indent + 1);
        if itemYaml.Failure? {
          SequenceStays(obj, j + 1, indent);
          return itemYaml;
        }
        piece := ReindentItem(indent, itemYaml.value);
      } else {
        piece := indentStr + "- " + FormatYamlValue(item) + "\n";
      }
      assert Sequence(obj, j + 1, indent) == Success(yaml + piece);
      yaml := yaml + piece;
    }
    return Success(yaml);
  }

  /** Lines 553-561: the item's first line after `- `, then its other non-blank lines two spaces deeper. */
  method ReindentItem(indent: nat, itemYaml: string) returns (piece: string)
    ensures piece == ObjectItem(indent, Split(itemYaml, '\n'))
  {
    var lines := Split(itemYaml, '\n');
    piece := Indentation(indent) + "- " + lines[0] + "\n";
    for i := 1 to |lines|
      invariant piece == Indentation(indent) + "- " + lines[0] + "\n" + Reindented(lines, i)
    {
      if Trim(lines[i]) != [] {
        Associative(Indentation(indent) + "- " + lines[0] + "\n", Reindented(lines, i), "  " + lines[i] + "\n");
        piece := piece + ("  " + lines[i] + "\n");
      }
    }
  }

  /** One more entry, after entries that threw nothing. */
  lemma MappingNext(v: Json, entries: seq<Member>, i: nat, indent: nat)
    requires Entries(v) == Some(entries) && i < |entries|
    requires Mapping(v, entries, i, indent).Success?
    ensures var e := entries[i]; e.value.Obj? || e.value.Arr? ==> e.value < v
    ensures var last := EntryYaml(v, entries[i], indent);
      Mapping(v, entries, i + 1, indent) == if last.Failure? then last else Success(Mapping(v, entries, i, indent).value + last.value)
  {
    EntriesBelow(v, entries);
  }

  /** Once thrown, the error ends the entries loop. */
  lemma {:induction false} MappingStays(v: Json, entries: seq<Member>, n: nat, indent: nat)
    requires Entries(v) == Some(entries) && n <= |entries|
    requires Mapping(v, entries, n, indent).Failure?
    ensures Mapping(v, entries, |entries|, indent) == Mapping(v, entries, n, indent)
    decreases |entries| - n
  {
    if n < |entries| {
      MappingStays(v, entries, n + 1, indent);
    }
  }

  /** Once thrown, the error ends the item loop. */
  lemma {:induction false} SequenceStays(arr: Json, n: nat, indent: nat)
    requires arr.Arr? && n <= |arr.items|
    requires Sequence(arr, n, indent).Failure?
    ensures Sequence(arr, |arr.items|, indent) == Sequence(arr, n, indent)
    decreases |arr.items| - n
  {
    if n < |arr.items| {
      SequenceStays(arr, n + 1, indent);
    }
  }

  // ---------------------------------------------------------------- when the conversion throws

  /**
   * The reference: the conversion reaches `Object.entries(null)` when `v` is
   * `null`, when an object or array entry throws, or when an array holds an
   * item that is `null` or an object which throws.
   */
  ghost predicate Throws(v: Json)
    decreases v, 2
  {
    if v.Arr? then ItemThrownBefore(v, |v.items|)
    else
      match Entries(v)
      case None => true
      case Some(entries) =>
        EntriesBelow(v, entries);
        EntryThrownBefore(v, entries, |entries|)
  }

  /** One of the first `n` items of the array `arr` throws. */
  ghost predicate ItemThrownBefore(arr: Json, n: nat)
    requires arr.Arr? && n <= |arr.items|
    decreases arr, 1
  {
    exists j :: 0 <= j < n && ItemThrows(arr.items[j])
  }

  /** One of the first `n` entries of `v` throws. */
  ghost predicate EntryThrownBefore(v: Json, entries: seq<Member>, n: nat)
    requires n <= |entries| && Inside(v, entries)
    decreases v, 1
  {
    exists k :: 0 <= k < n && EntryThrows(v, entries[k])
  }

  ghost predicate ItemThrows(item: Json)
    decreases item, 3
  {
    IsPlainObject(item) && Throws(item)
  }

  ghost predicate EntryThrows(v: Json, e: Member)
    requires e.value.Obj? || e.value.Arr? ==> e.value < v
    decreases v, 0
  {
    (e.value.Obj? || e.value.Arr?) && Throws(e.value)
  }

  /** The conversion succeeds exactly when it never meets `Object.entries(null)`. */
  lemma {:induction false} YamlSucceeds(v: Json, indent: nat)
    ensures YamlOf(v, indent).Success? <==> !Throws(v)
    decreases v, 4
  {
    if v.Arr? {
      SequenceSucceeds(v, |v.items|, indent);
    } else {
      match Entries(v)
      case None =>
      case Some(entries) =>
        EntriesBelow(v, entries);
        MappingSucceeds(v, entries, |entries|, indent);
    }
  }

  lemma {:induction false} SequenceSucceeds(arr: Json, n: nat, indent: nat)
    requires arr.Arr? && n <= |arr.items|
    ensures Sequence(arr, n, indent).Success? <==> !ItemThrownBefore(arr, n)
    decreases arr, 3, n
  {
    if n > 0 {
      SequenceSucceeds(arr, n - 1, indent);
      SequenceStep(arr, n, indent);
      ItemThrownStep(arr, n);
    }
  }

  /** After one more item the loop has failed when it had before or that item throws. */
  lemma SequenceStep(arr: Json, n: nat, indent: nat)
    requires arr.Arr? && 0 < n <= |arr.items|
    ensures Sequence(arr, n, indent).Failure? <==> Sequence(arr, n - 1, indent).Failure? || ItemThrows(arr.items[n - 1])
    decreases arr, 3, 0
  {
    SequenceFails(arr, n, indent);
    if IsPlainObject(arr.items[n - 1]) {
      YamlSucceeds(arr.items[n - 1], indent + 1);
    }
  }

  /** Some of the first `n` items throws when one of the first `n - 1` does or the last one does. */
  lemma ItemThrownStep(arr: Json, n: nat)
    requires arr.Arr? && 0 < n <= |arr.items|
    ensures ItemThrownBefore(arr, n) <==> ItemThrownBefore(arr, n - 1) || ItemThrows(arr.items[n - 1])
  {
    if ItemThrownBefore(arr, n) {
      var j :| 0 <= j < n && ItemThrows(arr.items[j]);
      if j < n - 1 {
        assert 0 <= j < n - 1 && ItemThrows(arr.items[j]);
      }
    }
  }

  /** The item loop fails after `n` items when it had failed before the last one or that item's conversion fails. */
  lemma SequenceFails(arr: Json, n: nat, indent: nat)
    requires arr.Arr? && 0 < n <= |arr.items|
    ensures arr.items[n - 1] < arr
    ensures Sequence(arr, n, indent).Failure? <==>
      Sequence(arr, n - 1, indent).Failure? || (IsPlainObject(arr.items[n - 1]) && YamlOf(arr.items[n - 1], indent + 1).Failure?)
  {
  }

  lemma {:induction false} MappingSucceeds(v: Json, entries: seq<Member>, n: nat, indent: nat)
    requires Entries(v) == Some(entries) && n <= |entries| && Inside(v, entries)
    ensures Mapping(v, entries, n, indent).Success? <==> !EntryThrownBefore(v, entries, n)
    decreases v, 3, n
  {
    if n > 0 {
      MappingSucceeds(v, entries, n - 1, indent);
      MappingStep(v, entries, n, indent);
      EntryThrownStep(v, entries, n);
    }
  }

  /** After one more entry the loop has succeeded when it had before and that entry does not throw. */
  lemma MappingStep(v: Json, entries: seq<Member>, n: nat, indent: nat)
    requires Entries(v) == Some(entries) && 0 < n <= |entries| && Inside(v, entries)
    ensures Mapping(v, entries, n, indent).Success? <==> Mapping(v, entries, n - 1, indent).Success? && !EntryThrows(v, entries[n - 1])
    decreases v, 3, 0
  {
    EntrySucceeds(v, entries[n - 1], indent);
  }

  /** Some of the first `n` entries throws when one of the first `n - 1` does or the last one does. */
  lemma EntryThrownStep(v: Json, entries: seq<Member>, n: nat)
    requires 0 < n <= |entries| && Inside(v, entries)
    ensures EntryThrownBefore(v, entries, n) <==> EntryThrownBefore(v, entries, n - 1) || EntryThrows(v, entries[n - 1])
  {
    if EntryThrownBefore(v, entries, n) {
      var k :| 0 <= k < n && EntryThrows(v, entries[k]);
      if k < n - 1 {
        assert 0 <= k < n - 1 && EntryThrows(v, entries[k]);
      }
    }
  }

  lemma {:induction false} EntrySucceeds(v: Json, e: Member, indent: nat)
    requires e.value.Obj? || e.value.Arr? ==> e.value < v
    ensures EntryYaml(v, e, indent).Success? <==> !EntryThrows(v, e)
    decreases v, 2
  {
    if e.value.Obj? || e.value.Arr? {
      YamlSucceeds(e.value, indent + 1);
    }
  }

  /** A `null` item of an array throws, since `typeof null` is `'object'`. */
  lemma NullItemThrows(arr: Json, j: nat, indent: nat)
    requires arr.Arr? && j < |arr.items| && arr.items[j].Null?
    ensures YamlOf(arr, indent).Failure?
  {
    assert ItemThrows(arr.items[j]);
    YamlSucceeds(arr, indent);
  }

  /** A `null` entry is written as `key: null` and never throws. */
  lemma NullEntryWritten(v: Json, e: Member, indent: nat)
    requires e.value.Null?
    ensures EntryYaml(v, e, indent) == Success(Indentation(indent) + e.key + ": null\n")
    ensures !EntryThrows(v, e)
  {
  }

  /** An array inside an array is not descended into: it is one item, written as `String(value)`. */
  lemma NestedArrayFlat(arr: Json, n: nat, indent: nat)
    requires arr.Arr? && 0 < n <= |arr.items| && arr.items[n - 1].Arr?
    requires Sequence(arr, n - 1, indent).Success?
    ensures Sequence(arr, n, indent)
      == Success(Sequence(arr, n - 1, indent).value + (Indentation(indent) + "- " + JsString(arr.items[n - 1]) + "\n"))
    ensures !ItemThrows(arr.items[n - 1])
  {
  }

  /** A boolean, a number or an empty array or object writes nothing. */
  lemma EmptyYaml(v: Json, indent: nat)
    requires v.Bool? || v.Num? || v == Arr([]) || v == Obj([])
    ensures YamlOf(v, indent) == Success("")
  {
  }
}
