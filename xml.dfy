/**
 * The XML serialiser of the conversion tool (js/convert.js, lines 496-527):
 * `escapeXml`, five chained replacements, and `jsonToXml`, which writes one
 * element per entry, four spaces deeper per level.
 */
module Xml {
  import opened Wrappers
  import opened Json
  import opened Text

  // ---------------------------------------------------------------- escapeXml

  /** `s.replace(/c/g, rep)`. */
  function ReplaceChar(s: string, c: char, rep: string): (r: string)
    decreases |s|
  {
    if s == [] then [] else (if s[0] == c then rep else [s[0]]) + ReplaceChar(s[1..], c, rep)
  }

  /** `escapeXml`: '&' first, then '<', '>', '"' and "'". */
  function EscapeXml(s: string): string {
    ReplaceChar(ReplaceChar(ReplaceChar(ReplaceChar(ReplaceChar(s, '&', "&amp;"), '<', "&lt;"), '>', "&gt;"), '"', "&quot;"), '\'', "&apos;")
  }

  /** The entity of a character, or the character itself. */
  function EscapeChar(c: char): string {
    if c == '&' then "&amp;"
    else if c == '<' then "&lt;"
    else if c == '>' then "&gt;"
    else if c == '"' then "&quot;"
    else if c == '\'' then "&apos;"
    else [c]
  }

  /** The reference: every character replaced by its entity in one pass. */
  function EscapeEach(s: string): string
    decreases |s|
  {
    if s == [] then [] else EscapeChar(s[0]) + EscapeEach(s[1..])
  }

  lemma {:induction false} ReplaceAppend(a: string, b: string, c: char, rep: string)
    ensures ReplaceChar(a + b, c, rep) == ReplaceChar(a, c, rep) + ReplaceChar(b, c, rep)
    decreases |a|
  {
    if a != [] {
      ReplaceAppend(a[1..], b, c, rep);
      assert (a + b)[0] == a[0];
      assert (a + b)[1..] == a[1..] + b;
      var h := if a[0] == c then rep else [a[0]];
      assert ReplaceChar(a + b, c, rep) == h + ReplaceChar(a[1..] + b, c, rep);
      assert ReplaceChar(a, c, rep) == h + ReplaceChar(a[1..], c, rep);
    } else {
      assert a + b == b;
    }
  }

  lemma {:induction false} ReplaceAbsent(s: string, c: char, rep: string)
    requires c !in s
    ensures ReplaceChar(s, c, rep) == s
    decreases |s|
  {
    if s != [] {
      assert s[0] in s;
      assert forall x :: x in s[1..] ==> x in s;
      ReplaceAbsent(s[1..], c, rep);
      HeadTail(s);
    }
  }

  /** The four passes after the first, on a text without any of their characters. */
  function LaterPasses(s: string): string {
    ReplaceChar(ReplaceChar(ReplaceChar(ReplaceChar(s, '<', "&lt;"), '>', "&gt;"), '"', "&quot;"), '\'', "&apos;")
  }

  lemma LaterPassesAppend(a: string, b: string)
    ensures LaterPasses(a + b) == LaterPasses(a) + LaterPasses(b)
  {
    ReplaceAppend(a, b, '<', "&lt;");
    var a1, b1 := ReplaceChar(a, '<', "&lt;"), ReplaceChar(b, '<', "&lt;");
    ReplaceAppend(a1, b1, '>', "&gt;");
    var a2, b2 := ReplaceChar(a1, '>', "&gt;"), ReplaceChar(b1, '>', "&gt;");
    ReplaceAppend(a2, b2, '"', "&quot;");
    var a3, b3 := ReplaceChar(a2, '"', "&quot;"), ReplaceChar(b2, '"', "&quot;");
    ReplaceAppend(a3, b3, '\'', "&apos;");
  }

  lemma ReplaceOne(x: char, c: char, rep: string)
    ensures ReplaceChar([x], c, rep) == if x == c then rep else [x]
  {
    assert [x][1..] == [];
  }

  /** The passes on one character give its entity: no entity holds a character a later pass replaces. */
  lemma PassesOnChar(c: char)
    ensures LaterPasses(ReplaceChar([c], '&', "&amp;")) == EscapeChar(c)
  {
    ReplaceOne(c, '&', "&amp;");
    if c == '&' {
      AmpPasses();
    } else {
      ReplaceOne(c, '<', "&lt;");
      if c == '<' {
        LtPasses();
      } else {
        ReplaceOne(c, '>', "&gt;");
        if c == '>' {
          GtPasses();
        } else {
          ReplaceOne(c, '"', "&quot;");
          if c == '"' {
            Keeps("&quot;", '\'', "&apos;");
          } else {
            ReplaceOne(c, '\'', "&apos;");
          }
        }
      }
    }
  }

  /** One entity passes a replacement of a character it does not hold unchanged. */
  lemma Keeps(e: string, c: char, rep: string)
    requires IsEntity(e) && IsMarkup(c) && (c == '>' ==> e != "&gt;") && (c == '<' ==> e != "&lt;")
    requires (c == '"' ==> e != "&quot;") && (c == '\'' ==> e != "&apos;")
    ensures ReplaceChar(e, c, rep) == e
  {
    ReplaceAbsent(e, c, rep);
  }

  lemma AmpPasses()
    ensures LaterPasses("&amp;") == "&amp;"
  {
    Keeps("&amp;", '<', "&lt;");
    Keeps("&amp;", '>', "&gt;");
    Keeps("&amp;", '"', "&quot;");
    Keeps("&amp;", '\'', "&apos;");
  }

  lemma LtPasses()
    ensures ReplaceChar(ReplaceChar(ReplaceChar("&lt;", '>', "&gt;"), '"', "&quot;"), '\'', "&apos;") == "&lt;"
  {
    Keeps("&lt;", '>', "&gt;");
    Keeps("&lt;", '"', "&quot;");
    Keeps("&lt;", '\'', "&apos;");
  }

  lemma GtPasses()
    ensures ReplaceChar(ReplaceChar("&gt;", '"', "&quot;"), '\'', "&apos;") == "&gt;"
  {
    Keeps("&gt;", '"', "&quot;");
    Keeps("&gt;", '\'', "&apos;");
  }

  /** Because '&' is replaced first, the five passes escape each character exactly once. */
  lemma {:induction false} EscapeXmlOnePass(s: string)
    ensures EscapeXml(s) == EscapeEach(s)
    decreases |s|
  {
    if s != [] {
      EscapeXmlOnePass(s[1..]);
      HeadTail(s);
      ReplaceAppend([s[0]], s[1..], '&', "&amp;");
      LaterPassesAppend(ReplaceChar([s[0]], '&', "&amp;"), ReplaceChar(s[1..], '&', "&amp;"));
      PassesOnChar(s[0]);
    }
  }

  /** A character markup gives a meaning to. */
  predicate IsMarkup(c: char) {
    c == '<' || c == '>' || c == '"' || c == '\''
  }

  lemma {:induction false} EscapeEachClean(s: string)
    ensures forall i :: 0 <= i < |EscapeEach(s)| ==> !IsMarkup(EscapeEach(s)[i])
    decreases |s|
  {
    if s != [] {
      EscapeEachClean(s[1..]);
      var e, t := EscapeChar(s[0]), EscapeEach(s[1..]);
      forall i | 0 <= i < |e + t|
        ensures !IsMarkup((e + t)[i])
      {
        if i >= |e| {
          assert (e + t)[i] == t[i - |e|];
        }
      }
    }
  }

  /** The escaped text holds no '<', '>', '"' or "'". */
  lemma EscapeXmlClean(s: string)
    ensures forall i :: 0 <= i < |EscapeXml(s)| ==> !IsMarkup(EscapeXml(s)[i])
  {
    EscapeXmlOnePass(s);
    EscapeEachClean(s);
  }

  /** Text made of plain characters (no '&' and no markup) and the five entities. */
  predicate WellEscaped(s: string)
    decreases |s|
  {
    if s == [] then true
    else if s[0] == '&' then
      exists n :: 2 <= n <= 6 && n <= |s| && IsEntity(s[..n]) && WellEscaped(s[n..])
    else !IsMarkup(s[0]) && WellEscaped(s[1..])
  }

  predicate IsEntity(e: string) {
    e == "&amp;" || e == "&lt;" || e == "&gt;" || e == "&quot;" || e == "&apos;"
  }

  /** Every '&' of the escaped text starts one of the five entities. */
  lemma {:induction false} EscapeEachWell(s: string)
    ensures WellEscaped(EscapeEach(s))
    decreases |s|
  {
    if s != [] {
      EscapeEachWell(s[1..]);
      var e, t := EscapeChar(s[0]), EscapeEach(s[1..]);
      var r := e + t;
      assert r[|e|..] == t;
      if |e| > 1 {
        assert r[..|e|] == e;
        assert r[0] == '&';
        assert 2 <= |e| <= 6 && IsEntity(r[..|e|]) && WellEscaped(r[|e|..]);
      } else {
        assert r[1..] == t;
      }
    }
  }

  /** Every '&' that `escapeXml` leaves starts one of the five entities. */
  lemma EscapeXmlWell(s: string)
    ensures WellEscaped(EscapeXml(s))
  {
    EscapeXmlOnePass(s);
    EscapeEachWell(s);
  }

  /** Reading the entities back. */
  function Unescape(s: string): string
    decreases |s|
  {
    if s == [] then []
    else if |s| >= 5 && s[..5] == "&amp;" then ['&'] + Unescape(s[5..])
    else if |s| >= 4 && s[..4] == "&lt;" then ['<'] + Unescape(s[4..])
    else if |s| >= 4 && s[..4] == "&gt;" then ['>'] + Unescape(s[4..])
    else if |s| >= 6 && s[..6] == "&quot;" then ['"'] + Unescape(s[6..])
    else if |s| >= 6 && s[..6] == "&apos;" then ['\''] + Unescape(s[6..])
    else [s[0]] + Unescape(s[1..])
  }

  lemma UnescapeChar(c: char, t: string)
    ensures Unescape(EscapeChar(c) + t) == [c] + Unescape(t)
  {
    var e := EscapeChar(c);
    var r := e + t;
    assert r[|e|..] == t;
    assert r[..|e|] == e;
    if c == '&' {
    } else if c == '<' {
      assert |r| >= 5 ==> r[..5][1] == 'l';
    } else if c == '>' {
      assert |r| >= 5 ==> r[..5][1] == 'g';
      assert r[..4][1] == 'g';
    } else if c == '"' {
      assert |r| >= 5 ==> r[..5][1] == 'q';
      assert r[..4][1] == 'q';
    } else if c == '\'' {
      assert |r| >= 5 ==> r[..5][1] == 'a' && r[..5][2] == 'p';
      assert r[..4][1] == 'a';
      assert r[..6][1] == 'a' && r[..6][2] == 'p';
    } else {
      assert r[0] == c;
      assert forall n :: 1 <= n <= |r| ==> r[..n][0] == c;
    }
  }

  /** Unescaping the escaped text gives the text back. */
  lemma {:induction false} UnescapeEscape(s: string)
    ensures Unescape(EscapeXml(s)) == s
    decreases |s|
  {
    EscapeXmlOnePass(s);
    if s != [] {
      UnescapeEscape(s[1..]);
      EscapeXmlOnePass(s[1..]);
      UnescapeChar(s[0], EscapeEach(s[1..]));
      HeadTail(s);
    }
  }

  // ---------------------------------------------------------------- jsonToXml

  /** `Object.entries(null)` throws a TypeError, which ends the conversion. */
  datatype XmlError = NullEntries

  /** One text element one level below `indent`. */
  function TextElement(indent: string, key: string, text: string): string {
    indent + "    <" + key + ">" + EscapeXml(text) + "</" + key + ">\n"
  }

  /** The element written for a `null` value. */
  function EmptyElement(indent: string, key: string): string {
    indent + "    <" + key + "></" + key + ">\n"
  }

  function OpenTag(indent: string, name: string): string {
    indent + "<" + name + ">\n"
  }

  function CloseTag(indent: string, name: string): string {
    indent + "</" + name + ">\n"
  }

  /** `jsonToXml(v, name, indent)`. */
  function Element(v: Json, name: string, indent: string): Result<string, XmlError>
    decreases v, 3
  {
    match Entries(v)
    case None => Failure(NullEntries)
    case Some(entries) =>
      var body := Body(v, entries, |entries|, indent);
      if body.Failure? then body
      else Success(OpenTag(indent, name) + body.value + CloseTag(indent, name))
  }

  /** The entries loop of lines 499-515 over the first `n` entries. */
  function Body(v: Json, entries: seq<Member>, n: nat, indent: string): Result<string, XmlError>
    requires Entries(v) == Some(entries) && n <= |entries|
    decreases v, 2, n
  {
    if n == 0 then Success("")
    else
      var before := Body(v, entries, n - 1, indent);
      if before.Failure? then before
      else
        EntriesBelow(v, entries);
        var last := EntryXml(v, entries[n - 1], indent);
        if last.Failure? then last else Success(before.value + last.value)
  }

  /** What one entry of `v` adds. */
  function EntryXml(v: Json, e: Member, indent: string): Result<string, XmlError>
    requires e.value.Obj? || e.value.Arr? ==> e.value < v
    decreases v, 1
  {
    var value := e.value;
    if value.Null? then Success(EmptyElement(indent, e.key))
    else if value.Obj? then Element(value, e.key, indent + "    ")
    else if value.Arr? then Items(e.key, value, |value.items|, indent)
    else Success(TextElement(indent, e.key, JsString(value)))
  }

  /** The item loop of lines 505-511 over the first `n` items of `arr`. */
  function Items(key: string, arr: Json, n: nat, indent: string): Result<string, XmlError>
    requires arr.Arr? && n <= |arr.items|
    decreases arr, 0, n
  {
    if n == 0 then Success("")
    else
      var before := Items(key, arr, n - 1, indent);
      if before.Failure? then before
      else
        var item := arr.items[n - 1];
        var last := if IsObjectType(item) then Element(item, key, indent + "    ")
                    else Success(TextElement(indent, key, JsString(item)));
        if last.Failure? then last else Success(before.value + last.value)
  }

  /** `jsonToXml`, as the tool runs it: one loop over the entries, one over the items of an array entry. */
  method JsonToXml(obj: Json, rootName: string, indent: string) returns (r: Result<string, XmlError>)
    ensures r == Element(obj, rootName, indent)
    decreases obj, 1
  {
    var found := Entries(obj);
    if found.None? {
      return Failure(NullEntries);
    }
    var entries := found.value;
    EntriesBelow(obj, entries);
    var xml := OpenTag(indent, rootName);
    for i := 0 to |entries|
      invariant Body(obj, entries, i, indent).Success?
      invariant xml == OpenTag(indent, rootName) + Body(obj, entries, i, indent).value
    {
      BodyNext(obj, entries, i, indent);
      var key, value := entries[i].key, entries[i].value;
      var piece: string;
      if value.Null? {
        piece := indent + "    <" + key + "></" + key + ">\n";
      } else if value.Obj? {
        var sub := JsonToXml(value, key, indent + "    ");
        if sub.Failure? {
          BodyStays(obj, entries, i + 1, indent);
          return sub;
        }
        piece := sub.value;
      } else if value.Arr? {
        var sub := ItemsToXml(key, value, indent);
        if sub.Failure? {
          BodyStays(obj, entries, i + 1, indent);
          return sub;
        }
        piece := sub.value;
      } else {
        piece := indent + "    <" + key + ">" + EscapeXml(JsString(value)) + "</" + key + ">\n";
      }
      assert EntryXml(obj, entries[i], indent) == Success(piece);
      Associative(OpenTag(indent, rootName), Body(obj, entries, i, indent).value, piece);
      xml := xml + piece;
    }
    xml := xml + CloseTag(indent, rootName);
    return Success(xml);
  }

  /** The inner loop of lines 505-511, over the items of the array entry `arr`. */
  method ItemsToXml(key: string, arr: Json, indent: string) returns (r: Result<string, XmlError>)
    requires arr.Arr?
    ensures r == Items(key, arr, |arr.items|, indent)
    decreases arr, 0
  {
    var xml := "";
    for j := 0 to |arr.items|
      invariant Items(key, arr, j, indent) == Success(xml)
    {
      var item := arr.items[j];
      var piece: string;
      if IsObjectType(item) {
        var sub := JsonToXml(item, key, indent + "    ");
        if sub.Failure? {
          ItemsStay(key, arr, j + 1, indent);
          return sub;
        }
        piece := sub.value;
      } else {
        piece := indent + "    <" + key + ">" + EscapeXml(JsString(item)) + "</" + key + ">\n";
      }
      xml := xml + piece;
    }
    return Success(xml);
  }

  /** One more entry, after entries that threw nothing. */
  lemma BodyNext(v: Json, entries: seq<Member>, i: nat, indent: string)
    requires Entries(v) == Some(entries) && i < |entries|
    requires Body(v, entries, i, indent).Success?
    ensures var e := entries[i]; e.value.Obj? || e.value.Arr? ==> e.value < v
    ensures var last := EntryXml(v, entries[i], indent);
      Body(v, entries, i + 1, indent) == if last.Failure? then last else Success(Body(v, entries, i, indent).value + last.value)
  {
    EntriesBelow(v, entries);
  }

  /** Once thrown, the error ends the entries loop. */
  lemma {:induction false} BodyStays(v: Json, entries: seq<Member>, n: nat, indent: string)
    requires Entries(v) == Some(entries) && n <= |entries|
    requires Body(v, entries, n, indent).Failure?
    ensures Body(v, entries, |entries|, indent) == Body(v, entries, n, indent)
    decreases |entries| - n
  {
    if n < |entries| {
      BodyStays(v, entries, n + 1, indent);
    }
  }

  /** Once thrown, the error ends the item loop. */
  lemma {:induction false} ItemsStay(key: string, arr: Json, n: nat, indent: string)
    requires arr.Arr? && n <= |arr.items|
    requires Items(key, arr, n, indent).Failure?
    ensures Items(key, arr, |arr.items|, indent) == Items(key, arr, n, indent)
    decreases |arr.items| - n
  {
    if n < |arr.items| {
      ItemsStay(key, arr, n + 1, indent);
    }
  }

  // ---------------------------------------------------------------- when the conversion throws

  /**
   * The reference: the conversion reaches `Object.entries(null)` when `v` is
   * `null`, or an object entry throws, or an array entry holds an item that
   * `typeof` calls an object (`null` among them) which throws.
   */
  ghost predicate Throws(v: Json)
    decreases v, 1
  {
    match Entries(v)
    case None => true
    case Some(entries) =>
      EntriesBelow(v, entries);
      exists k :: 0 <= k < |entries| && EntryThrows(v, entries[k])
  }

  ghost predicate EntryThrows(v: Json, e: Member)
    requires e.value.Obj? || e.value.Arr? ==> e.value < v
    decreases v, 0
  {
    (e.value.Obj? && Throws(e.value))
    || (e.value.Arr? && exists j :: 0 <= j < |e.value.items| && ItemThrows(e.value.items[j]))
  }

  ghost predicate ItemThrows(item: Json)
    decreases item, 2
  {
    IsObjectType(item) && Throws(item)
  }

  /** The conversion succeeds exactly when it never meets `Object.entries(null)`. */
  lemma {:induction false} ElementSucceeds(v: Json, name: string, indent: string)
    ensures Element(v, name, indent).Success? <==> !Throws(v)
    decreases v, 3
  {
    match Entries(v)
    case None =>
    case Some(entries) =>
      EntriesBelow(v, entries);
      BodySucceeds(v, entries, |entries|, indent);
  }

  lemma {:induction false} BodySucceeds(v: Json, entries: seq<Member>, n: nat, indent: string)
    requires Entries(v) == Some(entries) && n <= |entries| && Inside(v, entries)
    ensures Body(v, entries, n, indent).Success? <==> !exists k :: 0 <= k < n && EntryThrows(v, entries[k])
    decreases v, 2, n
  {
    if n > 0 {
      BodySucceeds(v, entries, n - 1, indent);
      EntrySucceeds(v, entries[n - 1], indent);
      if Body(v, entries, n - 1, indent).Failure? {
        var k :| 0 <= k < n - 1 && EntryThrows(v, entries[k]);
        assert 0 <= k < n && EntryThrows(v, entries[k]);
      } else if EntryXml(v, entries[n - 1], indent).Failure? {
        assert EntryThrows(v, entries[n - 1]);
      } else {
        assert forall k :: 0 <= k < n - 1 ==> !EntryThrows(v, entries[k]);
        assert !EntryThrows(v, entries[n - 1]);
      }
    }
  }

  lemma {:induction false} EntrySucceeds(v: Json, e: Member, indent: string)
    requires e.value.Obj? || e.value.Arr? ==> e.value < v
    ensures EntryXml(v, e, indent).Success? <==> !EntryThrows(v, e)
    decreases v, 1
  {
    if e.value.Obj? {
      ElementSucceeds(e.value, e.key, indent + "    ");
    } else if e.value.Arr? {
      ItemsSucceed(e.key, e.value, |e.value.items|, indent);
    }
  }

  lemma {:induction false} ItemsSucceed(key: string, arr: Json, n: nat, indent: string)
    requires arr.Arr? && n <= |arr.items|
    ensures Items(key, arr, n, indent).Success? <==> !exists j :: 0 <= j < n && ItemThrows(arr.items[j])
    decreases arr, 0, n
  {
    if n > 0 {
      ItemsSucceed(key, arr, n - 1, indent);
      var item := arr.items[n - 1];
      if IsObjectType(item) {
        ElementSucceeds(item, key, indent + "    ");
      }
      if Items(key, arr, n - 1, indent).Failure? {
        var j :| 0 <= j < n - 1 && ItemThrows(arr.items[j]);
        assert 0 <= j < n && ItemThrows(arr.items[j]);
      } else if ItemThrows(item) {
        assert Items(key, arr, n, indent).Failure?;
      } else {
        assert forall j :: 0 <= j < n - 1 ==> !ItemThrows(arr.items[j]);
      }
    }
  }

  /** An array entry holding `null` throws, wherever it sits. */
  lemma NullItemThrows(v: Json, entries: seq<Member>, k: nat, j: nat, name: string, indent: string)
    requires Entries(v) == Some(entries) && k < |entries|
    requires entries[k].value.Arr? && j < |entries[k].value.items| && entries[k].value.items[j].Null?
    ensures Element(v, name, indent).Failure?
  {
    EntriesBelow(v, entries);
    assert ItemThrows(entries[k].value.items[j]);
    assert EntryThrows(v, entries[k]);
    ElementSucceeds(v, name, indent);
  }

  /** A `null` entry is written as an empty element and never throws. */
  lemma NullEntryWritten(v: Json, e: Member, indent: string)
    requires e.value.Null?
    ensures EntryXml(v, e, indent) == Success(EmptyElement(indent, e.key))
    ensures !EntryThrows(v, e)
  {
  }

  /** A boolean or a number at the root has no entries: only the root element is written. */
  lemma ScalarRoot(v: Json, name: string, indent: string)
    requires v.Bool? || v.Num?
    ensures Element(v, name, indent) == Success(OpenTag(indent, name) + CloseTag(indent, name))
  {
    assert Entries(v) == Some([]);
    assert Body(v, [], 0, indent) == Success("");
    assert OpenTag(indent, name) + "" + CloseTag(indent, name) == OpenTag(indent, name) + CloseTag(indent, name);
  }

  /** A successful conversion is framed by the root's opening and closing tags. */
  lemma ElementFramed(v: Json, name: string, indent: string)
    requires Element(v, name, indent).Success?
    ensures var x := Element(v, name, indent).value;
      OpenTag(indent, name) <= x && |x| >= |OpenTag(indent, name)| + |CloseTag(indent, name)|
      && x[|x| - |CloseTag(indent, name)|..] == CloseTag(indent, name)
  {
    var entries := Entries(v).value;
    var b := Body(v, entries, |entries|, indent).value;
    var x := OpenTag(indent, name) + b + CloseTag(indent, name);
    assert x[|x| - |CloseTag(indent, name)|..] == CloseTag(indent, name);
  }

  /** A text element holds its text escaped: free of markup, and read back by unescaping. */
  lemma TextElementContent(indent: string, key: string, text: string)
    ensures var t := EscapeXml(text);
      TextElement(indent, key, text) == indent + "    <" + key + ">" + t + "</" + key + ">\n"
      && (forall i :: 0 <= i < |t| ==> !IsMarkup(t[i])) && Unescape(t) == text
  {
    EscapeXmlClean(text);
    UnescapeEscape(text);
  }
}
