/**
 * String helpers shared by the tools: JavaScript's white-space class, `trim`,
 * white-space collapsing, ASCII case mapping, `split`/`join` on one
 * separator character, and decimal digit strings.
 */
module Text {

  /** The characters that JavaScript's `\s` and `String.prototype.trim` treat as white space. */
  predicate IsSpace(c: char) {
    || c == '\t' || c == '\n' || c == '\U{000B}' || c == '\U{000C}' || c == '\r' || c == ' '
    || c == '\U{00A0}' || c == '\U{1680}' || ('\U{2000}' <= c <= '\U{200A}')
    || c == '\U{2028}' || c == '\U{2029}' || c == '\U{202F}' || c == '\U{205F}'
    || c == '\U{3000}' || c == '\U{FEFF}'
  }

  predicate IsDigit(c: char) { '0' <= c <= '9' }
  predicate IsAsciiUpper(c: char) { 'A' <= c <= 'Z' }
  predicate IsAsciiLower(c: char) { 'a' <= c <= 'z' }
  predicate IsAscii(s: string) { forall i :: 0 <= i < |s| ==> s[i] < '\U{0080}' }
  predicate AllDigits(s: string) { forall i :: 0 <= i < |s| ==> IsDigit(s[i]) }

  function ToLowerChar(c: char): char { if IsAsciiUpper(c) then (c as int + 32) as char else c }
  function ToUpperChar(c: char): char { if IsAsciiLower(c) then (c as int - 32) as char else c }

  /** `toLowerCase` restricted to ASCII letters. */
  function ToLower(s: string): (r: string)
    ensures |r| == |s|
    ensures forall i :: 0 <= i < |s| ==> r[i] == ToLowerChar(s[i])
    ensures forall i :: 0 <= i < |r| ==> !IsAsciiUpper(r[i])
  {
    seq(|s|, i requires 0 <= i < |s| => ToLowerChar(s[i]))
  }

  /** Drops the leading white space of `s`. */
  function TrimStart(s: string): (r: string)
    ensures |r| <= |s| && r == s[|s| - |r|..]
    ensures forall i :: 0 <= i < |s| - |r| ==> IsSpace(s[i])
    ensures r == [] || !IsSpace(r[0])
  {
    if s != [] && IsSpace(s[0]) then TrimStart(s[1..]) else s
  }

  /** Drops the trailing white space of `s`. */
  function TrimEnd(s: string): (r: string)
    ensures |r| <= |s| && r == s[..|r|]
    ensures forall i :: |r| <= i < |s| ==> IsSpace(s[i])
    ensures r == [] || !IsSpace(r[|r| - 1])
  {
    if s != [] && IsSpace(s[|s| - 1]) then TrimEnd(s[..|s| - 1]) else s
  }

  /** `String.prototype.trim`. */
  function Trim(s: string): string {
    TrimEnd(TrimStart(s))
  }

  /** `s.replace(/\s+/g, ' ')`: every maximal run of white space becomes one space. */
  function Collapse(s: string): (r: string)
    ensures |r| <= |s|
    decreases |s|
  {
    if s == [] then []
    else if IsSpace(s[0]) then " " + Collapse(TrimStart(s))
    else [s[0]] + Collapse(s[1..])
  }

  /** No white space other than ' ', none at either end, never two in a row. */
  predicate Clean(s: string) {
    && (forall i :: 0 <= i < |s| && IsSpace(s[i]) ==> s[i] == ' ')
    && (s != [] ==> !IsSpace(s[0]) && !IsSpace(s[|s| - 1]))
    && (forall i :: 0 <= i < |s| - 1 ==> !(IsSpace(s[i]) && IsSpace(s[i + 1])))
  }

  /** The white space that `Collapse` leaves is single spaces, never two in a row. */
  lemma {:induction false} CollapseSpaces(s: string)
    ensures var r := Collapse(s);
      && (forall i :: 0 <= i < |r| && IsSpace(r[i]) ==> r[i] == ' ')
      && (forall i :: 0 <= i < |r| - 1 ==> !(IsSpace(r[i]) && IsSpace(r[i + 1])))
      && (r != [] ==> (IsSpace(r[0]) <==> IsSpace(s[0])))
    decreases |s|
  {
    if s == [] {
    } else if IsSpace(s[0]) {
      var t := TrimStart(s);
      CollapseSpaces(t);
      assert Collapse(s) == " " + Collapse(t);
    } else {
      CollapseSpaces(s[1..]);
      assert Collapse(s) == [s[0]] + Collapse(s[1..]);
    }
  }

  /** Trimming keeps a contiguous part, so it keeps the single-space property. */
  lemma TrimKeepsSpaces(s: string)
    requires forall i :: 0 <= i < |s| && IsSpace(s[i]) ==> s[i] == ' '
    requires forall i :: 0 <= i < |s| - 1 ==> !(IsSpace(s[i]) && IsSpace(s[i + 1]))
    ensures Clean(Trim(s))
  {
    var t := TrimStart(s);
    var r := TrimEnd(t);
    assert r == s[|s| - |t|..][..|r|];
    WindowKeepsSpaces(s, |s| - |t|, r);
    TrimEnds(s);
  }

  /** A trimmed string neither starts nor ends with white space. */
  lemma TrimEnds(s: string)
    ensures Trim(s) != [] ==> !IsSpace(Trim(s)[0]) && !IsSpace(Trim(s)[|Trim(s)| - 1])
  {
    var t := TrimStart(s);
    var r := TrimEnd(t);
    if r != [] {
      assert r[0] == t[0];
    }
  }

  /** A contiguous part of a string keeps its single-space property. */
  lemma WindowKeepsSpaces(s: string, off: nat, r: string)
    requires off + |r| <= |s| && r == s[off..off + |r|]
    requires forall i :: 0 <= i < |s| && IsSpace(s[i]) ==> s[i] == ' '
    requires forall i :: 0 <= i < |s| - 1 ==> !(IsSpace(s[i]) && IsSpace(s[i + 1]))
    ensures forall i :: 0 <= i < |r| && IsSpace(r[i]) ==> r[i] == ' '
    ensures forall i :: 0 <= i < |r| - 1 ==> !(IsSpace(r[i]) && IsSpace(r[i + 1]))
  {
    forall i | 0 <= i < |r| && IsSpace(r[i])
      ensures r[i] == ' '
    {
      assert r[i] == s[off + i];
    }
    forall i | 0 <= i < |r| - 1
      ensures !(IsSpace(r[i]) && IsSpace(r[i + 1]))
    {
      assert r[i] == s[off + i] && r[i + 1] == s[off + i + 1];
    }
  }

  /** `s.replace(/\s+/g, ' ').trim()` is clean. */
  lemma TrimCollapseClean(s: string)
    ensures Clean(Trim(Collapse(s)))
  {
    CollapseSpaces(s);
    TrimKeepsSpaces(Collapse(s));
  }

  /** A clean string is left alone by collapsing and then trimming. */
  lemma {:induction false} CollapseClean(s: string)
    requires forall i :: 0 <= i < |s| && IsSpace(s[i]) ==> s[i] == ' '
    requires forall i :: 0 <= i < |s| - 1 ==> !(IsSpace(s[i]) && IsSpace(s[i + 1]))
    ensures Collapse(s) == s
    decreases |s|
  {
    if s == [] {
    } else if IsSpace(s[0]) {
      assert |s| > 1 ==> !IsSpace(s[1]);
      assert TrimStart(s) == s[1..] by {
        assert TrimStart(s) == TrimStart(s[1..]);
      }
      CollapseClean(s[1..]);
      assert s == " " + s[1..];
    } else {
      CollapseClean(s[1..]);
      HeadTail(s);
    }
  }

  lemma TrimCollapseFixed(s: string)
    requires Clean(s)
    ensures Trim(Collapse(s)) == s
  {
    CollapseClean(s);
    assert TrimStart(s) == s;
    assert TrimEnd(s) == s;
  }

  lemma LowerKeepsClean(s: string)
    requires Clean(s)
    ensures Clean(ToLower(s))
  {
    var r := ToLower(s);
    assert forall i :: 0 <= i < |s| ==> (IsSpace(r[i]) <==> IsSpace(s[i])) && (IsSpace(s[i]) ==> r[i] == s[i]);
  }

  lemma LowerIdempotent(s: string)
    ensures ToLower(ToLower(s)) == ToLower(s)
  {
  }

  /** A non-empty sequence is its head before its tail. */
  lemma HeadTail<T>(s: seq<T>)
    requires s != []
    ensures s == [s[0]] + s[1..]
  {
  }

  /** Concatenation regroups freely; stated once so that loops need not re-derive it. */
  lemma Associative<T>(a: seq<T>, b: seq<T>, c: seq<T>)
    ensures (a + b) + c == a + (b + c)
  {
  }

  // ---------------------------------------------------------------- split / join

  /** `s.split(sep)` for a one-character separator: always at least one part. */
  function Split(s: string, sep: char): (parts: seq<string>)
    ensures |parts| >= 1
    ensures forall k :: 0 <= k < |parts| ==> sep !in parts[k]
    decreases |s|
  {
    if s == [] then [""]
    else if s[0] == sep then [""] + Split(s[1..], sep)
    else
      var rest := Split(s[1..], sep);
      [[s[0]] + rest[0]] + rest[1..]
  }

  /** `parts.join(sep)` for a one-character separator. */
  function Join(parts: seq<string>, sep: char): string
    decreases |parts|
  {
    if parts == [] then ""
    else if |parts| == 1 then parts[0]
    else parts[0] + [sep] + Join(parts[1..], sep)
  }

  /** `parts.join('')`. */
  function Concat(parts: seq<string>): string
    decreases |parts|
  {
    if parts == [] then "" else parts[0] + Concat(parts[1..])
  }

  function Count(s: string, c: char): nat
    decreases |s|
  {
    if s == [] then 0 else (if s[0] == c then 1 else 0) + Count(s[1..], c)
  }

  /** Joining the parts of a split gives back the string. */
  lemma {:induction false} JoinSplit(s: string, sep: char)
    ensures Join(Split(s, sep), sep) == s
    decreases |s|
  {
    if s == [] {
    } else if s[0] == sep {
      JoinSplit(s[1..], sep);
      assert s == [sep] + s[1..];
    } else {
      var rest := Split(s[1..], sep);
      JoinSplit(s[1..], sep);
      if |rest| == 1 {
        HeadTail(s);
      } else {
        assert Join(rest, sep) == rest[0] + [sep] + Join(rest[1..], sep);
        var r := [[s[0]] + rest[0]] + rest[1..];
        assert r[1..] == rest[1..];
        HeadTail(s);
      }
    }
  }

  /** There is one more part than there are separators. */
  lemma {:induction false} SplitCount(s: string, sep: char)
    ensures |Split(s, sep)| == Count(s, sep) + 1
    decreases |s|
  {
    if s != [] {
      SplitCount(s[1..], sep);
    }
  }

  lemma {:induction false} CountConcat(a: string, b: string, c: char)
    ensures Count(a + b, c) == Count(a, c) + Count(b, c)
    decreases |a|
  {
    if a == [] {
      assert a + b == b;
    } else {
      CountConcat(a[1..], b, c);
      assert (a + b)[1..] == a[1..] + b;
    }
  }

  /** Joining with a separator other than `c` adds no `c`. */
  lemma {:induction false} CountJoin(parts: seq<string>, sep: char, c: char)
    requires c != sep
    ensures Count(Join(parts, sep), c) == Count(Concat(parts), c)
    decreases |parts|
  {
    if |parts| == 1 {
      assert Concat(parts) == parts[0] + Concat(parts[1..]);
      assert parts[0] + Concat(parts[1..]) == parts[0];
    } else if |parts| > 1 {
      CountJoin(parts[1..], sep, c);
      CountConcat(parts[0] + [sep], Join(parts[1..], sep), c);
      CountConcat(parts[0], [sep], c);
      CountConcat(parts[0], Concat(parts[1..]), c);
    }
  }

  lemma {:induction false} CountAbsent(s: string, c: char)
    requires c !in s
    ensures Count(s, c) == 0
    decreases |s|
  {
    if s != [] {
      assert s[0] in s;
      assert forall x :: x in s[1..] ==> x in s;
      CountAbsent(s[1..], c);
    }
  }

  lemma {:induction false} CountPresent(s: string, c: char)
    requires c in s
    ensures Count(s, c) > 0
    decreases |s|
  {
    if s[0] != c {
      assert c in s[1..];
      CountPresent(s[1..], c);
    }
  }

  lemma {:induction false} ConcatAbsent(parts: seq<string>, c: char)
    requires forall k :: 0 <= k < |parts| ==> c !in parts[k]
    ensures c !in Concat(parts)
    decreases |parts|
  {
    if parts != [] {
      ConcatAbsent(parts[1..], c);
    }
  }

  lemma {:induction false} ConcatSnoc(parts: seq<string>, x: string)
    ensures Concat(parts + [x]) == Concat(parts) + x
    decreases |parts|
  {
    if parts == [] {
      assert parts + [x] == [x];
    } else {
      ConcatSnoc(parts[1..], x);
      assert (parts + [x])[1..] == parts[1..] + [x];
    }
  }

  /** Without the separator there is nothing to split. */
  lemma {:induction false} SplitAbsent(s: string, sep: char)
    requires sep !in s
    ensures Split(s, sep) == [s]
    decreases |s|
  {
    if s != [] {
      assert s[0] in s;
      assert forall x :: x in s[1..] ==> x in s;
      SplitAbsent(s[1..], sep);
      HeadTail(s);
    }
  }

  /** The part before the first separator comes first. */
  lemma {:induction false} SplitAround(a: string, b: string, sep: char)
    requires sep !in a
    ensures Split(a + [sep] + b, sep) == [a] + Split(b, sep)
    decreases |a|
  {
    if a == [] {
      assert a + [sep] + b == [sep] + b;
      assert ([sep] + b)[1..] == b;
    } else {
      assert a[0] in a;
      assert forall x :: x in a[1..] ==> x in a;
      SplitAround(a[1..], b, sep);
      assert (a + [sep] + b)[1..] == a[1..] + [sep] + b;
      assert [a[0]] + a[1..] == a;
    }
  }

  /** Every character of every part occurs in `s`. */
  predicate PartsFrom(parts: seq<string>, s: string) {
    forall k, i :: 0 <= k < |parts| && 0 <= i < |parts[k]| ==> parts[k][i] in s
  }

  /** Every character of every part comes from the string split. */
  lemma {:induction false} SplitChars(s: string, sep: char)
    ensures PartsFrom(Split(s, sep), s)
    decreases |s|
  {
    if s != [] {
      SplitChars(s[1..], sep);
      assert forall x :: x in s[1..] ==> x in s;
      if s[0] != sep {
        var rest := Split(s[1..], sep);
        var head := [s[0]] + rest[0];
        assert forall i :: 0 < i < |head| ==> head[i] == rest[0][i - 1];
      }
    }
  }

  // ---------------------------------------------------------------- decimal digits

  function DigitChar(d: nat): char
    requires d < 10
  {
    ('0' as int + d) as char
  }

  function DigitValue(c: char): nat
    requires IsDigit(c)
  {
    c as int - '0' as int
  }

  /** The value of a string of decimal digits. */
  function DigitsValue(s: string): nat
    requires AllDigits(s)
    decreases |s|
  {
    if s == [] then 0 else DigitsValue(s[..|s| - 1]) * 10 + DigitValue(s[|s| - 1])
  }

  /** `String(n)` for a natural number: digits, no leading zero, whose value is `n`. */
  function DecimalString(n: nat): (r: string)
    ensures r != [] && AllDigits(r)
    ensures r[0] == '0' ==> n == 0 && r == "0"
    ensures DigitsValue(r) == n
  {
    if n < 10 then [DigitChar(n)]
    else
      var p := DecimalString(n / 10);
      var r := p + [DigitChar(n % 10)];
      assert r[..|r| - 1] == p;
      r
  }

  /** `String(i)` for an integer. */
  function IntString(i: int): string {
    if i < 0 then "-" + DecimalString(-i) else DecimalString(i)
  }
}
