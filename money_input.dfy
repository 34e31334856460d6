/**
 * The filter on the amount field of the amount-in-words tool (the `input`
 * handler in js/money.js): it keeps digits and dots, merges everything after
 * the first dot, and cuts the decimals to two.
 */
module MoneyInput {
  import opened Text

  const Dot: char := '.'

  /** A character the regular expression `[\d.]` matches. */
  predicate IsNumeric(c: char) { IsDigit(c) || c == Dot }

  predicate AllNumeric(s: string) { forall i :: 0 <= i < |s| ==> IsNumeric(s[i]) }

  /** `value.replace(/[^\d.]/g, '')`. */
  function KeepNumeric(s: string): (r: string)
    ensures AllNumeric(r)
    decreases |s|
  {
    if s == [] then []
    else (if IsNumeric(s[0]) then [s[0]] else []) + KeepNumeric(s[1..])
  }

  /** The filter keeps every digit and dot, as many times as it occurs, and nothing else. */
  lemma {:induction false} KeepNumericCounts(s: string, c: char)
    ensures Count(KeepNumeric(s), c) == if IsNumeric(c) then Count(s, c) else 0
    decreases |s|
  {
    if s != [] {
      KeepNumericCounts(s[1..], c);
      CountConcat(if IsNumeric(s[0]) then [s[0]] else [], KeepNumeric(s[1..]), c);
    }
  }

  /** A string already made of digits and dots passes the filter unchanged. */
  lemma {:induction false} KeepNumericIdle(s: string)
    requires AllNumeric(s)
    ensures KeepNumeric(s) == s
    decreases |s|
  {
    if s != [] {
      KeepNumericIdle(s[1..]);
      HeadTail(s);
    }
  }

  /** At most one dot, and at most two characters after it. */
  predicate AtMostTwoDecimals(s: string) {
    var parts := Split(s, Dot);
    |parts| <= 2 && (|parts| == 2 ==> |parts[1]| <= 2)
  }

  /** What the handler leaves in the field, step by step as lines 243-252 do. */
  function Sanitized(value: string): (r: string)
    ensures AllNumeric(r) && Count(r, Dot) <= 1
  {
    SanitizedFacts(value);
    var v := KeepNumeric(value);
    var parts := Split(v, Dot);
    var v' := if |parts| > 2 then parts[0] + [Dot] + Concat(parts[1..]) else v;
    if |parts| == 2 && |parts[1]| > 2 then parts[0] + [Dot] + parts[1][..2] else v'
  }

  /** The `input` handler of the amount field: `value` in, the new field value out. */
  method SanitizeInput(target: string) returns (value: string)
    ensures value == Sanitized(target)
  {
    value := target;
    value := KeepNumeric(value);
    var parts := Split(value, Dot);
    if |parts| > 2 {
      value := parts[0] + [Dot] + Concat(parts[1..]);
    }
    if |parts| == 2 && |parts[1]| > 2 {
      value := parts[0] + [Dot] + parts[1][..2];
    }
  }

  // ---------------------------------------------------------------- why the result holds only digits and one dot

  lemma {:induction false} ConcatNumeric(parts: seq<string>)
    requires forall k :: 0 <= k < |parts| ==> AllNumeric(parts[k])
    ensures AllNumeric(Concat(parts))
    decreases |parts|
  {
    if parts != [] {
      ConcatNumeric(parts[1..]);
    }
  }

  lemma SplitNumeric(v: string)
    requires AllNumeric(v)
    ensures forall k :: 0 <= k < |Split(v, Dot)| ==> AllNumeric(Split(v, Dot)[k])
  {
    SplitChars(v, Dot);
    var parts := Split(v, Dot);
    forall k, i | 0 <= k < |parts| && 0 <= i < |parts[k]|
      ensures IsNumeric(parts[k][i])
    {
      assert parts[k][i] in v;
    }
  }

  /** `a + '.' + b` with no dot in `a` or `b` holds one dot and nothing but digits and dots. */
  lemma DottedFacts(a: string, b: string)
    requires AllNumeric(a) && AllNumeric(b) && Dot !in a && Dot !in b
    ensures AllNumeric(a + [Dot] + b) && Count(a + [Dot] + b, Dot) == 1
  {
    CountConcat(a, [Dot], Dot);
    CountConcat(a + [Dot], b, Dot);
    CountAbsent(a, Dot);
    CountAbsent(b, Dot);
  }

  lemma SanitizedFacts(value: string)
    ensures var v := KeepNumeric(value);
      var parts := Split(v, Dot);
      var v' := if |parts| > 2 then parts[0] + [Dot] + Concat(parts[1..]) else v;
      var r := if |parts| == 2 && |parts[1]| > 2 then parts[0] + [Dot] + parts[1][..2] else v';
      AllNumeric(r) && Count(r, Dot) <= 1
  {
    var v := KeepNumeric(value);
    var parts := Split(v, Dot);
    SplitNumeric(v);
    SplitCount(v, Dot);
    if |parts| > 2 {
      ConcatNumeric(parts[1..]);
      ConcatAbsent(parts[1..], Dot);
      DottedFacts(parts[0], Concat(parts[1..]));
    } else if |parts| == 2 && |parts[1]| > 2 {
      var d := parts[1][..2];
      assert forall x :: x in d ==> x in parts[1];
      DottedFacts(parts[0], d);
    }
  }

  // ---------------------------------------------------------------- the decimals

  /** `a + '.' + b` splits back into `a` and `b`. */
  lemma SplitDotted(a: string, b: string)
    requires Dot !in a && Dot !in b
    ensures Split(a + [Dot] + b, Dot) == [a, b]
  {
    SplitAround(a, b, Dot);
    SplitAbsent(b, Dot);
  }

  /**
   * When the filtered input holds at most one dot, at most two decimals
   * remain; the handler then changes nothing but what the filter and the cut
   * remove.
   */
  lemma SanitizedDecimals(value: string)
    requires Count(KeepNumeric(value), Dot) <= 1
    ensures AtMostTwoDecimals(Sanitized(value))
  {
    var v := KeepNumeric(value);
    var parts := Split(v, Dot);
    SplitCount(v, Dot);
    if |parts| == 2 && |parts[1]| > 2 {
      var d := parts[1][..2];
      assert forall x :: x in d ==> x in parts[1];
      SplitDotted(parts[0], d);
    }
  }

  /** A dot-free input keeps all its digits, in order. */
  lemma SanitizedWhole(value: string)
    requires Dot !in value
    ensures Sanitized(value) == KeepNumeric(value)
  {
    KeepNumericCounts(value, Dot);
    CountAbsent(value, Dot);
    SplitCount(KeepNumeric(value), Dot);
  }

  /**
   * With two dots or more the cut is skipped for every input: the handler
   * only removes the dots after the first, so no digit is lost.
   */
  lemma SanitizedManyDotsKeepsDigits(value: string, c: char)
    requires Count(KeepNumeric(value), Dot) >= 2 && IsDigit(c)
    ensures Count(Sanitized(value), c) == Count(value, c)
  {
    var v := KeepNumeric(value);
    var parts := Split(v, Dot);
    SplitCount(v, Dot);
    assert Sanitized(value) == parts[0] + [Dot] + Concat(parts[1..]);
    CountConcat(parts[0] + [Dot], Concat(parts[1..]), c);
    CountConcat(parts[0], [Dot], c);
    assert Concat(parts) == parts[0] + Concat(parts[1..]);
    CountConcat(parts[0], Concat(parts[1..]), c);
    CountJoin(parts, Dot, c);
    JoinSplit(v, Dot);
    KeepNumericCounts(value, c);
  }

  // ---------------------------------------------------------------- the decimals after more than one dot

  /**
   * As written, two dots or more are merged but the two-decimal cut is
   * decided on the parts before the merge, so it is skipped: "1.2.345"
   * stays at four decimals, and only the next input event cuts it to "1.23".
   */
  lemma SanitizedManyDots()
    ensures Sanitized("1.2.345") == "1.2345"
    ensures !AtMostTwoDecimals(Sanitized("1.2.345"))
    ensures Sanitized(Sanitized("1.2.345")) == "1.23"
  {
    SanitizedThreeParts();
    SanitizedFourDecimals();
  }

  lemma SplitThreeParts()
    ensures Split("1.2.345", Dot) == ["1", "2", "345"]
  {
    SplitAround("2", "345", Dot);
    SplitAbsent("345", Dot);
    SpelledThreeParts();
    SplitAround("1", "2.345", Dot);
  }

  lemma SpelledThreeParts()
    ensures "2.345" == "2" + [Dot] + "345"
    ensures "1.2.345" == "1" + [Dot] + "2.345"
  {
  }

  lemma SpelledMerged()
    ensures Concat(["2", "345"]) == "2345"
    ensures "1" + [Dot] + "2345" == "1.2345"
  {
    assert Concat(["345"]) == "345";
  }

  lemma SpelledCut()
    ensures "2345"[..2] == "23"
    ensures "1" + [Dot] + "23" == "1.23"
  {
  }

  lemma SanitizedThreeParts()
    ensures Sanitized("1.2.345") == "1.2345"
  {
    KeepNumericIdle("1.2.345");
    SplitThreeParts();
    var parts := ["1", "2", "345"];
    assert parts[1..] == ["2", "345"];
    SpelledMerged();
  }

  lemma SanitizedFourDecimals()
    ensures !AtMostTwoDecimals("1.2345")
    ensures Sanitized("1.2345") == "1.23"
  {
    SpelledMerged();
    KeepNumericIdle("1.2345");
    SplitDotted("1", "2345");
    SpelledCut();
  }

  /** The cut applied after the merge, as the comment on line 250 intends. */
  function SanitizedIntended(value: string): (r: string)
  {
    var v := KeepNumeric(value);
    var parts := Split(v, Dot);
    var v' := if |parts| > 2 then parts[0] + [Dot] + Concat(parts[1..]) else v;
    var parts' := Split(v', Dot);
    if |parts'| == 2 && |parts'[1]| > 2 then parts'[0] + [Dot] + parts'[1][..2] else v'
  }

  /** The merged value: one dot at most, with the original digits after it. */
  lemma MergedFacts(value: string)
    ensures var v := KeepNumeric(value);
      var parts := Split(v, Dot);
      var v' := if |parts| > 2 then parts[0] + [Dot] + Concat(parts[1..]) else v;
      AllNumeric(v') && Count(v', Dot) <= 1
  {
    var v := KeepNumeric(value);
    var parts := Split(v, Dot);
    SplitNumeric(v);
    SplitCount(v, Dot);
    if |parts| > 2 {
      ConcatNumeric(parts[1..]);
      ConcatAbsent(parts[1..], Dot);
      DottedFacts(parts[0], Concat(parts[1..]));
    }
  }

  /** With the cut moved after the merge, the field never holds more than two decimals. */
  lemma IntendedDecimals(value: string)
    ensures AllNumeric(SanitizedIntended(value))
    ensures AtMostTwoDecimals(SanitizedIntended(value))
  {
    MergedFacts(value);
    var v := KeepNumeric(value);
    var parts := Split(v, Dot);
    var v' := if |parts| > 2 then parts[0] + [Dot] + Concat(parts[1..]) else v;
    var parts' := Split(v', Dot);
    SplitCount(v', Dot);
    SplitNumeric(v');
    if |parts'| == 2 && |parts'[1]| > 2 {
      var d := parts'[1][..2];
      assert forall x :: x in d ==> x in parts'[1];
      SplitDotted(parts'[0], d);
      DottedFacts(parts'[0], d);
    }
  }

  /** The intended filter agrees with the written one whenever the input has at most one dot. */
  lemma IntendedAgrees(value: string)
    requires Count(KeepNumeric(value), Dot) <= 1
    ensures SanitizedIntended(value) == Sanitized(value)
  {
    SplitCount(KeepNumeric(value), Dot);
  }

  /** A field value the intended filter accepts is left as it is, so the filter is idempotent. */
  lemma IntendedIdle(value: string)
    requires AllNumeric(value) && AtMostTwoDecimals(value)
    ensures SanitizedIntended(value) == value
  {
    KeepNumericIdle(value);
  }

  lemma IntendedIdempotent(value: string)
    ensures SanitizedIntended(SanitizedIntended(value)) == SanitizedIntended(value)
  {
    IntendedDecimals(value);
    IntendedIdle(SanitizedIntended(value));
  }
}
