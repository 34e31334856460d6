/**
 * The amount-in-words tool (js/money.js): an amount of money written out in
 * Chinese capital numerals, as on a cheque, and the filter applied to the
 * amount field while the user types.
 *
 * The amount is taken as a whole number of fen (hundredths of a yuan); the
 * digit strings that `toFixed(2)` produces are built from it.
 */
module Money {
  import opened Text
  import opened Wrappers

  /** `chineseNumbers`: the capital numerals for 0 to 9. */
  const Numerals: string := "零壹贰叁肆伍陆柒捌玖"
  /** `chineseUnits`: ones, tens, hundreds, thousands within a group of four digits. */
  const Units: seq<string> := ["", "拾", "佰", "仟"]
  /** `chineseBigUnits`: the units of the groups of four digits. */
  const BigUnits: seq<string> := ["", "万", "亿"]

  const Zero: char := '零'
  const Yuan: char := '元'
  const Wan: char := '万'
  const Yi: char := '亿'
  const Jiao: char := '角'
  const FenUnit: char := '分'
  const Whole: char := '整'

  function Numeral(d: nat): (c: char)
    requires d < 10
    ensures c == Zero <==> d == 0
    ensures c != Yuan && c != Wan && c != Yi
  {
    Numerals[d]
  }

  /** `chineseUnits[k]`: at most one character, never 零. */
  function Unit(k: nat): (u: string)
    requires k < 4
    ensures |u| <= 1 && Zero !in u
  {
    Units[k]
  }

  /** No `x` immediately followed by `y` in `s`. */
  predicate NoPair(s: string, x: char, y: char) {
    forall i :: 0 <= i < |s| - 1 ==> !(s[i] == x && s[i + 1] == y)
  }

  lemma NoPairAppend(a: string, b: string, x: char, y: char)
    ensures NoPair(a + b, x, y)
      <==> NoPair(a, x, y) && NoPair(b, x, y) && !(a != [] && b != [] && a[|a| - 1] == x && b[0] == y)
  {
    var s := a + b;
    if NoPair(a, x, y) && NoPair(b, x, y) && !(a != [] && b != [] && a[|a| - 1] == x && b[0] == y) {
      forall i | 0 <= i < |s| - 1
        ensures !(s[i] == x && s[i + 1] == y)
      {
        if i + 1 < |a| {
          assert s[i] == a[i] && s[i + 1] == a[i + 1];
        } else if i >= |a| {
          assert s[i] == b[i - |a|] && s[i + 1] == b[i - |a| + 1];
        }
      }
    }
    if NoPair(s, x, y) {
      forall i | 0 <= i < |a| - 1
        ensures !(a[i] == x && a[i + 1] == y)
      {
        assert s[i] == a[i] && s[i + 1] == a[i + 1];
      }
      forall i | 0 <= i < |b| - 1
        ensures !(b[i] == x && b[i + 1] == y)
      {
        assert s[|a| + i] == b[i] && s[|a| + i + 1] == b[i + 1];
      }
      if a != [] && b != [] {
        assert s[|a| - 1] == a[|a| - 1] && s[|a|] == b[0];
      }
    }
  }

  /** No 零 at either end and never two in a row. */
  predicate ZeroTidy(s: string) {
    (s != [] ==> s[0] != Zero && s[|s| - 1] != Zero) && NoPair(s, Zero, Zero)
  }

  // ---------------------------------------------------------------- convertGroup

  /** `group.padStart(4, '0')`. */
  function Pad(group: string): (p: string)
    requires |group| <= 4 && AllDigits(group)
    ensures |p| == 4 && AllDigits(p) && p[4 - |group|..] == group
    ensures forall k :: 0 <= k < 4 - |group| ==> p[k] == '0'
  {
    seq(4 - |group|, _ => '0') + group
  }

  /**
   * The words for the first `i` of the four digits `p`: each non-zero digit
   * gives its numeral and its unit, preceded by one 零 when zeros separate it
   * from an earlier non-zero digit.
   */
  function GroupText(p: string, i: nat): string
    requires |p| == 4 && AllDigits(p) && i <= 4
  {
    if i == 0 then ""
    else
      var prev := GroupText(p, i - 1);
      var d := DigitValue(p[i - 1]);
      if d == 0 then prev
      else prev + (if i >= 2 && p[i - 2] == '0' && prev != "" then [Zero] else []) + Term(d, 4 - i)
  }

  /** A non-zero digit's numeral followed by the unit of its place. */
  function Term(d: nat, k: nat): (t: string)
    requires 0 < d < 10 && k < 4
    ensures t != [] && Zero !in t && t[0] == Numeral(d) && t[|t| - 1] != Zero
  {
    [Numeral(d)] + Unit(k)
  }

  /** The words `convertGroup` gives a group of at most four digits. */
  function GroupWords(group: string): string
    requires |group| <= 4 && AllDigits(group)
  {
    GroupText(Pad(group), 4)
  }

  /** `p.slice(i).split('').some(d => d !== '0')`. */
  predicate NonZeroFrom(p: string, i: nat) {
    exists k :: i <= k < |p| && p[k] != '0'
  }

  /** The groups `convertGroup` answers '' without looking at the digits. */
  predicate BlankGroup(group: string) {
    group == "" || group == "0" || group == "0000"
  }

  lemma BlankGroupWords(group: string)
    requires |group| <= 4 && AllDigits(group) && BlankGroup(group)
    ensures GroupWords(group) == ""
  {
    GroupTextEmpty(Pad(group), 4);
  }

  /** `result.endsWith('零')`. */
  predicate EndsWithZero(s: string) {
    s != [] && s[|s| - 1] == Zero
  }

  /** What holds of `result` and `needZero` before digit `i` of `convertGroup`'s loop. */
  predicate GroupState(p: string, i: nat, result: string, needZero: bool)
    requires |p| == 4 && AllDigits(p) && i <= 4
  {
    && result == GroupText(p, i)
    && !EndsWithZero(result)
    && (needZero ==> result != [] && i > 0 && p[i - 1] == '0')
    && (result != [] && i > 0 && p[i - 1] == '0' && NonZeroFrom(p, i) ==> needZero)
  }

  /** `convertGroup`: one pass over the padded digits with the `needZero` flag. */
  method ConvertGroup(group: string) returns (result: string)
    requires |group| <= 4 && AllDigits(group)
    ensures result == GroupWords(group)
  {
    if BlankGroup(group) {
      BlankGroupWords(group);
      return "";
    }
    var paddedGroup := Pad(group);
    result := "";
    var needZero := false;
    for i := 0 to 4
      invariant GroupState(paddedGroup, i, result, needZero)
    {
      var digit := DigitValue(paddedGroup[i]);
      var unitIndex := 3 - i;
      if digit != 0 {
        NonZeroStep(paddedGroup, i, result, needZero);
        if needZero && result != [] && !EndsWithZero(result) {
          result := result + [Zero];
        }
        needZero := false;
        result := result + Term(digit, unitIndex);
      } else {
        ZeroStep(paddedGroup, i, result, needZero);
        if i < 3 {
          var hasNonZeroAfter := NonZeroFrom(paddedGroup, i + 1);
          if hasNonZeroAfter && result != [] {
            needZero := true;
          }
        }
      }
    }
  }

  /** A non-zero digit: the pending 零, if any, then its numeral and unit. */
  lemma NonZeroStep(p: string, i: nat, result: string, needZero: bool)
    requires |p| == 4 && AllDigits(p) && i < 4 && p[i] != '0'
    requires GroupState(p, i, result, needZero)
    ensures GroupState(p, i + 1,
      result + (if needZero && result != [] && !EndsWithZero(result) then [Zero] else []) + Term(DigitValue(p[i]), 3 - i),
      false)
  {
    GroupTextStep(p, i);
    assert NonZeroFrom(p, i);
  }

  /** A zero digit: nothing written; a 零 becomes due when a non-zero digit follows. */
  lemma ZeroStep(p: string, i: nat, result: string, needZero: bool)
    requires |p| == 4 && AllDigits(p) && i < 4 && p[i] == '0'
    requires GroupState(p, i, result, needZero)
    ensures GroupState(p, i + 1, result, if i < 3 && NonZeroFrom(p, i + 1) && result != [] then true else needZero)
  {
    GroupTextStep(p, i);
    assert NonZeroFrom(p, i) ==> NonZeroFrom(p, i + 1);
  }

  lemma GroupTextStep(p: string, i: nat)
    requires |p| == 4 && AllDigits(p) && i < 4
    ensures var prev, d := GroupText(p, i), DigitValue(p[i]);
      GroupText(p, i + 1)
      == if d == 0 then prev
         else prev + (if i >= 1 && p[i - 1] == '0' && prev != "" then [Zero] else []) + Term(d, 3 - i)
  {
  }

  /** The words are empty exactly when the digits so far are all zero. */
  lemma {:induction false} GroupTextEmpty(p: string, i: nat)
    requires |p| == 4 && AllDigits(p) && i <= 4
    ensures GroupText(p, i) == "" <==> forall k :: 0 <= k < i ==> p[k] == '0'
  {
    if i > 0 {
      GroupTextEmpty(p, i - 1);
    }
  }

  /** `convertGroup` returns '' exactly for a group of zeros. */
  lemma GroupWordsEmpty(group: string)
    requires |group| <= 4 && AllDigits(group)
    ensures GroupWords(group) == "" <==> forall k :: 0 <= k < |group| ==> group[k] == '0'
  {
    var p := Pad(group);
    GroupTextEmpty(p, 4);
    assert forall k :: 0 <= k < |group| ==> group[k] == p[4 - |group| + k];
  }

  /** The words never start or end with 零 and never hold two 零 in a row. */
  lemma {:induction false} GroupTextTidy(p: string, i: nat)
    requires |p| == 4 && AllDigits(p) && i <= 4
    ensures ZeroTidy(GroupText(p, i))
  {
    if i > 0 {
      GroupTextTidy(p, i - 1);
      GroupTextStep(p, i - 1);
      var prev := GroupText(p, i - 1);
      var d := DigitValue(p[i - 1]);
      if d != 0 {
        var z: string := if i >= 2 && p[i - 2] == '0' && prev != "" then [Zero] else [];
        PieceTidy(prev, z, Term(d, 4 - i));
      }
    }
  }

  /** Appending a term, with a 零 only after something, keeps the words tidy. */
  lemma PieceTidy(prev: string, z: string, t: string)
    requires ZeroTidy(prev) && t != [] && Zero !in t
    requires z == [] || (z == [Zero] && prev != [])
    ensures ZeroTidy(prev + z + t)
  {
    assert NoPair(t, Zero, Zero);
    NoPairAppend(z, t, Zero, Zero);
    NoPairAppend(prev, z + t, Zero, Zero);
    assert prev + z + t == prev + (z + t);
    assert t[|t| - 1] in t;
  }

  /** `s` with every `c` removed. */
  function Without(s: string, c: char): (r: string)
    decreases |s|
  {
    if s == [] then [] else (if s[0] == c then [] else [s[0]]) + Without(s[1..], c)
  }

  lemma {:induction false} WithoutAppend(a: string, b: string, c: char)
    ensures Without(a + b, c) == Without(a, c) + Without(b, c)
    decreases |a|
  {
    if a == [] {
      assert a + b == b;
    } else {
      var ab, h := a + b, if a[0] == c then [] else [a[0]];
      WithoutAppend(a[1..], b, c);
      assert ab[0] == a[0] && ab[1..] == a[1..] + b;
      calc {
        Without(ab, c);
        h + Without(a[1..] + b, c);
        h + (Without(a[1..], c) + Without(b, c));
        (h + Without(a[1..], c)) + Without(b, c);
        Without(a, c) + Without(b, c);
      }
    }
  }

  lemma {:induction false} WithoutAbsent(s: string, c: char)
    requires c !in s
    ensures Without(s, c) == s
    decreases |s|
  {
    if s != [] {
      assert s[0] in s;
      assert forall x :: x in s[1..] ==> x in s;
      WithoutAbsent(s[1..], c);
      HeadTail(s);
    }
  }

  lemma {:induction false} WithoutRemoves(s: string, c: char)
    ensures c !in Without(s, c)
    decreases |s|
  {
    if s != [] {
      WithoutRemoves(s[1..], c);
    }
  }

  /** Numeral and unit of each non-zero digit among the first `i`, left to right. */
  function Terms(p: string, i: nat): string
    requires |p| == 4 && AllDigits(p) && i <= 4
  {
    if i == 0 then ""
    else
      var d := DigitValue(p[i - 1]);
      Terms(p, i - 1) + (if d == 0 then [] else Term(d, 4 - i))
  }

  /** Apart from the 零s, the words are the numerals and units of the non-zero digits in order. */
  lemma {:induction false} GroupTextTerms(p: string, i: nat)
    requires |p| == 4 && AllDigits(p) && i <= 4
    ensures Without(GroupText(p, i), Zero) == Terms(p, i)
  {
    if i > 0 {
      GroupTextTerms(p, i - 1);
      GroupTextStep(p, i - 1);
      var prev := GroupText(p, i - 1);
      var d := DigitValue(p[i - 1]);
      if d != 0 {
        var z: string := if i >= 2 && p[i - 2] == '0' && prev != "" then [Zero] else [];
        PieceWithout(prev, z, Term(d, 4 - i));
      }
    }
  }

  lemma PieceWithout(prev: string, z: string, t: string)
    requires z == [] || z == [Zero]
    requires Zero !in t
    ensures Without(prev + z + t, Zero) == Without(prev, Zero) + t
  {
    WithoutAppend(prev + z, t, Zero);
    WithoutAppend(prev, z, Zero);
    WithoutAbsent(t, Zero);
  }

  /** A zero digit with non-zero digits on both sides among the first `i`. */
  predicate HasGap(p: string, i: nat)
    requires i <= |p|
  {
    exists a, b, c :: 0 <= a < b < c < i && p[a] != '0' && p[b] == '0' && p[c] != '0'
  }

  /** A 零 is written exactly when zeros stand between two non-zero digits. */
  lemma {:induction false} GroupTextZero(p: string, i: nat)
    requires |p| == 4 && AllDigits(p) && i <= 4
    ensures Zero in GroupText(p, i) <==> HasGap(p, i)
  {
    if i > 0 {
      GroupTextZero(p, i - 1);
      if DigitValue(p[i - 1]) == 0 {
        assert GroupText(p, i) == GroupText(p, i - 1) by {
          GroupTextStep(p, i - 1);
        }
        GapIdle(p, i);
      } else {
        ZeroStepTerm(p, i);
      }
    }
  }

  /** The step of `GroupTextZero` for a non-zero digit. */
  lemma ZeroStepTerm(p: string, i: nat)
    requires |p| == 4 && AllDigits(p) && 0 < i <= 4 && DigitValue(p[i - 1]) != 0
    requires Zero in GroupText(p, i - 1) <==> HasGap(p, i - 1)
    ensures Zero in GroupText(p, i) <==> HasGap(p, i)
  {
    var prev := GroupText(p, i - 1);
    var d := DigitValue(p[i - 1]);
    var z: string := if i >= 2 && p[i - 2] == '0' && prev != "" then [Zero] else [];
    var t := Term(d, 4 - i);
    assert GroupText(p, i) == prev + z + t by {
      GroupTextStep(p, i - 1);
    }
    assert Zero in prev + z + t <==> Zero in prev || z != [] by {
      ZeroInPiece(prev, z, t);
    }
    assert prev != "" <==> exists k :: 0 <= k < i - 1 && p[k] != '0' by {
      GroupTextEmpty(p, i - 1);
    }
    GapTerm(p, i, prev != "");
  }

  /** A zero digit closes no gap. */
  lemma GapIdle(p: string, i: nat)
    requires 0 < i <= |p| && p[i - 1] == '0'
    ensures HasGap(p, i) <==> HasGap(p, i - 1)
  {
    if HasGap(p, i) {
      var a, b, c :| 0 <= a < b < c < i && p[a] != '0' && p[b] == '0' && p[c] != '0';
      assert c < i - 1;
    }
  }

  /** A non-zero digit closes a gap when zeros stand just before it and a non-zero digit before those. */
  lemma GapTerm(p: string, i: nat, seen: bool)
    requires 0 < i <= |p| && p[i - 1] != '0'
    requires seen <==> exists k :: 0 <= k < i - 1 && p[k] != '0'
    ensures HasGap(p, i) <==> HasGap(p, i - 1) || (i >= 2 && p[i - 2] == '0' && seen)
  {
    if i >= 2 && p[i - 2] == '0' && seen {
      var a :| 0 <= a < i - 1 && p[a] != '0';
      assert a < i - 2;
      assert HasGap(p, i);
    }
    if HasGap(p, i) && !HasGap(p, i - 1) {
      var a, b, c :| 0 <= a < b < c < i && p[a] != '0' && p[b] == '0' && p[c] != '0';
      assert c == i - 1;
      GapOrZero(p, i - 1, a, b);
    }
  }

  /** A non-zero digit and then a zero before position `m - 1` leave a zero at `m - 1`, or a gap already closed by it. */
  lemma GapOrZero(p: string, m: nat, a: nat, b: nat)
    requires a < b < m <= |p| && p[a] != '0' && p[b] == '0'
    ensures p[m - 1] == '0' || HasGap(p, m)
  {
    if p[m - 1] != '0' {
      assert b < m - 1;
    }
  }

  lemma ZeroInPiece(prev: string, z: string, t: string)
    requires Zero !in t && (z == [] || z == [Zero])
    ensures Zero in prev + z + t <==> Zero in prev || z != []
  {
    if z != [] {
      assert (prev + z + t)[|prev|] == Zero;
    }
  }

  // ---------------------------------------------------------------- groups of four digits

  /** The groups of four digits, counted from the right; the first may be shorter. */
  function Groups(s: string): (gs: seq<string>)
    ensures forall k :: 0 <= k < |gs| ==> 1 <= |gs[k]| <= 4
    ensures forall k :: 0 < k < |gs| ==> |gs[k]| == 4
    ensures AllDigits(s) ==> forall k :: 0 <= k < |gs| ==> AllDigits(gs[k])
    decreases |s|
  {
    if s == [] then []
    else if |s| <= 4 then [s]
    else
      var rest, last := Groups(s[..|s| - 4]), s[|s| - 4..];
      assert forall k :: 0 <= k < |rest| ==> (rest + [last])[k] == rest[k];
      assert (rest + [last])[|rest|] == last;
      rest + [last]
  }

  /** The groups put back together are the digits. */
  lemma {:induction false} GroupsConcat(s: string)
    ensures Concat(Groups(s)) == s
    decreases |s|
  {
    if |s| > 4 {
      GroupsConcat(s[..|s| - 4]);
      ConcatSnoc(Groups(s[..|s| - 4]), s[|s| - 4..]);
      assert s == s[..|s| - 4] + s[|s| - 4..];
    } else if s != [] {
      assert Concat([s]) == s + Concat([]);
    }
  }

  /** The grouping loop of `convertToChineseMoney`, which `unshift`s each slice. */
  method SplitGroups(integerStr: string) returns (groups: seq<string>)
    ensures groups == Groups(integerStr)
  {
    groups := [];
    var i: int := |integerStr|;
    assert integerStr[..i] == integerStr;
    while i > 0
      invariant i <= |integerStr|
      invariant Groups(integerStr[..if i > 0 then i else 0]) + groups == Groups(integerStr)
      decreases i
    {
      var start := if i - 4 > 0 then i - 4 else 0;
      var prefix := integerStr[..i];
      assert i > 4 ==> prefix[..|prefix| - 4] == integerStr[..i - 4] && prefix[|prefix| - 4..] == integerStr[start..i];
      groups := [integerStr[start..i]] + groups;
      i := i - 4;
    }
    assert integerStr[..0] == [];
  }

  // ---------------------------------------------------------------- the integer part

  predicate ValidGroups(gs: seq<string>) {
    forall k :: 0 <= k < |gs| ==> |gs[k]| <= 4 && AllDigits(gs[k])
  }

  /** `chineseBigUnits[k]` where the source appends it (0 < k < 3), else nothing. */
  function BigUnit(k: int): (u: string)
    ensures u == "" || u == "万" || u == "亿"
  {
    if 0 < k < |BigUnits| then BigUnits[k] else ""
  }

  /**
   * What group `i` adds: its words and the unit of its place, or, for an
   * all-zero group strictly between the first and the last, one 零.
   */
  function GroupPiece(gs: seq<string>, i: nat): string
    requires ValidGroups(gs) && i < |gs|
  {
    var w := GroupWords(gs[i]);
    if w != "" then w + BigUnit(|gs| - 1 - i)
    else if 0 < i < |gs| - 1 then [Zero]
    else []
  }

  /** The pieces of the first `i` groups, left to right. */
  function Assembled(gs: seq<string>, i: nat): string
    requires ValidGroups(gs) && i <= |gs|
  {
    if i == 0 then "" else Assembled(gs, i - 1) + GroupPiece(gs, i - 1)
  }

  /** The integer part before clean-up: '零' for "0", otherwise the groups' pieces and 元. */
  function IntegerWords(integerPart: string): string
    requires AllDigits(integerPart)
  {
    if IsZeroString(integerPart) then [Zero]
    else
      var gs := Groups(integerPart);
      Assembled(gs, |gs|) + [Yuan]
  }

  predicate IsZeroString(s: string) {
    s == "0"
  }

  /** The 角 and 分 part: '整' for "00", otherwise the non-zero places, '整' after 角 alone. */
  function DecimalWords(decimalPart: string): string
    requires |decimalPart| == 2 && AllDigits(decimalPart)
  {
    if IsDoubleZero(decimalPart) then [Whole]
    else
      var jiao, fen := DigitValue(decimalPart[0]), DigitValue(decimalPart[1]);
      JiaoWords(jiao) + FenWords(jiao, fen)
  }

  predicate IsDoubleZero(s: string) {
    s == "00"
  }

  function JiaoWords(jiao: nat): string
    requires jiao < 10
  {
    if jiao != 0 then [Numeral(jiao), Jiao] else []
  }

  function FenWords(jiao: nat, fen: nat): string
    requires jiao < 10 && fen < 10
  {
    if fen != 0 then [Numeral(fen), FenUnit] else if jiao != 0 then [Whole] else []
  }

  // ---------------------------------------------------------------- the clean-up

  /** The leading 零s of `s` removed. */
  function DropZeros(s: string): (r: string)
    ensures |r| <= |s| && r == s[|s| - |r|..]
    ensures r == [] || r[0] != Zero
    ensures s != [] && s[0] == Zero ==> |r| < |s|
    decreases |s|
  {
    if s != [] && s[0] == Zero then DropZeros(s[1..]) else s
  }

  /** `s.replace(/零+/g, '零')`: every run of 零 becomes one. */
  function CollapseZeros(s: string): string
    decreases |s|
  {
    if s == [] then []
    else if s[0] == Zero then [Zero] + CollapseZeros(DropZeros(s))
    else [s[0]] + CollapseZeros(s[1..])
  }

  /**
   * `s.replace(/零([U])/g, '$1')` for a set `U` of characters: scanning from
   * the left, a 零 directly before a character of `U` is dropped.
   */
  function DropZeroBefore(s: string, units: set<char>): string
    decreases |s|
  {
    if s == [] then []
    else if |s| >= 2 && s[0] == Zero && s[1] in units then [s[1]] + DropZeroBefore(s[2..], units)
    else [s[0]] + DropZeroBefore(s[1..], units)
  }

  /** `s` starts with one or more 零 and then 元. */
  predicate RunThenYuan(s: string)
    decreases |s|
  {
    |s| >= 2 && s[0] == Zero && (s[1] == Yuan || RunThenYuan(s[1..]))
  }

  /** `s.replace(/零+元/g, '元')`: every 零 of a run that ends at a 元 is dropped. */
  function DropZeroRunBeforeYuan(s: string): string
    decreases |s|
  {
    if s == [] then []
    else if RunThenYuan(s) then DropZeroRunBeforeYuan(s[1..])
    else [s[0]] + DropZeroRunBeforeYuan(s[1..])
  }

  /** The first three rewrites, in the source's order. */
  function Rewritten(s: string): string {
    DropZeroBefore(DropZeroBefore(CollapseZeros(s), {Yuan}), {Wan, Yi})
  }

  /** The four rewrites of lines 94-99. */
  function Cleanup(s: string): string {
    DropZeroRunBeforeYuan(Rewritten(s))
  }

  // ---------------------------------------------------------------- convertToChineseMoney

  /** The parsed amount: not a number, or a whole number of fen (0.01 yuan). */
  datatype Amount = NotANumber | Fen(count: int)

  /** The three errors the converter throws. */
  datatype MoneyError = InvalidNumber | NegativeAmount | AmountTooLarge

  /** 999999999999.99 yuan, in fen. */
  const MaxFen: int := 99999999999999

  /** `num.toFixed(2).split('.')[0]`. */
  function IntegerPartOf(fen: nat): (s: string)
    ensures AllDigits(s)
  {
    DecimalString(fen / 100)
  }

  /** `num.toFixed(2).split('.')[1]`. */
  function DecimalPartOf(fen: nat): (s: string)
    ensures |s| == 2 && AllDigits(s)
  {
    [DigitChar(fen % 100 / 10), DigitChar(fen % 10)]
  }

  /** The amount in words: the errors, '零元整' for zero, else the cleaned-up words. */
  function ChineseMoney(amount: Amount): (r: Result<string, MoneyError>)
    ensures r == Failure(InvalidNumber) <==> amount.NotANumber?
    ensures r == Failure(NegativeAmount) <==> amount.Fen? && amount.count < 0
    ensures r == Failure(AmountTooLarge) <==> amount.Fen? && amount.count > MaxFen
    ensures r.Success? <==> amount.Fen? && 0 <= amount.count <= MaxFen
    ensures amount == Fen(0) ==> r == Success("零元整")
  {
    match amount
    case NotANumber => Failure(InvalidNumber)
    case Fen(num) =>
      if num < 0 then Failure(NegativeAmount)
      else if num > MaxFen then Failure(AmountTooLarge)
      else if num == 0 then Success("零元整")
      else Success(Cleanup(IntegerWords(IntegerPartOf(num)) + DecimalWords(DecimalPartOf(num))))
  }

  /** `convertToChineseMoney`, with the thrown errors as `Failure`. */
  method ConvertToChineseMoney(amount: Amount) returns (r: Result<string, MoneyError>)
    ensures r == ChineseMoney(amount)
  {
    if amount.NotANumber? {
      return Failure(InvalidNumber);
    }
    var num := amount.count;
    if num < 0 {
      return Failure(NegativeAmount);
    }
    if num > MaxFen {
      return Failure(AmountTooLarge);
    }
    if num == 0 {
      return Success("零元整");
    }
    var integerPart := IntegerPartOf(num);
    var decimalPart := DecimalPartOf(num);
    var result := IntegerPartWords(integerPart);
    var decimals := DecimalPartWords(decimalPart);
    result := result + decimals;
    result := CollapseZeros(result);
    result := DropZeroBefore(result, {Yuan});
    result := DropZeroBefore(result, {Wan, Yi});
    result := DropZeroRunBeforeYuan(result);
    return Success(result);
  }

  /** Lines 75-92 of `convertToChineseMoney`: 整 for no decimals, else the 角 and 分 words. */
  method DecimalPartWords(decimalPart: string) returns (result: string)
    requires |decimalPart| == 2 && AllDigits(decimalPart)
    ensures result == DecimalWords(decimalPart)
  {
    result := [];
    if IsDoubleZero(decimalPart) {
      result := result + [Whole];
    } else {
      var jiao := DigitValue(decimalPart[0]);
      var fen := DigitValue(decimalPart[1]);
      if jiao != 0 {
        result := result + [Numeral(jiao), Jiao];
      }
      if fen != 0 {
        result := result + [Numeral(fen), FenUnit];
      } else if jiao != 0 {
        result := result + [Whole];
      }
      assert result == JiaoWords(jiao) + FenWords(jiao, fen);
    }
  }

  /** Lines 39-73 of `convertToChineseMoney`: the integer part, group by group. */
  method IntegerPartWords(integerPart: string) returns (result: string)
    requires AllDigits(integerPart)
    ensures result == IntegerWords(integerPart)
  {
    if IsZeroString(integerPart) {
      return [Zero];
    }
    result := "";
    var groups := SplitGroups(integerPart);
    for i := 0 to |groups|
      invariant result == Assembled(groups, i)
    {
      result := AppendGroup(result, groups, i);
    }
    result := result + [Yuan];
  }

  /** One pass of the group loop: the group's words and big unit, or a 零 for an empty middle group. */
  method AppendGroup(before: string, groups: seq<string>, i: nat) returns (result: string)
    requires ValidGroups(groups) && i < |groups|
    ensures result == before + GroupPiece(groups, i)
  {
    result := before;
    var group := groups[i];
    var groupResult := ConvertGroup(group);
    if groupResult != "" {
      result := result + groupResult;
      var bigUnitIndex := |groups| - 1 - i;
      if bigUnitIndex > 0 && bigUnitIndex < |BigUnits| {
        result := result + BigUnits[bigUnitIndex];
      }
      assert result == before + (groupResult + BigUnit(bigUnitIndex));
    } else if i > 0 && i < |groups| - 1 {
      result := result + [Zero];
    }
  }

  // ---------------------------------------------------------------- what the clean-up guarantees

  lemma NoPairCons(c: char, t: string, x: char, y: char)
    ensures NoPair([c] + t, x, y) <==> NoPair(t, x, y) && !(t != [] && c == x && t[0] == y)
  {
    NoPairAppend([c], t, x, y);
  }

  lemma NoPairDrop(s: string, k: nat, x: char, y: char)
    requires NoPair(s, x, y) && k <= |s|
    ensures NoPair(s[k..], x, y)
  {
    assert forall i :: 0 <= i < |s| - k - 1 ==> s[k..][i] == s[k + i];
  }

  /** After `/零+/g`, no two 零 stand together. */
  lemma {:induction false} CollapseZerosSingle(s: string)
    ensures NoPair(CollapseZeros(s), Zero, Zero)
    decreases |s|
  {
    if s != [] {
      if s[0] == Zero {
        var t := DropZeros(s);
        CollapseZerosSingle(t);
        NoPairCons(Zero, CollapseZeros(t), Zero, Zero);
      } else {
        CollapseZerosSingle(s[1..]);
        NoPairCons(s[0], CollapseZeros(s[1..]), Zero, Zero);
      }
    }
  }

  /** Dropping a 零 before a character of `units` keeps a pair `零y` absent for `y` outside `units`. */
  lemma {:induction false} DropZeroBeforeKeeps(s: string, units: set<char>, y: char)
    requires Zero !in units && y !in units
    requires NoPair(s, Zero, Zero) && NoPair(s, Zero, y)
    ensures NoPair(DropZeroBefore(s, units), Zero, y)
    decreases |s|
  {
    if s != [] {
      if |s| >= 2 && s[0] == Zero && s[1] in units {
        NoPairDrop(s, 2, Zero, Zero);
        NoPairDrop(s, 2, Zero, y);
        DropZeroBeforeKeeps(s[2..], units, y);
        NoPairCons(s[1], DropZeroBefore(s[2..], units), Zero, y);
      } else {
        NoPairDrop(s, 1, Zero, Zero);
        NoPairDrop(s, 1, Zero, y);
        DropZeroBeforeKeeps(s[1..], units, y);
        NoPairCons(s[0], DropZeroBefore(s[1..], units), Zero, y);
        if |s| >= 2 && s[0] == Zero {
          assert s[1] != Zero;
          assert s[1..][0] == s[1];
        }
      }
    }
  }

  /** Dropping a 零 before a character `x` of `units` leaves no pair `零x`. */
  lemma {:induction false} DropZeroBeforeClears(s: string, units: set<char>, x: char)
    requires Zero !in units && x in units
    requires NoPair(s, Zero, Zero)
    ensures NoPair(DropZeroBefore(s, units), Zero, x)
    decreases |s|
  {
    if s != [] {
      if |s| >= 2 && s[0] == Zero && s[1] in units {
        NoPairDrop(s, 2, Zero, Zero);
        DropZeroBeforeClears(s[2..], units, x);
        NoPairCons(s[1], DropZeroBefore(s[2..], units), Zero, x);
      } else {
        NoPairDrop(s, 1, Zero, Zero);
        DropZeroBeforeClears(s[1..], units, x);
        NoPairCons(s[0], DropZeroBefore(s[1..], units), Zero, x);
        if |s| >= 2 && s[0] == Zero {
          assert s[1] != Zero;
          assert s[1..][0] == s[1];
        }
      }
    }
  }

  /** No 零零, 零元, 零万 or 零亿. */
  predicate ZerosCleaned(s: string) {
    NoPair(s, Zero, Zero) && NoPair(s, Zero, Yuan) && NoPair(s, Zero, Wan) && NoPair(s, Zero, Yi)
  }

  /** The first three rewrites already leave none of the four pairs. */
  lemma RewrittenCleaned(s: string)
    ensures ZerosCleaned(Rewritten(s))
  {
    var c1 := CollapseZeros(s);
    CollapseZerosSingle(s);
    var c2 := DropZeroBefore(c1, {Yuan});
    DropZeroBeforeKeeps(c1, {Yuan}, Zero);
    DropZeroBeforeClears(c1, {Yuan}, Yuan);
    DropZeroBeforeKeeps(c2, {Wan, Yi}, Zero);
    DropZeroBeforeKeeps(c2, {Wan, Yi}, Yuan);
    DropZeroBeforeClears(c2, {Wan, Yi}, Wan);
    DropZeroBeforeClears(c2, {Wan, Yi}, Yi);
  }

  /** Where no 零 stands before 元 or another 零, `/零+元/g` changes nothing. */
  lemma {:induction false} DropZeroRunIdle(s: string)
    requires NoPair(s, Zero, Zero) && NoPair(s, Zero, Yuan)
    ensures DropZeroRunBeforeYuan(s) == s
    decreases |s|
  {
    if s != [] {
      NoPairDrop(s, 1, Zero, Zero);
      NoPairDrop(s, 1, Zero, Yuan);
      DropZeroRunIdle(s[1..]);
      if |s| >= 2 && s[0] == Zero {
        assert s[1] != Zero && s[1] != Yuan;
        assert !RunThenYuan(s[1..]);
      }
      HeadTail(s);
    }
  }

  /** After the clean-up no 零 stands before 零, 元, 万 or 亿; the last rewrite is never needed. */
  lemma CleanupCleaned(s: string)
    ensures Cleanup(s) == Rewritten(s)
    ensures ZerosCleaned(Cleanup(s))
  {
    RewrittenCleaned(s);
    DropZeroRunIdle(Rewritten(s));
  }

  // ---------------------------------------------------------------- the clean-up leaves the 角/分 part alone

  lemma {:induction false} DropZerosAppend(x: string, y: string)
    requires y == [] || y[0] != Zero
    ensures DropZeros(x + y) == DropZeros(x) + y
    decreases |x|
  {
    if x == [] {
      assert x + y == y;
    } else {
      var xy := x + y;
      assert xy[0] == x[0];
      if x[0] == Zero {
        assert xy[1..] == x[1..] + y;
        assert DropZeros(xy) == DropZeros(xy[1..]);
        DropZerosAppend(x[1..], y);
      } else {
        assert DropZeros(xy) == xy;
      }
    }
  }

  lemma {:induction false} CollapseZerosAbsent(y: string)
    requires Zero !in y
    ensures CollapseZeros(y) == y
    decreases |y|
  {
    if y != [] {
      assert y[0] in y;
      assert forall c :: c in y[1..] ==> c in y;
      CollapseZerosAbsent(y[1..]);
      HeadTail(y);
    }
  }

  lemma {:induction false} CollapseZerosAppend(x: string, y: string)
    requires Zero !in y
    ensures CollapseZeros(x + y) == CollapseZeros(x) + y
    decreases |x|, 2
  {
    if x == [] {
      assert x + y == y;
      CollapseZerosAbsent(y);
    } else if x[0] == Zero {
      CollapseZerosAppendRun(x, y);
    } else {
      var xy := x + y;
      assert xy[0] == x[0] && xy[1..] == x[1..] + y;
      CollapseZerosAppend(x[1..], y);
    }
  }

  lemma {:induction false} CollapseZerosAppendRun(x: string, y: string)
    requires Zero !in y && x != [] && x[0] == Zero
    ensures CollapseZeros(x + y) == CollapseZeros(x) + y
    decreases |x|, 1
  {
    var xy := x + y;
    assert xy[0] == Zero;
    assert y != [] ==> y[0] in y;
    DropZerosAppend(x, y);
    var d := DropZeros(x);
    assert CollapseZeros(xy) == [Zero] + CollapseZeros(d + y);
    CollapseZerosAppend(d, y);
    var c := CollapseZeros(d);
    assert CollapseZeros(x) == [Zero] + c;
    ConsAppend(Zero, c, y);
  }

  lemma ConsAppend(z: char, a: string, b: string)
    ensures [z] + (a + b) == ([z] + a) + b
  {
  }

  lemma {:induction false} DropZeroBeforeAbsent(y: string, units: set<char>)
    requires Zero !in y
    ensures DropZeroBefore(y, units) == y
    decreases |y|
  {
    if y != [] {
      assert y[0] in y;
      assert forall c :: c in y[1..] ==> c in y;
      DropZeroBeforeAbsent(y[1..], units);
      HeadTail(y);
    }
  }

  lemma {:induction false} DropZeroBeforeAppend(x: string, y: string, units: set<char>)
    requires Zero !in y && (y == [] || y[0] !in units)
    ensures DropZeroBefore(x + y, units) == DropZeroBefore(x, units) + y
    decreases |x|
  {
    if x == [] {
      assert x + y == y;
      DropZeroBeforeAbsent(y, units);
    } else if |x| >= 2 && x[0] == Zero && x[1] in units {
      DropZeroBeforeAppend(x[2..], y, units);
      DropPairAppend(x, y, units);
    } else {
      DropZeroBeforeAppend(x[1..], y, units);
      KeepOneAppend(x, y, units);
    }
  }

  /** The step of `DropZeroBeforeAppend` where `x` starts with a pair that is dropped. */
  lemma DropPairAppend(x: string, y: string, units: set<char>)
    requires |x| >= 2 && x[0] == Zero && x[1] in units
    requires DropZeroBefore(x[2..] + y, units) == DropZeroBefore(x[2..], units) + y
    ensures DropZeroBefore(x + y, units) == DropZeroBefore(x, units) + y
  {
    var xy := x + y;
    assert DropZeroBefore(xy, units) == [x[1]] + DropZeroBefore(x[2..] + y, units) by {
      assert xy[0] == x[0] && xy[1] == x[1] && xy[2..] == x[2..] + y;
    }
    Glue(x[1], DropZeroBefore(xy, units), DropZeroBefore(x[2..] + y, units), DropZeroBefore(x[2..], units), DropZeroBefore(x, units), y);
  }

  /** The step of `DropZeroBeforeAppend` where the first character of `x` is kept. */
  lemma KeepOneAppend(x: string, y: string, units: set<char>)
    requires x != [] && !(|x| >= 2 && x[0] == Zero && x[1] in units)
    requires y == [] || y[0] !in units
    requires DropZeroBefore(x[1..] + y, units) == DropZeroBefore(x[1..], units) + y
    ensures DropZeroBefore(x + y, units) == DropZeroBefore(x, units) + y
  {
    KeepFrontAppend(x, y, units);
    KeepFirst(x, units);
    Glue(x[0], DropZeroBefore(x + y, units), DropZeroBefore(x[1..] + y, units), DropZeroBefore(x[1..], units), DropZeroBefore(x, units), y);
  }

  /** Where `x` keeps its first character, so does `x + y`. */
  lemma KeepFrontAppend(x: string, y: string, units: set<char>)
    requires x != [] && !(|x| >= 2 && x[0] == Zero && x[1] in units)
    requires y == [] || y[0] !in units
    ensures DropZeroBefore(x + y, units) == [x[0]] + DropZeroBefore(x[1..] + y, units)
  {
    var xy := x + y;
    assert xy == [x[0]] + (x[1..] + y) by {
      HeadTail(x);
    }
    NoPairAfter(x, y, units);
    KeepHead(xy, x[0], x[1..] + y, units);
  }

  /** `KeepFirst` for a text given as its first character and the rest. */
  lemma KeepHead(s: string, c: char, rest: string, units: set<char>)
    requires s == [c] + rest && !(|s| >= 2 && s[0] == Zero && s[1] in units)
    ensures DropZeroBefore(s, units) == [c] + DropZeroBefore(rest, units)
  {
    assert s[1..] == rest;
  }

  lemma Glue(z: char, whole: string, tail: string, rest: string, d: string, y: string)
    requires whole == [z] + tail && tail == rest + y && d == [z] + rest
    ensures whole == d + y
  {
  }

  /** Appending text that does not start with a unit creates no pair at the front. */
  lemma NoPairAfter(x: string, y: string, units: set<char>)
    requires x != [] && !(|x| >= 2 && x[0] == Zero && x[1] in units)
    requires y == [] || y[0] !in units
    ensures var xy := x + y; xy != [] && !(|xy| >= 2 && xy[0] == Zero && xy[1] in units)
  {
    var xy := x + y;
    if |x| == 1 && |xy| >= 2 {
      assert xy[1] == y[0];
    } else if |x| >= 2 {
      assert xy[1] == x[1];
    }
  }

  /** Where no pair is dropped, the first character is kept. */
  lemma KeepFirst(s: string, units: set<char>)
    requires s != [] && !(|s| >= 2 && s[0] == Zero && s[1] in units)
    ensures DropZeroBefore(s, units) == [s[0]] + DropZeroBefore(s[1..], units)
  {
  }

  /** Text with no 零 that starts with none of 元, 万, 亿 passes through the clean-up untouched. */
  lemma CleanupAppend(x: string, y: string)
    requires Zero !in y && (y == [] || (y[0] != Yuan && y[0] != Wan && y[0] != Yi))
    ensures Cleanup(x + y) == Cleanup(x) + y
  {
    CollapseZerosAppend(x, y);
    var c1 := CollapseZeros(x);
    DropZeroBeforeAppend(c1, y, {Yuan});
    DropZeroBeforeAppend(DropZeroBefore(c1, {Yuan}), y, {Wan, Yi});
    CleanupCleaned(x + y);
    CleanupCleaned(x);
  }

  // ---------------------------------------------------------------- what the amount in words looks like

  /** The words of an accepted amount other than zero never put 零 before 零, 元, 万 or 亿. */
  lemma MoneyCleaned(num: int)
    requires 0 < num <= MaxFen
    ensures ZerosCleaned(ChineseMoney(Fen(num)).value)
  {
    CleanupCleaned(IntegerWords(IntegerPartOf(num)) + DecimalWords(DecimalPartOf(num)));
  }

  /** The 角 and 分 words hold no 零 and start with none of 元, 万, 亿. */
  lemma DecimalWordsPlain(d: string)
    requires |d| == 2 && AllDigits(d)
    ensures var w := DecimalWords(d); Zero !in w && (w == [] || (w[0] != Yuan && w[0] != Wan && w[0] != Yi))
  {
  }

  /** The 角 and 分 words in terms of the two digits. */
  lemma DecimalWordsCases(num: nat)
    ensures var w := DecimalWords(DecimalPartOf(num));
      var jiao, fen := num % 100 / 10, num % 10;
      && (jiao == 0 && fen == 0 ==> w == [Whole])
      && (jiao != 0 && fen == 0 ==> w == [Numeral(jiao), Jiao, Whole])
      && (fen != 0 ==> w == (if jiao != 0 then [Numeral(jiao), Jiao] else []) + [Numeral(fen), FenUnit])
  {
    var d := DecimalPartOf(num);
    var jiao, fen := num % 100 / 10, num % 10;
    assert DigitValue(d[0]) == jiao && DigitValue(d[1]) == fen;
    assert IsDoubleZero(d) <==> jiao == 0 && fen == 0 by {
      if jiao == 0 && fen == 0 {
        assert d == "00";
      }
    }
  }

  /**
   * How the 角 and 分 close the words: '整' when both are zero; 'X角整' when
   * only 分 is zero; 'Y分' when 分 is not zero, after 'X角' only when 角 is
   * not zero. The integer part before them is cleaned up on its own.
   */
  lemma MoneyDecimals(num: int)
    requires 0 < num <= MaxFen
    ensures ChineseMoney(Fen(num)).value == Cleanup(IntegerWords(IntegerPartOf(num))) + DecimalWords(DecimalPartOf(num))
  {
    DecimalWordsPlain(DecimalPartOf(num));
    CleanupAppend(IntegerWords(IntegerPartOf(num)), DecimalWords(DecimalPartOf(num)));
  }

  lemma CleanupLoneZero()
    ensures Cleanup([Zero]) == [Zero]
  {
    assert DropZeros([Zero]) == [];
    assert CollapseZeros([Zero]) == [Zero];
    assert DropZeroBefore([Zero], {Yuan}) == [Zero];
    assert DropZeroBefore([Zero], {Wan, Yi}) == [Zero];
    CleanupCleaned([Zero]);
  }

  /** Below one yuan the integer part is a lone 零, with no 元. */
  lemma MoneyBelowOneYuan(num: int)
    requires 0 < num < 100
    ensures ChineseMoney(Fen(num)).value == [Zero] + DecimalWords(DecimalPartOf(num))
  {
    assert IntegerPartOf(num) == "0";
    assert IntegerWords("0") == [Zero];
    DecimalWordsPlain(DecimalPartOf(num));
    CleanupAppend([Zero], DecimalWords(DecimalPartOf(num)));
    CleanupLoneZero();
  }
}
