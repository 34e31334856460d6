/**
 * The line-level part of the code comparison tool (js/diff.js): the
 * comparison-key normaliser, the longest-common-subsequence length table
 * and the backward walk over that table that produces the edit script.
 */
module DiffLcs {
  import opened Text

  /** The `type` of an edit operation or of a block of them. */
  datatype Kind = Equal | Added | Removed | Changed

  /**
   * One edit operation. `original`/`modified` hold raw line texts;
   * a line number of 0 means the operation has no line on that side.
   */
  datatype Op = Op(kind: Kind, original: string, modified: string, originalLine: nat, modifiedLine: nat)

  /**
   * One document of the comparison: its raw lines and their comparison
   * keys. The walk only compares keys for equality, so their type is a
   * parameter; the tool uses the normalised line texts.
   */
  datatype Side<K> = Side(lines: seq<string>, keys: seq<K>) {
    predicate Valid() { |lines| == |keys| }
  }

  // ---------------------------------------------------------------- normaliser

  /** `normalizeText`: collapse and trim white space, then fold case, each when asked. */
  function NormalizeText(text: string, ignoreWS: bool, ignoreCS: bool): string {
    var t := if ignoreWS then Trim(Collapse(text)) else text;
    if ignoreCS then ToLower(t) else t
  }

  /** The comparison keys of a document's lines: one per line, the lines themselves when both options are off. */
  function Keys(lines: seq<string>, ignoreWS: bool, ignoreCS: bool): (keys: seq<string>)
    ensures |keys| == |lines|
    ensures !ignoreWS && !ignoreCS ==> keys == lines
  {
    seq(|lines|, k requires 0 <= k < |lines| => NormalizeText(lines[k], ignoreWS, ignoreCS))
  }

  /** Keying the keys again changes nothing: the keys are already normal. */
  lemma KeysIdempotent(lines: seq<string>, ignoreWS: bool, ignoreCS: bool)
    ensures Keys(Keys(lines, ignoreWS, ignoreCS), ignoreWS, ignoreCS) == Keys(lines, ignoreWS, ignoreCS)
  {
    var keys := Keys(lines, ignoreWS, ignoreCS);
    forall k | 0 <= k < |keys|
      ensures Keys(keys, ignoreWS, ignoreCS)[k] == keys[k]
    {
      NormalizeIdempotent(lines[k], ignoreWS, ignoreCS);
    }
  }

  /** With both options off the key is the line itself. */
  lemma NormalizeOff(text: string)
    ensures NormalizeText(text, false, false) == text
  {
  }

  /** Ignoring white space leaves only single spaces, none at either end and never two in a row. */
  lemma NormalizeWhitespaceClean(text: string, ignoreCS: bool)
    ensures Clean(NormalizeText(text, true, ignoreCS))
  {
    TrimCollapseClean(text);
    if ignoreCS {
      LowerKeepsClean(Trim(Collapse(text)));
    }
  }

  /** Normalising a key again changes nothing. */
  lemma NormalizeIdempotent(text: string, ignoreWS: bool, ignoreCS: bool)
    ensures NormalizeText(NormalizeText(text, ignoreWS, ignoreCS), ignoreWS, ignoreCS)
         == NormalizeText(text, ignoreWS, ignoreCS)
  {
    var t := if ignoreWS then Trim(Collapse(text)) else text;
    if ignoreWS {
      TrimCollapseClean(text);
      if ignoreCS {
        LowerKeepsClean(t);
        TrimCollapseFixed(ToLower(t));
        LowerIdempotent(t);
      } else {
        TrimCollapseFixed(t);
      }
    } else if ignoreCS {
      LowerIdempotent(t);
    }
  }

  // ---------------------------------------------------------------- LCS table

  function Max(x: nat, y: nat): nat { if x >= y then x else y }

  /** The recurrence the table of `lcs` follows: row 0 and column 0 are zero. */
  function Table<K(==)>(a: seq<K>, b: seq<K>, i: nat, j: nat): nat
    requires i <= |a| && j <= |b|
    decreases i + j
  {
    if i == 0 || j == 0 then 0
    else if a[i - 1] == b[j - 1] then Table(a, b, i - 1, j - 1) + 1
    else Max(Table(a, b, i - 1, j), Table(a, b, i, j - 1))
  }

  /** `dp` is the (|a|+1) x (|b|+1) table of the recurrence. */
  ghost predicate IsTable<K>(dp: array2<nat>, a: seq<K>, b: seq<K>)
    reads dp
  {
    && dp.Length0 == |a| + 1 && dp.Length1 == |b| + 1
    && forall p, q :: 0 <= p <= |a| && 0 <= q <= |b| ==> dp[p, q] == Table(a, b, p, q)
  }

  /** `lcs`: fills the table row by row in two nested loops. */
  method Lcs<K(==)>(lines1: seq<K>, lines2: seq<K>) returns (dp: array2<nat>)
    ensures fresh(dp) && IsTable(dp, lines1, lines2)
  {
    var m, n := |lines1|, |lines2|;
    dp := new nat[m + 1, n + 1]((_, _) => 0);
    for i := 1 to m + 1
      invariant forall p, q {:trigger dp[p, q]} :: 0 <= p < i && 0 <= q <= n ==> dp[p, q] == Table(lines1, lines2, p, q)
      invariant forall p, q {:trigger dp[p, q]} :: i <= p <= m && 0 <= q <= n ==> dp[p, q] == 0
    {
      for j := 1 to n + 1
        invariant forall p, q {:trigger dp[p, q]} :: 0 <= p < i && 0 <= q <= n ==> dp[p, q] == Table(lines1, lines2, p, q)
        invariant forall q {:trigger dp[i, q]} :: 0 <= q < j ==> dp[i, q] == Table(lines1, lines2, i, q)
        invariant forall p, q {:trigger dp[p, q]} :: i < p <= m && 0 <= q <= n ==> dp[p, q] == 0
      {
        ghost var t := Table(lines1, lines2, i, j);
        if lines1[i - 1] == lines2[j - 1] {
          dp[i, j] := dp[i - 1, j - 1] + 1;
        } else {
          dp[i, j] := Max(dp[i - 1, j], dp[i, j - 1]);
        }
        assert dp[i, j] == t;
      }
    }
    assert forall p, q {:trigger dp[p, q]} :: 0 <= p <= m && 0 <= q <= n ==> dp[p, q] == Table(lines1, lines2, p, q);
  }

  /** No entry exceeds either prefix length. */
  lemma {:induction false} TableBounds<K>(a: seq<K>, b: seq<K>, i: nat, j: nat)
    requires i <= |a| && j <= |b|
    ensures Table(a, b, i, j) <= i && Table(a, b, i, j) <= j
    decreases i + j
  {
    if i > 0 && j > 0 {
      if a[i - 1] == b[j - 1] {
        TableBounds(a, b, i - 1, j - 1);
      } else {
        TableBounds(a, b, i - 1, j);
        TableBounds(a, b, i, j - 1);
      }
    }
  }

  // ---------------------------------------------------------------- subsequences

  /** `c` can be obtained from `s` by deleting elements. */
  predicate IsSubseq<K(==)>(c: seq<K>, s: seq<K>)
    decreases |s|
  {
    if c == [] then true
    else if s == [] then false
    else (c[|c| - 1] == s[|s| - 1] && IsSubseq(c[..|c| - 1], s[..|s| - 1])) || IsSubseq(c, s[..|s| - 1])
  }

  lemma SubseqExtend<K>(c: seq<K>, s: seq<K>, x: K)
    requires IsSubseq(c, s)
    ensures IsSubseq(c, s + [x])
  {
    assert (s + [x])[..|s|] == s;
  }

  lemma SubseqSnoc<K>(c: seq<K>, s: seq<K>, x: K)
    requires IsSubseq(c, s)
    ensures IsSubseq(c + [x], s + [x])
  {
    assert (c + [x])[..|c|] == c && (s + [x])[..|s|] == s;
  }

  lemma {:induction false} SubseqDropLast<K>(c: seq<K>, s: seq<K>)
    requires c != [] && IsSubseq(c, s)
    ensures IsSubseq(c[..|c| - 1], s)
    decreases |s|
  {
    var s' := s[..|s| - 1];
    assert s == s' + [s[|s| - 1]];
    if c[|c| - 1] == s[|s| - 1] && IsSubseq(c[..|c| - 1], s') {
      SubseqExtend(c[..|c| - 1], s', s[|s| - 1]);
    } else {
      SubseqDropLast(c, s');
      SubseqExtend(c[..|c| - 1], s', s[|s| - 1]);
    }
  }

  /** No common subsequence of two prefixes is longer than the table entry. */
  lemma {:induction false} LcsUpperBound<K>(a: seq<K>, b: seq<K>, i: nat, j: nat, c: seq<K>)
    requires i <= |a| && j <= |b|
    requires IsSubseq(c, a[..i]) && IsSubseq(c, b[..j])
    ensures |c| <= Table(a, b, i, j)
    decreases i + j
  {
    if c != [] {
      assert i > 0 && j > 0;
      var c' := c[..|c| - 1];
      var x := c[|c| - 1];
      assert a[..i][..i - 1] == a[..i - 1] && b[..j][..j - 1] == b[..j - 1];
      if a[i - 1] == b[j - 1] {
        if !IsSubseq(c', a[..i - 1]) {
          SubseqDropLast(c, a[..i - 1]);
        }
        if !IsSubseq(c', b[..j - 1]) {
          SubseqDropLast(c, b[..j - 1]);
        }
        LcsUpperBound(a, b, i - 1, j - 1, c');
      } else if x != a[i - 1] {
        LcsUpperBound(a, b, i - 1, j, c);
      } else {
        LcsUpperBound(a, b, i, j - 1, c);
      }
    }
  }

  // ---------------------------------------------------------------- the walk

  /** A step of the walk: both lines (`equal`), the modified line (`added`) or the original line (`removed`). */
  datatype Move = Diagonal | Left | Up

  /** Which way the walk steps from (i, j): matching keys first, then `added` unless `removed` keeps a longer match. */
  function Choice<K(==)>(a: seq<K>, b: seq<K>, i: nat, j: nat): (m: Move)
    requires i <= |a| && j <= |b| && i + j > 0
    ensures m == Diagonal <==> i > 0 && j > 0 && a[i - 1] == b[j - 1]
    ensures m == Left ==> j > 0
    ensures m == Up ==> i > 0
  {
    if i > 0 && j > 0 && a[i - 1] == b[j - 1] then Diagonal
    else if j > 0 && (i == 0 || Table(a, b, i, j - 1) >= Table(a, b, i - 1, j)) then Left
    else Up
  }

  /**
   * The backward walk of the compare handler, written as the sequence it
   * builds: keys decide, raw lines are stored.
   */
  function Walk<K(==)>(a: Side<K>, b: Side<K>, i: nat, j: nat): seq<Op>
    requires a.Valid() && b.Valid() && i <= |a.lines| && j <= |b.lines|
    decreases i + j
  {
    if i == 0 && j == 0 then []
    else
      match Choice(a.keys, b.keys, i, j)
      case Diagonal => Walk(a, b, i - 1, j - 1) + [Op(Equal, a.lines[i - 1], b.lines[j - 1], i, j)]
      case Left => Walk(a, b, i, j - 1) + [Op(Added, "", b.lines[j - 1], 0, j)]
      case Up => Walk(a, b, i - 1, j) + [Op(Removed, a.lines[i - 1], "", i, 0)]
  }

  /** The walk loop of the compare handler: prepends one op per step until (0, 0). */
  method DiffWalk<K(==)>(a: Side<K>, b: Side<K>, dp: array2<nat>) returns (diff: seq<Op>)
    requires a.Valid() && b.Valid() && IsTable(dp, a.keys, b.keys)
    ensures diff == Walk(a, b, |a.lines|, |b.lines|)
  {
    diff := [];
    var i: nat, j: nat := |a.lines|, |b.lines|;
    while i > 0 || j > 0
      invariant i <= |a.lines| && j <= |b.lines|
      invariant Walk(a, b, i, j) + diff == Walk(a, b, |a.lines|, |b.lines|)
      decreases i + j
    {
      ghost var i2, j2, step := WalkSnoc(a, b, i, j);
      var op;
      if i > 0 && j > 0 && a.keys[i - 1] == b.keys[j - 1] {
        op := Op(Equal, a.lines[i - 1], b.lines[j - 1], i, j);
        i, j := i - 1, j - 1;
      } else if j > 0 && (i == 0 || dp[i, j - 1] >= dp[i - 1, j]) {
        op := Op(Added, "", b.lines[j - 1], 0, j);
        j := j - 1;
      } else {
        op := Op(Removed, a.lines[i - 1], "", i, 0);
        i := i - 1;
      }
      assert i == i2 && j == j2 && op == step;
      Associative(Walk(a, b, i, j), [op], diff);
      diff := [op] + diff;
    }
  }

  /** `generateDiff`: the same walk with the raw lines as their own keys. */
  method GenerateDiff(lines1: seq<string>, lines2: seq<string>, dp: array2<nat>) returns (result: seq<Op>)
    requires IsTable(dp, lines1, lines2)
    ensures result == Walk(Side(lines1, lines1), Side(lines2, lines2), |lines1|, |lines2|)
  {
    result := DiffWalk(Side(lines1, lines1), Side(lines2, lines2), dp);
  }

  // ---------------------------------------------------------------- views of an edit script

  function Last<T>(s: seq<T>): T requires s != [] { s[|s| - 1] }
  function Init<T>(s: seq<T>): seq<T> requires s != [] { s[..|s| - 1] }

  lemma PrefixSnoc<T>(s: seq<T>, i: nat)
    requires 0 < i <= |s|
    ensures s[..i] == s[..i - 1] + [s[i - 1]]
  {
  }

  lemma InitLast<T>(s: seq<T>)
    requires s != []
    ensures Init(s) + [Last(s)] == s
  {
  }

  lemma LastOfAppend<T>(s: seq<T>, x: T)
    ensures Last(s + [x]) == x && Init(s + [x]) == s
  {
  }

  /** The non-zero `originalLine` values, in order. */
  function OriginalNumbers(ops: seq<Op>): seq<nat>
    decreases |ops|
  {
    if ops == [] then []
    else OriginalNumbers(Init(ops)) + (if Last(ops).originalLine != 0 then [Last(ops).originalLine] else [])
  }

  /** The non-zero `modifiedLine` values, in order. */
  function ModifiedNumbers(ops: seq<Op>): seq<nat>
    decreases |ops|
  {
    if ops == [] then []
    else ModifiedNumbers(Init(ops)) + (if Last(ops).modifiedLine != 0 then [Last(ops).modifiedLine] else [])
  }

  /** `original` of every op that has an original line, in order. */
  function OriginalTexts(ops: seq<Op>): seq<string>
    decreases |ops|
  {
    if ops == [] then []
    else OriginalTexts(Init(ops)) + (if Last(ops).originalLine != 0 then [Last(ops).original] else [])
  }

  /** `modified` of every op that has a modified line, in order. */
  function ModifiedTexts(ops: seq<Op>): seq<string>
    decreases |ops|
  {
    if ops == [] then []
    else ModifiedTexts(Init(ops)) + (if Last(ops).modifiedLine != 0 then [Last(ops).modified] else [])
  }

  /** The original-side keys of the `equal` ops, in order. */
  function CommonKeys<K>(a: Side<K>, ops: seq<Op>): seq<K>
    decreases |ops|
  {
    if ops == [] then []
    else
      var op := Last(ops);
      CommonKeys(a, Init(ops))
      + (if op.kind == Equal && 1 <= op.originalLine <= |a.keys| then [a.keys[op.originalLine - 1]] else [])
  }

  function EqualCount(ops: seq<Op>): nat
    decreases |ops|
  {
    if ops == [] then 0 else EqualCount(Init(ops)) + (if Last(ops).kind == Equal then 1 else 0)
  }

  /** `[1, 2, ..., n]`. */
  function Iota(n: nat): (r: seq<nat>)
    ensures |r| == n && forall k :: 0 <= k < n ==> r[k] == k + 1
  {
    seq(n, k requires 0 <= k < n => k + 1)
  }

  lemma IotaSnoc(n: nat)
    requires n > 0
    ensures Iota(n) == Iota(n - 1) + [n]
  {
  }

  /** What each kind of op the walk emits looks like. */
  predicate WalkOp<K(==)>(a: Side<K>, b: Side<K>, op: Op)
    requires a.Valid() && b.Valid()
  {
    match op.kind
    case Equal =>
      && 1 <= op.originalLine <= |a.lines| && 1 <= op.modifiedLine <= |b.lines|
      && a.keys[op.originalLine - 1] == b.keys[op.modifiedLine - 1]
      && op.original == a.lines[op.originalLine - 1] && op.modified == b.lines[op.modifiedLine - 1]
    case Added =>
      && op.originalLine == 0 && op.original == ""
      && 1 <= op.modifiedLine <= |b.lines| && op.modified == b.lines[op.modifiedLine - 1]
    case Removed =>
      && op.modifiedLine == 0 && op.modified == ""
      && 1 <= op.originalLine <= |a.lines| && op.original == a.lines[op.originalLine - 1]
    case Changed => false
  }

  /**
   * Every op the walk emits has the shape of its kind; in particular an
   * `equal` op joins two lines whose keys match, and no op is `changed`.
   */
  lemma {:induction false} WalkShape<K>(a: Side<K>, b: Side<K>, i: nat, j: nat)
    requires a.Valid() && b.Valid() && i <= |a.lines| && j <= |b.lines|
    ensures forall k :: 0 <= k < |Walk(a, b, i, j)| ==> WalkOp(a, b, Walk(a, b, i, j)[k])
    decreases i + j
  {
    if i + j > 0 {
      match Choice(a.keys, b.keys, i, j)
      case Diagonal => WalkShape(a, b, i - 1, j - 1);
      case Left => WalkShape(a, b, i, j - 1);
      case Up => WalkShape(a, b, i - 1, j);
    }
  }

  /**
   * One step of the walk from (i, j) back to (i2, j2): the op it appends,
   * which lines it consumes and what it does to the table entry.
   */
  lemma WalkSnoc<K>(a: Side<K>, b: Side<K>, i: nat, j: nat) returns (i2: nat, j2: nat, op: Op)
    requires a.Valid() && b.Valid() && i <= |a.lines| && j <= |b.lines| && i + j > 0
    ensures (i2 == i || i2 == i - 1) && (j2 == j || j2 == j - 1) && i2 + j2 < i + j
    ensures Walk(a, b, i, j) == Walk(a, b, i2, j2) + [op]
    ensures op.kind == (if i2 < i && j2 < j then Equal else if i2 < i then Removed else Added)
    ensures op.originalLine == (if i2 < i then i else 0) && op.modifiedLine == (if j2 < j then j else 0)
    ensures op.original == (if i2 < i then a.lines[i - 1] else "")
    ensures op.modified == (if j2 < j then b.lines[j - 1] else "")
    ensures i2 < i && j2 < j <==> i > 0 && j > 0 && a.keys[i - 1] == b.keys[j - 1]
    ensures !(i2 < i && j2 < j) ==>
      (j2 < j <==> j > 0 && (i == 0 || Table(a.keys, b.keys, i, j - 1) >= Table(a.keys, b.keys, i - 1, j)))
    ensures Table(a.keys, b.keys, i, j) == Table(a.keys, b.keys, i2, j2) + (if op.kind == Equal then 1 else 0)
  {
    match Choice(a.keys, b.keys, i, j)
    case Diagonal =>
      i2, j2, op := i - 1, j - 1, Op(Equal, a.lines[i - 1], b.lines[j - 1], i, j);
    case Left =>
      i2, j2, op := i, j - 1, Op(Added, "", b.lines[j - 1], 0, j);
    case Up =>
      i2, j2, op := i - 1, j, Op(Removed, a.lines[i - 1], "", i, 0);
  }

  /** Coverage and order: the non-zero original line numbers are exactly 1..i, in order. */
  lemma {:induction false} WalkOriginalNumbers<K>(a: Side<K>, b: Side<K>, i: nat, j: nat)
    requires a.Valid() && b.Valid() && i <= |a.lines| && j <= |b.lines|
    ensures OriginalNumbers(Walk(a, b, i, j)) == Iota(i)
    decreases i + j
  {
    if i + j > 0 {
      var i2, j2, op := WalkSnoc(a, b, i, j);
      var w' := Walk(a, b, i2, j2);
      WalkOriginalNumbers(a, b, i2, j2);
      LastOfAppend(w', op);
      if i2 < i {
        IotaSnoc(i);
      }
    }
  }

  /** Coverage and order: the non-zero modified line numbers are exactly 1..j, in order. */
  lemma {:induction false} WalkModifiedNumbers<K>(a: Side<K>, b: Side<K>, i: nat, j: nat)
    requires a.Valid() && b.Valid() && i <= |a.lines| && j <= |b.lines|
    ensures ModifiedNumbers(Walk(a, b, i, j)) == Iota(j)
    decreases i + j
  {
    if i + j > 0 {
      var i2, j2, op := WalkSnoc(a, b, i, j);
      var w' := Walk(a, b, i2, j2);
      WalkModifiedNumbers(a, b, i2, j2);
      LastOfAppend(w', op);
      if j2 < j {
        IotaSnoc(j);
      }
    }
  }

  /** Round trip: the stored original texts, in order, are the original document's raw lines. */
  lemma {:induction false} WalkOriginalTexts<K>(a: Side<K>, b: Side<K>, i: nat, j: nat)
    requires a.Valid() && b.Valid() && i <= |a.lines| && j <= |b.lines|
    ensures OriginalTexts(Walk(a, b, i, j)) == a.lines[..i]
    decreases i + j
  {
    if i + j > 0 {
      var i2, j2, op := WalkSnoc(a, b, i, j);
      var w' := Walk(a, b, i2, j2);
      WalkOriginalTexts(a, b, i2, j2);
      LastOfAppend(w', op);
      if i2 < i {
        PrefixSnoc(a.lines, i);
      }
    }
  }

  /** Round trip: the stored modified texts, in order, are the modified document's raw lines. */
  lemma {:induction false} WalkModifiedTexts<K>(a: Side<K>, b: Side<K>, i: nat, j: nat)
    requires a.Valid() && b.Valid() && i <= |a.lines| && j <= |b.lines|
    ensures ModifiedTexts(Walk(a, b, i, j)) == b.lines[..j]
    decreases i + j
  {
    if i + j > 0 {
      var i2, j2, op := WalkSnoc(a, b, i, j);
      var w' := Walk(a, b, i2, j2);
      WalkModifiedTexts(a, b, i2, j2);
      LastOfAppend(w', op);
      if j2 < j {
        PrefixSnoc(b.lines, j);
      }
    }
  }

  /** The walk emits as many `equal` ops, and matched keys, as the table entry says. */
  lemma {:induction false} WalkEqualCount<K>(a: Side<K>, b: Side<K>, i: nat, j: nat)
    requires a.Valid() && b.Valid() && i <= |a.lines| && j <= |b.lines|
    ensures EqualCount(Walk(a, b, i, j)) == Table(a.keys, b.keys, i, j)
    ensures |CommonKeys(a, Walk(a, b, i, j))| == Table(a.keys, b.keys, i, j)
    decreases i + j
  {
    if i + j > 0 {
      var i2, j2, op := WalkSnoc(a, b, i, j);
      var w' := Walk(a, b, i2, j2);
      WalkEqualCount(a, b, i2, j2);
      LastOfAppend(w', op);
    }
  }

  /** The keys of the `equal` ops form a subsequence of both documents' key prefixes. */
  lemma {:induction false} WalkCommonSubseq<K>(a: Side<K>, b: Side<K>, i: nat, j: nat)
    requires a.Valid() && b.Valid() && i <= |a.lines| && j <= |b.lines|
    ensures IsSubseq(CommonKeys(a, Walk(a, b, i, j)), a.keys[..i])
    ensures IsSubseq(CommonKeys(a, Walk(a, b, i, j)), b.keys[..j])
    decreases i + j
  {
    if i + j > 0 {
      var i2, j2, op := WalkSnoc(a, b, i, j);
      var w' := Walk(a, b, i2, j2);
      WalkCommonSubseq(a, b, i2, j2);
      CommonStep(a, b, Walk(a, b, i, j), w', op, i, j, i2, j2);
    }
  }

  /** One op of the walk: a common key is added exactly when the op is `equal`, and both prefixes grow with it. */
  lemma CommonStep<K>(a: Side<K>, b: Side<K>, w: seq<Op>, w': seq<Op>, op: Op, i: nat, j: nat, i2: nat, j2: nat)
    requires w == w' + [op] && i <= |a.keys| && j <= |b.keys|
    requires (i2 == i || i2 + 1 == i) && (j2 == j || j2 + 1 == j)
    requires IsSubseq(CommonKeys(a, w'), a.keys[..i2]) && IsSubseq(CommonKeys(a, w'), b.keys[..j2])
    requires op.kind == Equal ==> i2 < i && j2 < j && op.originalLine == i && a.keys[i - 1] == b.keys[j - 1]
    ensures IsSubseq(CommonKeys(a, w), a.keys[..i]) && IsSubseq(CommonKeys(a, w), b.keys[..j])
  {
    var c' := CommonKeys(a, w');
    var ext := if op.kind == Equal then [a.keys[i - 1]] else [];
    assert CommonKeys(a, w) == c' + ext by {
      LastOfAppend(w', op);
    }
    SubseqPrefixStep(c', a.keys, i, i2, ext);
    SubseqPrefixStep(c', b.keys, j, j2, ext);
  }

  /** A prefix one element longer, or the same prefix, keeps a subsequence, extended by that element or not. */
  lemma SubseqPrefixStep<K>(c: seq<K>, keys: seq<K>, n: nat, n2: nat, ext: seq<K>)
    requires n <= |keys| && (n2 == n || n2 + 1 == n) && IsSubseq(c, keys[..n2])
    requires ext == [] || (n2 < n && ext == [keys[n - 1]])
    ensures IsSubseq(c + ext, keys[..n])
  {
    if ext != [] {
      PrefixSnoc(keys, n);
      SubseqSnoc(c, keys[..n - 1], keys[n - 1]);
    } else {
      assert c + ext == c;
      if n2 < n {
        PrefixSnoc(keys, n);
        SubseqExtend(c, keys[..n - 1], keys[n - 1]);
      }
    }
  }

  /**
   * Optimality: no common subsequence of the two key sequences is longer
   * than the number of `equal` ops the walk emits.
   */
  lemma WalkIsLcs<K>(a: Side<K>, b: Side<K>, c: seq<K>)
    requires a.Valid() && b.Valid()
    requires IsSubseq(c, a.keys) && IsSubseq(c, b.keys)
    ensures |c| <= EqualCount(Walk(a, b, |a.lines|, |b.lines|))
  {
    assert a.keys[..|a.keys|] == a.keys && b.keys[..|b.keys|] == b.keys;
    LcsUpperBound(a.keys, b.keys, |a.keys|, |b.keys|, c);
    WalkEqualCount(a, b, |a.lines|, |b.lines|);
  }

  /** The table is non-decreasing along rows and along columns. */
  lemma TableMonotone<K>(a: seq<K>, b: seq<K>, i: nat, j: nat)
    requires i < |a| && j < |b|
    ensures Table(a, b, i, j) <= Table(a, b, i + 1, j)
    ensures Table(a, b, i, j) <= Table(a, b, i, j + 1)
  {
    var c := LongestCommon(a, b, i, j);
    PrefixSnoc(a, i + 1);
    PrefixSnoc(b, j + 1);
    SubseqExtend(c, a[..i], a[i]);
    SubseqExtend(c, b[..j], b[j]);
    LcsUpperBound(a, b, i + 1, j, c);
    LcsUpperBound(a, b, i, j + 1, c);
  }

  /** A common subsequence of the prefixes as long as the table entry: the one the walk finds. */
  lemma LongestCommon<K>(a: seq<K>, b: seq<K>, i: nat, j: nat) returns (c: seq<K>)
    requires i <= |a| && j <= |b|
    ensures IsSubseq(c, a[..i]) && IsSubseq(c, b[..j]) && |c| == Table(a, b, i, j)
  {
    var sa := Side(seq(|a|, _ => ""), a);
    var sb := Side(seq(|b|, _ => ""), b);
    WalkEqualCount(sa, sb, i, j);
    WalkCommonSubseq(sa, sb, i, j);
    c := CommonKeys(sa, Walk(sa, sb, i, j));
  }

  /**
   * When both documents have the same keys line for line, the walk emits
   * only `equal` ops, pairing line k with line k.
   */
  lemma {:induction false} WalkSameKeys<K>(a: Side<K>, b: Side<K>, i: nat)
    requires a.Valid() && b.Valid() && a.keys == b.keys && i <= |a.lines|
    ensures Walk(a, b, i, i) == seq(i, k requires 0 <= k < i => Op(Equal, a.lines[k], b.lines[k], k + 1, k + 1))
  {
    if i > 0 {
      WalkSameKeys(a, b, i - 1);
    }
  }

  /** On a tie between the two single-line moves the walk emits `added`. */
  lemma WalkTie<K>(a: Side<K>, b: Side<K>, i: nat, j: nat)
    requires a.Valid() && b.Valid() && 0 < i <= |a.lines| && 0 < j <= |b.lines|
    requires a.keys[i - 1] != b.keys[j - 1]
    ensures Table(a.keys, b.keys, i, j - 1) >= Table(a.keys, b.keys, i - 1, j) ==>
      Last(Walk(a, b, i, j)) == Op(Added, "", b.lines[j - 1], 0, j)
    ensures Table(a.keys, b.keys, i, j - 1) < Table(a.keys, b.keys, i - 1, j) ==>
      Last(Walk(a, b, i, j)) == Op(Removed, a.lines[i - 1], "", i, 0)
  {
  }
}
