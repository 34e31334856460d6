/**
 * The block part of the code comparison tool (js/diff.js): grouping the
 * edit script into runs of one kind (`optimizeDiff`), promoting a removed
 * run followed by an added run of the same length to a changed run, the
 * two-column rendering with its counters, and the compare handler that
 * chains them.
 */
module DiffBlocks {
  import opened Text
  import opened Wrappers
  import opened DiffLcs

  /** A run of ops shown together; `kind` is the block's `type`. */
  datatype Block = Block(kind: Kind, items: seq<Op>)

  // ---------------------------------------------------------------- optimizeDiff

  /** The blocks `optimizeDiff` builds, one op at a time: an op joins the last block when the kinds agree. */
  function Grouped(ops: seq<Op>): seq<Block>
    decreases |ops|
  {
    if ops == [] then []
    else
      var bs := Grouped(Init(ops));
      var op := Last(ops);
      if bs != [] && Last(bs).kind == op.kind then Init(bs) + [Block(op.kind, Last(bs).items + [op])]
      else bs + [Block(op.kind, [op])]
  }

  /** The ops of the blocks, in order. */
  function Flatten(bs: seq<Block>): seq<Op>
    decreases |bs|
  {
    if bs == [] then [] else Flatten(Init(bs)) + Last(bs).items
  }

  /** No empty block, every item has its block's kind, and neighbouring blocks differ in kind. */
  predicate WellGrouped(bs: seq<Block>) {
    NonEmptyBlocks(bs) && KindedBlocks(bs) && AlternatingBlocks(bs)
  }

  predicate NonEmptyBlocks(bs: seq<Block>) {
    forall k :: 0 <= k < |bs| ==> bs[k].items != []
  }

  predicate KindedBlocks(bs: seq<Block>) {
    forall k, m :: 0 <= k < |bs| && 0 <= m < |bs[k].items| ==> bs[k].items[m].kind == bs[k].kind
  }

  predicate AlternatingBlocks(bs: seq<Block>) {
    forall k :: 0 < k < |bs| ==> bs[k - 1].kind != bs[k].kind
  }

  /** The grouping loop of `optimizeDiff`, with the open block held apart as `currentBlock`. */
  method OptimizeDiff(diff: seq<Op>) returns (optimized: seq<Block>)
    ensures optimized == Grouped(diff)
  {
    optimized := [];
    var current: Option<Block> := None;
    for k := 0 to |diff|
      invariant current.None? ==> optimized == [] && k == 0
      invariant Grouped(diff[..k]) == optimized + (if current.Some? then [current.value] else [])
    {
      var item := diff[k];
      assert diff[..k + 1] == diff[..k] + [item];
      GroupedSnoc(diff[..k], item);
      if current.Some? && current.value.kind == item.kind {
        LastOfAppend(optimized, current.value);
        current := Some(Block(current.value.kind, current.value.items + [item]));
      } else {
        if current.Some? {
          optimized := optimized + [current.value];
        }
        current := Some(Block(item.kind, [item]));
      }
    }
    assert diff[..|diff|] == diff;
    if current.Some? {
      optimized := optimized + [current.value];
    }
  }

  /** Grouping loses nothing: the blocks' items, in order, are the ops. */
  lemma {:induction false} FlattenGrouped(ops: seq<Op>)
    ensures Flatten(Grouped(ops)) == ops
    decreases |ops|
  {
    if ops != [] {
      var bs := Grouped(Init(ops));
      var op := Last(ops);
      FlattenGrouped(Init(ops));
      if bs != [] && Last(bs).kind == op.kind {
        var b := Block(op.kind, Last(bs).items + [op]);
        LastOfAppend(Init(bs), b);
        InitLast(bs);
        assert Flatten(Init(bs) + [b]) == Flatten(Init(bs)) + Last(bs).items + [op];
      } else {
        LastOfAppend(bs, Block(op.kind, [op]));
      }
      assert ops == Init(ops) + [op];
    }
  }

  /** The blocks `optimizeDiff` builds are well grouped. */
  lemma GroupedWellGrouped(ops: seq<Op>)
    ensures WellGrouped(Grouped(ops))
  {
    GroupedNonEmpty(ops);
    GroupedKinds(ops);
    GroupedAlternate(ops);
  }

  lemma {:induction false} GroupedNonEmpty(ops: seq<Op>)
    ensures NonEmptyBlocks(Grouped(ops))
    decreases |ops|
  {
    if ops != [] {
      GroupedNonEmpty(Init(ops));
    }
  }

  lemma {:induction false} GroupedKinds(ops: seq<Op>)
    ensures KindedBlocks(Grouped(ops))
    decreases |ops|
  {
    if ops != [] {
      GroupedKinds(Init(ops));
    }
  }

  lemma {:induction false} GroupedAlternate(ops: seq<Op>)
    ensures AlternatingBlocks(Grouped(ops))
    decreases |ops|
  {
    if ops != [] {
      GroupedAlternate(Init(ops));
    }
  }

  lemma GroupedSnoc(ops: seq<Op>, op: Op)
    ensures var bs := Grouped(ops);
      Grouped(ops + [op])
      == if bs != [] && Last(bs).kind == op.kind then Init(bs) + [Block(op.kind, Last(bs).items + [op])]
         else bs + [Block(op.kind, [op])]
  {
    LastOfAppend(ops, op);
  }

  lemma WellGroupedInit(bs: seq<Block>)
    requires bs != [] && WellGrouped(bs)
    ensures WellGrouped(Init(bs))
  {
  }

  lemma WellGroupedShrink(bs: seq<Block>)
    requires bs != [] && WellGrouped(bs) && |Last(bs).items| > 1
    ensures WellGrouped(Init(bs) + [Block(Last(bs).kind, Init(Last(bs).items))])
  {
    var bs' := Init(bs) + [Block(Last(bs).kind, Init(Last(bs).items))];
    assert forall k :: 0 <= k < |bs| - 1 ==> bs'[k] == bs[k];
  }

  /** The grouping is the only well-grouped one with those items. */
  lemma {:induction false} GroupedUnique(bs: seq<Block>, ops: seq<Op>)
    requires WellGrouped(bs) && Flatten(bs) == ops
    ensures Grouped(ops) == bs
    decreases |ops|
  {
    if bs != [] {
      var b := Last(bs);
      var op := Last(b.items);
      var prefix := Flatten(Init(bs));
      assert ops == (prefix + Init(b.items)) + [op] by {
        assert b.items == Init(b.items) + [op];
      }
      WellGroupedInit(bs);
      if |b.items| == 1 {
        assert ops == prefix + [op] by {
          assert prefix + Init(b.items) == prefix;
        }
        GroupedUnique(Init(bs), prefix);
        UniqueOpens(bs, prefix, op);
      } else {
        var bs' := Init(bs) + [Block(b.kind, Init(b.items))];
        WellGroupedShrink(bs);
        assert Flatten(bs') == prefix + Init(b.items) by {
          LastOfAppend(Init(bs), Block(b.kind, Init(b.items)));
        }
        GroupedUnique(bs', prefix + Init(b.items));
        UniqueJoins(bs, prefix + Init(b.items), op);
      }
    } else {
      assert ops == [];
    }
  }

  /** The step of `GroupedUnique` where the last op opens the last block. */
  lemma UniqueOpens(bs: seq<Block>, prefix: seq<Op>, op: Op)
    requires bs != [] && WellGrouped(bs) && Last(bs).items == [op]
    requires Grouped(prefix) == Init(bs)
    ensures Grouped(prefix + [op]) == bs
  {
    GroupedSnoc(prefix, op);
    assert Init(bs) != [] ==> Last(Init(bs)).kind != op.kind by {
      if Init(bs) != [] {
        assert Last(Init(bs)) == bs[|bs| - 2];
        assert Last(bs).items[0] == op;
      }
    }
    assert bs == Init(bs) + [Block(op.kind, [op])] by {
      assert Last(bs).items[0] == op;
    }
  }

  /** The step of `GroupedUnique` where the last op joins the last block. */
  lemma UniqueJoins(bs: seq<Block>, rest: seq<Op>, op: Op)
    requires bs != [] && WellGrouped(bs) && |Last(bs).items| > 1 && op == Last(Last(bs).items)
    requires Grouped(rest) == Init(bs) + [Block(Last(bs).kind, Init(Last(bs).items))]
    ensures Grouped(rest + [op]) == bs
  {
    var b := Last(bs);
    var g := Grouped(rest);
    assert Init(g) == Init(bs) && Last(g) == Block(b.kind, Init(b.items)) by {
      LastOfAppend(Init(bs), Block(b.kind, Init(b.items)));
    }
    assert op.kind == b.kind by {
      assert op == b.items[|b.items| - 1];
    }
    assert Grouped(rest + [op]) == Init(bs) + [Block(b.kind, Init(b.items) + [op])] by {
      GroupedSnoc(rest, op);
    }
    InitLast(b.items);
    InitLast(bs);
  }

  // ---------------------------------------------------------------- changed blocks

  /** A removed item takes over the modified text and line of its added partner. */
  function Pair(removed: Op, added: Op): Op {
    removed.(modified := added.modified, modifiedLine := added.modifiedLine)
  }

  /** The result of the item loop of the promotion: item k is paired with partner k when there is one. */
  function Paired(removed: seq<Op>, added: seq<Op>): (r: seq<Op>)
    ensures |r| == |removed|
  {
    seq(|removed|, k requires 0 <= k < |removed| => if k < |added| then Pair(removed[k], added[k]) else removed[k])
  }

  /** `current.items.forEach(...)`: pairs each item of a removed run with the item of the added run at its index. */
  method MergeItems(removed: seq<Op>, added: seq<Op>) returns (items: seq<Op>)
    ensures items == Paired(removed, added)
  {
    items := [];
    for idx := 0 to |removed|
      invariant |items| == idx
      invariant forall k :: 0 <= k < idx ==> items[k] == Paired(removed, added)[k]
    {
      var item := removed[idx];
      if idx < |added| {
        item := item.(modified := added[idx].modified, modifiedLine := added[idx].modifiedLine);
      }
      items := items + [item];
    }
  }

  /** A removed block directly followed by an added block with as many items. */
  predicate PairsAt(bs: seq<Block>, i: nat) {
    i + 1 < |bs| && bs[i].kind == Removed && bs[i + 1].kind == Added && |bs[i].items| == |bs[i + 1].items|
  }

  /** The blocks after the promotion pass, scanning from the front. */
  function Promoted(bs: seq<Block>): seq<Block>
    decreases |bs|
  {
    if bs == [] then []
    else if PairsAt(bs, 0) then [Block(Changed, Paired(bs[0].items, bs[1].items))] + Promoted(bs[2..])
    else [bs[0]] + Promoted(bs[1..])
  }

  /** The promotion loop of the compare handler, which skips the partner block. */
  method PromoteChanged(diffBlocks: seq<Block>) returns (optimizedBlocks: seq<Block>)
    ensures optimizedBlocks == Promoted(diffBlocks)
  {
    optimizedBlocks := [];
    var i := 0;
    while i < |diffBlocks|
      invariant i <= |diffBlocks|
      invariant optimizedBlocks + Promoted(diffBlocks[i..]) == Promoted(diffBlocks)
      decreases |diffBlocks| - i
    {
      var current := diffBlocks[i];
      ghost var rest := diffBlocks[i..];
      if current.kind == Removed && i + 1 < |diffBlocks| && diffBlocks[i + 1].kind == Added
        && |current.items| == |diffBlocks[i + 1].items|
      {
        var items := MergeItems(current.items, diffBlocks[i + 1].items);
        assert Promoted(rest) == [Block(Changed, items)] + Promoted(diffBlocks[i + 2..]) by {
          assert rest[0] == current && rest[1] == diffBlocks[i + 1];
          assert PairsAt(rest, 0) && rest[2..] == diffBlocks[i + 2..];
        }
        Associative(optimizedBlocks, [Block(Changed, items)], Promoted(diffBlocks[i + 2..]));
        optimizedBlocks := optimizedBlocks + [Block(Changed, items)];
        i := i + 2;
      } else {
        assert Promoted(rest) == [current] + Promoted(diffBlocks[i + 1..]) by {
          assert rest[0] == current && (i + 1 < |diffBlocks| ==> rest[1] == diffBlocks[i + 1]);
          assert !PairsAt(rest, 0) && rest[1..] == diffBlocks[i + 1..];
        }
        Associative(optimizedBlocks, [current], Promoted(diffBlocks[i + 1..]));
        optimizedBlocks := optimizedBlocks + [current];
        i := i + 1;
      }
    }
  }

  /** The first block after promotion is the first block, or the changed block replacing it. */
  lemma PromotedHead(bs: seq<Block>)
    requires bs != []
    ensures Promoted(bs) != []
    ensures Promoted(bs)[0] == bs[0] || Promoted(bs)[0].kind == Changed
  {
  }

  /** After promotion no removed block is directly followed by an added block of the same length. */
  lemma {:induction false} PromotedNoPairs(bs: seq<Block>)
    ensures forall i :: 0 <= i < |Promoted(bs)| ==> !PairsAt(Promoted(bs), i)
    decreases |bs|
  {
    if bs != [] {
      var p := Promoted(bs);
      if PairsAt(bs, 0) {
        PromotedNoPairs(bs[2..]);
        assert forall i :: 1 <= i < |p| ==> (PairsAt(p, i) <==> PairsAt(Promoted(bs[2..]), i - 1));
      } else {
        PromotedNoPairs(bs[1..]);
        assert forall i :: 1 <= i < |p| ==> (PairsAt(p, i) <==> PairsAt(Promoted(bs[1..]), i - 1));
        if |bs| > 1 {
          PromotedHead(bs[1..]);
        }
      }
    }
  }

  // ---------------------------------------------------------------- rendering

  /** One item of the rendering loop, with the type of the block it belongs to. */
  datatype Tag = Tag(kind: Kind, item: Op)

  /** The counters `added`, `removed`, `changed` and `unchanged` (here `same`) of `renderDiff`. */
  datatype Stats = Stats(added: nat, removed: nat, changed: nat, same: nat)

  /** One row of a column: a blank row, or a numbered line styled as added, removed or equal. */
  datatype Row = Empty | Numbered(number: nat, text: string, style: Kind)

  /** The values `f` keeps, in order. */
  function Collect<A, B>(s: seq<A>, f: A -> Option<B>): seq<B>
    decreases |s|
  {
    if s == [] then []
    else Collect(Init(s), f) + (match f(Last(s)) case Some(v) => [v] case None => [])
  }

  lemma CollectSnoc<A, B>(s: seq<A>, x: A, f: A -> Option<B>)
    ensures Collect(s + [x], f) == Collect(s, f) + (match f(x) case Some(v) => [v] case None => [])
  {
    LastOfAppend(s, x);
  }

  lemma {:induction false} CollectAppend<A, B>(x: seq<A>, y: seq<A>, f: A -> Option<B>)
    ensures Collect(x + y, f) == Collect(x, f) + Collect(y, f)
    decreases |y|
  {
    if y == [] {
      assert x + y == x;
    } else {
      CollectAppend(x, Init(y), f);
      assert x + y == (x + Init(y)) + [Last(y)] && y == Init(y) + [Last(y)];
      CollectSnoc(x + Init(y), Last(y), f);
      CollectSnoc(Init(y), Last(y), f);
    }
  }

  function TagItems(kind: Kind, items: seq<Op>): (r: seq<Tag>)
    ensures |r| == |items| && forall k :: 0 <= k < |items| ==> r[k] == Tag(kind, items[k])
  {
    seq(|items|, k requires 0 <= k < |items| => Tag(kind, items[k]))
  }

  lemma TagItemsSnoc(kind: Kind, items: seq<Op>, x: Op)
    ensures TagItems(kind, items + [x]) == TagItems(kind, items) + [Tag(kind, x)]
  {
  }

  /** The items in rendering order, each with its block's type. */
  function Tagged(bs: seq<Block>): seq<Tag>
    decreases |bs|
  {
    if bs == [] then [] else Tagged(Init(bs)) + TagItems(Last(bs).kind, Last(bs).items)
  }

  function LeftText(tag: Tag): Option<string> {
    if tag.kind != Added then Some(tag.item.original) else None
  }

  function RightText(tag: Tag): Option<string> {
    if tag.kind != Removed then Some(tag.item.modified) else None
  }

  /** The texts that get a number in the left column: every item not in an added block. */
  function LeftTexts(t: seq<Tag>): seq<string> {
    Collect(t, LeftText)
  }

  /** The texts that get a number in the right column: every item not in a removed block. */
  function RightTexts(t: seq<Tag>): seq<string> {
    Collect(t, RightText)
  }

  function Bump(s: Stats, kind: Kind): Stats {
    match kind
    case Added => s.(added := s.added + 1)
    case Removed => s.(removed := s.removed + 1)
    case Changed => s.(changed := s.changed + 1)
    case Equal => s.(same := s.same + 1)
  }

  /** The counters after rendering the items: one per item, by its block's type. */
  function StatsOf(t: seq<Tag>): Stats
    decreases |t|
  {
    if t == [] then Stats(0, 0, 0, 0) else Bump(StatsOf(Init(t)), Last(t).kind)
  }

  /** The left row of an item, `n` being the left counter. */
  function LeftRow(tag: Tag, n: nat): Row {
    match tag.kind
    case Added => Empty
    case Removed => Numbered(n, tag.item.original, Removed)
    case Changed => Numbered(n, tag.item.original, Removed)
    case Equal => Numbered(n, tag.item.original, Equal)
  }

  /** The right row of an item, `n` being the right counter. */
  function RightRow(tag: Tag, n: nat): Row {
    match tag.kind
    case Added => Numbered(n, tag.item.modified, Added)
    case Removed => Empty
    case Changed => Numbered(n, tag.item.modified, Added)
    case Equal => Numbered(n, tag.item.modified, Equal)
  }

  /** The left column: each counter value is one more than the number of left texts before it. */
  function LeftRows(t: seq<Tag>): seq<Row>
    decreases |t|
  {
    if t == [] then [] else LeftRows(Init(t)) + [LeftRow(Last(t), |LeftTexts(Init(t))| + 1)]
  }

  /** The right column, likewise. */
  function RightRows(t: seq<Tag>): seq<Row>
    decreases |t|
  {
    if t == [] then [] else RightRows(Init(t)) + [RightRow(Last(t), |RightTexts(Init(t))| + 1)]
  }

  function RowText(row: Row): Option<string> {
    if row.Numbered? then Some(row.text) else None
  }

  function RowNumber(row: Row): Option<nat> {
    if row.Numbered? then Some(row.number) else None
  }

  /** The texts of the numbered rows, in order. */
  function NumberedTexts(rows: seq<Row>): seq<string> {
    Collect(rows, RowText)
  }

  /** The numbers of the numbered rows, in order. */
  function NumberedNumbers(rows: seq<Row>): seq<nat> {
    Collect(rows, RowNumber)
  }

  lemma LeftRowsSnoc(t: seq<Tag>, tag: Tag)
    ensures LeftRows(t + [tag]) == LeftRows(t) + [LeftRow(tag, |LeftTexts(t)| + 1)]
  {
    LastOfAppend(t, tag);
  }

  lemma RightRowsSnoc(t: seq<Tag>, tag: Tag)
    ensures RightRows(t + [tag]) == RightRows(t) + [RightRow(tag, |RightTexts(t)| + 1)]
  {
    LastOfAppend(t, tag);
  }

  lemma StatsSnoc(t: seq<Tag>, tag: Tag)
    ensures StatsOf(t + [tag]) == Bump(StatsOf(t), tag.kind)
  {
    LastOfAppend(t, tag);
  }

  /**
   * The body of the item loop of `renderDiff`: the two rows of one item and
   * the counters after it, by the type of the item's block.
   */
  method RenderItem(kind: Kind, item: Op, originalLineNum: nat, modifiedLineNum: nat)
    returns (l: Row, r: Row, nextOriginal: nat, nextModified: nat)
    ensures l == LeftRow(Tag(kind, item), originalLineNum) && r == RightRow(Tag(kind, item), modifiedLineNum)
    ensures nextOriginal == originalLineNum + (if kind == Added then 0 else 1)
    ensures nextModified == modifiedLineNum + (if kind == Removed then 0 else 1)
  {
    nextOriginal, nextModified := originalLineNum, modifiedLineNum;
    if kind == Added {
      l := Empty;
      r := Numbered(nextModified, item.modified, Added);
      nextModified := nextModified + 1;
    } else if kind == Removed {
      l := Numbered(nextOriginal, item.original, Removed);
      nextOriginal := nextOriginal + 1;
      r := Empty;
    } else if kind == Changed {
      l := Numbered(nextOriginal, item.original, Removed);
      nextOriginal := nextOriginal + 1;
      r := Numbered(nextModified, item.modified, Added);
      nextModified := nextModified + 1;
    } else {
      l := Numbered(nextOriginal, item.original, Equal);
      nextOriginal := nextOriginal + 1;
      r := Numbered(nextModified, item.modified, Equal);
      nextModified := nextModified + 1;
    }
  }

  /** The nested loops of `renderDiff`: two counters from 1, two columns and the counters of the summary. */
  method RenderDiff(diffBlocks: seq<Block>) returns (left: seq<Row>, right: seq<Row>, stats: Stats)
    ensures left == LeftRows(Tagged(diffBlocks)) && right == RightRows(Tagged(diffBlocks))
    ensures stats == StatsOf(Tagged(diffBlocks))
  {
    left, right := [], [];
    var originalLineNum, modifiedLineNum := 1, 1;
    stats := Stats(0, 0, 0, 0);
    ghost var t: seq<Tag> := [];
    for bi := 0 to |diffBlocks|
      invariant t == Tagged(diffBlocks[..bi])
      invariant left == LeftRows(t) && right == RightRows(t) && stats == StatsOf(t)
      invariant originalLineNum == |LeftTexts(t)| + 1 && modifiedLineNum == |RightTexts(t)| + 1
    {
      var block := diffBlocks[bi];
      ghost var done := t;
      assert block.items[..0] == [];
      for ii := 0 to |block.items|
        invariant t == done + TagItems(block.kind, block.items[..ii])
        invariant left == LeftRows(t) && right == RightRows(t) && stats == StatsOf(t)
        invariant originalLineNum == |LeftTexts(t)| + 1 && modifiedLineNum == |RightTexts(t)| + 1
      {
        var item := block.items[ii];
        var tag := Tag(block.kind, item);
        LeftRowsSnoc(t, tag);
        RightRowsSnoc(t, tag);
        StatsSnoc(t, tag);
        CollectSnoc(t, tag, LeftText);
        CollectSnoc(t, tag, RightText);
        var l, r, o, m := RenderItem(block.kind, item, originalLineNum, modifiedLineNum);
        left, right := left + [l], right + [r];
        originalLineNum, modifiedLineNum := o, m;
        stats := Bump(stats, block.kind);
        TagItemsSnoc(block.kind, block.items[..ii], item);
        PrefixSnoc(block.items, ii + 1);
        t := t + [tag];
      }
      assert block.items[..|block.items|] == block.items;
      PrefixSnoc(diffBlocks, bi + 1);
      TaggedSnoc(diffBlocks[..bi], block);
    }
    assert diffBlocks[..|diffBlocks|] == diffBlocks;
  }

  /** The left column shows exactly the left texts, in order, and has one row per item. */
  lemma {:induction false} LeftRowsShow(t: seq<Tag>)
    ensures |LeftRows(t)| == |t|
    ensures NumberedTexts(LeftRows(t)) == LeftTexts(t)
    decreases |t|
  {
    if t != [] {
      var t', tag := Init(t), Last(t);
      LeftRowsShow(t');
      assert t == t' + [tag];
      LeftRowsSnoc(t', tag);
      CollectSnoc(t', tag, LeftText);
      CollectSnoc(LeftRows(t'), LeftRow(tag, |LeftTexts(t')| + 1), RowText);
    }
  }

  /** The left column numbers its lines 1, 2, ... in order. */
  lemma {:induction false} LeftRowsNumbered(t: seq<Tag>)
    ensures NumberedNumbers(LeftRows(t)) == Iota(|LeftTexts(t)|)
    decreases |t|
  {
    if t != [] {
      var t', tag := Init(t), Last(t);
      LeftRowsNumbered(t');
      assert t == t' + [tag];
      LeftRowsSnoc(t', tag);
      CollectSnoc(t', tag, LeftText);
      CollectSnoc(LeftRows(t'), LeftRow(tag, |LeftTexts(t')| + 1), RowNumber);
      IotaSnoc(|LeftTexts(t')| + 1);
    }
  }

  /** The right column shows exactly the right texts, in order, and has one row per item. */
  lemma {:induction false} RightRowsShow(t: seq<Tag>)
    ensures |RightRows(t)| == |t|
    ensures NumberedTexts(RightRows(t)) == RightTexts(t)
    decreases |t|
  {
    if t != [] {
      var t', tag := Init(t), Last(t);
      RightRowsShow(t');
      assert t == t' + [tag];
      RightRowsSnoc(t', tag);
      CollectSnoc(t', tag, RightText);
      CollectSnoc(RightRows(t'), RightRow(tag, |RightTexts(t')| + 1), RowText);
    }
  }

  /** The right column numbers its lines 1, 2, ... in order. */
  lemma {:induction false} RightRowsNumbered(t: seq<Tag>)
    ensures NumberedNumbers(RightRows(t)) == Iota(|RightTexts(t)|)
    decreases |t|
  {
    if t != [] {
      var t', tag := Init(t), Last(t);
      RightRowsNumbered(t');
      assert t == t' + [tag];
      RightRowsSnoc(t', tag);
      CollectSnoc(t', tag, RightText);
      CollectSnoc(RightRows(t'), RightRow(tag, |RightTexts(t')| + 1), RowNumber);
      IotaSnoc(|RightTexts(t')| + 1);
    }
  }

  /** The counters add up: one per item, and each column numbers the items its counters cover. */
  lemma {:induction false} StatsCount(t: seq<Tag>)
    ensures var s := StatsOf(t);
      && s.added + s.removed + s.changed + s.same == |t|
      && |LeftTexts(t)| == s.removed + s.changed + s.same
      && |RightTexts(t)| == s.added + s.changed + s.same
    decreases |t|
  {
    if t != [] {
      var t', tag := Init(t), Last(t);
      StatsCount(t');
      assert t == t' + [tag];
      CollectSnoc(t', tag, LeftText);
      CollectSnoc(t', tag, RightText);
    }
  }

  // ---------------------------------------------------------------- views through the pipeline

  lemma TaggedSnoc(bs: seq<Block>, b: Block)
    ensures Tagged(bs + [b]) == Tagged(bs) + TagItems(b.kind, b.items)
  {
    LastOfAppend(bs, b);
  }

  lemma {:induction false} TaggedAppend(x: seq<Block>, y: seq<Block>)
    ensures Tagged(x + y) == Tagged(x) + Tagged(y)
    decreases |y|
  {
    if y == [] {
      assert x + y == x;
    } else {
      var y', z := Init(y), Last(y);
      TaggedAppend(x, y');
      assert y == y' + [z];
      assert x + y == (x + y') + [z];
      TaggedSnoc(x + y', z);
      TaggedSnoc(y', z);
    }
  }

  lemma TaggedCons(b: Block, rest: seq<Block>)
    ensures Tagged([b] + rest) == TagItems(b.kind, b.items) + Tagged(rest)
  {
    TaggedAppend([b], rest);
    LastOfAppend([], b);
    assert [b] == [] + [b];
  }

  function IsEqualTag(tag: Tag): Option<Tag> {
    if tag.kind == Equal then Some(tag) else None
  }

  /** How many items come from `equal` blocks. */
  function EqualTags(t: seq<Tag>): nat {
    |Collect(t, IsEqualTag)|
  }

  lemma {:induction false} StatsSame(t: seq<Tag>)
    ensures StatsOf(t).same == EqualTags(t)
    decreases |t|
  {
    if t != [] {
      StatsSame(Init(t));
      InitLast(t);
      CollectSnoc(Init(t), Last(t), IsEqualTag);
    }
  }

  function Originals(items: seq<Op>): (r: seq<string>)
    ensures |r| == |items| && forall k :: 0 <= k < |items| ==> r[k] == items[k].original
  {
    seq(|items|, k requires 0 <= k < |items| => items[k].original)
  }

  function Modifieds(items: seq<Op>): (r: seq<string>)
    ensures |r| == |items| && forall k :: 0 <= k < |items| ==> r[k] == items[k].modified
  {
    seq(|items|, k requires 0 <= k < |items| => items[k].modified)
  }

  lemma OriginalsSnoc(items: seq<Op>)
    requires items != []
    ensures Originals(items) == Originals(Init(items)) + [Last(items).original]
  {
  }

  lemma ModifiedsSnoc(items: seq<Op>)
    requires items != []
    ensures Modifieds(items) == Modifieds(Init(items)) + [Last(items).modified]
  {
  }

  lemma {:induction false} BlockLeft(kind: Kind, items: seq<Op>)
    ensures LeftTexts(TagItems(kind, items)) == (if kind == Added then [] else Originals(items))
    decreases |items|
  {
    if items != [] {
      BlockLeft(kind, Init(items));
      InitLast(items);
      TagItemsSnoc(kind, Init(items), Last(items));
      CollectSnoc(TagItems(kind, Init(items)), Tag(kind, Last(items)), LeftText);
      OriginalsSnoc(items);
    }
  }

  lemma {:induction false} BlockRight(kind: Kind, items: seq<Op>)
    ensures RightTexts(TagItems(kind, items)) == (if kind == Removed then [] else Modifieds(items))
    decreases |items|
  {
    if items != [] {
      BlockRight(kind, Init(items));
      InitLast(items);
      TagItemsSnoc(kind, Init(items), Last(items));
      CollectSnoc(TagItems(kind, Init(items)), Tag(kind, Last(items)), RightText);
      ModifiedsSnoc(items);
    }
  }

  lemma {:induction false} BlockEqual(kind: Kind, items: seq<Op>)
    ensures EqualTags(TagItems(kind, items)) == (if kind == Equal then |items| else 0)
    decreases |items|
  {
    if items != [] {
      BlockEqual(kind, Init(items));
      InitLast(items);
      TagItemsSnoc(kind, Init(items), Last(items));
      CollectSnoc(TagItems(kind, Init(items)), Tag(kind, Last(items)), IsEqualTag);
    }
  }

  /** The views of a block followed by more blocks. */
  lemma ConsViews(b: Block, rest: seq<Block>)
    ensures LeftTexts(Tagged([b] + rest)) == LeftTexts(TagItems(b.kind, b.items)) + LeftTexts(Tagged(rest))
    ensures RightTexts(Tagged([b] + rest)) == RightTexts(TagItems(b.kind, b.items)) + RightTexts(Tagged(rest))
    ensures EqualTags(Tagged([b] + rest)) == EqualTags(TagItems(b.kind, b.items)) + EqualTags(Tagged(rest))
  {
    TaggedCons(b, rest);
    CollectAppend(TagItems(b.kind, b.items), Tagged(rest), LeftText);
    CollectAppend(TagItems(b.kind, b.items), Tagged(rest), RightText);
    CollectAppend(TagItems(b.kind, b.items), Tagged(rest), IsEqualTag);
  }

  /** A changed block shows what the removed block and the added block showed. */
  lemma ChangedViews(r: Block, a: Block)
    requires r.kind == Removed && a.kind == Added && |r.items| == |a.items|
    ensures LeftTexts(TagItems(Changed, Paired(r.items, a.items)))
      == LeftTexts(TagItems(r.kind, r.items)) + LeftTexts(TagItems(a.kind, a.items))
    ensures RightTexts(TagItems(Changed, Paired(r.items, a.items)))
      == RightTexts(TagItems(r.kind, r.items)) + RightTexts(TagItems(a.kind, a.items))
    ensures EqualTags(TagItems(Changed, Paired(r.items, a.items))) == 0
    ensures EqualTags(TagItems(r.kind, r.items)) == 0 && EqualTags(TagItems(a.kind, a.items)) == 0
  {
    ChangedLeft(r, a);
    ChangedRight(r, a);
    var c := Paired(r.items, a.items);
    BlockEqual(Changed, c);
    BlockEqual(r.kind, r.items);
    BlockEqual(a.kind, a.items);
  }

  lemma ChangedLeft(r: Block, a: Block)
    requires r.kind == Removed && a.kind == Added && |r.items| == |a.items|
    ensures LeftTexts(TagItems(Changed, Paired(r.items, a.items)))
      == LeftTexts(TagItems(r.kind, r.items)) + LeftTexts(TagItems(a.kind, a.items))
  {
    var c := Paired(r.items, a.items);
    BlockLeft(Changed, c);
    BlockLeft(r.kind, r.items);
    BlockLeft(a.kind, a.items);
    assert Originals(c) == Originals(r.items) by {
      forall k | 0 <= k < |c|
        ensures Originals(c)[k] == Originals(r.items)[k]
      {
        assert c[k].original == r.items[k].original;
      }
    }
  }

  lemma ChangedRight(r: Block, a: Block)
    requires r.kind == Removed && a.kind == Added && |r.items| == |a.items|
    ensures RightTexts(TagItems(Changed, Paired(r.items, a.items)))
      == RightTexts(TagItems(r.kind, r.items)) + RightTexts(TagItems(a.kind, a.items))
  {
    var c := Paired(r.items, a.items);
    BlockRight(Changed, c);
    BlockRight(r.kind, r.items);
    BlockRight(a.kind, a.items);
    assert Modifieds(c) == Modifieds(a.items) by {
      forall k | 0 <= k < |c|
        ensures Modifieds(c)[k] == Modifieds(a.items)[k]
      {
        assert c[k].modified == a.items[k].modified;
      }
    }
  }

  /**
   * Promotion changes what the rendering shows nowhere: the same texts in
   * each column, and the same number of unchanged lines.
   */
  lemma PromotedViews(bs: seq<Block>)
    ensures LeftTexts(Tagged(Promoted(bs))) == LeftTexts(Tagged(bs))
    ensures RightTexts(Tagged(Promoted(bs))) == RightTexts(Tagged(bs))
    ensures EqualTags(Tagged(Promoted(bs))) == EqualTags(Tagged(bs))
  {
    PromotedLeft(bs);
    PromotedRight(bs);
    PromotedEqual(bs);
  }

  lemma {:induction false} PromotedLeft(bs: seq<Block>)
    ensures LeftTexts(Tagged(Promoted(bs))) == LeftTexts(Tagged(bs))
    decreases |bs|
  {
    if bs != [] {
      var b := bs[0];
      if PairsAt(bs, 0) {
        var b1, rest := bs[1], bs[2..];
        var c := Block(Changed, Paired(b.items, b1.items));
        calc {
          LeftTexts(Tagged(Promoted(bs)));
        == { assert Promoted(bs) == [c] + Promoted(rest); }
          LeftTexts(Tagged([c] + Promoted(rest)));
        == { ConsViews(c, Promoted(rest)); }
          LeftTexts(TagItems(c.kind, c.items)) + LeftTexts(Tagged(Promoted(rest)));
        == { PromotedLeft(rest); ChangedViews(b, b1); }
          (LeftTexts(TagItems(b.kind, b.items)) + LeftTexts(TagItems(b1.kind, b1.items))) + LeftTexts(Tagged(rest));
        == { Associative(LeftTexts(TagItems(b.kind, b.items)), LeftTexts(TagItems(b1.kind, b1.items)), LeftTexts(Tagged(rest))); }
          LeftTexts(TagItems(b.kind, b.items)) + (LeftTexts(TagItems(b1.kind, b1.items)) + LeftTexts(Tagged(rest)));
        == { ConsViews(b1, rest); HeadTail(bs[1..]); assert bs[1..][1..] == rest; }
          LeftTexts(TagItems(b.kind, b.items)) + LeftTexts(Tagged(bs[1..]));
        == { ConsViews(b, bs[1..]); HeadTail(bs); }
          LeftTexts(Tagged(bs));
        }
      } else {
        calc {
          LeftTexts(Tagged(Promoted(bs)));
        == { assert Promoted(bs) == [b] + Promoted(bs[1..]); }
          LeftTexts(Tagged([b] + Promoted(bs[1..])));
        == { ConsViews(b, Promoted(bs[1..])); }
          LeftTexts(TagItems(b.kind, b.items)) + LeftTexts(Tagged(Promoted(bs[1..])));
        == { PromotedLeft(bs[1..]); }
          LeftTexts(TagItems(b.kind, b.items)) + LeftTexts(Tagged(bs[1..]));
        == { ConsViews(b, bs[1..]); HeadTail(bs); }
          LeftTexts(Tagged(bs));
        }
      }
    }
  }

  lemma {:induction false} PromotedRight(bs: seq<Block>)
    ensures RightTexts(Tagged(Promoted(bs))) == RightTexts(Tagged(bs))
    decreases |bs|
  {
    if bs != [] {
      var b := bs[0];
      if PairsAt(bs, 0) {
        var b1, rest := bs[1], bs[2..];
        var c := Block(Changed, Paired(b.items, b1.items));
        calc {
          RightTexts(Tagged(Promoted(bs)));
        == { assert Promoted(bs) == [c] + Promoted(rest); }
          RightTexts(Tagged([c] + Promoted(rest)));
        == { ConsViews(c, Promoted(rest)); }
          RightTexts(TagItems(c.kind, c.items)) + RightTexts(Tagged(Promoted(rest)));
        == { PromotedRight(rest); ChangedViews(b, b1); }
          (RightTexts(TagItems(b.kind, b.items)) + RightTexts(TagItems(b1.kind, b1.items))) + RightTexts(Tagged(rest));
        == { Associative(RightTexts(TagItems(b.kind, b.items)), RightTexts(TagItems(b1.kind, b1.items)), RightTexts(Tagged(rest))); }
          RightTexts(TagItems(b.kind, b.items)) + (RightTexts(TagItems(b1.kind, b1.items)) + RightTexts(Tagged(rest)));
        == { ConsViews(b1, rest); HeadTail(bs[1..]); assert bs[1..][1..] == rest; }
          RightTexts(TagItems(b.kind, b.items)) + RightTexts(Tagged(bs[1..]));
        == { ConsViews(b, bs[1..]); HeadTail(bs); }
          RightTexts(Tagged(bs));
        }
      } else {
        calc {
          RightTexts(Tagged(Promoted(bs)));
        == { assert Promoted(bs) == [b] + Promoted(bs[1..]); }
          RightTexts(Tagged([b] + Promoted(bs[1..])));
        == { ConsViews(b, Promoted(bs[1..])); }
          RightTexts(TagItems(b.kind, b.items)) + RightTexts(Tagged(Promoted(bs[1..])));
        == { PromotedRight(bs[1..]); }
          RightTexts(TagItems(b.kind, b.items)) + RightTexts(Tagged(bs[1..]));
        == { ConsViews(b, bs[1..]); HeadTail(bs); }
          RightTexts(Tagged(bs));
        }
      }
    }
  }

  lemma {:induction false} PromotedEqual(bs: seq<Block>)
    ensures EqualTags(Tagged(Promoted(bs))) == EqualTags(Tagged(bs))
    decreases |bs|
  {
    if bs != [] {
      var b := bs[0];
      if PairsAt(bs, 0) {
        var b1, rest := bs[1], bs[2..];
        var c := Block(Changed, Paired(b.items, b1.items));
        calc {
          EqualTags(Tagged(Promoted(bs)));
        == { assert Promoted(bs) == [c] + Promoted(rest); }
          EqualTags(Tagged([c] + Promoted(rest)));
        == { ConsViews(c, Promoted(rest)); }
          EqualTags(TagItems(c.kind, c.items)) + EqualTags(Tagged(Promoted(rest)));
        == { PromotedEqual(rest); ChangedViews(b, b1); }
          EqualTags(TagItems(b.kind, b.items)) + (EqualTags(TagItems(b1.kind, b1.items)) + EqualTags(Tagged(rest)));
        == { ConsViews(b1, rest); HeadTail(bs[1..]); assert bs[1..][1..] == rest; }
          EqualTags(TagItems(b.kind, b.items)) + EqualTags(Tagged(bs[1..]));
        == { ConsViews(b, bs[1..]); HeadTail(bs); }
          EqualTags(Tagged(bs));
        }
      } else {
        calc {
          EqualTags(Tagged(Promoted(bs)));
        == { assert Promoted(bs) == [b] + Promoted(bs[1..]); }
          EqualTags(Tagged([b] + Promoted(bs[1..])));
        == { ConsViews(b, Promoted(bs[1..])); }
          EqualTags(TagItems(b.kind, b.items)) + EqualTags(Tagged(Promoted(bs[1..])));
        == { PromotedEqual(bs[1..]); }
          EqualTags(TagItems(b.kind, b.items)) + EqualTags(Tagged(bs[1..]));
        == { ConsViews(b, bs[1..]); HeadTail(bs); }
          EqualTags(Tagged(bs));
        }
      }
    }
  }

  /** Each op tagged with its own kind. */
  function SelfTagged(ops: seq<Op>): (r: seq<Tag>)
    ensures |r| == |ops| && forall k :: 0 <= k < |ops| ==> r[k] == Tag(ops[k].kind, ops[k])
  {
    seq(|ops|, k requires 0 <= k < |ops| => Tag(ops[k].kind, ops[k]))
  }

  lemma SelfTaggedSnoc(ops: seq<Op>)
    requires ops != []
    ensures SelfTagged(ops) == SelfTagged(Init(ops)) + [Tag(Last(ops).kind, Last(ops))]
  {
  }

  /** In the grouping every item sits in a block of its own kind. */
  lemma {:induction false} TaggedGrouped(ops: seq<Op>)
    ensures Tagged(Grouped(ops)) == SelfTagged(ops)
    decreases |ops|
  {
    if ops != [] {
      var bs := Grouped(Init(ops));
      var op := Last(ops);
      TaggedGrouped(Init(ops));
      SelfTaggedSnoc(ops);
      if bs != [] && Last(bs).kind == op.kind {
        var b := Block(op.kind, Last(bs).items + [op]);
        LastOfAppend(Init(bs), b);
        InitLast(bs);
        TagItemsSnoc(op.kind, Last(bs).items, op);
      } else {
        LastOfAppend(bs, Block(op.kind, [op]));
      }
    }
  }

  /** The ops follow the convention that line number 0 marks the missing side. */
  predicate Sided(ops: seq<Op>) {
    forall k :: 0 <= k < |ops| ==>
      (ops[k].kind == Added <==> ops[k].originalLine == 0) && (ops[k].kind == Removed <==> ops[k].modifiedLine == 0)
  }

  lemma {:induction false} SelfTaggedLeft(ops: seq<Op>)
    requires Sided(ops)
    ensures LeftTexts(SelfTagged(ops)) == OriginalTexts(ops)
    decreases |ops|
  {
    if ops != [] {
      SelfTaggedLeft(Init(ops));
      SelfTaggedSnoc(ops);
      CollectSnoc(SelfTagged(Init(ops)), Tag(Last(ops).kind, Last(ops)), LeftText);
    }
  }

  lemma {:induction false} SelfTaggedRight(ops: seq<Op>)
    requires Sided(ops)
    ensures RightTexts(SelfTagged(ops)) == ModifiedTexts(ops)
    decreases |ops|
  {
    if ops != [] {
      SelfTaggedRight(Init(ops));
      SelfTaggedSnoc(ops);
      CollectSnoc(SelfTagged(Init(ops)), Tag(Last(ops).kind, Last(ops)), RightText);
    }
  }

  lemma {:induction false} SelfTaggedEqual(ops: seq<Op>)
    ensures EqualTags(SelfTagged(ops)) == EqualCount(ops)
    decreases |ops|
  {
    if ops != [] {
      SelfTaggedEqual(Init(ops));
      SelfTaggedSnoc(ops);
      CollectSnoc(SelfTagged(Init(ops)), Tag(Last(ops).kind, Last(ops)),
        IsEqualTag);
    }
  }

  // ---------------------------------------------------------------- compare handler

  /** Both editors empty: the handler alerts and does nothing. */
  datatype CompareError = NothingToCompare

  /** What the compare handler leaves on screen. */
  datatype Comparison = Comparison(blocks: seq<Block>, left: seq<Row>, right: seq<Row>, stats: Stats)

  /** The two documents as the handler sees them: split on '\n', keyed by the normaliser. */
  function SideOf(text: string, ignoreWS: bool, ignoreCS: bool): (s: Side<string>)
    ensures s.Valid()
  {
    var lines := Split(text, '\n');
    Side(lines, Keys(lines, ignoreWS, ignoreCS))
  }

  /** The edit script of the handler's walk. */
  function DiffOf(originalText: string, modifiedText: string, ignoreWS: bool, ignoreCS: bool): seq<Op> {
    var a, b := SideOf(originalText, ignoreWS, ignoreCS), SideOf(modifiedText, ignoreWS, ignoreCS);
    Walk(a, b, |a.lines|, |b.lines|)
  }

  /** The blocks the handler renders. */
  function BlocksOf(originalText: string, modifiedText: string, ignoreWS: bool, ignoreCS: bool): seq<Block> {
    Promoted(Grouped(DiffOf(originalText, modifiedText, ignoreWS, ignoreCS)))
  }

  lemma WalkSided<K>(a: Side<K>, b: Side<K>)
    requires a.Valid() && b.Valid()
    ensures Sided(Walk(a, b, |a.lines|, |b.lines|))
  {
    WalkShape(a, b, |a.lines|, |b.lines|);
  }

  /**
   * End to end: the left column numbers the original document's lines
   * 1..n in order, the right column the modified document's, and the
   * unchanged counter is the length of a longest common subsequence of
   * the two key sequences.
   */
  lemma CompareShows(originalText: string, modifiedText: string, ignoreWS: bool, ignoreCS: bool)
    ensures var a, b := SideOf(originalText, ignoreWS, ignoreCS), SideOf(modifiedText, ignoreWS, ignoreCS);
      var t := Tagged(BlocksOf(originalText, modifiedText, ignoreWS, ignoreCS));
      var s := StatsOf(t);
      && NumberedTexts(LeftRows(t)) == a.lines && NumberedNumbers(LeftRows(t)) == Iota(|a.lines|)
      && NumberedTexts(RightRows(t)) == b.lines && NumberedNumbers(RightRows(t)) == Iota(|b.lines|)
      && |LeftRows(t)| == |RightRows(t)|
      && s.same == Table(a.keys, b.keys, |a.lines|, |b.lines|)
      && s.removed + s.changed + s.same == |a.lines|
      && s.added + s.changed + s.same == |b.lines|
  {
    var a, b := SideOf(originalText, ignoreWS, ignoreCS), SideOf(modifiedText, ignoreWS, ignoreCS);
    var ops := DiffOf(originalText, modifiedText, ignoreWS, ignoreCS);
    var t := Tagged(BlocksOf(originalText, modifiedText, ignoreWS, ignoreCS));
    WalkSided(a, b);
    WalkOriginalTexts(a, b, |a.lines|, |b.lines|);
    WalkModifiedTexts(a, b, |a.lines|, |b.lines|);
    WalkEqualCount(a, b, |a.lines|, |b.lines|);
    assert a.lines[..|a.lines|] == a.lines && b.lines[..|b.lines|] == b.lines;
    TaggedGrouped(ops);
    SelfTaggedLeft(ops);
    SelfTaggedRight(ops);
    SelfTaggedEqual(ops);
    PromotedViews(Grouped(ops));
    LeftRowsShow(t);
    LeftRowsNumbered(t);
    RightRowsShow(t);
    RightRowsNumbered(t);
    StatsCount(t);
    StatsSame(t);
  }

  /** The handler's `click` listener, with the screen as its result. */
  method Compare(originalText: string, modifiedText: string, ignoreWS: bool, ignoreCS: bool)
    returns (r: Result<Comparison, CompareError>)
    ensures r.Failure? <==> originalText == [] && modifiedText == []
    ensures r.Success? ==>
      var a, b := SideOf(originalText, ignoreWS, ignoreCS), SideOf(modifiedText, ignoreWS, ignoreCS);
      var c := r.value;
      && c.blocks == BlocksOf(originalText, modifiedText, ignoreWS, ignoreCS)
      && NumberedTexts(c.left) == Split(originalText, '\n') && NumberedNumbers(c.left) == Iota(|a.lines|)
      && NumberedTexts(c.right) == Split(modifiedText, '\n') && NumberedNumbers(c.right) == Iota(|b.lines|)
      && |c.left| == |c.right|
      && c.stats.same == Table(a.keys, b.keys, |a.lines|, |b.lines|)
      && c.stats.removed + c.stats.changed + c.stats.same == |a.lines|
      && c.stats.added + c.stats.changed + c.stats.same == |b.lines|
  {
    if originalText == [] && modifiedText == [] {
      return Failure(NothingToCompare);
    }
    var originalLines := Split(originalText, '\n');
    var modifiedLines := Split(modifiedText, '\n');
    var compareLines1 := Keys(originalLines, ignoreWS, ignoreCS);
    var compareLines2 := Keys(modifiedLines, ignoreWS, ignoreCS);
    var dp := Lcs(compareLines1, compareLines2);
    var diff := DiffWalk(Side(originalLines, compareLines1), Side(modifiedLines, compareLines2), dp);
    var diffBlocks := OptimizeDiff(diff);
    var optimizedBlocks := PromoteChanged(diffBlocks);
    var left, right, stats := RenderDiff(optimizedBlocks);
    CompareShows(originalText, modifiedText, ignoreWS, ignoreCS);
    r := Success(Comparison(optimizedBlocks, left, right, stats));
  }

  /**
   * Documents whose lines have the same keys, line for line (identical
   * texts, or texts the options make equal), compare as one unchanged block.
   */
  lemma SameKeysOneBlock(originalText: string, modifiedText: string, ignoreWS: bool, ignoreCS: bool)
    requires SideOf(originalText, ignoreWS, ignoreCS).keys == SideOf(modifiedText, ignoreWS, ignoreCS).keys
    ensures var a, b := SideOf(originalText, ignoreWS, ignoreCS), SideOf(modifiedText, ignoreWS, ignoreCS);
      BlocksOf(originalText, modifiedText, ignoreWS, ignoreCS)
      == [Block(Equal, seq(|a.lines|, k requires 0 <= k < |a.lines| => Op(Equal, a.lines[k], b.lines[k], k + 1, k + 1)))]
  {
    var a, b := SideOf(originalText, ignoreWS, ignoreCS), SideOf(modifiedText, ignoreWS, ignoreCS);
    assert BlocksOf(originalText, modifiedText, ignoreWS, ignoreCS) == Promoted(Grouped(Walk(a, b, |a.lines|, |b.lines|)));
    SameKeysBlocks(a, b);
  }

  /** Two sides with the same keys line for line make one unchanged block pairing line k with line k. */
  lemma SameKeysBlocks<K>(a: Side<K>, b: Side<K>)
    requires a.Valid() && b.Valid() && a.keys == b.keys && a.lines != []
    ensures Promoted(Grouped(Walk(a, b, |a.lines|, |b.lines|)))
      == [Block(Equal, seq(|a.lines|, k requires 0 <= k < |a.lines| => Op(Equal, a.lines[k], b.lines[k], k + 1, k + 1)))]
  {
    var n := |a.lines|;
    assert |b.lines| == n;
    var ops := Walk(a, b, n, n);
    var want := seq(|a.lines|, k requires 0 <= k < |a.lines| => Op(Equal, a.lines[k], b.lines[k], k + 1, k + 1));
    assert ops == want by {
      WalkSameKeys(a, b, n);
    }
    assert forall k :: 0 <= k < |want| ==> want[k].kind == Equal;
    AllEqualOneBlock(want);
  }

  /** A non-empty script of `equal` ops only is one block, which promotion leaves alone. */
  lemma {:induction false} AllEqualOneBlock(ops: seq<Op>)
    requires ops != [] && forall k :: 0 <= k < |ops| ==> ops[k].kind == Equal
    ensures Promoted(Grouped(ops)) == [Block(Equal, ops)]
  {
    var bs := [Block(Equal, ops)];
    assert Flatten(bs) == ops by {
      assert Init(bs) == [];
    }
    GroupedUnique(bs, ops);
    assert Promoted(bs) == [bs[0]] + Promoted(bs[1..]);
  }
}
