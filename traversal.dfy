/** The reference definition of the tree traversal: the rows that printing one
    entry, the first children of an entry, or a whole thread appends, in order. */
module Traversal {
  import opened Blocks
  import opened Rows

  /** The values carried into the visit of one entry: its nesting level, the
      duration of its parent block and the duration of the subtree's root block
      (0 when there is none). */
  datatype Context = Context(level: nat, parentDur: nat, rootDur: nat)

  /** Top-level entries of a thread start at level 0 with neither parent nor root. */
  const TopLevel := Context(0, 0, 0)

  /** The row printed for block `b` visited in context `c`. */
  function RowOf(b: Block, c: Context): Row
  {
    Row(c.level, Indent(c.level, b.name),
        Info(Percentage(b.duration, c.parentDur), Percentage(b.duration, c.rootDur), b.duration))
  }

  /** The rows an entry prints for itself: one when it has a block, none otherwise. */
  function OwnRows(e: Entry, c: Context): seq<Row>
  {
    match e.node
    case Some(b) => [RowOf(b, c)]
    case None => []
  }

  /** The context an entry hands to each of its children. A block passes its own
      duration as parent duration and establishes the root duration if none was
      set; an entry without a block passes 0 for both. */
  function Descend(e: Entry, c: Context): Context
  {
    match e.node
    case Some(b) => Context(c.level + 1, b.duration, if c.rootDur == 0 then b.duration else c.rootDur)
    case None => Context(c.level + 1, 0, 0)
  }

  /** The rows appended when entry `i` is printed in context `c`. */
  function Visit(blocks: seq<Entry>, rank: seq<nat>, i: nat, c: Context): seq<Row>
    requires Ranked(blocks, rank) && i < |blocks|
    decreases rank[i], 1
  {
    OwnRows(blocks[i], c)
      + VisitChildren(blocks, rank, i, |blocks[i].children|, Descend(blocks[i], c))
  }

  /** The rows appended when the first `n` children of entry `i` are printed, in
      list order, each in context `c`. */
  function VisitChildren(blocks: seq<Entry>, rank: seq<nat>, i: nat, n: nat, c: Context): seq<Row>
    requires Ranked(blocks, rank) && i < |blocks| && n <= |blocks[i].children|
    decreases rank[i], 0, n
  {
    if n == 0 then []
    else VisitChildren(blocks, rank, i, n - 1, c) + Visit(blocks, rank, blocks[i].children[n - 1], c)
  }

  /** The rows appended when the first `n` top-level entries `roots` of a thread are printed. */
  function VisitTopLevel(blocks: seq<Entry>, rank: seq<nat>, roots: seq<nat>, n: nat): seq<Row>
    requires Ranked(blocks, rank) && IndicesInRange(blocks, roots) && n <= |roots|
  {
    if n == 0 then []
    else VisitTopLevel(blocks, rank, roots, n - 1) + Visit(blocks, rank, roots[n - 1], TopLevel)
  }

  /** The rows of one thread: all its top-level entries, in order. */
  function Render(blocks: seq<Entry>, rank: seq<nat>, root: Root): (r: seq<Row>)
    requires Ranked(blocks, rank) && IndicesInRange(blocks, root.children)
    ensures root.children == [] ==> r == []
  {
    VisitTopLevel(blocks, rank, root.children, |root.children|)
  }

  /** Taking a prefix of a concatenation that ends inside its first part. */
  lemma PrefixOfConcat<T>(a: seq<T>, b: seq<T>, m: nat)
    requires m <= |a|
    ensures (a + b)[..m] == a[..m]
  {
  }

  /** Concatenation is associative. */
  lemma ConcatAssociates<T>(a: seq<T>, b: seq<T>, c: seq<T>)
    ensures (a + b) + c == a + (b + c)
  {
  }

  /** Every row printed for entry `i` is at the entry's level or deeper. */
  lemma {:induction false} VisitLevels(blocks: seq<Entry>, rank: seq<nat>, i: nat, c: Context)
    requires Ranked(blocks, rank) && i < |blocks|
    ensures forall r :: r in Visit(blocks, rank, i, c) ==> r.level >= c.level
    decreases rank[i], 1
  {
    VisitChildrenLevels(blocks, rank, i, |blocks[i].children|, Descend(blocks[i], c));
  }

  lemma {:induction false} VisitChildrenLevels(blocks: seq<Entry>, rank: seq<nat>, i: nat, n: nat, c: Context)
    requires Ranked(blocks, rank) && i < |blocks| && n <= |blocks[i].children|
    ensures forall r :: r in VisitChildren(blocks, rank, i, n, c) ==> r.level >= c.level
    decreases rank[i], 0, n
  {
    if n > 0 {
      VisitChildrenLevels(blocks, rank, i, n - 1, c);
      VisitLevels(blocks, rank, blocks[i].children[n - 1], c);
    }
  }

  /** Children are printed in list order: the rows of the first `m` children are
      exactly the beginning of the rows of the first `n`, for any `m <= n`. */
  lemma {:induction false} VisitChildrenPrefix(blocks: seq<Entry>, rank: seq<nat>, i: nat, m: nat, n: nat, c: Context)
    requires Ranked(blocks, rank) && i < |blocks| && m <= n <= |blocks[i].children|
    ensures |VisitChildren(blocks, rank, i, m, c)| <= |VisitChildren(blocks, rank, i, n, c)|
    ensures VisitChildren(blocks, rank, i, n, c)[..|VisitChildren(blocks, rank, i, m, c)|]
         == VisitChildren(blocks, rank, i, m, c)
    decreases n
  {
    if m < n {
      VisitChildrenPrefix(blocks, rank, i, m, n - 1, c);
      PrefixOfConcat(VisitChildren(blocks, rank, i, n - 1, c), Visit(blocks, rank, blocks[i].children[n - 1], c),
                     |VisitChildren(blocks, rank, i, m, c)|);
    }
  }

  /** Top-level entries are printed in list order, as for children. */
  lemma {:induction false} VisitTopLevelPrefix(blocks: seq<Entry>, rank: seq<nat>, roots: seq<nat>, m: nat, n: nat)
    requires Ranked(blocks, rank) && IndicesInRange(blocks, roots) && m <= n <= |roots|
    ensures |VisitTopLevel(blocks, rank, roots, m)| <= |VisitTopLevel(blocks, rank, roots, n)|
    ensures VisitTopLevel(blocks, rank, roots, n)[..|VisitTopLevel(blocks, rank, roots, m)|]
         == VisitTopLevel(blocks, rank, roots, m)
    decreases n
  {
    if m < n {
      VisitTopLevelPrefix(blocks, rank, roots, m, n - 1);
      PrefixOfConcat(VisitTopLevel(blocks, rank, roots, n - 1), Visit(blocks, rank, roots[n - 1], TopLevel),
                     |VisitTopLevel(blocks, rank, roots, m)|);
    }
  }

  /** The rows of child `k` of entry `i` sit, contiguously and in their own order,
      right after the rows of the children before it. */
  lemma {:induction false} ChildRowsAt(blocks: seq<Entry>, rank: seq<nat>, i: nat, k: nat, n: nat, c: Context, j: nat)
    requires Ranked(blocks, rank) && i < |blocks| && k < n <= |blocks[i].children|
    requires j < |Visit(blocks, rank, blocks[i].children[k], c)|
    ensures var at := |VisitChildren(blocks, rank, i, k, c)| + j;
      && at < |VisitChildren(blocks, rank, i, n, c)|
      && VisitChildren(blocks, rank, i, n, c)[at] == Visit(blocks, rank, blocks[i].children[k], c)[j]
    decreases n
  {
    var last := Visit(blocks, rank, blocks[i].children[n - 1], c);
    var rest := VisitChildren(blocks, rank, i, n - 1, c);
    var all := VisitChildren(blocks, rank, i, n, c);
    var at := |VisitChildren(blocks, rank, i, k, c)| + j;
    assert all == rest + last;
    if k + 1 < n {
      ChildRowsAt(blocks, rank, i, k, n - 1, c, j);
      assert at < |rest| && all[at] == rest[at];
    } else {
      assert at - |rest| == j && all[at] == last[j];
    }
  }

  /** The rows of top-level entry `k` sit, contiguously and in their own order,
      right after the rows of the top-level entries before it. */
  lemma {:induction false} TopLevelRowsAt(blocks: seq<Entry>, rank: seq<nat>, roots: seq<nat>, k: nat, n: nat, j: nat)
    requires Ranked(blocks, rank) && IndicesInRange(blocks, roots) && k < n <= |roots|
    requires j < |Visit(blocks, rank, roots[k], TopLevel)|
    ensures var at := |VisitTopLevel(blocks, rank, roots, k)| + j;
      && at < |VisitTopLevel(blocks, rank, roots, n)|
      && VisitTopLevel(blocks, rank, roots, n)[at] == Visit(blocks, rank, roots[k], TopLevel)[j]
    decreases n
  {
    var last := Visit(blocks, rank, roots[n - 1], TopLevel);
    var rest := VisitTopLevel(blocks, rank, roots, n - 1);
    var all := VisitTopLevel(blocks, rank, roots, n);
    var at := |VisitTopLevel(blocks, rank, roots, k)| + j;
    assert all == rest + last;
    if k + 1 < n {
      TopLevelRowsAt(blocks, rank, roots, k, n - 1, j);
      assert at < |rest| && all[at] == rest[at];
    } else {
      assert at - |rest| == j && all[at] == last[j];
    }
  }

  /** A top-level block of a thread is printed at level 0, unindented, with both
      percentages at the 100% default, right after the rows of the earlier
      top-level entries. */
  lemma RenderTopLevel(blocks: seq<Entry>, rank: seq<nat>, root: Root, k: nat)
    requires Ranked(blocks, rank) && IndicesInRange(blocks, root.children)
    requires k < |root.children| && blocks[root.children[k]].node.Some?
    ensures var j := |VisitTopLevel(blocks, rank, root.children, k)|;
      var b := blocks[root.children[k]].node.value;
      && j < |Render(blocks, rank, root)|
      && Render(blocks, rank, root)[j] == Row(0, b.name, Info(Hundred, Hundred, b.duration))
  {
    TopLevelRowsAt(blocks, rank, root.children, k, |root.children|, 0);
  }

  /** The context entry `e` is visited in fits it: its block lasts no longer than the
      parent and root durations it is measured against. */
  predicate Fits(e: Entry, c: Context)
  {
    e.node.Some? ==>
      (c.parentDur == 0 || e.node.value.duration <= c.parentDur) &&
      (c.rootDur == 0 || e.node.value.duration <= c.rootDur)
  }

  /** When children are contained in their parents, no printed percentage exceeds 100%. */
  lemma {:induction false} VisitPercentsBounded(blocks: seq<Entry>, rank: seq<nat>, i: nat, c: Context)
    requires Ranked(blocks, rank) && Contained(blocks) && i < |blocks| && Fits(blocks[i], c)
    ensures forall r :: r in Visit(blocks, rank, i, c) ==>
      AtMostHundred(r.info.percent) && AtMostHundred(r.info.rootPercent)
    decreases rank[i], 1
  {
    VisitChildrenPercentsBounded(blocks, rank, i, |blocks[i].children|, c);
  }

  /** The children of an entry visited in a context that fits it print no percentage above 100%. */
  lemma {:induction false} VisitChildrenPercentsBounded(blocks: seq<Entry>, rank: seq<nat>, i: nat, n: nat, c: Context)
    requires Ranked(blocks, rank) && Contained(blocks) && i < |blocks| && n <= |blocks[i].children|
    requires Fits(blocks[i], c)
    ensures forall r :: r in VisitChildren(blocks, rank, i, n, Descend(blocks[i], c)) ==>
      AtMostHundred(r.info.percent) && AtMostHundred(r.info.rootPercent)
    decreases rank[i], 0, n
  {
    if n > 0 {
      var child := blocks[i].children[n - 1];
      assert child < |blocks|;
      assert Fits(blocks[child], Descend(blocks[i], c));
      VisitChildrenPercentsBounded(blocks, rank, i, n - 1, c);
      VisitPercentsBounded(blocks, rank, child, Descend(blocks[i], c));
    }
  }

  /** Printing a thread never shows a percentage above 100% when children are contained in their parents. */
  lemma {:induction false} RenderPercentsBounded(blocks: seq<Entry>, rank: seq<nat>, roots: seq<nat>, n: nat)
    requires Ranked(blocks, rank) && Contained(blocks) && IndicesInRange(blocks, roots) && n <= |roots|
    ensures forall r :: r in VisitTopLevel(blocks, rank, roots, n) ==>
      AtMostHundred(r.info.percent) && AtMostHundred(r.info.rootPercent)
  {
    if n > 0 {
      RenderPercentsBounded(blocks, rank, roots, n - 1);
      VisitPercentsBounded(blocks, rank, roots[n - 1], TopLevel);
    }
  }

  /** A thread with one top-level block "A" of 10 ms holding one block "B" of 2.5 ms
      (durations in nanosecond ticks): "A" shows 100% twice, "B" one tab deeper and
      a quarter of "A" against both its parent and its root. */
  lemma NestedExample()
    ensures Render([Entry(Some(Block("A", 10000000)), [1]), Entry(Some(Block("B", 2500000)), [])], [1, 0], Root([0]))
         == [Row(0, "A", Info(Hundred, Hundred, 10000000)),
             Row(1, "\tB", Info(Ratio(2500000, 10000000), Ratio(2500000, 10000000), 2500000))]
  {
    var blocks := [Entry(Some(Block("A", 10000000)), [1]), Entry(Some(Block("B", 2500000)), [])];
    var rank := [1, 0];
    var rowA := Row(0, "A", Info(Hundred, Hundred, 10000000));
    var rowB := Row(1, "\tB", Info(Ratio(2500000, 10000000), Ratio(2500000, 10000000), 2500000));
    var inA := Descend(blocks[0], TopLevel);
    assert inA == Context(1, 10000000, 10000000);
    assert Tabs(1) == Tabs(0) + ['\t'] == "\t";
    assert Indent(0, "A") == "A" && Indent(1, "B") == "\tB";
    assert OwnRows(blocks[1], inA) == [RowOf(Block("B", 2500000), inA)] == [rowB];
    assert OwnRows(blocks[0], TopLevel) == [RowOf(Block("A", 10000000), TopLevel)] == [rowA];
    assert Visit(blocks, rank, 1, inA) == [rowB] + VisitChildren(blocks, rank, 1, 0, Descend(blocks[1], inA)) == [rowB];
    assert VisitChildren(blocks, rank, 0, 1, inA) == VisitChildren(blocks, rank, 0, 0, inA) + [rowB] == [rowB];
    assert Visit(blocks, rank, 0, TopLevel) == [rowA, rowB];
    assert VisitTopLevel(blocks, rank, [0], 1) == VisitTopLevel(blocks, rank, [0], 0) + [rowA, rowB];
  }

  /** Two top-level blocks without children each show 100% twice, in list order. */
  lemma SiblingsExample()
    ensures Render([Entry(Some(Block("X", 5000000)), []), Entry(Some(Block("Y", 5000000)), [])], [0, 0], Root([0, 1]))
         == [Row(0, "X", Info(Hundred, Hundred, 5000000)), Row(0, "Y", Info(Hundred, Hundred, 5000000))]
  {
    var blocks := [Entry(Some(Block("X", 5000000)), []), Entry(Some(Block("Y", 5000000)), [])];
    var rank := [0, 0];
    var rowX := Row(0, "X", Info(Hundred, Hundred, 5000000));
    var rowY := Row(0, "Y", Info(Hundred, Hundred, 5000000));
    assert Tabs(0) == [];
    assert Indent(0, "X") == "X" && Indent(0, "Y") == "Y";
    assert OwnRows(blocks[0], TopLevel) == [RowOf(Block("X", 5000000), TopLevel)] == [rowX];
    assert OwnRows(blocks[1], TopLevel) == [RowOf(Block("Y", 5000000), TopLevel)] == [rowY];
    assert Visit(blocks, rank, 0, TopLevel) == [rowX] + VisitChildren(blocks, rank, 0, 0, Descend(blocks[0], TopLevel)) == [rowX];
    assert Visit(blocks, rank, 1, TopLevel) == [rowY] + VisitChildren(blocks, rank, 1, 0, Descend(blocks[1], TopLevel)) == [rowY];
    assert VisitTopLevel(blocks, rank, [0, 1], 1) == VisitTopLevel(blocks, rank, [0, 1], 0) + [rowX] == [rowX];
    assert VisitTopLevel(blocks, rank, [0, 1], 2) == [rowX] + [rowY];
  }

  /** An entry without a block prints no row; its child is printed one level
      deeper, with no parent and no root to be measured against, so at 100% twice. */
  lemma BlocklessExample()
    ensures Render([Entry(None, [1]), Entry(Some(Block("B", 5)), [])], [1, 0], Root([0]))
         == [Row(1, "\tB", Info(Hundred, Hundred, 5))]
  {
    var blocks := [Entry(None, [1]), Entry(Some(Block("B", 5)), [])];
    var rank := [1, 0];
    var rowB := Row(1, "\tB", Info(Hundred, Hundred, 5));
    var inner := Descend(blocks[0], TopLevel);
    assert inner == Context(1, 0, 0);
    assert Tabs(1) == Tabs(0) + ['\t'] == "\t";
    assert Indent(1, "B") == "\tB";
    assert OwnRows(blocks[1], inner) == [RowOf(Block("B", 5), inner)] == [rowB];
    assert Visit(blocks, rank, 1, inner) == [rowB] + VisitChildren(blocks, rank, 1, 0, Descend(blocks[1], inner)) == [rowB];
    assert VisitChildren(blocks, rank, 0, 1, inner) == VisitChildren(blocks, rank, 0, 0, inner) + [rowB] == [rowB];
    assert Visit(blocks, rank, 0, TopLevel) == [] + [rowB];
    assert VisitTopLevel(blocks, rank, [0], 1) == VisitTopLevel(blocks, rank, [0], 0) + [rowB];
  }
}
