/** Where each printed row comes from. A path is a sequence of child positions
    leading down from an entry; the traversal prints exactly one row per path
    that ends at an entry with a block, in pre-order of the paths, and the row
    carries the depth of the path and the durations found along it. */
module Paths {
  import opened Blocks
  import opened Rows
  import opened Traversal

  /** The table index reached from entry `i` by taking, at each step, the child at the next position of `path`. */
  function Follow(blocks: seq<Entry>, i: nat, path: seq<nat>): (r: Option<nat>)
    ensures r.Some? ==> i < |blocks| && r.value < |blocks|
    decreases |path|
  {
    if i >= |blocks| then None
    else if path == [] then Some(i)
    else if path[0] < |blocks[i].children| then Follow(blocks, blocks[i].children[path[0]], path[1..])
    else None
  }

  /** `path` leads from entry `i` to an entry that has a block, and so prints a row. */
  predicate RowPath(blocks: seq<Entry>, i: nat, path: seq<nat>)
  {
    Follow(blocks, i, path).Some? && blocks[Follow(blocks, i, path).value].node.Some?
  }

  /** The block at the end of a row path. */
  function BlockAt(blocks: seq<Entry>, i: nat, path: seq<nat>): Block
    requires RowPath(blocks, i, path)
  {
    blocks[Follow(blocks, i, path).value].node.value
  }

  /** The context in which the entry at the end of `path` is visited when entry `i` is visited in `c`. */
  function ContextAt(blocks: seq<Entry>, i: nat, path: seq<nat>, c: Context): Context
    requires Follow(blocks, i, path).Some?
    decreases |path|
  {
    if path == [] then c
    else ContextAt(blocks, blocks[i].children[path[0]], path[1..], Descend(blocks[i], c))
  }

  /** The optional blocks of the entries strictly above the end of `path`, from `i` downwards. */
  function Trail(blocks: seq<Entry>, i: nat, path: seq<nat>): (t: seq<Option<Block>>)
    requires Follow(blocks, i, path).Some?
    ensures |t| == |path|
    decreases |path|
  {
    if path == [] then []
    else [blocks[i].node] + Trail(blocks, blocks[i].children[path[0]], path[1..])
  }

  /** The position, among the rows printed for entry `i`, of the row printed for the end of `path`. */
  function Index(blocks: seq<Entry>, rank: seq<nat>, i: nat, path: seq<nat>, c: Context): nat
    requires Ranked(blocks, rank) && Follow(blocks, i, path).Some?
    decreases |path|
  {
    if path == [] then 0
    else
      var d := Descend(blocks[i], c);
      |OwnRows(blocks[i], c)| + |VisitChildren(blocks, rank, i, path[0], d)|
        + Index(blocks, rank, blocks[i].children[path[0]], path[1..], d)
  }

  /** The row at position Index(path) is the row of the block at the end of `path`,
      printed in the context reached along `path`. */
  lemma {:induction false} RowAtPath(blocks: seq<Entry>, rank: seq<nat>, i: nat, path: seq<nat>, c: Context)
    requires Ranked(blocks, rank) && RowPath(blocks, i, path)
    ensures Index(blocks, rank, i, path, c) < |Visit(blocks, rank, i, c)|
    ensures Visit(blocks, rank, i, c)[Index(blocks, rank, i, path, c)]
         == RowOf(BlockAt(blocks, i, path), ContextAt(blocks, i, path, c))
    decreases |path|
  {
    if path != [] {
      var e := blocks[i];
      var d := Descend(e, c);
      var k := path[0];
      var child := e.children[k];
      RowAtPath(blocks, rank, child, path[1..], d);
      ChildRowsAt(blocks, rank, i, k, |e.children|, d, Index(blocks, rank, child, path[1..], d));
      assert BlockAt(blocks, i, path) == BlockAt(blocks, child, path[1..]);
    }
  }

  /** Each entry's row comes before the rows of its descendants (pre-order). */
  lemma {:induction false} AncestorRowFirst(blocks: seq<Entry>, rank: seq<nat>, i: nat, p: seq<nat>, q: seq<nat>, c: Context)
    requires Ranked(blocks, rank) && RowPath(blocks, i, p) && RowPath(blocks, i, p + q) && q != []
    ensures Index(blocks, rank, i, p, c) < Index(blocks, rank, i, p + q, c)
    decreases |p|
  {
    if p != [] {
      assert (p + q)[0] == p[0] && (p + q)[1..] == p[1..] + q;
      AncestorRowFirst(blocks, rank, blocks[i].children[p[0]], p[1..], q, Descend(blocks[i], c));
    }
  }

  /** Rows below an earlier child of entry `i` come before rows below a later child. */
  lemma SiblingRowsOrdered(blocks: seq<Entry>, rank: seq<nat>, i: nat, k1: nat, x: seq<nat>, k2: nat, y: seq<nat>, c: Context)
    requires Ranked(blocks, rank) && k1 < k2
    requires RowPath(blocks, i, [k1] + x) && RowPath(blocks, i, [k2] + y)
    ensures Index(blocks, rank, i, [k1] + x, c) < Index(blocks, rank, i, [k2] + y, c)
  {
    var e := blocks[i];
    var d := Descend(e, c);
    assert ([k1] + x)[0] == k1 && ([k1] + x)[1..] == x;
    assert ([k2] + y)[0] == k2 && ([k2] + y)[1..] == y;
    RowAtPath(blocks, rank, e.children[k1], x, d);
    VisitChildrenPrefix(blocks, rank, i, k1 + 1, k2, d);
  }

  /** Rows below an earlier child come before rows below a later child of the same entry,
      at any depth below `i`. */
  lemma {:induction false} EarlierChildRowFirst(blocks: seq<Entry>, rank: seq<nat>, i: nat, a: seq<nat>,
                                                k1: nat, x: seq<nat>, k2: nat, y: seq<nat>, c: Context)
    requires Ranked(blocks, rank) && k1 < k2
    requires RowPath(blocks, i, a + [k1] + x) && RowPath(blocks, i, a + [k2] + y)
    ensures Index(blocks, rank, i, a + [k1] + x, c) < Index(blocks, rank, i, a + [k2] + y, c)
    decreases |a|
  {
    if a == [] {
      assert a + [k1] + x == [k1] + x && a + [k2] + y == [k2] + y;
      SiblingRowsOrdered(blocks, rank, i, k1, x, k2, y, c);
    } else {
      var p, q := a + [k1] + x, a + [k2] + y;
      assert p[0] == a[0] && p[1..] == a[1..] + [k1] + x;
      assert q[0] == a[0] && q[1..] == a[1..] + [k2] + y;
      EarlierChildRowFirst(blocks, rank, blocks[i].children[a[0]], a[1..], k1, x, k2, y, Descend(blocks[i], c));
    }
  }

  /** Distinct row paths print distinct rows: Index is injective on row paths. */
  lemma {:induction false} IndexInjective(blocks: seq<Entry>, rank: seq<nat>, i: nat, p: seq<nat>, q: seq<nat>, c: Context)
    requires Ranked(blocks, rank) && RowPath(blocks, i, p) && RowPath(blocks, i, q)
    requires Index(blocks, rank, i, p, c) == Index(blocks, rank, i, q, c)
    ensures p == q
    decreases |p|
  {
    var e := blocks[i];
    var d := Descend(e, c);
    if p == [] || q == [] {
      // The row of `i` itself is at position 0 and every other row after it.
    } else if p[0] == q[0] {
      IndexInjective(blocks, rank, e.children[p[0]], p[1..], q[1..], d);
      assert p == [p[0]] + p[1..] && q == [q[0]] + q[1..];
    } else {
      assert p == [p[0]] + p[1..] && q == [q[0]] + q[1..];
      if p[0] < q[0] {
        SiblingRowsOrdered(blocks, rank, i, p[0], p[1..], q[0], q[1..], c);
      } else {
        SiblingRowsOrdered(blocks, rank, i, q[0], q[1..], p[0], p[1..], c);
      }
    }
  }

  /** The child among the first `n` of entry `i` whose rows hold position `j`. */
  lemma {:induction false} ChildOrigin(blocks: seq<Entry>, rank: seq<nat>, i: nat, n: nat, c: Context, j: nat) returns (k: nat)
    requires Ranked(blocks, rank) && i < |blocks| && n <= |blocks[i].children|
    requires j < |VisitChildren(blocks, rank, i, n, c)|
    ensures k < n
    ensures |VisitChildren(blocks, rank, i, k, c)| <= j < |VisitChildren(blocks, rank, i, k + 1, c)|
    decreases n
  {
    if j < |VisitChildren(blocks, rank, i, n - 1, c)| {
      k := ChildOrigin(blocks, rank, i, n - 1, c, j);
    } else {
      k := n - 1;
    }
  }

  /** Every printed row comes from some row path: Index maps row paths onto all positions. */
  lemma {:induction false} RowOrigin(blocks: seq<Entry>, rank: seq<nat>, i: nat, c: Context, j: nat) returns (path: seq<nat>)
    requires Ranked(blocks, rank) && i < |blocks| && j < |Visit(blocks, rank, i, c)|
    ensures RowPath(blocks, i, path) && Index(blocks, rank, i, path, c) == j
    decreases rank[i]
  {
    var e := blocks[i];
    var d := Descend(e, c);
    var own := |OwnRows(e, c)|;
    if j < own {
      path := [];
    } else {
      var k := ChildOrigin(blocks, rank, i, |e.children|, d, j - own);
      VisitChildrenPrefix(blocks, rank, i, k + 1, |e.children|, d);
      var before := |VisitChildren(blocks, rank, i, k, d)|;
      var sub := RowOrigin(blocks, rank, e.children[k], d, j - own - before);
      path := [k] + sub;
      assert path[0] == k && path[1..] == sub;
    }
  }

  /** The row printed at the end of a path is as deep as the path is long. */
  lemma {:induction false} LevelIsDepth(blocks: seq<Entry>, i: nat, path: seq<nat>, c: Context)
    requires Follow(blocks, i, path).Some?
    ensures ContextAt(blocks, i, path, c).level == c.level + |path|
    decreases |path|
  {
    if path != [] {
      LevelIsDepth(blocks, blocks[i].children[path[0]], path[1..], Descend(blocks[i], c));
    }
  }

  /** Below the starting entry, the parent duration is that of the parent entry's block, or 0 when it has none. */
  lemma {:induction false} ParentDurIsParents(blocks: seq<Entry>, i: nat, path: seq<nat>, c: Context)
    requires Follow(blocks, i, path).Some? && path != []
    ensures ContextAt(blocks, i, path, c).parentDur == NodeDuration(Trail(blocks, i, path)[|path| - 1])
    decreases |path|
  {
    if |path| > 1 {
      ParentDurIsParents(blocks, blocks[i].children[path[0]], path[1..], Descend(blocks[i], c));
    }
  }

  /** The first non-zero block duration of a trail, or 0 when there is none. */
  function FirstNonZero(t: seq<Option<Block>>): nat
  {
    if t == [] then 0
    else if NodeDuration(t[0]) != 0 then NodeDuration(t[0])
    else FirstNonZero(t[1..])
  }

  /** The part of a trail after its last entry without a block. */
  function AfterLastReset(t: seq<Option<Block>>): (s: seq<Option<Block>>)
    ensures None !in s && |s| <= |t| && s == t[|t| - |s|..]
    ensures |s| < |t| ==> t[|t| - |s| - 1] == None
  {
    if t == [] then []
    else if None in t[1..] then AfterLastReset(t[1..])
    else if t[0] == None then t[1..]
    else t
  }

  /** The root duration handed down a trail: after the last entry without a block,
      the first non-zero block duration; with no such entry, the incoming root
      duration if it is set, else the first non-zero block duration. */
  function InheritedRoot(rootDur: nat, t: seq<Option<Block>>): nat
  {
    if None in t then FirstNonZero(AfterLastReset(t))
    else if rootDur != 0 then rootDur
    else FirstNonZero(t)
  }

  /** The root duration a row is measured against is the one inherited along its path. */
  lemma {:induction false} RootDurIsInherited(blocks: seq<Entry>, i: nat, path: seq<nat>, c: Context)
    requires Follow(blocks, i, path).Some?
    ensures ContextAt(blocks, i, path, c).rootDur == InheritedRoot(c.rootDur, Trail(blocks, i, path))
    decreases |path|
  {
    if path != [] {
      var e := blocks[i];
      var child := e.children[path[0]];
      var t' := Trail(blocks, child, path[1..]);
      RootDurIsInherited(blocks, child, path[1..], Descend(e, c));
      assert Trail(blocks, i, path) == [e.node] + t';
      assert ([e.node] + t')[1..] == t';
    }
  }

  /** The rows of a thread, located by top-level position and path. */
  lemma RenderRowAt(blocks: seq<Entry>, rank: seq<nat>, root: Root, k: nat, path: seq<nat>)
    requires Ranked(blocks, rank) && IndicesInRange(blocks, root.children) && k < |root.children|
    requires RowPath(blocks, root.children[k], path)
    ensures var j := |VisitTopLevel(blocks, rank, root.children, k)| + Index(blocks, rank, root.children[k], path, TopLevel);
      && j < |Render(blocks, rank, root)|
      && Render(blocks, rank, root)[j] == RowOf(BlockAt(blocks, root.children[k], path), ContextAt(blocks, root.children[k], path, TopLevel))
      && Render(blocks, rank, root)[j].level == |path|
  {
    RowAtPath(blocks, rank, root.children[k], path, TopLevel);
    LevelIsDepth(blocks, root.children[k], path, TopLevel);
    TopLevelRowsAt(blocks, rank, root.children, k, |root.children|, Index(blocks, rank, root.children[k], path, TopLevel));
  }
}
