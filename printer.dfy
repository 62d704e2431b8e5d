/** The tree printer of the reader: walks the block table depth first and
    accumulates one report row per block in its `rows` field. */
module Printer {
  import opened Blocks
  import opened Rows
  import opened Traversal

  class TreePrinter {
    /** The block table, shared read-only. */
    const blocks: seq<Entry>
    /** The rows accumulated so far, in the order they will be printed. */
    var rows: seq<Row>

    constructor (blocks: seq<Entry>)
      ensures this.blocks == blocks && rows == []
    {
      this.blocks := blocks;
      rows := [];
    }

    /** Appends the row for a block named `name` at nesting `level`. */
    method AddNewRow(level: nat, name: string, info: Info)
      modifies this
      ensures rows == old(rows) + [Row(level, Indent(level, name), info)]
    {
      rows := rows + [Row(level, Indent(level, name), info)];
    }

    /** Prints entry `i` and, depth first, all its descendants. */
    method PrintTree(i: nat, level: nat, parentDur: nat, rootDur: nat, ghost rank: seq<nat>)
      requires Ranked(blocks, rank) && i < |blocks|
      modifies this
      ensures rows == old(rows) + Visit(blocks, rank, i, Context(level, parentDur, rootDur))
      decreases rank[i], 1
    {
      var tree := blocks[i];
      var rootDur' := rootDur;
      if tree.node.Some? {
        var b := tree.node.value;
        var percent := Percentage(b.duration, parentDur);
        var rpercent := Percentage(b.duration, rootDur');
        AddNewRow(level, b.name, Info(percent, rpercent, b.duration));
        if rootDur' == 0 {
          rootDur' := b.duration;
        }
      } else {
        rootDur' := 0;
      }
      var childParentDur := if tree.node.Some? then tree.node.value.duration else 0;
      ghost var c := Context(level + 1, childParentDur, rootDur');
      assert c == Descend(tree, Context(level, parentDur, rootDur));
      ghost var before := rows;
      assert before == old(rows) + OwnRows(tree, Context(level, parentDur, rootDur));
      var k := 0;
      while k < |tree.children|
        invariant k <= |tree.children|
        invariant rows == before + VisitChildren(blocks, rank, i, k, c)
      {
        ghost var done := VisitChildren(blocks, rank, i, k, c);
        ghost var next := Visit(blocks, rank, tree.children[k], c);
        PrintTree(tree.children[k], level + 1, childParentDur, rootDur', rank);
        assert rows == (before + done) + next;
        ConcatAssociates(before, done, next);
        k := k + 1;
      }
      ConcatAssociates(old(rows), OwnRows(tree, Context(level, parentDur, rootDur)), VisitChildren(blocks, rank, i, k, c));
    }

    /** Prints every top-level entry of one thread, in order, from the top-level context. */
    method Print(tree: Root, ghost rank: seq<nat>)
      requires Ranked(blocks, rank) && IndicesInRange(blocks, tree.children)
      modifies this
      ensures rows == old(rows) + Render(blocks, rank, tree)
    {
      ghost var before := rows;
      var k := 0;
      while k < |tree.children|
        invariant k <= |tree.children|
        invariant rows == before + VisitTopLevel(blocks, rank, tree.children, k)
      {
        ghost var done := VisitTopLevel(blocks, rank, tree.children, k);
        ghost var next := Visit(blocks, rank, tree.children[k], TopLevel);
        PrintTree(tree.children[k], 0, 0, 0, rank);
        ConcatAssociates(before, done, next);
        k := k + 1;
      }
    }
  }

  /** One thread's section of the report: a fresh printer over the shared table
      prints that thread's root, so its rows are exactly the thread's rendering,
      whatever other threads were printed before. */
  method PrintThread(blocks: seq<Entry>, tree: Root, ghost rank: seq<nat>) returns (rows: seq<Row>)
    requires Ranked(blocks, rank) && IndicesInRange(blocks, tree.children)
    ensures rows == Render(blocks, rank, tree)
  {
    var printer := new TreePrinter(blocks);
    printer.Print(tree, rank);
    rows := printer.rows;
  }
}
