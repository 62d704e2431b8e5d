/** The block table of one capture: a flat, index-addressed arena of entries,
    each holding an optional timed block and the table indices of its children,
    plus the root entry of one thread, which has children but no block. */
module Blocks {

  datatype Option<+T> = None | Some(value: T)

  /** One timed span of execution: its display name and its duration in ticks. */
  datatype Block = Block(name: string, duration: nat)

  /** An entry of the block table. `node` is absent for a pure container. */
  datatype Entry = Entry(node: Option<Block>, children: seq<nat>)

  /** The synthetic top of one thread's forest: top-level table indices only. */
  datatype Root = Root(children: seq<nat>)

  /** The duration an entry hands to its children as their parent duration. */
  function NodeDuration(node: Option<Block>): nat
  {
    match node
    case Some(b) => b.duration
    case None => 0
  }

  /** Every child index lies inside the table. */
  predicate IndicesInRange(blocks: seq<Entry>, cs: seq<nat>)
  {
    forall k :: 0 <= k < |cs| ==> cs[k] < |blocks|
  }

  /** `rank` witnesses that the child relation is acyclic: every child index is in
      range and strictly lower in rank than its parent entry. */
  predicate Ranked(blocks: seq<Entry>, rank: seq<nat>)
  {
    && |rank| == |blocks|
    && forall e, k :: 0 <= e < |blocks| && 0 <= k < |blocks[e].children| ==>
         blocks[e].children[k] < |blocks| && rank[blocks[e].children[k]] < rank[e]
  }

  /** Children are contained in time within their parent block: a block-bearing
      child never lasts longer than its block-bearing parent. */
  predicate Contained(blocks: seq<Entry>)
  {
    forall e, k :: 0 <= e < |blocks| && 0 <= k < |blocks[e].children| ==>
      var c := blocks[e].children[k];
      c < |blocks| && blocks[e].node.Some? && blocks[c].node.Some? ==>
        blocks[c].node.value.duration <= blocks[e].node.value.duration
  }
}
