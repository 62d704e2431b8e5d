# Tree printer of the profiler's capture reader

This project models the `TreePrinter` of the easy_profiler capture reader
(`reader/main.cpp`). A capture is loaded into a flat **block table**. Each entry
of the table may hold a timed block (a name and a duration in ticks) and lists
its children as indices into the same table. Each thread contributes one **root
entry**, which has no block of its own and lists only the thread's top-level
indices. The printer walks each thread's tree depth first and pre-order. For
each block it appends one **row** to its `m_rows` list. A row holds:

- the block's name, indented by one tab per nesting level;
- its duration as a share of its parent's duration;
- its duration as a share of its subtree's root duration;
- the duration itself.

Both shares fall back to 100% when the divisor is zero.

Modules:

- `Blocks` (`blocks.dfy`): the arena. It holds `Entry(node: Option<Block>, children)` and `Root(children)`. It also defines `Ranked`, a witness that the child links are acyclic, so recursion over them terminates. `Contained` is the containment precondition under which every share is at most 100%.
- `Rows` (`rows.dfy`): a printable row. A percentage is `Hundred` or `Ratio(part, whole)`, and `whole` is positive by type. The 100% rule for a zero divisor therefore lives in the data, not in a floating-point value.
- `Traversal` (`traversal.dfy`): the reference definition of what the printer produces.
  - `Visit` gives the rows of one entry and its descendants under a context (level, parent duration, root duration).
  - `VisitChildren` gives the rows of the first `n` children.
  - `VisitTopLevel` and `Render` give the rows of one thread.
  - This module also proves lemmas about levels, prefixes, where a child's rows sit, top-level rows and the 100% bound.
- `Paths` (`paths.dfy`): characterises every row by the child-index path that reaches its block.
  - The row at a path carries that block, indented by the path's length.
  - An ancestor's row comes before its descendants' rows, and an earlier sibling's rows come before a later sibling's.
  - Distinct paths give distinct row positions, and every row position comes from some path. Row positions and block-bearing paths are therefore in one-to-one correspondence. An entry shared by several parents is reached by several paths, so equal rows can appear at different positions.
  - The parent duration is the parent entry's block duration, or 0 when the parent has no block.
  - In a thread's rendering, the root duration is the first non-zero block duration after the last block-less ancestor (counting from the top-level entry when there is none), or 0 if there is no such block. From an arbitrary context, a non-zero incoming root duration is kept until the first block-less ancestor.
- `Printer` (`printer.dfy`): the imperative `TreePrinter` class.
  - Its field `rows` is `m_rows`. `AddNewRow`, `PrintTree` and `Print` mirror `addNewRow`, `printTree` and `print`, including the source's loops.
  - Each method is proved to append exactly the reference rows.
  - `PrintThread` is the per-thread use in `main`: a fresh printer per thread.

The thread's root entry (`print`, lines 64-67) starts each top-level child at
level 0 with both durations 0 (`Print`, `Render`). A block-less entry inside the
table (lines 51-57) prints no row. Its children are visited at `level + 1` with
parent duration 0, and the root duration is reset to 0 (`Descend`'s `None` case
and `PrintTree`'s else branch; `BlocklessExample`).

## Model

| member | source | states |
|---|---|---|
| Printer.TreePrinter.constructor | reader/main.cpp:62 | a new printer shares the given table and has no rows yet |
| Printer.TreePrinter.AddNewRow | reader/main.cpp:31-34 | appends exactly one row, whose label is `level` tabs followed by the name, and leaves the earlier rows unchanged |
| Printer.TreePrinter.PrintTree | reader/main.cpp:36-58 | appends exactly the depth-first rows of entry `i` and all its descendants (`Visit`) under the given level, parent duration and root duration; earlier rows are kept |
| Printer.TreePrinter.Print | reader/main.cpp:64-67 | appends exactly the rows of every top-level child, in the root's order, each started at level 0 with both durations 0 (`Render`) |
| Printer.PrintThread | reader/main.cpp:128-132 | a fresh printer per thread yields exactly that thread's rendering, independent of other threads |
| Blocks.NodeDuration | reader/main.cpp:57 | defines the parent duration an entry hands to its children: its block's duration, or 0 without a block; `Paths.ParentDurIsParents` states its effect along a path |
| Rows.Percentage | reader/main.cpp:43-44 | the share is the 100% default exactly when the divisor is 0; otherwise it is the exact ratio of the duration to the divisor |
| Rows.Indent | reader/main.cpp:33 | a label is `level` characters longer than the name (one tab per level, see `Rows.IndentShape`) |
| Traversal.RowOf | reader/main.cpp:39-47 | defines the row of one block in a context: its level, its tab-indented name, the share of the parent duration, the share of the root duration and the duration; `Paths.RowAtPath` and `Traversal.RenderTopLevel` place it |
| Traversal.OwnRows | reader/main.cpp:39-54 | defines the rows an entry prints for itself: its block's row, or none for a block-less entry |
| Traversal.Descend | reader/main.cpp:48-57 | defines the context handed to children: one level deeper, the block's duration as parent (0 without a block), the root duration kept if set, set to the block's duration if not, and reset to 0 without a block; `Paths.LevelIsDepth`, `Paths.ParentDurIsParents` and `Paths.RootDurIsInherited` state its effect along a path |
| Traversal.Visit | reader/main.cpp:36-58 | defines the rows of one entry: its own rows, then the rows of each child in list order under the descended context; `Printer.TreePrinter.PrintTree` is proved to append exactly these |
| Traversal.VisitChildren | reader/main.cpp:56-57 | defines the rows of the first `n` children, in list order; `Traversal.VisitChildrenPrefix` and `Traversal.ChildRowsAt` state their layout |
| Traversal.VisitTopLevel | reader/main.cpp:66-67 | defines the rows of the first `n` top-level children, each from the top-level context; `Traversal.VisitTopLevelPrefix` and `Traversal.TopLevelRowsAt` state their layout |
| Traversal.Render | reader/main.cpp:64-67 | a thread with no top-level children renders no rows; otherwise the rows of all top-level children in order, which `Printer.TreePrinter.Print` is proved to append |
| Rows.Tabs | reader/main.cpp:33 | the indentation has length `n` and every character is a tab |
| Rows.IndentShape | reader/main.cpp:33 | the first `level` characters of a label are tabs and the rest is the name unchanged |
| Rows.PercentageBounded | reader/main.cpp:43-44 | a share is at most 100% exactly when the divisor is 0 or the part does not exceed it; a child that outlasts its parent shows more than 100% |
| Traversal.VisitLevels | reader/main.cpp:36-57 | every row produced below a context is at that context's level or deeper |
| Traversal.VisitChildrenLevels | reader/main.cpp:56-57 | the rows of the first `n` children are at the children's level or deeper |
| Traversal.VisitChildrenPrefix | reader/main.cpp:56-57 | the rows of the first `m` children are a prefix of the rows of the first `n >= m` children (rows are only appended) |
| Traversal.VisitTopLevelPrefix | reader/main.cpp:66-67 | the rows of the first `m` top-level children are a prefix of those of the first `n >= m` |
| Traversal.ChildRowsAt | reader/main.cpp:56-57 | child `k`'s rows form one contiguous block that starts right after the rows of children `0..k-1` |
| Traversal.TopLevelRowsAt | reader/main.cpp:66-67 | top-level child `k`'s rows form one contiguous block that starts right after the rows of the earlier top-level children |
| Traversal.RenderTopLevel | reader/main.cpp:36-67 | a top-level block's row is at level 0, labelled with its bare name, with both shares at 100% |
| Traversal.VisitPercentsBounded | reader/main.cpp:43-57 | if each child's duration is contained in its parent's (`Contained`) and the entry's own context fits it (`Fits`: its duration does not exceed a nonzero parent or root duration), then every share below the entry is at most 100% |
| Traversal.VisitChildrenPercentsBounded | reader/main.cpp:56-57 | under the same two conditions on the entry (`Contained`, `Fits`), every share in the rows of its children, visited in the descended context, is at most 100% |
| Traversal.RenderPercentsBounded | reader/main.cpp:36-67 | under containment, every share in a thread's rendering is at most 100% |
| Traversal.NestedExample | reader/main.cpp:36-58 | a 10,000,000-tick block A with a 2,500,000-tick child B renders as A at 100%/100% followed by a tab-indented B at 2.5M/10M for both shares |
| Traversal.SiblingsExample | reader/main.cpp:64-67 | two childless top-level blocks render as two level-0 rows at 100%/100%, in the root's order |
| Traversal.BlocklessExample | reader/main.cpp:51-57 | a block-less entry with one 5-tick child B prints only B, tab-indented at level 1, at 100% of both parent and root |
| Paths.Follow | reader/main.cpp:56-57 | following child indices from an entry stays inside the table whenever it succeeds |
| Paths.RowAtPath | reader/main.cpp:39-57 | the row at a path's position is the reached block's row under the context accumulated along the path |
| Paths.AncestorRowFirst | reader/main.cpp:39-57 | an ancestor's row comes strictly before every descendant's row (pre-order) |
| Paths.SiblingRowsOrdered | reader/main.cpp:56-57 | the rows under an earlier child of an entry come before those under a later child |
| Paths.EarlierChildRowFirst | reader/main.cpp:56-57 | below any common ancestor, the subtree of an earlier child is printed entirely before that of a later child |
| Paths.IndexInjective | reader/main.cpp:39-57 | two block-bearing paths that map to the same row position are equal |
| Paths.ChildOrigin | reader/main.cpp:56-57 | every position among the first `n` children's rows lies inside the rows of some child `k < n`, between the rows of children `0..k-1` and those of `0..k` |
| Paths.RowOrigin | reader/main.cpp:39-57 | every row produced comes from some block-bearing path, so the rows correspond one to one with such paths |
| Paths.LevelIsDepth | reader/main.cpp:36-57 | the level at a path is the starting level plus the path's length |
| Paths.ParentDurIsParents | reader/main.cpp:57 | the parent duration at a path is the parent entry's block duration, or 0 for a block-less parent |
| Paths.AfterLastReset | reader/main.cpp:53 | the ancestors after the last block-less one form a block-only suffix, and the entry just before that suffix is block-less |
| Paths.RootDurIsInherited | reader/main.cpp:48-57 | the root duration at a path is `InheritedRoot`: if some ancestor on the path has no block, the first non-zero block duration after the last such ancestor (0 if none); otherwise the incoming root duration if it is non-zero, else the first non-zero block duration on the path (0 if none) |
| Paths.RenderRowAt | reader/main.cpp:64-67 | in a thread's rendering, the row for a path below top-level child `k` carries that block, sits after the earlier top-level children's rows and has the path's length as its level |

## Left out

- `main` (lines 74-142) is not part of this model. That covers command-line parsing, the profiler enable toggle, wall-clock timing, loading the capture file, the thread header lines and dumping blocks to a file. Its per-thread use of a fresh printer is modelled by `PrintThread`.
- The capture loader (`fillTreesFromFile`) and the profiler's block types are not part of this model. Blocks are given as an already-loaded table: a name and a duration in ticks per entry.
- Floating-point arithmetic and stream formatting (lines 42-46) are not modelled. A share is the exact ratio `Ratio(part, whole)` or `Hundred`, not a rounded float times 100. The duration is kept in ticks, without the conversion to milliseconds or its decimal text.
- The loop that writes the rows to standard output (lines 69-70) is not modelled, because it is console I/O. The row list it prints is modelled.
- Rows: the source stores only the tab-indented name and a metrics string. The model also keeps the level beside them so that lemmas can state it.
- The source's `int` level and 64-bit timestamps are modelled as unbounded naturals. Overflow would need over 2^31 nesting levels or durations over 2^64 ticks.
- Acyclicity of the child links is an assumption of the source, which would recurse forever on a cycle. The model requires it explicitly through the `rank` witness (`Ranked`), passed as a ghost argument to the methods.
- Bounds on indices: the source indexes the table unchecked. The model requires every index to be in range (`Ranked`, `IndicesInRange`), so out-of-range access is not modelled.
