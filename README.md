# Parallel graph traversal and array reductions, modelled in Dafny

This project models two programs from an OpenMP teaching repository.

The first is an undirected graph held as adjacency lists. It offers four
traversals from a source vertex: breadth-first search with a FIFO queue, a
level-by-level "parallel" breadth-first search, recursive depth-first search,
and a task-parallel depth-first search. Each one prints the vertices in the
order it visits them.

The second computes the minimum, maximum and sum of an integer array. It does so
once with the standard library and once with accumulator loops that carry an
OpenMP `reduction` clause.

Module layout:

- `Graphs` (graphs.dfy): the shared vocabulary.
  - Adjacency tables and visited flags.
  - Duplicate-free sequences.
  - Reachability within `k` steps, reachability, and shortest distance `Dist`.
  - The closure argument that a closed set of flags holding the source holds
    every reachable vertex.
- `BreadthFirst` (breadth_first.dfy): breadth-first search as a pure state
  machine over (flags, queue).
  - `Expand` is one pass over a neighbour list.
  - `Run` is the dequeue–emit–expand loop.
  - `Order` is the emitted sequence.
  - The emitted sequence is proved correct through a state invariant.
  - `ExpandAll` and `RunLevel` show that a level-by-level round gives the same
    output as the FIFO loop.
- `DepthFirst` (depth_first.dfy): recursive depth-first search as two mutually
  recursive functions, `Visit` and `Scan`, over the flags, with its
  correctness proof.
- `Traversal` (traversal.dfy): the `Graph` class.
  - Fields `V` and `adj`.
  - A constructor and `AddEdge`.
  - Each traversal as an imperative method over a `visited` array and a queue
    sequence, proved to emit exactly `BreadthFirst.Order` or
    `DepthFirst.Order`.
  - Printing is modelled by returning the printed vertices as a sequence
    (`out`).
- `Reductions` (reductions.dfy): the library one-liners as functions and the
  accumulator loops as methods. Each loop is proved to return what its
  one-liner returns.
- `Demo` (demo.dfy): the program's `main` for the graph, with the exact
  sequences its four traversals print.

### How the parallel code is modelled

Every parallel construct is modelled as a run on a single thread.

- An `omp parallel for` runs its iterations in index order.
- A `critical` section is one atomic step.
- An `omp task` runs to completion at the point where it is spawned.
- A `reduction` loop is the plain accumulator loop.

On a single thread, with every task run where it is spawned, the two
breadth-first searches emit the same sequence, and so do the two depth-first
searches. Both facts are proved. What remains unmodelled is under "Left out".

### How the level-by-level search behaves

The level-by-level search differs from a textbook level-synchronous search in
three ways, and the model follows the code in each:

- It pushes newly claimed vertices straight onto the queue it is draining,
  instead of building a separate next frontier.
- It claims a vertex with a flag check outside a critical section, repeated
  inside it.
- It dequeues each round with `for (i = 0; i < q.size(); ++i)` while popping.
  Because the bound shrinks as the index grows, a round that starts with `n`
  queued vertices takes only the first ⌈n/2⌉ of them
  (`Traversal.Graph.DequeueLevel`).

The batches are therefore not distance levels, and the model does not claim
they are. It proves instead that the output sequence equals the FIFO search's
output (`Traversal.Graph.ParallelBfs`). The distance property proved for that
sequence is that vertices are emitted in non-decreasing distance from the
source (`DistSorted`, in `BreadthFirst.OrderCorrect`).

### The demonstration run

`Demo` (demo.dfy) follows the program's `main`. `Demo.BuildDemo` builds the
nine-vertex graph with the constructor and the nine `AddEdge` calls.
`Demo.RunDemo` runs the four traversals on it and proves the exact sequences
they print: `0 1 2 3 4 5 6 7 8` for both breadth-first searches and
`0 1 4 7 6 3 8 5 2` for both depth-first searches. The search functions are
evaluated one dequeue or one visit at a time. The visited flags are written as
the set of vertices they hold (`Demo.Flags`), and each step is one lemma.

## Model

| member | source | states |
|---|---|---|
| Traversal.Graph.constructor | HPC/Assignment1.cpp:14-17 | a new graph has `V` vertices, each with an empty neighbour list, and satisfies the table invariant |
| Traversal.Graph.AddEdge | HPC/Assignment1.cpp:19-22 | `v` is appended to `u`'s list and `u` to `v`'s list, a self-loop appends `u` twice, every other list is unchanged, and the table stays well-formed and symmetric; the new table is `Traversal.WithEdge` of the old one |
| Traversal.WithEdgeValid | HPC/Assignment1.cpp:19-22 | adding an edge to any table keeps every listed neighbour a vertex, keeps the table symmetric, and leaves every list other than `u`'s and `v`'s as it was |
| Traversal.Graph.SequentialBfs | HPC/Assignment1.cpp:25-43 | the printed sequence is exactly the FIFO search order. It starts with the source, has no repeats and at most `V` entries, holds exactly the vertices reachable from the source, and is sorted by distance from the source |
| Traversal.Graph.ClaimNeighbours | HPC/Assignment1.cpp:36-41 | the neighbour loop leaves exactly the flags of one expansion pass and appends exactly the vertices it claims to the back of the queue, all in range |
| BreadthFirst.Expand | HPC/Assignment1.cpp:36-41 | one pass over a neighbour list queues only vertices in range, and the number of unvisited vertices drops by exactly the number queued |
| BreadthFirst.ExpandClaims | HPC/Assignment1.cpp:36-41 | a vertex is visited after the pass iff it was visited before or was queued by it; queued vertices are listed neighbours that were unvisited, each queued once; every listed neighbour ends visited |
| BreadthFirst.ExpandOne | HPC/Assignment1.cpp:36-41 | one iteration of the neighbour loop either skips a visited neighbour or claims and queues it, keeping the rest of the pass on course; claiming lowers the unvisited count by one |
| BreadthFirst.Start | HPC/Assignment1.cpp:26-29 | the starting flags have one entry per vertex and exactly the source set |
| BreadthFirst.Run | HPC/Assignment1.cpp:31-42 | the dequeue loop emits only vertices, and from a non-empty queue it emits the queue's front first; the rest of its properties are in `BreadthFirst.RunComplete` |
| BreadthFirst.RunOne | HPC/Assignment1.cpp:31-42 | one iteration of the dequeue loop: the search's output is the front vertex followed by the output from the expanded state |
| BreadthFirst.InitInv | HPC/Assignment1.cpp:26-29 | the starting state (only the source visited and queued, nothing printed) satisfies the search invariant |
| BreadthFirst.PushedAtNextDistance | HPC/Assignment1.cpp:36-41 | every vertex queued by expanding the front vertex was neither printed nor queued before, is reachable, and is exactly one step farther from the source than the front vertex |
| BreadthFirst.StepClaims | HPC/Assignment1.cpp:31-42 | one iteration keeps the bookkeeping invariant: visited means printed or queued, with no vertex twice, and every printed vertex has all neighbours visited |
| BreadthFirst.StepSorted | HPC/Assignment1.cpp:31-42 | one iteration keeps printed-then-queued vertices sorted by distance from the source |
| BreadthFirst.StepQueue | HPC/Assignment1.cpp:31-42 | after one iteration the queue's distances run from its front's distance to at most one more than the expanded vertex's distance |
| BreadthFirst.StepDist | HPC/Assignment1.cpp:31-42 | one iteration keeps the distance invariant: every vertex no farther than the queue front is already visited |
| BreadthFirst.StepInv | HPC/Assignment1.cpp:31-42 | one iteration of the dequeue loop preserves the whole search invariant |
| BreadthFirst.FinishInv | HPC/Assignment1.cpp:31 | when the queue is empty, the printed vertices are exactly the reachable ones, with no repeats |
| BreadthFirst.RunComplete | HPC/Assignment1.cpp:31-42 | running the loop to the end from any state satisfying the invariant prints exactly the reachable vertices, once each, in distance order |
| BreadthFirst.Order | HPC/Assignment1.cpp:25-43 | the breadth-first order starts with the source and lists only vertices; the rest of its properties are in `BreadthFirst.OrderCorrect` |
| BreadthFirst.OrderCorrect | HPC/Assignment1.cpp:25-43 | the breadth-first order starts with the source, has no repeats, has at most `V` entries, contains a vertex iff it is reachable, and is sorted by distance |
| Traversal.Graph.ParallelBfs | HPC/Assignment1.cpp:46-79 | the level-by-level variant, despite the half-draining dequeue loop, terminates and prints exactly the FIFO search order. So it starts with the source and prints each reachable vertex once and nothing else |
| Traversal.Graph.DequeueLevel | HPC/Assignment1.cpp:55-61 | the dequeue loop takes a prefix of the queue and leaves the rest queued; of `n` queued vertices it takes ⌈n/2⌉ |
| Traversal.Graph.ExpandLevel | HPC/Assignment1.cpp:63-77 | the parallel-for region, on one thread with the double flag check, leaves exactly the flags and queue of expanding the batch's vertices in order |
| Traversal.Graph.ClaimNeighboursCritical | HPC/Assignment1.cpp:65-74 | with the flag tested before and again inside the critical section, one thread's neighbour loop has the same effect as the sequential one: the flags and queued vertices of one expansion pass |
| BreadthFirst.ExpandAll | HPC/Assignment1.cpp:63-77 | expanding a batch queues only vertices in range; unvisited count plus queue length is unchanged by the round's expansion |
| BreadthFirst.RunLevel | HPC/Assignment1.cpp:52-78 | printing a batch taken off the front of the queue and then expanding it as one round yields the same output as the FIFO loop taking those vertices one by one |
| BreadthFirst.RoundStep | HPC/Assignment1.cpp:52-78 | a whole round in the middle of the search leaves the overall printed sequence unchanged |
| Traversal.Graph.SequentialDfsUtil | HPC/Assignment1.cpp:82-90 | the recursive visit leaves the flags and prints the sequence given by `DepthFirst.Visit` from the flags at entry |
| DepthFirst.Visit | HPC/Assignment1.cpp:82-90 | visiting never clears a flag and never raises the number of unvisited vertices |
| DepthFirst.Scan | HPC/Assignment1.cpp:85-89 | scanning a neighbour list never clears a flag and never raises the number of unvisited vertices |
| DepthFirst.ScanOne | HPC/Assignment1.cpp:85-89 | one iteration of the neighbour loop skips a visited neighbour or visits it and continues the scan from the resulting flags |
| DepthFirst.VisitClaims | HPC/Assignment1.cpp:82-90 | visiting an unvisited vertex prints it first, then exactly the vertices whose flags it sets, each once, all previously unvisited |
| DepthFirst.ScanClaims | HPC/Assignment1.cpp:85-89 | a scan prints exactly the vertices whose flags it sets, each once, and leaves every listed neighbour visited |
| DepthFirst.VisitClosed | HPC/Assignment1.cpp:82-90 | after a visit, every printed vertex has all its neighbours visited |
| DepthFirst.ScanClosed | HPC/Assignment1.cpp:85-89 | after a scan, every printed vertex has all its neighbours visited |
| DepthFirst.VisitGrown | HPC/Assignment1.cpp:82-90 | every vertex a visit prints after its root is a neighbour of a vertex printed earlier (a depth-first tree) |
| DepthFirst.ScanGrown | HPC/Assignment1.cpp:85-89 | every vertex a scan prints is a listed neighbour or a neighbour of a vertex printed earlier in the scan |
| DepthFirst.GrownJoin | HPC/Assignment1.cpp:85-89 | a visit of the first listed neighbour followed by a scan of the rest keeps that tree property |
| DepthFirst.Order | HPC/Assignment1.cpp:92-95 | the depth-first order starts with the source; the rest of its properties are in `DepthFirst.OrderCorrect` |
| DepthFirst.OrderCorrect | HPC/Assignment1.cpp:92-95 | the depth-first order starts with the source, has no repeats, has at most `V` entries, contains a vertex iff it is reachable, and every vertex after the source is a neighbour of one printed before it |
| Traversal.Graph.SequentialDfs | HPC/Assignment1.cpp:92-95 | prints exactly the depth-first order from fresh flags, with the properties above |
| Traversal.Graph.ParallelDfsUtil | HPC/Assignment1.cpp:98-128 | if `u` was already visited, nothing is printed and no flag changes; otherwise `u` is claimed and printed, and the flags and output are those of the sequential visit |
| Traversal.Graph.ParallelDfs | HPC/Assignment1.cpp:130-139 | prints exactly the sequential depth-first order: the source first, every reachable vertex once, nothing else, grown along edges |
| Demo.BuildDemo | HPC/Assignment1.cpp:143-152 | the graph built by the program's constructor call and nine `AddEdge` calls is valid and has the adjacency lists `[1,2,3]`, `[0,4,5]`, `[0]`, `[0,6]`, `[1,7]`, `[1]`, `[3,7]`, `[4,6,8]`, `[7]` |
| Demo.BuiltRows | HPC/Assignment1.cpp:143-152 | adding the program's nine edges in order to an empty nine-vertex table gives those adjacency lists |
| Demo.BfsDemo | HPC/Assignment1.cpp:158 | breadth-first search of that table from vertex 0 emits `0 1 2 3 4 5 6 7 8` |
| Demo.DfsDemo | HPC/Assignment1.cpp:170 | depth-first search of that table from vertex 0 emits `0 1 4 7 6 3 8 5 2` |
| Demo.RunDemo | HPC/Assignment1.cpp:142-178 | the program's four traversals from vertex 0 print `0 1 2 3 4 5 6 7 8` (both breadth-first searches) and `0 1 4 7 6 3 8 5 2` (both depth-first searches) |
| Reductions.StdMin | HPC/Assignment3.cpp:36 | the result is one of the two arguments and no larger than either |
| Reductions.StdMax | HPC/Assignment3.cpp:46 | the result is one of the two arguments and no smaller than either |
| Reductions.MinElement | HPC/Assignment3.cpp:12 | the position found is in range, holds a value no larger than any element, and is the first such position |
| Reductions.MaxElement | HPC/Assignment3.cpp:17 | the position found is in range, holds a value no smaller than any element, and is the first such position |
| Reductions.SequentialMin | HPC/Assignment3.cpp:10-13 | for a non-empty array, the result is an element and is ≤ every element |
| Reductions.SequentialMax | HPC/Assignment3.cpp:15-18 | for a non-empty array, the result is an element and is ≥ every element |
| Reductions.SequentialSum | HPC/Assignment3.cpp:20-23 | the sum of non-negative elements is non-negative; how sums split and how they are bounded are in `Reductions.SumConcat` and `Reductions.SumBounds` |
| Reductions.SumConcat | HPC/Assignment3.cpp:20-23 | the sum of a concatenation is the sum of the parts, so partial sums over any split combine to the total |
| Reductions.MinConcat | HPC/Assignment3.cpp:34 | the minimum of a concatenation is the smaller of the parts' minima, so per-thread minima combine to the overall minimum |
| Reductions.MaxConcat | HPC/Assignment3.cpp:44 | the maximum of a concatenation is the larger of the parts' maxima |
| Reductions.SumBounds | HPC/Assignment3.cpp:20-23 | a sum of `n` values within `[lo, hi]` lies within `[n·lo, n·hi]` |
| Reductions.DemoSumFits | HPC/Assignment3.cpp:68-74 | for 100000 values in `[0, 999]`, every partial sum is in `[0, 2^31)`, so the 32-bit accumulator never overflows on this data |
| Reductions.ParallelMin | HPC/Assignment3.cpp:31-39 | for a non-empty array, the accumulator loop starting from the first element returns the same value as the library minimum |
| Reductions.ParallelMax | HPC/Assignment3.cpp:41-49 | for a non-empty array, the accumulator loop returns the same value as the library maximum |
| Reductions.ParallelSum | HPC/Assignment3.cpp:51-59 | the accumulator loop starting at 0 returns the same value as the library sum, which is 0 for an empty array |

The members of `Graphs` are shared vocabulary and helper lemmas. They have no
rows: reachability within `k` steps, distance, the pigeonhole bound
`NoDupLength`, and the closure and tree arguments `ClosedHoldsReachable` and
`GrownIsReachable`. The step lemmas of `Demo` (`ClaimBfs…`, `BfsFrom…`,
`DfsScan…`, `DfsVisit…` and the general steps `RunStep`, `VisitStep`,
`ScanSkip` and `ScanVisit`) are helpers for `Demo.BfsDemo` and `Demo.DfsDemo`.

## Left out

- Concurrency: OpenMP threads, scheduling, `critical` sections, tasks and
  `taskwait`, and reductions across threads. Every parallel method is modelled
  as a run on one thread in program order, and interleavings are not explored.
  In the level-by-level search, `q.size()` is re-read only in the serial
  dequeue loop (HPC/Assignment1.cpp:56-61). That loop finishes before the
  parallel-for (lines 63-77) pushes onto the queue (line 72). What can differ
  between runs is the order of the pushes inside the parallel-for. That
  changes which vertices later batches hold and the output order, but not
  the batch size ⌈n/2⌉. The flag read outside the critical section (line 67)
  is unsynchronised. The model covers only the single-thread schedule.
  `Reductions.MinConcat`, `Reductions.MaxConcat` and `Reductions.SumConcat`
  state why splitting a reduction into chunks does not change its value.
- Range checks: the code checks neither the vertex ids given to `addEdge` nor
  the source of a traversal, and indexing out of range is undefined
  behaviour. `Traversal.Graph.AddEdge` and every traversal therefore require
  their vertices to be in range.
- Printing: `cout` text, separators and the "Time" lines. A traversal's output is
  the sequence of vertices it prints.
- Timing (`omp_get_wtime`) and speed-up ratios. They are wall-clock and floating
  point.
- `sequentialAverage` and `parallelAverage` (HPC/Assignment3.cpp:25-28, 61-65).
  They use `double` division.
- Array initialisation with `rand()` in HPC/Assignment3.cpp `main`. It uses an
  external generator. `Reductions.DemoSumFits` covers the value range it
  produces.
- Templates: the reductions are modelled for `int` elements only, which is
  the one instantiation the program uses.
- Reductions.SequentialSum: does not model 32-bit signed overflow. Integers are
  unbounded here. `Reductions.DemoSumFits` shows the program's own data stays
  within range.
- Reductions.ParallelSum: does not model 32-bit signed overflow (see above).
- Reductions.SequentialMin and Reductions.SequentialMax: the library call on an
  empty array dereferences the end iterator (undefined behaviour), so a
  non-empty array is required. The same holds for `ParallelMin` and
  `ParallelMax`, which read `arr[0]`.
- Traversal.Graph.constructor: a negative vertex count is excluded (`V` is a
  `nat`). The code would pass it to `resize`.
- Traversal.Graph.ParallelBfs: its contract does not restate distance
  ordering. Distance ordering follows from its equality with
  `BreadthFirst.Order` and `BreadthFirst.OrderCorrect`. Its batches are not
  distance levels, and nothing is claimed about them.
