/** The demonstration run: the nine-vertex graph built edge by edge, and the
    sequences the four searches print for it from vertex 0. The searches are
    evaluated one dequeue or one visit at a time, with the visited flags written
    as the set of vertices they hold. */
module Demo {
  import opened Graphs
  import BreadthFirst
  import DepthFirst
  import Traversal

  /** The order breadth-first search prints from vertex 0. */
  const BfsOutput: seq<int> := [0, 1, 2, 3, 4, 5, 6, 7, 8]

  /** The order depth-first search prints from vertex 0. */
  const DfsOutput: seq<int> := [0, 1, 4, 7, 6, 3, 8, 5, 2]

  /** Flags with exactly the vertices of `S` set. */
  function Flags(n: nat, S: set<int>): (f: seq<bool>)
    ensures |f| == n && forall x :: 0 <= x < n ==> (f[x] <==> x in S)
  {
    seq(n, x => x in S)
  }

  /** Setting one more flag adds that vertex to the set. */
  lemma FlagsAdd(n: nat, S: set<int>, v: int)
    requires 0 <= v < n
    ensures Flags(n, S)[v := true] == Flags(n, S + {v})
  {
    assert forall x :: 0 <= x < n ==> Flags(n, S)[v := true][x] == Flags(n, S + {v})[x];
  }

  /** The flags at the start of breadth-first search hold only the source. */
  lemma StartFlags(n: nat, s: int)
    requires 0 <= s < n
    ensures BreadthFirst.Start(n, s) == Flags(n, {s})
  {
    assert forall x :: 0 <= x < n ==> BreadthFirst.Start(n, s)[x] == Flags(n, {s})[x];
  }

  /** A pass over `nbrs` with the vertices of `S` visited: the visited set
      afterwards and the vertices claimed, in list order. */
  function Claim(nbrs: seq<int>, S: set<int>): (r: (set<int>, seq<int>))
    ensures S <= r.0
    ensures forall x :: x in r.1 ==> x in nbrs && x !in S
  {
    if nbrs == [] then (S, [])
    else if nbrs[0] in S then Claim(nbrs[1..], S)
    else
      var r := Claim(nbrs[1..], S + {nbrs[0]});
      (r.0, [nbrs[0]] + r.1)
  }

  /** A pass over flags written as a set claims what `Claim` claims. */
  lemma {:induction false} ExpandFlags(nbrs: seq<int>, n: nat, S: set<int>)
    requires AllBelow(nbrs, n)
    ensures BreadthFirst.Expand(nbrs, Flags(n, S)) == (Flags(n, Claim(nbrs, S).0), Claim(nbrs, S).1)
    decreases |nbrs|
  {
    if nbrs != [] {
      if nbrs[0] in S {
        ExpandFlags(nbrs[1..], n, S);
      } else {
        FlagsAdd(n, S, nbrs[0]);
        ExpandFlags(nbrs[1..], n, S + {nbrs[0]});
      }
    }
  }

  /** One dequeue of breadth-first search, with flags written as a set: the front
      vertex is emitted, and the search goes on from visited set `S1` and queue `q1`. */
  lemma RunStep(g: Adjacency, n: nat, S: set<int>, q: seq<int>, nbrs: seq<int>, S1: set<int>, c: seq<int>, q1: seq<int>)
    requires WellFormed(g) && |g| == n && AllBelow(q, n) && q != [] && g[q[0]] == nbrs
    requires Claim(nbrs, S).0 == S1 && Claim(nbrs, S).1 == c && q[1..] + c == q1
    ensures AllBelow(q1, n)
    ensures BreadthFirst.Run(g, Flags(n, S), q) == [q[0]] + BreadthFirst.Run(g, Flags(n, S1), q1)
  {
    ExpandFlags(nbrs, n, S);
    BreadthFirst.RunOne(g, Flags(n, S), q, []);
  }

  /** The demonstration table after the nine edges are added in program order,
      described row by row. */
  predicate TableRows(g: Adjacency) {
    |g| == 9 && g[0] == [1, 2, 3] && g[1] == [0, 4, 5] && g[2] == [0] && g[3] == [0, 6] &&
    g[4] == [1, 7] && g[5] == [1] && g[6] == [3, 7] && g[7] == [4, 6, 8] && g[8] == [7]
  }

  /** Every listed neighbour in the demonstration table is one of its nine vertices. */
  lemma RowsWellFormed(g: Adjacency)
    requires TableRows(g)
    ensures WellFormed(g)
  {
  }

  /** A non-empty slice is its first element followed by the rest. */
  lemma Cons(s: seq<int>, a: nat, b: nat, x: int)
    requires a < b <= |s| && s[a] == x
    ensures s[a..b] == [x] + s[a + 1..b]
  {
  }

  /** A non-empty suffix is its first element followed by the rest. */
  lemma ConsTail(s: seq<int>, a: nat, x: int)
    requires a < |s| && s[a] == x
    ensures s[a..] == [x] + s[a + 1..]
  {
  }

  /** Adjacent slices join into one. */
  lemma Join(s: seq<int>, a: nat, b: nat, c: nat)
    requires a <= b <= c <= |s|
    ensures s[a..b] + s[b..c] == s[a..c]
  {
  }

  /** Visiting `u`: its flag is set, it is emitted, and its neighbour list is
      scanned from there. */
  lemma VisitStep(g: Adjacency, n: nat, u: int, S: set<int>, Su: set<int>, vis1: seq<bool>, o: seq<int>)
    requires WellFormed(g) && |g| == n && 0 <= u < n && S + {u} == Su
    requires DepthFirst.Scan(g, g[u], Flags(n, Su)) == (vis1, o)
    ensures DepthFirst.Visit(g, u, Flags(n, S)) == (vis1, [u] + o)
  {
    FlagsAdd(n, S, u);
  }

  /** A scan passes over a neighbour that is already visited. */
  lemma ScanSkip(g: Adjacency, nbrs: seq<int>, rest: seq<int>, vis: seq<bool>, vis1: seq<bool>, o: seq<int>)
    requires WellFormed(g) && |vis| == |g| && AllBelow(nbrs, |g|) && nbrs != [] && nbrs[1..] == rest && vis[nbrs[0]]
    requires DepthFirst.Scan(g, rest, vis) == (vis1, o)
    ensures DepthFirst.Scan(g, nbrs, vis) == (vis1, o)
  {
  }

  /** A scan visits a neighbour that is not yet visited, then goes on with the rest. */
  lemma ScanVisit(g: Adjacency, nbrs: seq<int>, rest: seq<int>, vis: seq<bool>, vis1: seq<bool>, o1: seq<int>, vis2: seq<bool>, o2: seq<int>)
    requires WellFormed(g) && |vis| == |g| && AllBelow(nbrs, |g|) && nbrs != [] && nbrs[1..] == rest && !vis[nbrs[0]]
    requires DepthFirst.Visit(g, nbrs[0], vis) == (vis1, o1)
    requires DepthFirst.Scan(g, rest, vis1) == (vis2, o2)
    ensures DepthFirst.Scan(g, nbrs, vis) == (vis2, o1 + o2)
  {
  }

  // Breadth-first search from vertex 0, one dequeue per lemma: `ClaimBfs<i>` is
  // the neighbour pass of the i-th dequeued vertex, and `BfsFrom<i>` states the
  // output from the state before that dequeue, as a suffix of `BfsOutput`.

  lemma ClaimBfs8()
    ensures Claim([7], {0, 1, 2, 3, 4, 5, 6, 7, 8}).0 == {0, 1, 2, 3, 4, 5, 6, 7, 8}
    ensures Claim([7], {0, 1, 2, 3, 4, 5, 6, 7, 8}).1 == []
  {
    assert [7][1..] == [];
  }

  lemma BfsFrom8(g: Adjacency)
    requires TableRows(g)
    ensures BreadthFirst.Run(g, Flags(9, {0, 1, 2, 3, 4, 5, 6, 7, 8}), [8]) == BfsOutput[8..]
  {
    ConsTail(BfsOutput, 8, 8);
    RowsWellFormed(g);
    ClaimBfs8();
    assert g[8] == [7] && [8][1..] + [] == [] && AllBelow([8], 9);
    RunStep(g, 9, {0, 1, 2, 3, 4, 5, 6, 7, 8}, [8], [7], {0, 1, 2, 3, 4, 5, 6, 7, 8}, [], []);
    assert BfsOutput[9..] == [];
  }

  lemma ClaimBfs7()
    ensures Claim([4, 6, 8], {0, 1, 2, 3, 4, 5, 6, 7}).0 == {0, 1, 2, 3, 4, 5, 6, 7, 8}
    ensures Claim([4, 6, 8], {0, 1, 2, 3, 4, 5, 6, 7}).1 == [8]
  {
    assert [8][1..] == [] && {0, 1, 2, 3, 4, 5, 6, 7} + {8} == {0, 1, 2, 3, 4, 5, 6, 7, 8};
    assert Claim([8], {0, 1, 2, 3, 4, 5, 6, 7}).0 == {0, 1, 2, 3, 4, 5, 6, 7, 8} && Claim([8], {0, 1, 2, 3, 4, 5, 6, 7}).1 == [8];
    assert [6, 8][1..] == [8];
    assert Claim([6, 8], {0, 1, 2, 3, 4, 5, 6, 7}).0 == {0, 1, 2, 3, 4, 5, 6, 7, 8} && Claim([6, 8], {0, 1, 2, 3, 4, 5, 6, 7}).1 == [8];
    assert [4, 6, 8][1..] == [6, 8];
  }

  lemma BfsFrom7(g: Adjacency)
    requires TableRows(g)
    ensures BreadthFirst.Run(g, Flags(9, {0, 1, 2, 3, 4, 5, 6, 7}), [7]) == BfsOutput[7..]
  {
    ConsTail(BfsOutput, 7, 7);
    RowsWellFormed(g);
    ClaimBfs7();
    assert g[7] == [4, 6, 8] && [7][1..] + [8] == [8] && AllBelow([7], 9);
    RunStep(g, 9, {0, 1, 2, 3, 4, 5, 6, 7}, [7], [4, 6, 8], {0, 1, 2, 3, 4, 5, 6, 7, 8}, [8], [8]);
    BfsFrom8(g);
  }

  lemma ClaimBfs6()
    ensures Claim([3, 7], {0, 1, 2, 3, 4, 5, 6, 7}).0 == {0, 1, 2, 3, 4, 5, 6, 7}
    ensures Claim([3, 7], {0, 1, 2, 3, 4, 5, 6, 7}).1 == []
  {
    assert [7][1..] == [];
    assert Claim([7], {0, 1, 2, 3, 4, 5, 6, 7}).0 == {0, 1, 2, 3, 4, 5, 6, 7} && Claim([7], {0, 1, 2, 3, 4, 5, 6, 7}).1 == [];
    assert [3, 7][1..] == [7];
  }

  lemma BfsFrom6(g: Adjacency)
    requires TableRows(g)
    ensures BreadthFirst.Run(g, Flags(9, {0, 1, 2, 3, 4, 5, 6, 7}), [6, 7]) == BfsOutput[6..]
  {
    ConsTail(BfsOutput, 6, 6);
    RowsWellFormed(g);
    ClaimBfs6();
    assert g[6] == [3, 7] && [6, 7][1..] + [] == [7] && AllBelow([6, 7], 9);
    RunStep(g, 9, {0, 1, 2, 3, 4, 5, 6, 7}, [6, 7], [3, 7], {0, 1, 2, 3, 4, 5, 6, 7}, [], [7]);
    BfsFrom7(g);
  }

  lemma ClaimBfs5()
    ensures Claim([1], {0, 1, 2, 3, 4, 5, 6, 7}).0 == {0, 1, 2, 3, 4, 5, 6, 7}
    ensures Claim([1], {0, 1, 2, 3, 4, 5, 6, 7}).1 == []
  {
    assert [1][1..] == [];
  }

  lemma BfsFrom5(g: Adjacency)
    requires TableRows(g)
    ensures BreadthFirst.Run(g, Flags(9, {0, 1, 2, 3, 4, 5, 6, 7}), [5, 6, 7]) == BfsOutput[5..]
  {
    ConsTail(BfsOutput, 5, 5);
    RowsWellFormed(g);
    ClaimBfs5();
    assert g[5] == [1] && [5, 6, 7][1..] + [] == [6, 7] && AllBelow([5, 6, 7], 9);
    RunStep(g, 9, {0, 1, 2, 3, 4, 5, 6, 7}, [5, 6, 7], [1], {0, 1, 2, 3, 4, 5, 6, 7}, [], [6, 7]);
    BfsFrom6(g);
  }

  lemma ClaimBfs4()
    ensures Claim([1, 7], {0, 1, 2, 3, 4, 5, 6}).0 == {0, 1, 2, 3, 4, 5, 6, 7}
    ensures Claim([1, 7], {0, 1, 2, 3, 4, 5, 6}).1 == [7]
  {
    assert [7][1..] == [] && {0, 1, 2, 3, 4, 5, 6} + {7} == {0, 1, 2, 3, 4, 5, 6, 7};
    assert Claim([7], {0, 1, 2, 3, 4, 5, 6}).0 == {0, 1, 2, 3, 4, 5, 6, 7} && Claim([7], {0, 1, 2, 3, 4, 5, 6}).1 == [7];
    assert [1, 7][1..] == [7];
  }

  lemma BfsFrom4(g: Adjacency)
    requires TableRows(g)
    ensures BreadthFirst.Run(g, Flags(9, {0, 1, 2, 3, 4, 5, 6}), [4, 5, 6]) == BfsOutput[4..]
  {
    ConsTail(BfsOutput, 4, 4);
    RowsWellFormed(g);
    ClaimBfs4();
    assert g[4] == [1, 7] && [4, 5, 6][1..] + [7] == [5, 6, 7] && AllBelow([4, 5, 6], 9);
    RunStep(g, 9, {0, 1, 2, 3, 4, 5, 6}, [4, 5, 6], [1, 7], {0, 1, 2, 3, 4, 5, 6, 7}, [7], [5, 6, 7]);
    BfsFrom5(g);
  }

  lemma ClaimBfs3()
    ensures Claim([0, 6], {0, 1, 2, 3, 4, 5}).0 == {0, 1, 2, 3, 4, 5, 6}
    ensures Claim([0, 6], {0, 1, 2, 3, 4, 5}).1 == [6]
  {
    assert [6][1..] == [] && {0, 1, 2, 3, 4, 5} + {6} == {0, 1, 2, 3, 4, 5, 6};
    assert Claim([6], {0, 1, 2, 3, 4, 5}).0 == {0, 1, 2, 3, 4, 5, 6} && Claim([6], {0, 1, 2, 3, 4, 5}).1 == [6];
    assert [0, 6][1..] == [6];
  }

  lemma BfsFrom3(g: Adjacency)
    requires TableRows(g)
    ensures BreadthFirst.Run(g, Flags(9, {0, 1, 2, 3, 4, 5}), [3, 4, 5]) == BfsOutput[3..]
  {
    ConsTail(BfsOutput, 3, 3);
    RowsWellFormed(g);
    ClaimBfs3();
    assert g[3] == [0, 6] && [3, 4, 5][1..] + [6] == [4, 5, 6] && AllBelow([3, 4, 5], 9);
    RunStep(g, 9, {0, 1, 2, 3, 4, 5}, [3, 4, 5], [0, 6], {0, 1, 2, 3, 4, 5, 6}, [6], [4, 5, 6]);
    BfsFrom4(g);
  }

  lemma ClaimBfs2()
    ensures Claim([0], {0, 1, 2, 3, 4, 5}).0 == {0, 1, 2, 3, 4, 5}
    ensures Claim([0], {0, 1, 2, 3, 4, 5}).1 == []
  {
    assert [0][1..] == [];
  }

  lemma BfsFrom2(g: Adjacency)
    requires TableRows(g)
    ensures BreadthFirst.Run(g, Flags(9, {0, 1, 2, 3, 4, 5}), [2, 3, 4, 5]) == BfsOutput[2..]
  {
    ConsTail(BfsOutput, 2, 2);
    RowsWellFormed(g);
    ClaimBfs2();
    assert g[2] == [0] && [2, 3, 4, 5][1..] + [] == [3, 4, 5] && AllBelow([2, 3, 4, 5], 9);
    RunStep(g, 9, {0, 1, 2, 3, 4, 5}, [2, 3, 4, 5], [0], {0, 1, 2, 3, 4, 5}, [], [3, 4, 5]);
    BfsFrom3(g);
  }

  lemma ClaimBfs1()
    ensures Claim([0, 4, 5], {0, 1, 2, 3}).0 == {0, 1, 2, 3, 4, 5}
    ensures Claim([0, 4, 5], {0, 1, 2, 3}).1 == [4, 5]
  {
    assert [5][1..] == [] && {0, 1, 2, 3, 4} + {5} == {0, 1, 2, 3, 4, 5};
    assert Claim([5], {0, 1, 2, 3, 4}).0 == {0, 1, 2, 3, 4, 5} && Claim([5], {0, 1, 2, 3, 4}).1 == [5];
    assert [4, 5][1..] == [5] && {0, 1, 2, 3} + {4} == {0, 1, 2, 3, 4};
    assert Claim([4, 5], {0, 1, 2, 3}).0 == {0, 1, 2, 3, 4, 5} && Claim([4, 5], {0, 1, 2, 3}).1 == [4, 5];
    assert [0, 4, 5][1..] == [4, 5];
  }

  lemma BfsFrom1(g: Adjacency)
    requires TableRows(g)
    ensures BreadthFirst.Run(g, Flags(9, {0, 1, 2, 3}), [1, 2, 3]) == BfsOutput[1..]
  {
    ConsTail(BfsOutput, 1, 1);
    RowsWellFormed(g);
    ClaimBfs1();
    assert g[1] == [0, 4, 5] && [1, 2, 3][1..] + [4, 5] == [2, 3, 4, 5] && AllBelow([1, 2, 3], 9);
    RunStep(g, 9, {0, 1, 2, 3}, [1, 2, 3], [0, 4, 5], {0, 1, 2, 3, 4, 5}, [4, 5], [2, 3, 4, 5]);
    BfsFrom2(g);
  }

  lemma ClaimBfs0()
    ensures Claim([1, 2, 3], {0}).0 == {0, 1, 2, 3}
    ensures Claim([1, 2, 3], {0}).1 == [1, 2, 3]
  {
    assert [3][1..] == [] && {0, 1, 2} + {3} == {0, 1, 2, 3};
    assert Claim([3], {0, 1, 2}).0 == {0, 1, 2, 3} && Claim([3], {0, 1, 2}).1 == [3];
    assert [2, 3][1..] == [3] && {0, 1} + {2} == {0, 1, 2};
    assert Claim([2, 3], {0, 1}).0 == {0, 1, 2, 3} && Claim([2, 3], {0, 1}).1 == [2, 3];
    assert [1, 2, 3][1..] == [2, 3] && {0} + {1} == {0, 1};
  }

  lemma BfsFrom0(g: Adjacency)
    requires TableRows(g)
    ensures BreadthFirst.Run(g, Flags(9, {0}), [0]) == BfsOutput[0..]
  {
    ConsTail(BfsOutput, 0, 0);
    RowsWellFormed(g);
    ClaimBfs0();
    assert g[0] == [1, 2, 3] && [0][1..] + [1, 2, 3] == [1, 2, 3] && AllBelow([0], 9);
    RunStep(g, 9, {0}, [0], [1, 2, 3], {0, 1, 2, 3}, [1, 2, 3], [1, 2, 3]);
    BfsFrom1(g);
  }

  // Depth-first search from vertex 0, one visit per lemma: `DfsVisit<u>` is the
  // visit of `u` and `DfsScan<u>At<k>` the scan of `u`'s neighbour list from
  // position `k`, each with the flags it starts from and ends with, and its
  // output as a slice of `DfsOutput`.

  lemma DfsScan3At1(g: Adjacency)
    requires TableRows(g)
    ensures DepthFirst.Scan(g, [6], Flags(9, {0, 1, 3, 4, 6, 7})) == (Flags(9, {0, 1, 3, 4, 6, 7}), DfsOutput[6..6])
  {
    RowsWellFormed(g);
    assert [6][1..] == [] && AllBelow([6], |g|) && Flags(9, {0, 1, 3, 4, 6, 7})[6];
    assert DfsOutput[6..6] == [];
    ScanSkip(g, [6], [], Flags(9, {0, 1, 3, 4, 6, 7}), Flags(9, {0, 1, 3, 4, 6, 7}), DfsOutput[6..6]);
  }

  lemma DfsScan3At0(g: Adjacency)
    requires TableRows(g)
    ensures DepthFirst.Scan(g, [0, 6], Flags(9, {0, 1, 3, 4, 6, 7})) == (Flags(9, {0, 1, 3, 4, 6, 7}), DfsOutput[6..6])
  {
    RowsWellFormed(g);
    assert [0, 6][1..] == [6] && AllBelow([0, 6], |g|) && Flags(9, {0, 1, 3, 4, 6, 7})[0];
    DfsScan3At1(g);
    ScanSkip(g, [0, 6], [6], Flags(9, {0, 1, 3, 4, 6, 7}), Flags(9, {0, 1, 3, 4, 6, 7}), DfsOutput[6..6]);
  }

  lemma DfsVisit3(g: Adjacency)
    requires TableRows(g)
    ensures DepthFirst.Visit(g, 3, Flags(9, {0, 1, 4, 6, 7})) == (Flags(9, {0, 1, 3, 4, 6, 7}), DfsOutput[5..6])
  {
    Cons(DfsOutput, 5, 6, 3);
    RowsWellFormed(g);
    assert g[3] == [0, 6] && {0, 1, 4, 6, 7} + {3} == {0, 1, 3, 4, 6, 7};
    DfsScan3At0(g);
    VisitStep(g, 9, 3, {0, 1, 4, 6, 7}, {0, 1, 3, 4, 6, 7}, Flags(9, {0, 1, 3, 4, 6, 7}), DfsOutput[6..6]);
  }

  lemma DfsScan6At1(g: Adjacency)
    requires TableRows(g)
    ensures DepthFirst.Scan(g, [7], Flags(9, {0, 1, 3, 4, 6, 7})) == (Flags(9, {0, 1, 3, 4, 6, 7}), DfsOutput[6..6])
  {
    RowsWellFormed(g);
    assert [7][1..] == [] && AllBelow([7], |g|) && Flags(9, {0, 1, 3, 4, 6, 7})[7];
    assert DfsOutput[6..6] == [];
    ScanSkip(g, [7], [], Flags(9, {0, 1, 3, 4, 6, 7}), Flags(9, {0, 1, 3, 4, 6, 7}), DfsOutput[6..6]);
  }

  lemma DfsScan6At0(g: Adjacency)
    requires TableRows(g)
    ensures DepthFirst.Scan(g, [3, 7], Flags(9, {0, 1, 4, 6, 7})) == (Flags(9, {0, 1, 3, 4, 6, 7}), DfsOutput[5..6])
  {
    RowsWellFormed(g);
    assert [3, 7][1..] == [7] && AllBelow([3, 7], |g|) && !Flags(9, {0, 1, 4, 6, 7})[3];
    DfsScan6At1(g);
    DfsVisit3(g);
    ScanVisit(g, [3, 7], [7], Flags(9, {0, 1, 4, 6, 7}), Flags(9, {0, 1, 3, 4, 6, 7}), DfsOutput[5..6], Flags(9, {0, 1, 3, 4, 6, 7}), DfsOutput[6..6]);
    Join(DfsOutput, 5, 6, 6);
  }

  lemma DfsVisit6(g: Adjacency)
    requires TableRows(g)
    ensures DepthFirst.Visit(g, 6, Flags(9, {0, 1, 4, 7})) == (Flags(9, {0, 1, 3, 4, 6, 7}), DfsOutput[4..6])
  {
    Cons(DfsOutput, 4, 6, 6);
    RowsWellFormed(g);
    assert g[6] == [3, 7] && {0, 1, 4, 7} + {6} == {0, 1, 4, 6, 7};
    DfsScan6At0(g);
    VisitStep(g, 9, 6, {0, 1, 4, 7}, {0, 1, 4, 6, 7}, Flags(9, {0, 1, 3, 4, 6, 7}), DfsOutput[5..6]);
  }

  lemma DfsScan8At0(g: Adjacency)
    requires TableRows(g)
    ensures DepthFirst.Scan(g, [7], Flags(9, {0, 1, 3, 4, 6, 7, 8})) == (Flags(9, {0, 1, 3, 4, 6, 7, 8}), DfsOutput[7..7])
  {
    RowsWellFormed(g);
    assert [7][1..] == [] && AllBelow([7], |g|) && Flags(9, {0, 1, 3, 4, 6, 7, 8})[7];
    assert DfsOutput[7..7] == [];
    ScanSkip(g, [7], [], Flags(9, {0, 1, 3, 4, 6, 7, 8}), Flags(9, {0, 1, 3, 4, 6, 7, 8}), DfsOutput[7..7]);
  }

  lemma DfsVisit8(g: Adjacency)
    requires TableRows(g)
    ensures DepthFirst.Visit(g, 8, Flags(9, {0, 1, 3, 4, 6, 7})) == (Flags(9, {0, 1, 3, 4, 6, 7, 8}), DfsOutput[6..7])
  {
    Cons(DfsOutput, 6, 7, 8);
    RowsWellFormed(g);
    assert g[8] == [7] && {0, 1, 3, 4, 6, 7} + {8} == {0, 1, 3, 4, 6, 7, 8};
    DfsScan8At0(g);
    VisitStep(g, 9, 8, {0, 1, 3, 4, 6, 7}, {0, 1, 3, 4, 6, 7, 8}, Flags(9, {0, 1, 3, 4, 6, 7, 8}), DfsOutput[7..7]);
  }

  lemma DfsScan7At2(g: Adjacency)
    requires TableRows(g)
    ensures DepthFirst.Scan(g, [8], Flags(9, {0, 1, 3, 4, 6, 7})) == (Flags(9, {0, 1, 3, 4, 6, 7, 8}), DfsOutput[6..7])
  {
    RowsWellFormed(g);
    assert [8][1..] == [] && AllBelow([8], |g|) && !Flags(9, {0, 1, 3, 4, 6, 7})[8];
    assert DfsOutput[7..7] == [];
    DfsVisit8(g);
    ScanVisit(g, [8], [], Flags(9, {0, 1, 3, 4, 6, 7}), Flags(9, {0, 1, 3, 4, 6, 7, 8}), DfsOutput[6..7], Flags(9, {0, 1, 3, 4, 6, 7, 8}), DfsOutput[7..7]);
    Join(DfsOutput, 6, 7, 7);
  }

  lemma DfsScan7At1(g: Adjacency)
    requires TableRows(g)
    ensures DepthFirst.Scan(g, [6, 8], Flags(9, {0, 1, 4, 7})) == (Flags(9, {0, 1, 3, 4, 6, 7, 8}), DfsOutput[4..7])
  {
    RowsWellFormed(g);
    assert [6, 8][1..] == [8] && AllBelow([6, 8], |g|) && !Flags(9, {0, 1, 4, 7})[6];
    DfsScan7At2(g);
    DfsVisit6(g);
    ScanVisit(g, [6, 8], [8], Flags(9, {0, 1, 4, 7}), Flags(9, {0, 1, 3, 4, 6, 7}), DfsOutput[4..6], Flags(9, {0, 1, 3, 4, 6, 7, 8}), DfsOutput[6..7]);
    Join(DfsOutput, 4, 6, 7);
  }

  lemma DfsScan7At0(g: Adjacency)
    requires TableRows(g)
    ensures DepthFirst.Scan(g, [4, 6, 8], Flags(9, {0, 1, 4, 7})) == (Flags(9, {0, 1, 3, 4, 6, 7, 8}), DfsOutput[4..7])
  {
    RowsWellFormed(g);
    assert [4, 6, 8][1..] == [6, 8] && AllBelow([4, 6, 8], |g|) && Flags(9, {0, 1, 4, 7})[4];
    DfsScan7At1(g);
    ScanSkip(g, [4, 6, 8], [6, 8], Flags(9, {0, 1, 4, 7}), Flags(9, {0, 1, 3, 4, 6, 7, 8}), DfsOutput[4..7]);
  }

  lemma DfsVisit7(g: Adjacency)
    requires TableRows(g)
    ensures DepthFirst.Visit(g, 7, Flags(9, {0, 1, 4})) == (Flags(9, {0, 1, 3, 4, 6, 7, 8}), DfsOutput[3..7])
  {
    Cons(DfsOutput, 3, 7, 7);
    RowsWellFormed(g);
    assert g[7] == [4, 6, 8] && {0, 1, 4} + {7} == {0, 1, 4, 7};
    DfsScan7At0(g);
    VisitStep(g, 9, 7, {0, 1, 4}, {0, 1, 4, 7}, Flags(9, {0, 1, 3, 4, 6, 7, 8}), DfsOutput[4..7]);
  }

  lemma DfsScan4At1(g: Adjacency)
    requires TableRows(g)
    ensures DepthFirst.Scan(g, [7], Flags(9, {0, 1, 4})) == (Flags(9, {0, 1, 3, 4, 6, 7, 8}), DfsOutput[3..7])
  {
    RowsWellFormed(g);
    assert [7][1..] == [] && AllBelow([7], |g|) && !Flags(9, {0, 1, 4})[7];
    assert DfsOutput[7..7] == [];
    DfsVisit7(g);
    ScanVisit(g, [7], [], Flags(9, {0, 1, 4}), Flags(9, {0, 1, 3, 4, 6, 7, 8}), DfsOutput[3..7], Flags(9, {0, 1, 3, 4, 6, 7, 8}), DfsOutput[7..7]);
    Join(DfsOutput, 3, 7, 7);
  }

  lemma DfsScan4At0(g: Adjacency)
    requires TableRows(g)
    ensures DepthFirst.Scan(g, [1, 7], Flags(9, {0, 1, 4})) == (Flags(9, {0, 1, 3, 4, 6, 7, 8}), DfsOutput[3..7])
  {
    RowsWellFormed(g);
    assert [1, 7][1..] == [7] && AllBelow([1, 7], |g|) && Flags(9, {0, 1, 4})[1];
    DfsScan4At1(g);
    ScanSkip(g, [1, 7], [7], Flags(9, {0, 1, 4}), Flags(9, {0, 1, 3, 4, 6, 7, 8}), DfsOutput[3..7]);
  }

  lemma DfsVisit4(g: Adjacency)
    requires TableRows(g)
    ensures DepthFirst.Visit(g, 4, Flags(9, {0, 1})) == (Flags(9, {0, 1, 3, 4, 6, 7, 8}), DfsOutput[2..7])
  {
    Cons(DfsOutput, 2, 7, 4);
    RowsWellFormed(g);
    assert g[4] == [1, 7] && {0, 1} + {4} == {0, 1, 4};
    DfsScan4At0(g);
    VisitStep(g, 9, 4, {0, 1}, {0, 1, 4}, Flags(9, {0, 1, 3, 4, 6, 7, 8}), DfsOutput[3..7]);
  }

  lemma DfsScan5At0(g: Adjacency)
    requires TableRows(g)
    ensures DepthFirst.Scan(g, [1], Flags(9, {0, 1, 3, 4, 5, 6, 7, 8})) == (Flags(9, {0, 1, 3, 4, 5, 6, 7, 8}), DfsOutput[8..8])
  {
    RowsWellFormed(g);
    assert [1][1..] == [] && AllBelow([1], |g|) && Flags(9, {0, 1, 3, 4, 5, 6, 7, 8})[1];
    assert DfsOutput[8..8] == [];
    ScanSkip(g, [1], [], Flags(9, {0, 1, 3, 4, 5, 6, 7, 8}), Flags(9, {0, 1, 3, 4, 5, 6, 7, 8}), DfsOutput[8..8]);
  }

  lemma DfsVisit5(g: Adjacency)
    requires TableRows(g)
    ensures DepthFirst.Visit(g, 5, Flags(9, {0, 1, 3, 4, 6, 7, 8})) == (Flags(9, {0, 1, 3, 4, 5, 6, 7, 8}), DfsOutput[7..8])
  {
    Cons(DfsOutput, 7, 8, 5);
    RowsWellFormed(g);
    assert g[5] == [1] && {0, 1, 3, 4, 6, 7, 8} + {5} == {0, 1, 3, 4, 5, 6, 7, 8};
    DfsScan5At0(g);
    VisitStep(g, 9, 5, {0, 1, 3, 4, 6, 7, 8}, {0, 1, 3, 4, 5, 6, 7, 8}, Flags(9, {0, 1, 3, 4, 5, 6, 7, 8}), DfsOutput[8..8]);
  }

  lemma DfsScan1At2(g: Adjacency)
    requires TableRows(g)
    ensures DepthFirst.Scan(g, [5], Flags(9, {0, 1, 3, 4, 6, 7, 8})) == (Flags(9, {0, 1, 3, 4, 5, 6, 7, 8}), DfsOutput[7..8])
  {
    RowsWellFormed(g);
    assert [5][1..] == [] && AllBelow([5], |g|) && !Flags(9, {0, 1, 3, 4, 6, 7, 8})[5];
    assert DfsOutput[8..8] == [];
    DfsVisit5(g);
    ScanVisit(g, [5], [], Flags(9, {0, 1, 3, 4, 6, 7, 8}), Flags(9, {0, 1, 3, 4, 5, 6, 7, 8}), DfsOutput[7..8], Flags(9, {0, 1, 3, 4, 5, 6, 7, 8}), DfsOutput[8..8]);
    Join(DfsOutput, 7, 8, 8);
  }

  lemma DfsScan1At1(g: Adjacency)
    requires TableRows(g)
    ensures DepthFirst.Scan(g, [4, 5], Flags(9, {0, 1})) == (Flags(9, {0, 1, 3, 4, 5, 6, 7, 8}), DfsOutput[2..8])
  {
    RowsWellFormed(g);
    assert [4, 5][1..] == [5] && AllBelow([4, 5], |g|) && !Flags(9, {0, 1})[4];
    DfsScan1At2(g);
    DfsVisit4(g);
    ScanVisit(g, [4, 5], [5], Flags(9, {0, 1}), Flags(9, {0, 1, 3, 4, 6, 7, 8}), DfsOutput[2..7], Flags(9, {0, 1, 3, 4, 5, 6, 7, 8}), DfsOutput[7..8]);
    Join(DfsOutput, 2, 7, 8);
  }

  lemma DfsScan1At0(g: Adjacency)
    requires TableRows(g)
    ensures DepthFirst.Scan(g, [0, 4, 5], Flags(9, {0, 1})) == (Flags(9, {0, 1, 3, 4, 5, 6, 7, 8}), DfsOutput[2..8])
  {
    RowsWellFormed(g);
    assert [0, 4, 5][1..] == [4, 5] && AllBelow([0, 4, 5], |g|) && Flags(9, {0, 1})[0];
    DfsScan1At1(g);
    ScanSkip(g, [0, 4, 5], [4, 5], Flags(9, {0, 1}), Flags(9, {0, 1, 3, 4, 5, 6, 7, 8}), DfsOutput[2..8]);
  }

  lemma DfsVisit1(g: Adjacency)
    requires TableRows(g)
    ensures DepthFirst.Visit(g, 1, Flags(9, {0})) == (Flags(9, {0, 1, 3, 4, 5, 6, 7, 8}), DfsOutput[1..8])
  {
    Cons(DfsOutput, 1, 8, 1);
    RowsWellFormed(g);
    assert g[1] == [0, 4, 5] && {0} + {1} == {0, 1};
    DfsScan1At0(g);
    VisitStep(g, 9, 1, {0}, {0, 1}, Flags(9, {0, 1, 3, 4, 5, 6, 7, 8}), DfsOutput[2..8]);
  }

  lemma DfsScan2At0(g: Adjacency)
    requires TableRows(g)
    ensures DepthFirst.Scan(g, [0], Flags(9, {0, 1, 2, 3, 4, 5, 6, 7, 8})) == (Flags(9, {0, 1, 2, 3, 4, 5, 6, 7, 8}), DfsOutput[9..9])
  {
    RowsWellFormed(g);
    assert [0][1..] == [] && AllBelow([0], |g|) && Flags(9, {0, 1, 2, 3, 4, 5, 6, 7, 8})[0];
    assert DfsOutput[9..9] == [];
    ScanSkip(g, [0], [], Flags(9, {0, 1, 2, 3, 4, 5, 6, 7, 8}), Flags(9, {0, 1, 2, 3, 4, 5, 6, 7, 8}), DfsOutput[9..9]);
  }

  lemma DfsVisit2(g: Adjacency)
    requires TableRows(g)
    ensures DepthFirst.Visit(g, 2, Flags(9, {0, 1, 3, 4, 5, 6, 7, 8})) == (Flags(9, {0, 1, 2, 3, 4, 5, 6, 7, 8}), DfsOutput[8..9])
  {
    Cons(DfsOutput, 8, 9, 2);
    RowsWellFormed(g);
    assert g[2] == [0] && {0, 1, 3, 4, 5, 6, 7, 8} + {2} == {0, 1, 2, 3, 4, 5, 6, 7, 8};
    DfsScan2At0(g);
    VisitStep(g, 9, 2, {0, 1, 3, 4, 5, 6, 7, 8}, {0, 1, 2, 3, 4, 5, 6, 7, 8}, Flags(9, {0, 1, 2, 3, 4, 5, 6, 7, 8}), DfsOutput[9..9]);
  }

  lemma DfsScan0At2(g: Adjacency)
    requires TableRows(g)
    ensures DepthFirst.Scan(g, [3], Flags(9, {0, 1, 2, 3, 4, 5, 6, 7, 8})) == (Flags(9, {0, 1, 2, 3, 4, 5, 6, 7, 8}), DfsOutput[9..9])
  {
    RowsWellFormed(g);
    assert [3][1..] == [] && AllBelow([3], |g|) && Flags(9, {0, 1, 2, 3, 4, 5, 6, 7, 8})[3];
    assert DfsOutput[9..9] == [];
    ScanSkip(g, [3], [], Flags(9, {0, 1, 2, 3, 4, 5, 6, 7, 8}), Flags(9, {0, 1, 2, 3, 4, 5, 6, 7, 8}), DfsOutput[9..9]);
  }

  lemma DfsScan0At1(g: Adjacency)
    requires TableRows(g)
    ensures DepthFirst.Scan(g, [2, 3], Flags(9, {0, 1, 3, 4, 5, 6, 7, 8})) == (Flags(9, {0, 1, 2, 3, 4, 5, 6, 7, 8}), DfsOutput[8..9])
  {
    RowsWellFormed(g);
    assert [2, 3][1..] == [3] && AllBelow([2, 3], |g|) && !Flags(9, {0, 1, 3, 4, 5, 6, 7, 8})[2];
    DfsScan0At2(g);
    DfsVisit2(g);
    ScanVisit(g, [2, 3], [3], Flags(9, {0, 1, 3, 4, 5, 6, 7, 8}), Flags(9, {0, 1, 2, 3, 4, 5, 6, 7, 8}), DfsOutput[8..9], Flags(9, {0, 1, 2, 3, 4, 5, 6, 7, 8}), DfsOutput[9..9]);
    Join(DfsOutput, 8, 9, 9);
  }

  lemma DfsScan0At0(g: Adjacency)
    requires TableRows(g)
    ensures DepthFirst.Scan(g, [1, 2, 3], Flags(9, {0})) == (Flags(9, {0, 1, 2, 3, 4, 5, 6, 7, 8}), DfsOutput[1..9])
  {
    RowsWellFormed(g);
    assert [1, 2, 3][1..] == [2, 3] && AllBelow([1, 2, 3], |g|) && !Flags(9, {0})[1];
    DfsScan0At1(g);
    DfsVisit1(g);
    ScanVisit(g, [1, 2, 3], [2, 3], Flags(9, {0}), Flags(9, {0, 1, 3, 4, 5, 6, 7, 8}), DfsOutput[1..8], Flags(9, {0, 1, 2, 3, 4, 5, 6, 7, 8}), DfsOutput[8..9]);
    Join(DfsOutput, 1, 8, 9);
  }

  lemma DfsVisit0(g: Adjacency)
    requires TableRows(g)
    ensures DepthFirst.Visit(g, 0, Flags(9, {})) == (Flags(9, {0, 1, 2, 3, 4, 5, 6, 7, 8}), DfsOutput[0..9])
  {
    Cons(DfsOutput, 0, 9, 0);
    RowsWellFormed(g);
    assert g[0] == [1, 2, 3] && {} + {0} == {0};
    DfsScan0At0(g);
    VisitStep(g, 9, 0, {}, {0}, Flags(9, {0, 1, 2, 3, 4, 5, 6, 7, 8}), DfsOutput[1..9]);
  }

  /** Breadth-first search of the demonstration graph from vertex 0 emits the
      vertices in numeric order. */
  lemma BfsDemo(g: Adjacency)
    requires TableRows(g)
    ensures BreadthFirst.Order(g, 0) == BfsOutput
  {
    StartFlags(9, 0);
    BfsFrom0(g);
    assert BfsOutput[0..] == BfsOutput;
  }

  /** Depth-first search of the demonstration graph from vertex 0 emits
      0 1 4 7 6 3 8 5 2. */
  lemma DfsDemo(g: Adjacency)
    requires TableRows(g)
    ensures DepthFirst.Order(g, 0) == DfsOutput
  {
    assert seq(9, _ => false) == Flags(9, {});
    DfsVisit0(g);
    assert DfsOutput[0..9] == DfsOutput;
  }

  /** The table the program's nine edges build, in the order they are added. */
  lemma BuiltRows()
    ensures TableRows(Traversal.WithEdge(Traversal.WithEdge(Traversal.WithEdge(Traversal.WithEdge(Traversal.WithEdge(Traversal.WithEdge(Traversal.WithEdge(Traversal.WithEdge(Traversal.WithEdge(seq(9, _ => []), 0, 1), 0, 2), 0, 3), 1, 4), 1, 5), 3, 6), 4, 7), 6, 7), 7, 8))
  {
  }

  /** The program's graph: nine vertices, then its nine edges in order. */
  method BuildDemo() returns (g: Traversal.Graph)
    ensures fresh(g) && g.Valid() && g.V == 9 && TableRows(g.adj)
  {
    g := new Traversal.Graph(9);
    assert g.adj == seq(9, _ => []);
    ghost var a := g.adj;
    g.AddEdge(0, 1);
    assert g.adj == Traversal.WithEdge(a, 0, 1);
    a := g.adj;
    g.AddEdge(0, 2);
    assert g.adj == Traversal.WithEdge(a, 0, 2);
    a := g.adj;
    g.AddEdge(0, 3);
    assert g.adj == Traversal.WithEdge(a, 0, 3);
    a := g.adj;
    g.AddEdge(1, 4);
    assert g.adj == Traversal.WithEdge(a, 1, 4);
    a := g.adj;
    g.AddEdge(1, 5);
    assert g.adj == Traversal.WithEdge(a, 1, 5);
    a := g.adj;
    g.AddEdge(3, 6);
    assert g.adj == Traversal.WithEdge(a, 3, 6);
    a := g.adj;
    g.AddEdge(4, 7);
    assert g.adj == Traversal.WithEdge(a, 4, 7);
    a := g.adj;
    g.AddEdge(6, 7);
    assert g.adj == Traversal.WithEdge(a, 6, 7);
    a := g.adj;
    g.AddEdge(7, 8);
    assert g.adj == Traversal.WithEdge(a, 7, 8);
    BuiltRows();
  }

  /** The program's run: the four searches from vertex 0 on the program's graph
      return what the program prints. */
  method RunDemo() returns (seqBfs: seq<int>, parBfs: seq<int>, seqDfs: seq<int>, parDfs: seq<int>)
    ensures seqBfs == BfsOutput && parBfs == BfsOutput
    ensures seqDfs == DfsOutput && parDfs == DfsOutput
  {
    var g := BuildDemo();
    BfsDemo(g.adj);
    DfsDemo(g.adj);
    seqBfs := g.SequentialBfs(0);
    parBfs := g.ParallelBfs(0);
    seqDfs := g.SequentialDfs(0);
    parDfs := g.ParallelDfs(0);
  }
}
