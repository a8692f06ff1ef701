/** The undirected graph object: an adjacency table that grows edge by edge, and
    the four traversals it offers. Each traversal writes the vertices it visits to
    an output sequence, in the order they would be printed; each is proved to
    produce exactly the sequence a pure search function computes, whose properties
    are proved in BreadthFirst and DepthFirst. */
module Traversal {
  import opened Graphs
  import BreadthFirst
  import DepthFirst

  /** The table after adding the undirected edge `u`–`v`: `v` is appended to
      `u`'s list and `u` to `v`'s list, so a self-loop lists `u` twice under `u`. */
  function WithEdge(a: Adjacency, u: int, v: int): (b: Adjacency)
    requires 0 <= u < |a| && 0 <= v < |a|
    ensures |b| == |a|
  {
    seq(|a|, w requires 0 <= w < |a| => a[w] + (if w == u then [v] else []) + (if w == v then [u] else []))
  }

  /** Adding an edge keeps the table well formed and symmetric, and leaves the
      lists of all other vertices as they were. */
  lemma WithEdgeValid(a: Adjacency, u: int, v: int)
    requires 0 <= u < |a| && 0 <= v < |a|
    ensures WellFormed(a) ==> WellFormed(WithEdge(a, u, v))
    ensures Undirected(a) ==> Undirected(WithEdge(a, u, v))
    ensures forall w :: 0 <= w < |a| && w != u && w != v ==> WithEdge(a, u, v)[w] == a[w]
  {
  }

  class Graph {
    /** The number of vertices, fixed at construction. */
    const V: nat
    /** Entry `u` lists the neighbours of `u`, in the order the edges were added. */
    var adj: seq<seq<int>>

    /** The table has one list per vertex, lists only vertices, and is symmetric. */
    ghost predicate Valid()
      reads this
    {
      |adj| == V && WellFormed(adj) && Undirected(adj)
    }

    /** A graph with `n` vertices and no edges. */
    constructor (n: nat)
      ensures Valid()
      ensures V == n
      ensures forall u :: 0 <= u < V ==> adj[u] == []
    {
      V := n;
      adj := seq(n, _ => []);
    }

    /** Adds the undirected edge `u`–`v`: `v` goes to the back of `u`'s list and `u`
        to the back of `v`'s list; a self-loop lists `u` twice under `u`. */
    method AddEdge(u: int, v: int)
      requires Valid() && 0 <= u < V && 0 <= v < V
      modifies this
      ensures Valid()
      ensures forall w :: 0 <= w < V ==>
        adj[w] == old(adj[w]) + (if w == u then [v] else []) + (if w == v then [u] else [])
      ensures adj == WithEdge(old(adj), u, v)
    {
      adj := adj[u := adj[u] + [v]];
      adj := adj[v := adj[v] + [u]];
      forall a | 0 <= a < V ensures AllBelow(adj[a], V) {
        AllBelowAppend(old(adj[a]), (if a == u then [v] else []) + (if a == v then [u] else []), V);
        assert adj[a] == old(adj[a]) + ((if a == u then [v] else []) + (if a == v then [u] else []));
      }
    }

    /** Breadth-first search from `source` with a FIFO queue: emits each vertex when
        it is dequeued and queues its unvisited neighbours in list order. */
    method SequentialBfs(source: int) returns (out: seq<int>)
      requires Valid() && 0 <= source < V
      ensures out == BreadthFirst.Order(adj, source)
      ensures |out| > 0 && out[0] == source && NoDup(out) && |out| <= V
      ensures forall x :: x in out <==> 0 <= x < V && Reachable(adj, source, x)
      ensures DistSorted(adj, source, out)
    {
      var visited := new bool[V](_ => false);
      visited[source] := true;
      var q := [source];
      out := [];
      assert visited[..] == BreadthFirst.Start(V, source);
      while q != []
        invariant visited.Length == V && AllBelow(q, V)
        invariant out + BreadthFirst.Run(adj, visited[..], q) == BreadthFirst.Order(adj, source)
        decreases CountFalse(visited[..]) + |q|
      {
        var u := q[0];
        ghost var before := visited[..];
        BreadthFirst.RunOne(adj, before, q, out);
        q := q[1..];
        out := out + [u];
        q := ClaimNeighbours(adj[u], visited, q);
      }
      BreadthFirst.OrderCorrect(adj, source);
    }

    /** The level-by-level variant, run on one thread. Each round dequeues into
        `currentLevel` with a loop whose bound is re-read as the queue shrinks, so a
        round that starts with `n` queued vertices takes only the first ⌈n/2⌉ of
        them; the rest stay queued for later rounds. It emits the same sequence as
        the sequential search. */
    method ParallelBfs(source: int) returns (out: seq<int>)
      requires Valid() && 0 <= source < V
      ensures out == BreadthFirst.Order(adj, source)
      ensures |out| > 0 && out[0] == source && NoDup(out) && |out| <= V
      ensures forall x :: x in out <==> 0 <= x < V && Reachable(adj, source, x)
    {
      var visited := new bool[V](_ => false);
      visited[source] := true;
      var q := [source];
      out := [];
      assert visited[..] == BreadthFirst.Start(V, source);
      while q != []
        invariant visited.Length == V && AllBelow(q, V)
        invariant out + BreadthFirst.Run(adj, visited[..], q) == BreadthFirst.Order(adj, source)
        decreases CountFalse(visited[..]) + |q|
      {
        ghost var emitted := out;
        var currentLevel;
        currentLevel, q := DequeueLevel(q);
        out := out + currentLevel;
        AllBelowSplit(currentLevel, q, V);
        BreadthFirst.RoundStep(adj, emitted, currentLevel, visited[..], q);
        q := ExpandLevel(currentLevel, visited, q);
      }
      BreadthFirst.OrderCorrect(adj, source);
    }

    /** Recursive depth-first visit of `u`: marks and emits `u`, then visits each
        neighbour that is still unvisited when its turn comes, in list order. */
    method SequentialDfsUtil(u: int, visited: array<bool>) returns (out: seq<int>)
      requires Valid() && visited.Length == V && 0 <= u < V
      modifies visited
      ensures (visited[..], out) == DepthFirst.Visit(adj, u, old(visited[..]))
      decreases CountFalse(visited[..][u := true])
    {
      ghost var start := visited[..];
      visited[u] := true;
      out := [u];
      ghost var claimed := visited[..];
      assert claimed == start[u := true];
      var nbrs := adj[u];
      assert nbrs[0..] == nbrs;
      var i := 0;
      while i < |nbrs|
        invariant 0 <= i <= |nbrs| && visited.Length == V
        invariant DepthFirst.Scan(adj, nbrs[i..], visited[..]).0 == DepthFirst.Scan(adj, nbrs, claimed).0
        invariant out + DepthFirst.Scan(adj, nbrs[i..], visited[..]).1 == [u] + DepthFirst.Scan(adj, nbrs, claimed).1
        invariant CountFalse(visited[..]) <= CountFalse(claimed)
      {
        var v := nbrs[i];
        DepthFirst.ScanOne(adj, nbrs, i, visited[..], out);
        if !visited[v] {
          CountFalseClaim(visited[..], v);
          var sub := SequentialDfsUtil(v, visited);
          out := out + sub;
        }
        i := i + 1;
      }
      assert nbrs[i..] == [];
      assert DepthFirst.Scan(adj, nbrs[i..], visited[..]) == (visited[..], []);
      assert out + [] == out;
      assert DepthFirst.Visit(adj, u, start)
          == (DepthFirst.Scan(adj, nbrs, claimed).0, [u] + DepthFirst.Scan(adj, nbrs, claimed).1);
    }

    /** Depth-first search from `source` with fresh visited flags. */
    method SequentialDfs(source: int) returns (out: seq<int>)
      requires Valid() && 0 <= source < V
      ensures out == DepthFirst.Order(adj, source)
      ensures |out| > 0 && out[0] == source && NoDup(out) && |out| <= V
      ensures forall x :: x in out <==> 0 <= x < V && Reachable(adj, source, x)
      ensures GrownAlongEdges(adj, out)
    {
      var visited := new bool[V](_ => false);
      assert visited[..] == seq(V, _ => false);
      out := SequentialDfsUtil(source, visited);
      DepthFirst.OrderCorrect(adj, source);
    }

    /** The task-parallel visit, run on one thread with each task run where it is
        spawned. The check-and-claim of `u` is one step: a vertex already claimed
        yields no output and no change; otherwise `u` is emitted and every
        neighbour seen unvisited is visited in turn. */
    method ParallelDfsUtil(u: int, visited: array<bool>) returns (out: seq<int>)
      requires Valid() && visited.Length == V && 0 <= u < V
      modifies visited
      ensures old(visited[u]) ==> out == [] && visited[..] == old(visited[..])
      ensures !old(visited[u]) ==> (visited[..], out) == DepthFirst.Visit(adj, u, old(visited[..]))
      decreases CountFalse(visited[..])
    {
      ghost var start := visited[..];
      var alreadyVisited := visited[u];
      out := [];
      if !visited[u] {
        visited[u] := true;
        out := [u];
      }
      if alreadyVisited {
        return;
      }
      ghost var claimed := visited[..];
      assert claimed == start[u := true];
      CountFalseClaim(start, u);
      var nbrs := adj[u];
      assert nbrs[0..] == nbrs;
      var i := 0;
      while i < |nbrs|
        invariant 0 <= i <= |nbrs| && visited.Length == V
        invariant DepthFirst.Scan(adj, nbrs[i..], visited[..]).0 == DepthFirst.Scan(adj, nbrs, claimed).0
        invariant out + DepthFirst.Scan(adj, nbrs[i..], visited[..]).1 == [u] + DepthFirst.Scan(adj, nbrs, claimed).1
        invariant CountFalse(visited[..]) <= CountFalse(claimed)
      {
        var v := nbrs[i];
        DepthFirst.ScanOne(adj, nbrs, i, visited[..], out);
        var notVisited := !visited[v];
        if notVisited {
          var sub := ParallelDfsUtil(v, visited);
          out := out + sub;
        }
        i := i + 1;
      }
      assert nbrs[i..] == [];
      assert DepthFirst.Scan(adj, nbrs[i..], visited[..]) == (visited[..], []);
      assert out + [] == out;
      assert DepthFirst.Visit(adj, u, start)
          == (DepthFirst.Scan(adj, nbrs, claimed).0, [u] + DepthFirst.Scan(adj, nbrs, claimed).1);
    }

    /** The task-parallel search from `source`, run on one thread: it emits the
        same sequence as the sequential search. */
    method ParallelDfs(source: int) returns (out: seq<int>)
      requires Valid() && 0 <= source < V
      ensures out == DepthFirst.Order(adj, source)
      ensures |out| > 0 && out[0] == source && NoDup(out) && |out| <= V
      ensures forall x :: x in out <==> 0 <= x < V && Reachable(adj, source, x)
      ensures GrownAlongEdges(adj, out)
    {
      var visited := new bool[V](_ => false);
      assert visited[..] == seq(V, _ => false);
      out := ParallelDfsUtil(source, visited);
      DepthFirst.OrderCorrect(adj, source);
    }

    /** The first phase of a round: a counting loop dequeues into `currentLevel`,
        but its bound is the size of the shrinking queue, so it stops halfway. */
    method DequeueLevel(q0: seq<int>) returns (currentLevel: seq<int>, q: seq<int>)
      ensures currentLevel + q == q0
      ensures |currentLevel| == (|q0| + 1) / 2
    {
      q := q0;
      currentLevel := [];
      var i := 0;
      while i < |q|
        invariant currentLevel + q == q0
        invariant |currentLevel| == i <= |q| + 1
        decreases |q| - i
      {
        var u := q[0];
        q := q[1..];
        currentLevel := currentLevel + [u];
        i := i + 1;
      }
    }

    /** The parallel-for region of one round, run on one thread: each vertex of the
        batch, in order, has its unvisited neighbours claimed and queued; the flag is
        checked again before claiming, as the critical section does. */
    method ExpandLevel(currentLevel: seq<int>, visited: array<bool>, q0: seq<int>) returns (q: seq<int>)
      requires Valid() && visited.Length == V
      requires AllBelow(currentLevel, V) && AllBelow(q0, V)
      modifies visited
      ensures (visited[..], q) == BreadthFirst.ExpandAll(adj, currentLevel, old(visited[..]), q0)
    {
      q := q0;
      ghost var target := BreadthFirst.ExpandAll(adj, currentLevel, visited[..], q0);
      assert currentLevel[0..] == currentLevel;
      var j := 0;
      while j < |currentLevel|
        invariant 0 <= j <= |currentLevel| && AllBelow(q, V)
        invariant BreadthFirst.ExpandAll(adj, currentLevel[j..], visited[..], q) == target
      {
        var u := currentLevel[j];
        q := ClaimNeighboursCritical(adj[u], visited, q);
        assert currentLevel[j..][1..] == currentLevel[j + 1..];
        j := j + 1;
      }
      assert currentLevel[j..] == [];
    }
    /** The neighbour loop of the sequential search: every neighbour still unvisited
        when its turn comes is claimed and queued, in list order. */
    method ClaimNeighbours(nbrs: seq<int>, visited: array<bool>, q0: seq<int>) returns (q: seq<int>)
      requires visited.Length == V && AllBelow(nbrs, V) && AllBelow(q0, V)
      modifies visited
      ensures visited[..] == BreadthFirst.Expand(nbrs, old(visited[..])).0
      ensures q == q0 + BreadthFirst.Expand(nbrs, old(visited[..])).1
      ensures AllBelow(q, V)
    {
      ghost var e := BreadthFirst.Expand(nbrs, visited[..]);
      q := q0;
      assert nbrs[0..] == nbrs;
      var i := 0;
      while i < |nbrs|
        invariant 0 <= i <= |nbrs| && AllBelow(q, V)
        invariant BreadthFirst.Expand(nbrs[i..], visited[..]).0 == e.0
        invariant q + BreadthFirst.Expand(nbrs[i..], visited[..]).1 == q0 + e.1
      {
        var v := nbrs[i];
        BreadthFirst.ExpandOne(nbrs, i, visited[..], q, e.0, q0, e.1);
        if !visited[v] {
          visited[v] := true;
          q := q + [v];
        }
        i := i + 1;
      }
      assert nbrs[i..] == [];
    }

    /** The neighbour loop inside the parallel-for region, run on one thread: the
        flag is tested, then tested again inside the critical section before the
        neighbour is claimed and queued. */
    method ClaimNeighboursCritical(nbrs: seq<int>, visited: array<bool>, q0: seq<int>) returns (q: seq<int>)
      requires visited.Length == V && AllBelow(nbrs, V) && AllBelow(q0, V)
      modifies visited
      ensures visited[..] == BreadthFirst.Expand(nbrs, old(visited[..])).0
      ensures q == q0 + BreadthFirst.Expand(nbrs, old(visited[..])).1
      ensures AllBelow(q, V)
    {
      ghost var e := BreadthFirst.Expand(nbrs, visited[..]);
      q := q0;
      assert nbrs[0..] == nbrs;
      var k := 0;
      while k < |nbrs|
        invariant 0 <= k <= |nbrs| && AllBelow(q, V)
        invariant BreadthFirst.Expand(nbrs[k..], visited[..]).0 == e.0
        invariant q + BreadthFirst.Expand(nbrs[k..], visited[..]).1 == q0 + e.1
      {
        var v := nbrs[k];
        BreadthFirst.ExpandOne(nbrs, k, visited[..], q, e.0, q0, e.1);
        if !visited[v] {
          if !visited[v] {
            visited[v] := true;
            q := q + [v];
          }
        }
        k := k + 1;
      }
      assert nbrs[k..] == [];
    }
  }
}
