/** Breadth-first search from a source vertex, as a pure state machine over the
    visited flags and the FIFO queue, and the proof of what it emits. */
module BreadthFirst {
  import opened Graphs

  /** One pass over a neighbour list: every neighbour whose flag is still clear is
      claimed (its flag set) and queued, in list order. Returns the new flags and
      the vertices queued. */
  function Expand(nbrs: seq<int>, vis: seq<bool>): (r: (seq<bool>, seq<int>))
    requires AllBelow(nbrs, |vis|)
    ensures |r.0| == |vis|
    ensures CountFalse(r.0) + |r.1| == CountFalse(vis)
    ensures AllBelow(r.1, |vis|)
    decreases |nbrs|
  {
    if nbrs == [] then (vis, [])
    else if vis[nbrs[0]] then Expand(nbrs[1..], vis)
    else
      var rest := Expand(nbrs[1..], vis[nbrs[0] := true]);
      CountFalseClaim(vis, nbrs[0]);
      (rest.0, [nbrs[0]] + rest.1)
  }

  /** A pass queues each newly claimed neighbour once, claims nothing else, and
      leaves every listed neighbour visited. */
  lemma {:induction false} ExpandClaims(nbrs: seq<int>, vis: seq<bool>)
    requires AllBelow(nbrs, |vis|)
    ensures var r := Expand(nbrs, vis);
      && (forall x :: 0 <= x < |vis| ==> (r.0[x] <==> vis[x] || x in r.1))
      && (forall x :: x in r.1 ==> x in nbrs && !vis[x])
      && NoDup(r.1)
      && (forall y :: y in nbrs ==> r.0[y])
    decreases |nbrs|
  {
    if nbrs == [] {
    } else if vis[nbrs[0]] {
      ExpandClaims(nbrs[1..], vis);
      assert nbrs == [nbrs[0]] + nbrs[1..];
    } else {
      var v := nbrs[0];
      var vis1 := vis[v := true];
      var rest := Expand(nbrs[1..], vis1);
      ExpandClaims(nbrs[1..], vis1);
      assert Expand(nbrs, vis) == (rest.0, [v] + rest.1);
      assert nbrs == [v] + nbrs[1..];
      NoDupAppend([v], rest.1);
    }
  }

  /** What the search emits from a state with flags `vis` and queue `q`: take the
      front vertex, emit it, expand its neighbours onto the back of the queue. */
  function Run(g: Adjacency, vis: seq<bool>, q: seq<int>): (r: seq<int>)
    requires WellFormed(g) && |vis| == |g|
    requires AllBelow(q, |g|)
    ensures AllBelow(r, |g|)
    ensures q != [] ==> r != [] && r[0] == q[0]
    decreases CountFalse(vis), |q|
  {
    if q == [] then []
    else
      var e := Expand(g[q[0]], vis);
      AllBelowAppend(q[1..], e.1, |g|);
      var rest := Run(g, e.0, q[1..] + e.1);
      AllBelowAppend([q[0]], rest, |g|);
      [q[0]] + rest
  }

  /** The flags at the start: only the source is visited. */
  function Start(n: nat, s: int): (f: seq<bool>)
    requires 0 <= s < n
    ensures |f| == n && forall x :: 0 <= x < n ==> (f[x] <==> x == s)
  {
    seq(n, _ => false)[s := true]
  }

  /** The vertices emitted by breadth-first search from `s`, in emission order. */
  function Order(g: Adjacency, s: int): (r: seq<int>)
    requires WellFormed(g) && 0 <= s < |g|
    ensures r != [] && r[0] == s && AllBelow(r, |g|)
  {
    Run(g, Start(|g|, s), [s])
  }

  /** One iteration of the neighbour loop: looking at `nbrs[i]` with flags `vis`
      and queue `q` either skips it or claims and queues it, and either way the
      rest of the pass still ends in flags `fin` with `q0 + added` queued. */
  lemma ExpandOne(nbrs: seq<int>, i: nat, vis: seq<bool>, q: seq<int>, fin: seq<bool>, q0: seq<int>, added: seq<int>)
    requires AllBelow(nbrs, |vis|) && i < |nbrs|
    requires Expand(nbrs[i..], vis).0 == fin && q + Expand(nbrs[i..], vis).1 == q0 + added
    ensures var v := nbrs[i];
      if vis[v] then
        Expand(nbrs[i + 1..], vis).0 == fin && q + Expand(nbrs[i + 1..], vis).1 == q0 + added
      else
        && Expand(nbrs[i + 1..], vis[v := true]).0 == fin
        && (q + [v]) + Expand(nbrs[i + 1..], vis[v := true]).1 == q0 + added
        && CountFalse(vis[v := true]) + 1 == CountFalse(vis)
  {
    var v := nbrs[i];
    assert nbrs[i..][0] == v && nbrs[i..][1..] == nbrs[i + 1..];
    CountFalseClaim(vis, v);
    if !vis[v] {
      var r := Expand(nbrs[i + 1..], vis[v := true]);
      assert Expand(nbrs[i..], vis) == (r.0, [v] + r.1);
      assert (q + [v]) + r.1 == q + ([v] + r.1);
    }
  }

  /** Unfolding the search by one dequeued vertex. */
  lemma RunOne(g: Adjacency, vis: seq<bool>, q: seq<int>, out: seq<int>)
    requires WellFormed(g) && |vis| == |g| && AllBelow(q, |g|) && q != []
    ensures var e := Expand(g[q[0]], vis);
      && AllBelow(q[1..] + e.1, |g|)
      && out + Run(g, vis, q) == (out + [q[0]]) + Run(g, e.0, q[1..] + e.1)
  {
    var e := Expand(g[q[0]], vis);
    AllBelowAppend(q[1..], e.1, |g|);
    PrefixStep(out, q[0], Run(g, e.0, q[1..] + e.1));
  }

  /** One level-synchronous round: every vertex of `level` is expanded in turn onto
      the back of `q`. Returns the new flags and queue. */
  function ExpandAll(g: Adjacency, level: seq<int>, vis: seq<bool>, q: seq<int>): (r: (seq<bool>, seq<int>))
    requires WellFormed(g) && |vis| == |g| && AllBelow(level, |g|) && AllBelow(q, |g|)
    ensures |r.0| == |g| && AllBelow(r.1, |g|)
    ensures CountFalse(r.0) + |r.1| == CountFalse(vis) + |q|
    decreases |level|
  {
    if level == [] then (vis, q)
    else
      var e := Expand(g[level[0]], vis);
      AllBelowAppend(q, e.1, |g|);
      ExpandAll(g, level[1..], e.0, q + e.1)
  }

  /** Splitting off the head of a non-empty prefix and joining it back. */
  lemma Regroup(level: seq<int>, tail: seq<int>)
    requires level != []
    ensures [level[0]] + (level[1..] + tail) == level + tail
  {
    assert level == [level[0]] + level[1..];
  }

  /** Emitting a whole batch taken off the front of the queue and then expanding
      it as one round yields what the FIFO search yields vertex by vertex. */
  lemma {:induction false} RunLevel(g: Adjacency, level: seq<int>, vis: seq<bool>, q: seq<int>)
    requires WellFormed(g) && |vis| == |g| && AllBelow(level, |g|) && AllBelow(q, |g|)
    ensures AllBelow(level + q, |g|)
    ensures var r := ExpandAll(g, level, vis, q);
      Run(g, vis, level + q) == level + Run(g, r.0, r.1)
    decreases |level|
  {
    AllBelowAppend(level, q, |g|);
    if level == [] {
      assert level + q == q;
    } else {
      var p := level + q;
      var e := Expand(g[level[0]], vis);
      AllBelowAppend(q, e.1, |g|);
      RunOne(g, vis, p, []);
      assert p[0] == level[0] && p[1..] + e.1 == level[1..] + (q + e.1);
      RunLevel(g, level[1..], e.0, q + e.1);
      var r := ExpandAll(g, level[1..], e.0, q + e.1);
      assert ExpandAll(g, level, vis, q) == r;
      var tail := Run(g, r.0, r.1);
      assert Run(g, vis, p) == [level[0]] + (level[1..] + tail);
      Regroup(level, tail);
    }
  }

  /** One round in the middle of a search: with `out` emitted before the round,
      emitting the batch and expanding it leaves the overall output unchanged. */
  lemma RoundStep(g: Adjacency, out: seq<int>, level: seq<int>, vis: seq<bool>, q: seq<int>)
    requires WellFormed(g) && |vis| == |g| && AllBelow(level, |g|) && AllBelow(q, |g|)
    ensures AllBelow(level + q, |g|)
    ensures var r := ExpandAll(g, level, vis, q);
      out + Run(g, vis, level + q) == (out + level) + Run(g, r.0, r.1)
  {
    RunLevel(g, level, vis, q);
  }

  /** Moving the front of the queue to the end of the output keeps their concatenation. */
  lemma ShiftFront(out: seq<int>, q: seq<int>, tail: seq<int>)
    requires q != []
    ensures (out + [q[0]]) + (q[1..] + tail) == (out + q) + tail
  {
    assert q == [q[0]] + q[1..];
  }

  /** Re-associating the emitted prefix with one more step of the run. */
  lemma PrefixStep(out: seq<int>, u: int, rest: seq<int>)
    ensures out + ([u] + rest) == (out + [u]) + rest
  {
  }

  /** The state invariant of the search, with `out` the vertices emitted so far:
      the bookkeeping part. */
  ghost predicate InvClaims(g: Adjacency, s: int, vis: seq<bool>, q: seq<int>, out: seq<int>) {
    var p := out + q;
    && WellFormed(g) && 0 <= s < |g| && |vis| == |g|
    && AllBelow(out, |g|) && AllBelow(q, |g|)
    // a vertex is visited exactly when it was emitted or is queued, and only once
    && NoDup(p)
    && (forall x :: 0 <= x < |g| ==> (vis[x] <==> x in p))
    // an emitted vertex has all its neighbours visited
    && (forall x, y :: x in out && 0 <= x < |g| && y in g[x] ==> 0 <= y < |g| && vis[y])
    && (forall x :: x in p ==> Reachable(g, s, x))
    && |p| > 0 && p[0] == s
  }

  /** The distance part of the invariant. */
  ghost predicate InvDist(g: Adjacency, s: int, vis: seq<bool>, q: seq<int>, out: seq<int>)
    requires |vis| == |g|
  {
    // the emitted and queued vertices are ordered by distance, the queue spans at most two distances
    && DistSorted(g, s, out + q)
    && (q != [] && Reachable(g, s, q[0]) && Reachable(g, s, q[|q| - 1]) ==>
          Dist(g, s, q[|q| - 1]) <= Dist(g, s, q[0]) + 1)
    // everything no farther than the front of the queue is already visited
    && (q != [] && Reachable(g, s, q[0]) ==>
          forall x :: 0 <= x < |g| && Reachable(g, s, x) && Dist(g, s, x) <= Dist(g, s, q[0]) ==> vis[x])
  }

  /** The state invariant of the search. */
  ghost predicate Inv(g: Adjacency, s: int, vis: seq<bool>, q: seq<int>, out: seq<int>) {
    InvClaims(g, s, vis, q, out) && InvDist(g, s, vis, q, out)
  }

  /** The properties of a finished search. */
  ghost predicate Complete(g: Adjacency, s: int, o: seq<int>) {
    && |o| > 0 && o[0] == s
    && NoDup(o) && |o| <= |g|
    && (forall x :: x in o <==> 0 <= x < |g| && Reachable(g, s, x))
    && DistSorted(g, s, o)
  }

  lemma InitInv(g: Adjacency, s: int)
    requires WellFormed(g) && 0 <= s < |g|
    ensures Inv(g, s, Start(|g|, s), [s], [])
  {
    DistSource(g, s, s);
    assert [] + [s] == [s];
    forall x | 0 <= x < |g| && Reachable(g, s, x) && Dist(g, s, x) <= Dist(g, s, s)
      ensures Start(|g|, s)[x]
    {
      DistSource(g, s, x);
    }
  }

  /** The vertices queued by expanding the front vertex `u` are new, reachable and
      exactly one step farther than `u`. */
  lemma PushedAtNextDistance(g: Adjacency, s: int, vis: seq<bool>, q: seq<int>, out: seq<int>)
    requires Inv(g, s, vis, q, out) && q != []
    ensures var e := Expand(g[q[0]], vis);
      forall x :: x in e.1 ==>
        0 <= x < |g| && x !in out + q && Reachable(g, s, x) && Dist(g, s, x) == Dist(g, s, q[0]) + 1
  {
    var u := q[0];
    assert u in out + q;
    var e := Expand(g[u], vis);
    ExpandClaims(g[u], vis);
    forall x | x in e.1
      ensures 0 <= x < |g| && x !in out + q && Reachable(g, s, x) && Dist(g, s, x) == Dist(g, s, u) + 1
    {
      DistEdge(g, s, u, x);
    }
  }

  /** Taking one vertex off the queue and expanding it keeps the bookkeeping part. */
  lemma StepClaims(g: Adjacency, s: int, vis: seq<bool>, q: seq<int>, out: seq<int>)
    requires Inv(g, s, vis, q, out) && q != []
    ensures var e := Expand(g[q[0]], vis);
      InvClaims(g, s, e.0, q[1..] + e.1, out + [q[0]])
  {
    var u := q[0];
    var e := Expand(g[u], vis);
    var p := out + q;
    var out', q' := out + [u], q[1..] + e.1;
    ShiftFront(out, q, e.1);
    assert u in p;
    ExpandClaims(g[u], vis);
    PushedAtNextDistance(g, s, vis, q, out);
    NoDupAppend(p, e.1);
    AllBelowAppend(q[1..], e.1, |g|);
    AllBelowAppend(out, [u], |g|);
    forall x, y | x in out' && 0 <= x < |g| && y in g[x] ensures 0 <= y < |g| && e.0[y] {
      if x in out {
        assert vis[y];
      }
    }
  }

  /** Taking one vertex off the queue keeps the emitted and queued vertices sorted by distance. */
  lemma StepSorted(g: Adjacency, s: int, vis: seq<bool>, q: seq<int>, out: seq<int>)
    requires Inv(g, s, vis, q, out) && q != []
    ensures var e := Expand(g[q[0]], vis);
      && (forall i :: 0 <= i < |out + q| ==> Dist(g, s, (out + q)[i]) <= Dist(g, s, q[0]) + 1)
      && DistSorted(g, s, out + q + e.1)
  {
    var u := q[0];
    var e := Expand(g[u], vis);
    var p := out + q;
    var p' := p + e.1;
    assert u in p;
    var d := Dist(g, s, u);
    PushedAtNextDistance(g, s, vis, q, out);
    assert p[|p| - 1] == q[|q| - 1];
    forall i | 0 <= i < |p| ensures Dist(g, s, p[i]) <= d + 1 {
      assert p[i] in p && p[|p| - 1] in p;
    }
    forall i, j | 0 <= i < j < |p'| && Reachable(g, s, p'[i]) && Reachable(g, s, p'[j])
      ensures Dist(g, s, p'[i]) <= Dist(g, s, p'[j])
    {
      if j < |p| {
        assert p'[i] == p[i] && p'[j] == p[j];
      } else if i < |p| {
        assert p'[i] == p[i] && p'[j] in e.1;
      } else {
        assert p'[i] in e.1 && p'[j] in e.1;
      }
    }
  }

  /** After one step the new queue is sorted by distance from its front, and spans
      distances between that of the expanded vertex `u` and one more. */
  lemma StepQueue(g: Adjacency, s: int, vis: seq<bool>, q: seq<int>, out: seq<int>)
    requires Inv(g, s, vis, q, out) && q != []
    ensures var e := Expand(g[q[0]], vis);
      var q' := q[1..] + e.1;
      var d := Dist(g, s, q[0]);
      q' != [] ==>
        && (forall x :: x in q' ==> Reachable(g, s, x))
        && d <= Dist(g, s, q'[0]) <= d + 1
        && Dist(g, s, q'[|q'| - 1]) <= d + 1
        && (forall k :: 0 <= k < |q'| ==> Dist(g, s, q'[0]) <= Dist(g, s, q'[k]))
  {
    var u := q[0];
    var e := Expand(g[u], vis);
    var p := out + q;
    var p' := p + e.1;
    var out', q' := out + [u], q[1..] + e.1;
    ShiftFront(out, q, e.1);
    assert u in p;
    var d := Dist(g, s, u);
    PushedAtNextDistance(g, s, vis, q, out);
    StepSorted(g, s, vis, q, out);
    if q' != [] {
      forall x | x in q' ensures Reachable(g, s, x) {
        assert x in p';
      }
      forall k | 0 <= k < |q'| ensures Dist(g, s, q'[0]) <= Dist(g, s, q'[k]) {
        assert q'[0] == p'[|out'|] && q'[k] == p'[|out'| + k];
        assert q'[0] in p' && q'[k] in p';
      }
      if |q| > 1 {
        assert q'[0] == q[1] == p[|out| + 1] && u == p[|out|];
      } else {
        assert q'[0] == e.1[0];
      }
      if e.1 == [] {
        assert q'[|q'| - 1] == p[|p| - 1];
      } else {
        assert q'[|q'| - 1] in e.1;
      }
    }
  }

  /** Taking one vertex off the queue keeps the distance part of the invariant. */
  lemma StepDist(g: Adjacency, s: int, vis: seq<bool>, q: seq<int>, out: seq<int>)
    requires Inv(g, s, vis, q, out) && q != []
    ensures var e := Expand(g[q[0]], vis);
      InvDist(g, s, e.0, q[1..] + e.1, out + [q[0]])
  {
    var u := q[0];
    var e := Expand(g[u], vis);
    var out', q' := out + [u], q[1..] + e.1;
    assert u in out + q;
    var d := Dist(g, s, u);
    ExpandClaims(g[u], vis);
    StepClaims(g, s, vis, q, out);
    StepSorted(g, s, vis, q, out);
    StepQueue(g, s, vis, q, out);
    ShiftFront(out, q, e.1);
    if q' != [] {
      forall x | 0 <= x < |g| && Reachable(g, s, x) && Dist(g, s, x) <= Dist(g, s, q'[0])
        ensures e.0[x]
      {
        if Dist(g, s, x) > d {
          var w := DistPredecessor(g, s, x);
          assert vis[w];
          assert w !in q';
          assert w in out';
        }
      }
    }
  }

  /** Taking one vertex off the queue and expanding it keeps the invariant. */
  lemma StepInv(g: Adjacency, s: int, vis: seq<bool>, q: seq<int>, out: seq<int>)
    requires Inv(g, s, vis, q, out) && q != []
    ensures var e := Expand(g[q[0]], vis);
      Inv(g, s, e.0, q[1..] + e.1, out + [q[0]])
  {
    StepClaims(g, s, vis, q, out);
    StepDist(g, s, vis, q, out);
  }

  /** A search with an empty queue has emitted exactly the reachable vertices. */
  lemma FinishInv(g: Adjacency, s: int, vis: seq<bool>, out: seq<int>)
    requires Inv(g, s, vis, [], out)
    ensures Complete(g, s, out)
  {
    assert out + [] == out;
    assert Closed(g, vis) by {
      forall x, y | 0 <= x < |g| && vis[x] && y in g[x] ensures 0 <= y < |g| && vis[y] {
        assert x in out;
      }
    }
    forall x | 0 <= x < |g| && Reachable(g, s, x) ensures x in out {
      var k: nat :| Within(g, s, k, x);
      ClosedHoldsReachable(g, s, vis, k, x);
    }
    NoDupLength(out, |g|);
  }

  /** Running the search from any state that satisfies the invariant completes it. */
  lemma {:induction false} RunComplete(g: Adjacency, s: int, vis: seq<bool>, q: seq<int>, out: seq<int>)
    requires Inv(g, s, vis, q, out)
    ensures Complete(g, s, out + Run(g, vis, q))
    decreases CountFalse(vis), |q|
  {
    if q == [] {
      FinishInv(g, s, vis, out);
      assert out + Run(g, vis, q) == out;
    } else {
      var e := Expand(g[q[0]], vis);
      StepInv(g, s, vis, q, out);
      var rest := Run(g, e.0, q[1..] + e.1);
      RunComplete(g, s, e.0, q[1..] + e.1, out + [q[0]]);
      assert Run(g, vis, q) == [q[0]] + rest;
      PrefixStep(out, q[0], rest);
    }
  }

  /** Breadth-first search emits the source first, then every vertex reachable from
      it exactly once and nothing else, in non-decreasing distance from the source. */
  lemma OrderCorrect(g: Adjacency, s: int)
    requires WellFormed(g) && 0 <= s < |g|
    ensures var o := Order(g, s);
      && |o| > 0 && o[0] == s
      && NoDup(o) && |o| <= |g|
      && (forall x :: x in o <==> 0 <= x < |g| && Reachable(g, s, x))
      && DistSorted(g, s, o)
  {
    InitInv(g, s);
    RunComplete(g, s, Start(|g|, s), [s], []);
    assert [] + Order(g, s) == Order(g, s);
  }
}
