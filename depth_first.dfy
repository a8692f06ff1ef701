/** Recursive depth-first search from a source vertex, as a pure function of the
    visited flags, and the proof of what it emits. */
module DepthFirst {
  import opened Graphs

  /** Visiting `u`: set its flag, emit it, then scan its neighbours in list order.
      Returns the new flags and the vertices emitted. */
  function Visit(g: Adjacency, u: int, vis: seq<bool>): (r: (seq<bool>, seq<int>))
    requires WellFormed(g) && |vis| == |g| && 0 <= u < |g|
    ensures |r.0| == |vis|
    ensures CountFalse(r.0) <= CountFalse(vis)
    ensures forall x :: 0 <= x < |vis| && vis[x] ==> r.0[x]
    decreases CountFalse(vis[u := true]), 1, 0
  {
    CountFalseClaim(vis, u);
    var r := Scan(g, g[u], vis[u := true]);
    (r.0, [u] + r.1)
  }

  /** Scanning a neighbour list: every neighbour whose flag is still clear when its
      turn comes is visited, in list order. */
  function Scan(g: Adjacency, nbrs: seq<int>, vis: seq<bool>): (r: (seq<bool>, seq<int>))
    requires WellFormed(g) && |vis| == |g| && AllBelow(nbrs, |g|)
    ensures |r.0| == |vis|
    ensures CountFalse(r.0) <= CountFalse(vis)
    ensures forall x :: 0 <= x < |vis| && vis[x] ==> r.0[x]
    decreases CountFalse(vis), 0, |nbrs|
  {
    if nbrs == [] then (vis, [])
    else if vis[nbrs[0]] then Scan(g, nbrs[1..], vis)
    else
      CountFalseClaim(vis, nbrs[0]);
      var r1 := Visit(g, nbrs[0], vis);
      var r2 := Scan(g, nbrs[1..], r1.0);
      (r2.0, r1.1 + r2.1)
  }

  /** The vertices emitted by depth-first search from `s`, in emission order. */
  function Order(g: Adjacency, s: int): (r: seq<int>)
    requires WellFormed(g) && 0 <= s < |g|
    ensures r != [] && r[0] == s
  {
    Visit(g, s, seq(|g|, _ => false)).1
  }

  /** One iteration of a neighbour loop: looking at `nbrs[i]` with flags `vis`
      either skips it or visits it, and the rest of the scan continues from there. */
  lemma ScanOne(g: Adjacency, nbrs: seq<int>, i: nat, vis: seq<bool>, out: seq<int>)
    requires WellFormed(g) && |vis| == |g| && AllBelow(nbrs, |g|) && i < |nbrs|
    ensures var v := nbrs[i];
      var r := Scan(g, nbrs[i..], vis);
      if vis[v] then
        r == Scan(g, nbrs[i + 1..], vis)
      else
        var r1 := Visit(g, v, vis);
        var r2 := Scan(g, nbrs[i + 1..], r1.0);
        r.0 == r2.0 && out + r.1 == (out + r1.1) + r2.1
  {
    var v := nbrs[i];
    assert nbrs[i..][0] == v && nbrs[i..][1..] == nbrs[i + 1..];
    CountFalseClaim(vis, v);
  }

  /** The output of a visit or scan starting from flags `vis` with result flags
      `r.0`: exactly the vertices whose flag went from clear to set, each once. */
  ghost predicate Claims(g: Adjacency, vis: seq<bool>, r: (seq<bool>, seq<int>))
    requires |vis| == |g| && |r.0| == |g|
  {
    && NoDup(r.1)
    && (forall x :: 0 <= x < |g| ==> (r.0[x] <==> vis[x] || x in r.1))
    && (forall x :: x in r.1 ==> 0 <= x < |g| && !vis[x])
  }

  /** Every emitted vertex has all its neighbours visited afterwards. */
  ghost predicate ClosedOver(g: Adjacency, r: (seq<bool>, seq<int>))
    requires |r.0| == |g|
  {
    forall x, y :: x in r.1 && 0 <= x < |g| && y in g[x] ==> 0 <= y < |g| && r.0[y]
  }

  /** Every emitted vertex is in `nbrs` or a neighbour of one emitted before it. */
  ghost predicate GrownFrom(g: Adjacency, nbrs: seq<int>, o: seq<int>) {
    forall i :: 0 <= i < |o| ==>
      o[i] in nbrs || exists j :: 0 <= j < i && 0 <= o[j] < |g| && o[i] in g[o[j]]
  }

  /** Visiting an unvisited vertex emits it first, then exactly the vertices it claims. */
  lemma {:induction false} VisitClaims(g: Adjacency, u: int, vis: seq<bool>)
    requires WellFormed(g) && |vis| == |g| && 0 <= u < |g| && !vis[u]
    ensures var r := Visit(g, u, vis);
      r.1 != [] && r.1[0] == u && Claims(g, vis, r)
    decreases CountFalse(vis[u := true]), 1, 0
  {
    CountFalseClaim(vis, u);
    var vis1 := vis[u := true];
    var r := Scan(g, g[u], vis1);
    ScanClaims(g, g[u], vis1);
    assert Visit(g, u, vis) == (r.0, [u] + r.1);
    NoDupAppend([u], r.1);
  }

  /** Scanning a list emits exactly the vertices it claims, and leaves every listed vertex visited. */
  lemma {:induction false} ScanClaims(g: Adjacency, nbrs: seq<int>, vis: seq<bool>)
    requires WellFormed(g) && |vis| == |g| && AllBelow(nbrs, |g|)
    ensures var r := Scan(g, nbrs, vis);
      Claims(g, vis, r) && forall i :: 0 <= i < |nbrs| ==> r.0[nbrs[i]]
    decreases CountFalse(vis), 0, |nbrs|
  {
    if nbrs == [] {
    } else if vis[nbrs[0]] {
      ScanClaims(g, nbrs[1..], vis);
      var r := Scan(g, nbrs[1..], vis);
      forall i | 0 <= i < |nbrs| ensures r.0[nbrs[i]] {
        if i > 0 {
          assert nbrs[i] == nbrs[1..][i - 1];
        }
      }
    } else {
      var v := nbrs[0];
      CountFalseClaim(vis, v);
      var r1 := Visit(g, v, vis);
      var r2 := Scan(g, nbrs[1..], r1.0);
      VisitClaims(g, v, vis);
      ScanClaims(g, nbrs[1..], r1.0);
      assert Scan(g, nbrs, vis) == (r2.0, r1.1 + r2.1);
      NoDupAppend(r1.1, r2.1);
      forall i | 0 <= i < |nbrs| ensures r2.0[nbrs[i]] {
        if i > 0 {
          assert nbrs[i] == nbrs[1..][i - 1];
        } else {
          assert v in r1.1;
        }
      }
    }
  }

  /** Visiting an unvisited vertex leaves every emitted vertex with all neighbours visited. */
  lemma {:induction false} VisitClosed(g: Adjacency, u: int, vis: seq<bool>)
    requires WellFormed(g) && |vis| == |g| && 0 <= u < |g| && !vis[u]
    ensures ClosedOver(g, Visit(g, u, vis))
    decreases CountFalse(vis[u := true]), 1, 0
  {
    CountFalseClaim(vis, u);
    var vis1 := vis[u := true];
    var r := Scan(g, g[u], vis1);
    ScanClaims(g, g[u], vis1);
    ScanClosed(g, g[u], vis1);
    var o := [u] + r.1;
    assert Visit(g, u, vis) == (r.0, o);
    forall x, y | x in o && 0 <= x < |g| && y in g[x] ensures 0 <= y < |g| && r.0[y] {
      if x != u {
        assert x in r.1;
      } else {
        var i :| 0 <= i < |g[u]| && g[u][i] == y;
      }
    }
  }

  lemma {:induction false} ScanClosed(g: Adjacency, nbrs: seq<int>, vis: seq<bool>)
    requires WellFormed(g) && |vis| == |g| && AllBelow(nbrs, |g|)
    ensures ClosedOver(g, Scan(g, nbrs, vis))
    decreases CountFalse(vis), 0, |nbrs|
  {
    if nbrs == [] {
    } else if vis[nbrs[0]] {
      ScanClosed(g, nbrs[1..], vis);
    } else {
      var v := nbrs[0];
      CountFalseClaim(vis, v);
      var r1 := Visit(g, v, vis);
      var r2 := Scan(g, nbrs[1..], r1.0);
      VisitClosed(g, v, vis);
      ScanClosed(g, nbrs[1..], r1.0);
      var o := r1.1 + r2.1;
      assert Scan(g, nbrs, vis) == (r2.0, o);
      forall x, y | x in o && 0 <= x < |g| && y in g[x] ensures 0 <= y < |g| && r2.0[y] {
        if x in r1.1 {
          assert r1.0[y];
        }
      }
    }
  }

  /** Every vertex a visit emits after `u` is a neighbour of one emitted before it. */
  lemma {:induction false} VisitGrown(g: Adjacency, u: int, vis: seq<bool>)
    requires WellFormed(g) && |vis| == |g| && 0 <= u < |g|
    ensures var o := Visit(g, u, vis).1;
      o != [] && o[0] == u && GrownAlongEdges(g, o)
    decreases CountFalse(vis[u := true]), 1, 0
  {
    CountFalseClaim(vis, u);
    var vis1 := vis[u := true];
    ScanGrown(g, g[u], vis1);
    GrownCons(g, u, Scan(g, g[u], vis1).1);
    assert Visit(g, u, vis).1 == [u] + Scan(g, g[u], vis1).1;
  }

  /** Putting `u` in front of a sequence grown from `u`'s neighbour list gives a
      sequence grown along edges. */
  lemma GrownCons(g: Adjacency, u: int, p: seq<int>)
    requires 0 <= u < |g| && GrownFrom(g, g[u], p)
    ensures GrownAlongEdges(g, [u] + p)
  {
    var o := [u] + p;
    forall i | 0 < i < |o| ensures exists j :: 0 <= j < i && 0 <= o[j] < |g| && o[i] in g[o[j]] {
      assert o[i] == p[i - 1];
      if p[i - 1] in g[u] {
        assert o[0] == u;
      } else {
        var j :| 0 <= j < i - 1 && 0 <= p[j] < |g| && p[i - 1] in g[p[j]];
        assert o[j + 1] == p[j];
      }
    }
    assert forall i :: 0 < i < |o| ==> exists j :: 0 <= j < i && 0 <= o[j] < |g| && o[i] in g[o[j]];
  }

  lemma {:induction false} ScanGrown(g: Adjacency, nbrs: seq<int>, vis: seq<bool>)
    requires WellFormed(g) && |vis| == |g| && AllBelow(nbrs, |g|)
    ensures GrownFrom(g, nbrs, Scan(g, nbrs, vis).1)
    decreases CountFalse(vis), 0, |nbrs|
  {
    if nbrs == [] {
    } else if vis[nbrs[0]] {
      ScanGrown(g, nbrs[1..], vis);
      var o := Scan(g, nbrs[1..], vis).1;
      forall i | 0 <= i < |o| && o[i] in nbrs[1..] ensures o[i] in nbrs {
      }
    } else {
      var v := nbrs[0];
      CountFalseClaim(vis, v);
      var r1 := Visit(g, v, vis);
      var r2 := Scan(g, nbrs[1..], r1.0);
      VisitGrown(g, v, vis);
      ScanGrown(g, nbrs[1..], r1.0);
      assert Scan(g, nbrs, vis).1 == r1.1 + r2.1;
      GrownJoin(g, nbrs, r1.1, r2.1);
    }
  }

  /** A visit of the first listed vertex followed by a scan of the rest grows from the whole list. */
  lemma GrownJoin(g: Adjacency, nbrs: seq<int>, a: seq<int>, b: seq<int>)
    requires nbrs != [] && a != [] && a[0] == nbrs[0]
    requires GrownAlongEdges(g, a) && GrownFrom(g, nbrs[1..], b)
    ensures GrownFrom(g, nbrs, a + b)
  {
    var o := a + b;
    forall i | 0 <= i < |o|
      ensures o[i] in nbrs || exists j :: 0 <= j < i && 0 <= o[j] < |g| && o[i] in g[o[j]]
    {
      if i < |a| {
        assert o[i] == a[i];
        if i > 0 {
          var j :| 0 <= j < i && 0 <= a[j] < |g| && a[i] in g[a[j]];
          assert o[j] == a[j];
        }
      } else {
        var k := i - |a|;
        assert o[i] == b[k];
        if b[k] !in nbrs[1..] {
          var j :| 0 <= j < k && 0 <= b[j] < |g| && b[k] in g[b[j]];
          assert o[j + |a|] == b[j];
        }
      }
    }
  }

  /** Depth-first search emits the source first, then every vertex reachable from it
      exactly once and nothing else; every vertex after the source is a neighbour of
      a vertex emitted before it. */
  lemma OrderCorrect(g: Adjacency, s: int)
    requires WellFormed(g) && 0 <= s < |g|
    ensures var o := Order(g, s);
      && |o| > 0 && o[0] == s
      && NoDup(o) && |o| <= |g|
      && (forall x :: x in o <==> 0 <= x < |g| && Reachable(g, s, x))
      && GrownAlongEdges(g, o)
  {
    var none := seq(|g|, _ => false);
    var r := Visit(g, s, none);
    VisitClaims(g, s, none);
    VisitClosed(g, s, none);
    VisitGrown(g, s, none);
    assert Closed(g, r.0) by {
      forall x, y | 0 <= x < |g| && r.0[x] && y in g[x] ensures 0 <= y < |g| && r.0[y] {
        assert x in r.1;
        var i :| 0 <= i < |g[x]| && g[x][i] == y;
      }
    }
    forall x | 0 <= x < |g| && Reachable(g, s, x) ensures x in r.1 {
      var k: nat :| Within(g, s, k, x);
      ClosedHoldsReachable(g, s, r.0, k, x);
    }
    forall i | 0 <= i < |r.1| ensures Reachable(g, s, r.1[i]) {
      GrownIsReachable(g, s, r.1, i);
    }
    NoDupLength(r.1, |g|);
  }
}
