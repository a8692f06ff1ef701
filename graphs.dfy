/** Vocabulary shared by the traversal model: adjacency tables, visited flags,
    duplicate-free outputs, and reachability and distance from a source vertex. */
module Graphs {

  /** An adjacency table: entry `u` lists the neighbours of vertex `u` in insertion order. */
  type Adjacency = seq<seq<int>>

  /** Every element of `s` is a vertex below `n`. */
  predicate AllBelow(s: seq<int>, n: int) {
    forall i :: 0 <= i < |s| ==> 0 <= s[i] < n
  }

  lemma AllBelowAppend(a: seq<int>, b: seq<int>, n: int)
    requires AllBelow(a, n) && AllBelow(b, n)
    ensures AllBelow(a + b, n)
  {
    forall i | 0 <= i < |a + b| ensures 0 <= (a + b)[i] < n {
      if i >= |a| {
        assert (a + b)[i] == b[i - |a|];
      }
    }
  }

  lemma AllBelowSplit(a: seq<int>, b: seq<int>, n: int)
    requires AllBelow(a + b, n)
    ensures AllBelow(a, n) && AllBelow(b, n)
  {
    forall i | 0 <= i < |a| ensures 0 <= a[i] < n {
      assert a[i] == (a + b)[i];
    }
    forall i | 0 <= i < |b| ensures 0 <= b[i] < n {
      assert b[i] == (a + b)[|a| + i];
    }
  }

  /** Every listed neighbour is a vertex of the graph. */
  predicate WellFormed(g: Adjacency) {
    forall u :: 0 <= u < |g| ==> AllBelow(g[u], |g|)
  }

  /** The graph is undirected: `v` is listed under `u` exactly when `u` is listed under `v`. */
  predicate Undirected(g: Adjacency) {
    forall u, v :: 0 <= u < |g| && 0 <= v < |g| ==> (v in g[u] <==> u in g[v])
  }

  /** No vertex occurs twice. */
  predicate NoDup(s: seq<int>) {
    forall i, j :: 0 <= i < j < |s| ==> s[i] != s[j]
  }

  /** The number of vertices whose visited flag is still clear. */
  function CountFalse(vis: seq<bool>): nat {
    if vis == [] then 0 else (if vis[0] then 0 else 1) + CountFalse(vis[1..])
  }

  /** Setting one flag lowers the count by one exactly when that flag was clear. */
  lemma {:induction false} CountFalseClaim(vis: seq<bool>, u: int)
    requires 0 <= u < |vis|
    ensures CountFalse(vis[u := true]) == CountFalse(vis) - (if vis[u] then 0 else 1)
  {
    if u == 0 {
      assert vis[u := true][1..] == vis[1..];
    } else {
      assert vis[u := true][1..] == vis[1..][u - 1 := true];
      CountFalseClaim(vis[1..], u - 1);
    }
  }

  /** Joining two duplicate-free sequences with no common element gives a duplicate-free sequence. */
  lemma NoDupAppend(a: seq<int>, b: seq<int>)
    requires NoDup(a) && NoDup(b)
    requires forall x :: x in b ==> x !in a
    ensures NoDup(a + b)
  {
    forall i, j | 0 <= i < j < |a + b| ensures (a + b)[i] != (a + b)[j] {
      if j >= |a| && i < |a| {
        assert (a + b)[j] in b;
      }
    }
  }

  /** A duplicate-free sequence of vertices below `n` has at most `n` elements. */
  lemma {:induction false} NoDupLength(s: seq<int>, n: nat)
    requires NoDup(s)
    requires forall x :: x in s ==> 0 <= x < n
    ensures |s| <= n
  {
    if s == [] {
    } else if n - 1 !in s {
      assert s[0] in s;
      NoDupLength(s, n - 1);
    } else {
      var k :| 0 <= k < |s| && s[k] == n - 1;
      var t := s[..k] + s[k + 1..];
      assert |t| == |s| - 1;
      forall i | 0 <= i < |t| ensures t[i] == (if i < k then s[i] else s[i + 1]) {
      }
      forall x | x in t ensures 0 <= x < n - 1 {
        var i :| 0 <= i < |t| && t[i] == x;
        var m := if i < k then i else i + 1;
        assert x == s[m] && m != k && s[m] in s && s[m] != s[k];
      }
      NoDupLength(t, n - 1);
    }
  }

  /** `t` can be reached from `s` along at most `k` edges of `g`. */
  ghost predicate Within(g: Adjacency, s: int, k: nat, t: int)
    decreases k
  {
    if k == 0 then t == s
    else Within(g, s, k - 1, t) || exists w :: 0 <= w < |g| && t in g[w] && Within(g, s, k - 1, w)
  }

  /** `t` can be reached from `s` along edges of `g`. */
  ghost predicate Reachable(g: Adjacency, s: int, t: int) {
    exists k: nat :: Within(g, s, k, t)
  }

  /** One more edge extends a bounded path by one. */
  lemma WithinStep(g: Adjacency, s: int, k: nat, u: int, v: int)
    requires 0 <= u < |g| && v in g[u] && Within(g, s, k, u)
    ensures Within(g, s, k + 1, v)
  {
  }

  /** Every vertex reached from a vertex of a well-formed graph is a vertex. */
  lemma {:induction false} WithinInRange(g: Adjacency, s: int, k: nat, t: int)
    requires WellFormed(g) && 0 <= s < |g| && Within(g, s, k, t)
    ensures 0 <= t < |g|
  {
    if k > 0 && Within(g, s, k - 1, t) {
      WithinInRange(g, s, k - 1, t);
    }
  }

  /** A larger bound reaches at least as much. */
  lemma {:induction false} WithinMono(g: Adjacency, s: int, j: nat, k: nat, t: int)
    requires j <= k && Within(g, s, j, t)
    ensures Within(g, s, k, t)
    decreases k - j
  {
    if j < k {
      WithinMono(g, s, j + 1, k, t);
    }
  }

  /** `d` is the least bound within which `t` is reached. */
  ghost predicate IsDist(g: Adjacency, s: int, t: int, d: nat) {
    Within(g, s, d, t) && forall j: nat :: j < d ==> !Within(g, s, j, t)
  }

  /** Below any bound that reaches `t` there is a least one. */
  lemma {:induction false} LeastWithin(g: Adjacency, s: int, t: int, k: nat)
    requires Within(g, s, k, t)
    ensures exists d: nat :: IsDist(g, s, t, d)
    decreases k
  {
    if k > 0 && Within(g, s, k - 1, t) {
      LeastWithin(g, s, t, k - 1);
    } else {
      forall j: nat | j < k ensures !Within(g, s, j, t) {
        if Within(g, s, j, t) {
          WithinMono(g, s, j, k - 1, t);
        }
      }
      assert IsDist(g, s, t, k);
    }
  }

  /** The length of a shortest path from `s` to `t`. */
  ghost function Dist(g: Adjacency, s: int, t: int): (d: nat)
    requires Reachable(g, s, t)
    ensures Within(g, s, d, t)
    ensures forall j: nat :: Within(g, s, j, t) ==> d <= j
  {
    var k: nat :| Within(g, s, k, t);
    LeastWithin(g, s, t, k);
    var d: nat :| IsDist(g, s, t, d);
    d
  }

  /** The source is at distance 0 from itself, and nothing else is. */
  lemma DistSource(g: Adjacency, s: int, t: int)
    ensures Reachable(g, s, s) && Dist(g, s, s) == 0
    ensures Reachable(g, s, t) && Dist(g, s, t) == 0 ==> t == s
  {
    assert Within(g, s, 0, s);
  }

  /** Following an edge adds at most one to the distance. */
  lemma DistEdge(g: Adjacency, s: int, u: int, v: int)
    requires 0 <= u < |g| && v in g[u] && Reachable(g, s, u)
    ensures Reachable(g, s, v) && Dist(g, s, v) <= Dist(g, s, u) + 1
  {
    WithinStep(g, s, Dist(g, s, u), u, v);
  }

  /** A vertex at positive distance has a neighbour-of predecessor strictly closer to the source. */
  lemma DistPredecessor(g: Adjacency, s: int, t: int) returns (w: int)
    requires Reachable(g, s, t) && Dist(g, s, t) > 0
    ensures 0 <= w < |g| && t in g[w] && Reachable(g, s, w) && Dist(g, s, w) < Dist(g, s, t)
  {
    var d := Dist(g, s, t);
    assert !Within(g, s, d - 1, t);
    w :| 0 <= w < |g| && t in g[w] && Within(g, s, d - 1, w);
  }

  /** A set of visited flags is closed when every neighbour of a visited vertex is visited. */
  ghost predicate Closed(g: Adjacency, vis: seq<bool>)
    requires |vis| == |g|
  {
    forall x :: 0 <= x < |g| && vis[x] ==> forall y :: y in g[x] ==> 0 <= y < |g| && vis[y]
  }

  /** A closed set of flags that holds the source holds every vertex reachable from it. */
  lemma {:induction false} ClosedHoldsReachable(g: Adjacency, s: int, vis: seq<bool>, k: nat, t: int)
    requires |vis| == |g| && 0 <= s < |g| && vis[s] && Closed(g, vis)
    requires Within(g, s, k, t)
    ensures 0 <= t < |g| && vis[t]
  {
    if k > 0 {
      if Within(g, s, k - 1, t) {
        ClosedHoldsReachable(g, s, vis, k - 1, t);
      } else {
        var w :| 0 <= w < |g| && t in g[w] && Within(g, s, k - 1, w);
        ClosedHoldsReachable(g, s, vis, k - 1, w);
        assert vis[w] && t in g[w];
      }
    }
  }

  /** Every element after the first is a neighbour of some element before it. */
  ghost predicate GrownAlongEdges(g: Adjacency, o: seq<int>) {
    forall i :: 0 < i < |o| ==> exists j :: 0 <= j < i && 0 <= o[j] < |g| && o[i] in g[o[j]]
  }

  /** A sequence grown along edges from `s` holds only vertices reachable from `s`. */
  lemma {:induction false} GrownIsReachable(g: Adjacency, s: int, o: seq<int>, i: nat)
    requires |o| > 0 && o[0] == s && i < |o| && GrownAlongEdges(g, o)
    ensures Reachable(g, s, o[i])
    decreases i
  {
    if i == 0 {
      assert Within(g, s, 0, s);
    } else {
      var j :| 0 <= j < i && 0 <= o[j] < |g| && o[i] in g[o[j]];
      GrownIsReachable(g, s, o, j);
      var k: nat :| Within(g, s, k, o[j]);
      WithinStep(g, s, k, o[j], o[i]);
    }
  }

  /** Vertices are listed in non-decreasing distance from `s`. */
  ghost predicate DistSorted(g: Adjacency, s: int, p: seq<int>) {
    forall i, j :: 0 <= i < j < |p| && Reachable(g, s, p[i]) && Reachable(g, s, p[j]) ==>
      Dist(g, s, p[i]) <= Dist(g, s, p[j])
  }
}
