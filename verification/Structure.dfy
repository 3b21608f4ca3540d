/** cluster/detail.go: the bridges, cut vertices, degrees and components of a cluster's edges. */
module Structure {
  import opened Reach
  import opened DepthFirst
  import opened Connectivity

  datatype Pair = Pair(featureA: string, featureB: string, edge: bool, bridge: bool)

  datatype Member = Member(featureId: string, degree: nat, cutVertex: bool)

  function Bridges(ps: seq<Pair>): (flags: seq<bool>)
    ensures |flags| == |ps|
  {
    seq(|ps|, i requires 0 <= i < |ps| => ps[i].bridge)
  }

  /** Before the first search. */
  lemma NothingReached(g: Graph, s: State)
    requires WellFormed(g) && Shape(g, s) && s.timer == 0
    requires forall v :: 0 <= v < |g| ==> s.disc[v] == 0 && s.last[v] == 0 && !s.cut[v] && s.parent[v] == -1
    requires forall p :: 0 <= p < |s.bridge| ==> !s.bridge[p]
    ensures BetweenRoots(g, s, 0) && Inv(g, s) && Roots(s) == {}
  {
    hide WellFormed, Scanned;
    assert forall v: nat, w: nat :: !Above(s, v, w);
    assert forall v: nat, p: nat :: !HeldBy(s, v, p);
    assert forall v: nat :: !IsRoot(s, v);
  }

  /** The variables the recursive search shares. The ghost fields record the search forest. */
  class Search {
    const g: Graph
    const pairs: array<Pair>
    const disc: array<nat>
    const low: array<nat>
    const cut: array<bool>
    var timer: nat
    ghost var parent: seq<int>
    ghost var via: seq<int>
    ghost var last: seq<nat>

    ghost predicate Valid()
      reads this, pairs, disc, low, cut
    {
      && disc != low && disc.Length == low.Length == cut.Length == |g|
      && |parent| == |via| == |last| == |g|
      && Inv(g, Snapshot())
    }

    constructor (g: Graph, pairs: array<Pair>)
      requires WellFormed(g)
      requires forall u: nat, x: nat, p: nat {:trigger Joins(g, u, x, p)} :: Joins(g, u, x, p) ==> p < pairs.Length
      requires forall k :: 0 <= k < pairs.Length ==> !pairs[k].bridge
      ensures this.g == g && this.pairs == pairs && Valid() && fresh(disc) && fresh(low) && fresh(cut)
      ensures BetweenRoots(g, Snapshot(), 0) && Roots(Snapshot()) == {}
    {
      this.g, this.pairs := g, pairs;
      disc := new nat[|g|](_ => 0);
      low := new nat[|g|](_ => 0);
      cut := new bool[|g|](_ => false);
      timer := 0;
      parent, via, last := seq(|g|, _ => -1), seq(|g|, _ => -1), seq(|g|, _ => 0);
      new;
      hide Inv, BetweenRoots, Roots;
      NothingReached(g, Snapshot());
    }

    ghost function Snapshot(): State
      reads this, pairs, disc, low, cut
    {
      State(disc[..], low[..], cut[..], Bridges(pairs[..]), timer, parent, via, last)
    }

    /** What u learns from the search of its child e.to. */
    method Settle(u: nat, e: Adj, parentPair: int)
      requires disc != low && disc.Length == low.Length == cut.Length == |parent| == |via| == |last| == |g|
      requires u < |g| && e.to < |g| && parent[e.to] == u && via[e.to] == e.pair < pairs.Length
      requires (parent[u] >= 0 <==> parentPair >= 0)
      modifies `last, pairs, low, cut
      ensures Snapshot() == old(Settled(Lowered(Snapshot(), u, low[e.to]), e.to))
      ensures |last| == |g|
      ensures forall k :: 0 <= k < pairs.Length ==> pairs[k] == old(pairs[k]).(bridge := pairs[k].bridge)
    {
      low[u] := Min(low[u], low[e.to]);
      if low[e.to] > disc[u] {
        pairs[e.pair] := pairs[e.pair].(bridge := true);
      }
      if parentPair >= 0 && low[e.to] >= disc[u] {
        cut[u] := true;
      }
      last := last[e.to := timer];
    }

    method Dfs(u: nat, parentPair: int, ghost up: int)
      requires Valid() && u < |g| && CanReach(g, Snapshot(), u, up, parentPair)
      modifies this, pairs, disc, low, cut
      ensures Valid() && Searched(g, old(Snapshot()), Snapshot(), u, up, parentPair)
      ensures forall k :: 0 <= k < pairs.Length ==> pairs[k] == old(pairs[k]).(bridge := pairs[k].bridge)
      decreases Unreached(Snapshot())
    {
      hide Inv, CanReach, Searching, Searched, Children, Unreached, Scanned, Deepest, TwoChildren;
      ghost var s := Snapshot();
      timer := timer + 1;
      disc[u], low[u] := timer, timer;
      parent, via := parent[u := up], via[u := parentPair];
      assert Snapshot() == Reached(s, u, up, parentPair);
      SearchingStarts(g, s, u, up, parentPair);
      var children := 0;
      for i := 0 to |g[u]|
        invariant |parent| == |via| == |last| == |g|
        invariant Searching(g, s, Snapshot(), u, up, parentPair, i, children)
        invariant Unreached(Snapshot()) < Unreached(s)
        invariant forall k :: 0 <= k < pairs.Length ==> pairs[k] == old(pairs[k]).(bridge := pairs[k].bridge)
      {
        ghost var t := Snapshot();
        var e := g[u][i];
        SearchingEnters(g, s, t, u, up, parentPair, i, children);
        if e.pair == parentPair {
          SearchingSkips(g, s, t, u, up, parentPair, i, children);
        } else if disc[e.to] != 0 {
          low[u] := Min(low[u], disc[e.to]);
          SearchingBack(g, s, t, u, up, parentPair, i, children);
          assert Snapshot() == Lowered(t, u, t.disc[e.to]);
          SameUnreached(t, Snapshot());
        } else {
          children := children + 1;
          Dfs(e.to, e.pair, u);
          ghost var r := Snapshot();
          SearchingChild(g, s, t, r, u, up, parentPair, i, children - 1);
          Settle(u, e, parentPair);
          SameUnreached(r, Snapshot());
        }
      }
      ghost var t := Snapshot();
      SearchingEnds(g, s, t, u, up, parentPair, children);
      if parentPair < 0 && children > 1 {
        cut[u] := true;
        assert Snapshot() == t.(cut := t.cut[u := true]);
      }
    }

    /** Searches from every vertex not reached yet, and counts the searches. */
    method SearchAll() returns (components: nat)
      requires Valid() && BetweenRoots(g, Snapshot(), 0) && Roots(Snapshot()) == {}
      modifies this, pairs, disc, low, cut
      ensures Done(g, Snapshot()) && RootsFirst(Snapshot()) && components == |Roots(Snapshot())|
      ensures |cut[..]| == |g| && Bridges(pairs[..]) == Snapshot().bridge
      ensures forall k :: 0 <= k < pairs.Length ==> pairs[k] == old(pairs[k]).(bridge := pairs[k].bridge)
    {
      hide BetweenRoots, Searched, Roots, Inv, Done, CanReach, RootsFirst, CanSettle;
      components := 0;
      for i := 0 to |g|
        invariant Valid() && BetweenRoots(g, Snapshot(), i) && components == |Roots(Snapshot())|
        invariant forall k :: 0 <= k < pairs.Length ==> pairs[k] == old(pairs[k]).(bridge := pairs[k].bridge)
      {
        ghost var s := Snapshot();
        RootEnters(g, s, i);
        if disc[i] == 0 {
          components := components + 1;
          Dfs(i, -1, -1);
          ghost var t := Snapshot();
          RootSearched(g, s, t, i);
          last := last[i := timer];
          assert Snapshot() == Settled(t, i);
          RootEnters(g, Snapshot(), i + 1);
        }
      }
      RootEnters(g, Snapshot(), |g|);
    }
  }

  // ------------------------------------------------------------------- what the result must say

  /** The edges among pairs, by feature, leaving out pair `skip` (none, for -1). */
  function Edges(ps: seq<Pair>, skip: int): set<(string, string)> {
    set k | 0 <= k < |ps| && k != skip && ps[k].edge :: (ps[k].featureA, ps[k].featureB)
  }

  /** The edges that do not touch feature f. */
  function EdgesAvoiding(ps: seq<Pair>, f: string): set<(string, string)> {
    set k | 0 <= k < |ps| && ps[k].edge && ps[k].featureA != f && ps[k].featureB != f ::
      (ps[k].featureA, ps[k].featureB)
  }

  /** Removing pair k leaves its two features unconnected. */
  ghost predicate IsBridge(ps: seq<Pair>, k: nat) {
    k < |ps| && ps[k].edge && !Linked<string>(Edges(ps, k), ps[k].featureA, ps[k].featureB)
  }

  /** f alone connects members x and y. */
  ghost predicate ConnectsAlone(members: seq<string>, ps: seq<Pair>, f: string, x: string, y: string) {
    && x in members && y in members && x != f && y != f
    && Linked<string>(Edges(ps, -1), x, y) && !Linked<string>(EdgesAvoiding(ps, f), x, y)
  }

  /** Removing member f disconnects two other members that were connected. */
  ghost predicate IsCutVertex(members: seq<string>, ps: seq<Pair>, f: string) {
    exists x: string, y: string :: ConnectsAlone(members, ps, f, x, y)
  }

  /** How many edge ends touch f. */
  function Degree(ps: seq<Pair>, f: string): nat {
    if ps == [] then 0 else
      var p := ps[|ps| - 1];
      Degree(ps[..|ps| - 1], f)
      + (if p.edge && p.featureA == f then 1 else 0) + (if p.edge && p.featureB == f then 1 else 0)
  }

  /** No earlier member is connected to the i-th: it stands for its component. */
  ghost predicate FirstOfComponent(members: seq<string>, ps: seq<Pair>, i: nat) {
    i < |members| && forall j :: 0 <= j < i ==> !Linked<string>(Edges(ps, -1), members[i], members[j])
  }

  ghost function ComponentCount(members: seq<string>, ps: seq<Pair>): nat {
    |set i: nat | i < |members| && FirstOfComponent(members, ps, i)|
  }

  ghost predicate Distinct(members: seq<string>) {
    forall i, j :: 0 <= i < j < |members| ==> members[i] != members[j]
  }

  // ---------------------------------------------------------------------- building the graph

  /** index gives each member its place. */
  ghost predicate Indexes(index: map<string, nat>, members: seq<string>) {
    && (forall f :: f in index <==> f in members)
    && (forall f :: f in index ==> index[f] < |members| && members[index[f]] == f)
    && (forall i {:trigger members[i]} :: 0 <= i < |members| ==> members[i] in index && index[members[i]] == i)
  }

  ghost predicate EdgesInside(members: seq<string>, ps: seq<Pair>) {
    forall k {:trigger ps[k]} :: 0 <= k < |ps| && ps[k].edge ==> ps[k].featureA in members && ps[k].featureB in members
  }

  /** u and x are the places of the ends of edge p. */
  predicate Ends(index: map<string, nat>, ps: seq<Pair>, u: nat, x: nat, p: nat) {
    && p < |ps| && ps[p].edge && ps[p].featureA in index && ps[p].featureB in index
    && ((u == index[ps[p].featureA] && x == index[ps[p].featureB]) ||
         (x == index[ps[p].featureA] && u == index[ps[p].featureB]))
  }

  /** g holds the adjacencies of the first n pairs. */
  ghost predicate Built(g: Graph, index: map<string, nat>, members: seq<string>, ps: seq<Pair>, n: nat) {
    && n <= |ps| && |g| == |members|
    && (forall u: nat, x: nat, p: nat {:trigger Joins(g, u, x, p)} :: Joins(g, u, x, p) <==>
         p < n && Ends(index, ps, u, x, p))
    && (forall u {:trigger g[u]} :: 0 <= u < |g| ==> |g[u]| == Degree(ps[..n], members[u]))
  }

  function Linked2(g: Graph, a: nat, b: nat, p: nat): Graph
    requires a < |g| && b < |g|
  {
    var h := g[a := g[a] + [Adj(b, p)]];
    h[b := h[b] + [Adj(a, p)]]
  }

  lemma BuiltStep(g: Graph, index: map<string, nat>, members: seq<string>, ps: seq<Pair>, n: nat)
    requires Indexes(index, members) && EdgesInside(members, ps) && n < |ps| && Built(g, index, members, ps, n)
    ensures !ps[n].edge ==> Built(g, index, members, ps, n + 1)
    ensures ps[n].edge ==>
      ps[n].featureA in index && ps[n].featureB in index && index[ps[n].featureA] < |g| &&
        index[ps[n].featureB] < |g| &&
      Built(Linked2(g, index[ps[n].featureA], index[ps[n].featureB], n), index, members, ps, n + 1)
  {
    assert ps[..n + 1][..n] == ps[..n];
    if ps[n].edge {
      var a, b := index[ps[n].featureA], index[ps[n].featureB];
      var h := Linked2(g, a, b, n);
      forall u: nat, x: nat, p: nat
        ensures Joins(h, u, x, p) <==> p < n + 1 && Ends(index, ps, u, x, p)
      {
        assert Joins(h, u, x, p) <==> Joins(g, u, x, p) || (u == a && x == b && p == n) || (u == b && x == a && p == n);
      }
    }
  }

  lemma BuiltWellFormed(g: Graph, index: map<string, nat>, members: seq<string>, ps: seq<Pair>)
    requires Indexes(index, members) && Built(g, index, members, ps, |ps|)
    ensures WellFormed(g)
    ensures forall u: nat, x: nat, p: nat {:trigger Joins(g, u, x, p)} :: Joins(g, u, x, p) ==> p < |ps|
  {
    forall u, k | 0 <= u < |g| && 0 <= k < |g[u]|
      ensures g[u][k].to < |g|
    {
      assert Joins(g, u, g[u][k].to, g[u][k].pair);
    }
  }

  // ------------------------------------------------------------- from places back to features

  /** Renaming vertices by the members' places preserves and reflects links. */
  lemma LinkedByName(index: map<string, nat>, members: seq<string>, E: set<(nat, nat)>, F: set<(string, string)>,
                     a: nat, b: nat)
    requires Indexes(index, members) && a < |members| && b < |members|
    requires forall u: nat, x: nat :: Touch(E, u, x) ==>
      u < |members| && x < |members| && Touch(F, members[u], members[x])
    requires forall e, f :: Touch(F, e, f) ==> e in index && f in index && Touch(E, index[e], index[f])
    ensures Linked<nat>(E, a, b) <==> Linked<string>(F, members[a], members[b])
  {
    var name := (u: nat) => if u < |members| then members[u] else "";
    var place := (f: string) => if f in index then index[f] else 0;
    if Linked<nat>(E, a, b) {
      LinkedImage<nat, string>(E, F, name, a, b);
    }
    if Linked<string>(F, members[a], members[b]) {
      LinkedImage<string, nat>(F, E, place, members[a], members[b]);
    }
  }

  lemma TouchEdges(ps: seq<Pair>, skip: int, e: string, f: string)
    ensures Touch(Edges(ps, skip), e, f) <==>
      exists k :: 0 <= k < |ps| && k != skip && ps[k].edge &&
        ((ps[k].featureA == e && ps[k].featureB == f) || (ps[k].featureA == f && ps[k].featureB == e))
  {}

  lemma LinkedWithout(g: Graph, index: map<string, nat>, members: seq<string>, ps: seq<Pair>, skip: int, a: nat, b: nat)
    requires Indexes(index, members) && EdgesInside(members, ps) && Built(g, index, members, ps, |ps|)
    requires a < |members| && b < |members|
    ensures Linked<nat>(WithoutPair(g, skip), a, b) <==> Linked<string>(Edges(ps, skip), members[a], members[b])
  {
    BuiltWellFormed(g, index, members, ps);
    var E, F := WithoutPair(g, skip), Edges(ps, skip);
    forall u: nat, x: nat | Touch(E, u, x)
      ensures u < |members| && x < |members| && Touch(F, members[u], members[x])
    {
      TouchJoined(g, skip, u, x);
      var q: nat :| q != skip && Joins(g, u, x, q);
      assert Ends(index, ps, u, x, q);
      TouchEdges(ps, skip, members[u], members[x]);
    }
    forall e, f | Touch(F, e, f)
      ensures e in index && f in index && Touch(E, index[e], index[f])
    {
      TouchEdges(ps, skip, e, f);
      var k :| 0 <= k < |ps| && k != skip && ps[k].edge &&
        ((ps[k].featureA == e && ps[k].featureB == f) || (ps[k].featureA == f && ps[k].featureB == e));
      assert Ends(index, ps, index[e], index[f], k);
      assert Joined(g, index[e], index[f], skip) by { assert Joins(g, index[e], index[f], k); }
      TouchJoined(g, skip, index[e], index[f]);
    }
    LinkedByName(index, members, E, F, a, b);
  }

  lemma LinkedAvoiding(g: Graph, index: map<string, nat>, members: seq<string>, ps: seq<Pair>, z: nat, a: nat, b: nat)
    requires Indexes(index, members) && EdgesInside(members, ps) && Built(g, index, members, ps, |ps|)
    requires a < |members| && b < |members| && z < |members|
    ensures Linked<nat>(WithoutVertex(g, z), a, b) <==>
      Linked<string>(EdgesAvoiding(ps, members[z]), members[a], members[b])
  {
    BuiltWellFormed(g, index, members, ps);
    var E, F := WithoutVertex(g, z), EdgesAvoiding(ps, members[z]);
    forall u: nat, x: nat | Touch(E, u, x)
      ensures u < |members| && x < |members| && Touch(F, members[u], members[x])
    {
      TouchAvoids(g, z, u, x);
      var q: nat :| q != -1 && Joins(g, u, x, q);
      assert Ends(index, ps, u, x, q);
      assert (ps[q].featureA, ps[q].featureB) in F;
    }
    forall e, f | Touch(F, e, f)
      ensures e in index && f in index && Touch(E, index[e], index[f])
    {
      var k :| 0 <= k < |ps| && ps[k].edge && ps[k].featureA != members[z] && ps[k].featureB != members[z] &&
        ((ps[k].featureA == e && ps[k].featureB == f) || (ps[k].featureA == f && ps[k].featureB == e));
      assert Ends(index, ps, index[e], index[f], k);
      assert Joined(g, index[e], index[f], -1) by { assert Joins(g, index[e], index[f], k); }
      TouchAvoids(g, z, index[e], index[f]);
    }
    LinkedByName(index, members, E, F, a, b);
  }

  lemma BridgeByName(g: Graph, s: State, index: map<string, nat>, members: seq<string>, ps: seq<Pair>, k: nat)
    requires Indexes(index, members) && EdgesInside(members, ps) && Built(g, index, members, ps, |ps|)
    requires Done(g, s) && k < |ps| == |s.bridge|
    ensures s.bridge[k] <==> IsBridge(ps, k)
  {
    if ps[k].edge {
      var a, b := index[ps[k].featureA], index[ps[k].featureB];
      assert Ends(index, ps, a, b, k);
      BridgeExactly(g, s, a, b, k);
      LinkedWithout(g, index, members, ps, k, a, b);
    } else if s.bridge[k] {
      DoneForest(g, s);
      var v: nat :| HeldBy(s, v, k);
      HeldSplits(g, s, v, k);
      assert false;
    }
  }

  lemma CutByName(g: Graph, s: State, index: map<string, nat>, members: seq<string>, ps: seq<Pair>, u: nat)
    requires Indexes(index, members) && EdgesInside(members, ps) && Built(g, index, members, ps, |ps|)
    requires Done(g, s) && u < |members|
    ensures u < |s.cut| && (s.cut[u] <==> IsCutVertex(members, ps, members[u]))
  {
    CutExactly(g, s, u);
    hide Done, Built;
    if x: nat, y: nat :| LinkedOnlyThrough(g, u, x, y) {
      assert x < |members| && y < |members| by { assert |g| == |members| by { SameLength(g, index, members, ps); } }
      LinkedWithout(g, index, members, ps, -1, x, y);
      LinkedAvoiding(g, index, members, ps, u, x, y);
      assert ConnectsAlone(members, ps, members[u], members[x], members[y]);
    }
    if e: string, f: string :| ConnectsAlone(members, ps, members[u], e, f) {
      var x, y := index[e], index[f];
      SameLength(g, index, members, ps);
      LinkedWithout(g, index, members, ps, -1, x, y);
      LinkedAvoiding(g, index, members, ps, u, x, y);
      assert LinkedOnlyThrough(g, u, x, y);
    }
  }

  lemma SameLength(g: Graph, index: map<string, nat>, members: seq<string>, ps: seq<Pair>)
    requires Built(g, index, members, ps, |ps|)
    ensures |g| == |members|
  {}

  lemma ComponentsByName(g: Graph, index: map<string, nat>, members: seq<string>, ps: seq<Pair>)
    requires Indexes(index, members) && EdgesInside(members, ps) && Built(g, index, members, ps, |ps|)
    ensures |Smallest(g)| == ComponentCount(members, ps)
  {
    SameLength(g, index, members, ps);
    hide Built;
    forall i: nat | i < |members|
      ensures IsSmallest(g, i) <==> FirstOfComponent(members, ps, i)
    {
      forall j: nat | j < |members|
        ensures Linked<nat>(WithoutPair(g, -1), i, j) <==> Linked<string>(Edges(ps, -1), members[i], members[j])
      {
        LinkedWithout(g, index, members, ps, -1, i, j);
      }
    }
    assert Smallest(g) == set i: nat | i < |members| && FirstOfComponent(members, ps, i);
  }

  // ---------------------------------------------------------------------------- the whole pass

  /** Each member's adjacencies, from the pairs that are edges. */
  method Adjacencies(members: seq<string>, pairs: array<Pair>) returns (g: Graph, ghost index: map<string, nat>)
    requires Distinct(members) && EdgesInside(members, pairs[..])
    ensures Indexes(index, members) && Built(g, index, members, pairs[..], pairs.Length)
    ensures WellFormed(g) && |g| == |members|
    ensures forall u: nat, x: nat, p: nat {:trigger Joins(g, u, x, p)} :: Joins(g, u, x, p) ==> p < pairs.Length
    ensures forall i {:trigger g[i]} :: 0 <= i < |g| ==> |g[i]| == Degree(pairs[..], members[i])
  {
    ghost var ps := pairs[..];
    var place: map<string, nat> := map[];
    for i := 0 to |members|
      invariant forall f :: f in place <==> f in members[..i]
      invariant forall f :: f in place ==> place[f] < i && members[place[f]] == f
      invariant forall j {:trigger members[j]} :: 0 <= j < i ==> members[j] in place && place[members[j]] == j
    {
      place := place[members[i] := i];
    }
    assert members[..|members|] == members;
    g := seq(|members|, _ => []);
    for k := 0 to pairs.Length
      invariant pairs[..] == ps && Built(g, place, members, ps, k)
    {
      BuiltStep(g, place, members, ps, k);
      if pairs[k].edge {
        var a, b := place[pairs[k].featureA], place[pairs[k].featureB];
        g := g[a := g[a] + [Adj(b, k)]];
        g := g[b := g[b] + [Adj(a, k)]];
      }
    }
    assert ps[..|ps|] == ps;
    BuiltWellFormed(g, place, members, ps);
    index := place;
  }

  /** The degree, the cut vertices, the bridges and the number of components of a cluster's edges. */
  method Structure(members: seq<string>, pairs: array<Pair>) returns (out: seq<Member>, components: nat)
    requires Distinct(members) && EdgesInside(members, pairs[..])
    requires forall k :: 0 <= k < pairs.Length ==> !pairs[k].bridge
    modifies pairs
    ensures forall k :: 0 <= k < pairs.Length ==> pairs[k] == old(pairs[k]).(bridge := pairs[k].bridge)
    ensures forall k :: 0 <= k < pairs.Length ==> (pairs[k].bridge <==> IsBridge(old(pairs[..]), k))
    ensures |out| == |members|
    ensures forall i {:trigger out[i]} :: 0 <= i < |members| ==>
      && out[i].featureId == members[i] && out[i].degree == Degree(old(pairs[..]), members[i])
      && (out[i].cutVertex <==> IsCutVertex(members, old(pairs[..]), members[i]))
    ensures components == ComponentCount(members, old(pairs[..]))
  {
    ghost var ps := pairs[..];
    hide IsBridge, IsCutVertex, Degree, ComponentCount, BetweenRoots, Searched, Roots, Built, Inv, Done, WellFormed,
      CanReach, Indexes, EdgesInside;
    var g: Graph;
    ghost var index;
    g, index := Adjacencies(members, pairs);
    assert |g| == |members|;
    var search := new Search(g, pairs);
    components := search.SearchAll();
    ghost var s := search.Snapshot();
    ComponentsExactly(g, s);
    ComponentsByName(g, index, members, ps);
    Results(g, s, index, members, ps);
    assert forall k :: 0 <= k < pairs.Length ==> pairs[k].bridge == s.bridge[k];
    out := Report(members, g, search.cut);
  }

  /** What the flags of a finished search say of the features. */
  lemma Results(g: Graph, s: State, index: map<string, nat>, members: seq<string>, ps: seq<Pair>)
    requires Indexes(index, members) && EdgesInside(members, ps) && Built(g, index, members, ps, |ps|)
    requires Done(g, s) && |s.bridge| == |ps|
    ensures forall k {:trigger s.bridge[k]} :: 0 <= k < |ps| ==> (s.bridge[k] <==> IsBridge(ps, k))
    ensures |members| <= |s.cut|
    ensures forall i {:trigger s.cut[i]} :: 0 <= i < |members| ==> (s.cut[i] <==> IsCutVertex(members, ps, members[i]))
  {
    hide IsBridge, IsCutVertex, Built, Done, Indexes, EdgesInside;
    forall k {:trigger s.bridge[k]} | 0 <= k < |ps|
      ensures s.bridge[k] <==> IsBridge(ps, k)
    {
      BridgeByName(g, s, index, members, ps, k);
    }
    forall i | 0 <= i < |members|
      ensures i < |s.cut| && (s.cut[i] <==> IsCutVertex(members, ps, members[i]))
    {
      CutByName(g, s, index, members, ps, i);
    }
    if |members| > 0 { CutByName(g, s, index, members, ps, |members| - 1); }
  }

  method Report(members: seq<string>, g: Graph, cut: array<bool>) returns (out: seq<Member>)
    requires |members| == |g| == cut.Length
    ensures |out| == |members|
    ensures forall j {:trigger out[j]} :: 0 <= j < |members| ==> out[j] == Member(members[j], |g[j]|, cut[j])
  {
    out := [];
    for i := 0 to |members|
      invariant |out| == i
      invariant forall j {:trigger out[j]} :: 0 <= j < i ==> out[j] == Member(members[j], |g[j]|, cut[j])
    {
      out := out + [Member(members[i], |g[i]|, cut[i])];
    }
  }

  // ------------------------------------------------------------------------------- degrees

  function DegreeSum(ps: seq<Pair>, members: seq<string>): nat {
    if members == [] then 0 else DegreeSum(ps, members[..|members| - 1]) + Degree(ps, members[|members| - 1])
  }

  function EdgeCount(ps: seq<Pair>): nat {
    if ps == [] then 0 else EdgeCount(ps[..|ps| - 1]) + if ps[|ps| - 1].edge then 1 else 0
  }

  /** Every edge is counted by the degrees of exactly two ends. */
  lemma {:induction false} Handshake(ps: seq<Pair>, members: seq<string>)
    requires Distinct(members) && EdgesInside(members, ps)
    ensures DegreeSum(ps, members) == 2 * EdgeCount(ps)
  {
    if ps == [] {
      NoDegree(members);
    } else {
      var rest, p := ps[..|ps| - 1], ps[|ps| - 1];
      assert forall k {:trigger rest[k]} :: 0 <= k < |rest| ==> rest[k] == ps[k];
      Handshake(rest, members);
      LastPair(ps, members);
      if p.edge {
        OnceIn(members, p.featureA);
        OnceIn(members, p.featureB);
      }
    }
  }

  lemma {:induction false} NoDegree(members: seq<string>)
    ensures DegreeSum([], members) == 0
  {
    if members != [] { NoDegree(members[..|members| - 1]); }
  }

  lemma {:induction false} OnceIn(members: seq<string>, f: string)
    requires Distinct(members)
    ensures multiset(members)[f] == if f in members then 1 else 0
  {
    if members != [] {
      var rest := members[..|members| - 1];
      assert members == rest + [members[|members| - 1]];
      OnceIn(rest, f);
    }
  }

  lemma {:induction false} LastPair(ps: seq<Pair>, members: seq<string>)
    requires ps != []
    ensures var p := ps[|ps| - 1];
      DegreeSum(ps, members) == DegreeSum(ps[..|ps| - 1], members)
        + if p.edge then multiset(members)[p.featureA] + multiset(members)[p.featureB] else 0
  {
    if members != [] {
      var rest := members[..|members| - 1];
      assert members == rest + [members[|members| - 1]];
      LastPair(ps, rest);
    }
  }
}
