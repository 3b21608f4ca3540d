/** What the flags of a finished depth-first search say about the graph searched. */
module Connectivity {
  import opened Reach
  import opened DepthFirst

  /** The search has covered the whole graph. */
  ghost predicate Done(g: Graph, s: State) {
    Inv(g, s) && forall v {:trigger s.last[v]} :: 0 <= v < |g| ==> s.last[v] != 0
  }

  /** Some pair other than p joins u and x. */
  ghost predicate Joined(g: Graph, u: nat, x: nat, p: int) {
    exists q: nat :: q != p && Joins(g, u, x, q)
  }

  /** The graph's edges without pair p (every edge, for p == -1). */
  ghost function WithoutPair(g: Graph, p: int): set<(nat, nat)> {
    set u: nat, x: nat | u < |g| && x < |g| && Joined(g, u, x, p) :: (u, x)
  }

  /** The graph's edges that do not touch vertex z. */
  ghost function WithoutVertex(g: Graph, z: nat): set<(nat, nat)> {
    set u: nat, x: nat | u < |g| && x < |g| && u != z && x != z && Joined(g, u, x, -1) :: (u, x)
  }

  lemma TouchJoined(g: Graph, p: int, u: nat, x: nat)
    requires WellFormed(g)
    ensures Touch(WithoutPair(g, p), u, x) <==> u < |g| && x < |g| && Joined(g, u, x, p)
  {
    assert Joined(g, u, x, p) <==> Joined(g, x, u, p);
  }

  lemma TouchAvoids(g: Graph, z: nat, u: nat, x: nat)
    requires WellFormed(g)
    ensures Touch(WithoutVertex(g, z), u, x) <==> u < |g| && x < |g| && u != z && x != z && Joined(g, u, x, -1)
  {
    assert Joined(g, u, x, -1) <==> Joined(g, x, u, -1);
  }

  // ------------------------------------------------------------------------- the search forest

  ghost predicate Forest(g: Graph, s: State) {
    && WellFormed(g) && Shape(g, s) && Times(g, s) && TreeEdges(g, s) && Nested(g, s) && Related(g, s)
    && forall v {:trigger s.disc[v]} :: 0 <= v < |g| ==> s.disc[v] != 0
  }

  lemma DoneForest(g: Graph, s: State)
    requires Done(g, s)
    ensures Shape(g, s) && Forest(g, s)
  {
    hide AllScanned, BridgeFlags, CutFlags, Nested, Related, TreeEdges, WellFormed;
    forall v | 0 <= v < |g|
      ensures s.disc[v] != 0
    {
      assert s.last[v] != 0;
    }
  }

  lemma AboveTrans(g: Graph, s: State, a: nat, b: nat, c: nat)
    requires Forest(g, s) && Above(s, a, b) && Above(s, b, c)
    ensures Above(s, a, c)
  {
    hide TreeEdges, Related, WellFormed, Times;
  }

  /** Two vertices above a third are one above the other. */
  lemma Comparable(g: Graph, s: State, a: nat, b: nat, c: nat)
    requires Shape(g, s) && Forest(g, s) && Above(s, a, c) && Above(s, b, c)
    ensures if s.disc[a] <= s.disc[b] then Above(s, a, b) else Above(s, b, a)
  {}

  lemma Itself(g: Graph, s: State, v: nat)
    requires Forest(g, s) && v < |g|
    ensures Above(s, v, v)
  {
    hide TreeEdges, Related, WellFormed, Nested;
    assert s.last[v] != 0 ==> s.disc[v] <= s.last[v];
    assert s.disc[v] <= s.timer;
  }

  /** One step up from w towards v. */
  lemma Up(g: Graph, s: State, v: nat, w: nat)
    requires Shape(g, s) && Forest(g, s) && Above(s, v, w) && v != w
    ensures 0 <= s.parent[w] < |g| && 0 <= s.via[w] && s.parent[w] != w && s.disc[s.parent[w]] < s.disc[w]
    ensures Above(s, v, s.parent[w]) && Above(s, s.parent[w], w) && Joins(g, s.parent[w], w, s.via[w])
  {
    hide Related, WellFormed;
    assert s.disc[s.parent[w]] != s.disc[w];
  }

  /** Tree edges kept in E lead down from v to w. */
  lemma {:induction false} TreePath(g: Graph, s: State, E: set<(nat, nat)>, v: nat, w: nat)
    requires Shape(g, s) && Forest(g, s) && Above(s, v, w)
    requires forall z: nat :: Above(s, v, z) && Above(s, z, w) && z != v ==>
      s.parent[z] >= 0 && Touch(E, s.parent[z], z)
    ensures Linked<nat>(E, v, w)
    decreases s.disc[w]
  {
    hide Forest;
    if v == w {
      LinkedSelf<nat>(E, v);
    } else {
      Up(g, s, v, w);
      Itself(g, s, w);
      var z := s.parent[w];
      forall y: nat | Above(s, v, y) && Above(s, y, z) && y != v
        ensures s.parent[y] >= 0 && Touch(E, s.parent[y], y)
      {
        AboveTrans(g, s, y, z, w);
      }
      TreePath(g, s, E, v, z);
      LinkedTouch<nat>(E, z, w);
      LinkedTrans<nat>(E, v, z, w);
    }
  }

  /** The root of v's tree. */
  lemma {:induction false} Root(g: Graph, s: State, v: nat) returns (r: nat)
    requires Shape(g, s) && Forest(g, s) && v < |g|
    ensures r < |g| && s.parent[r] == -1 && Above(s, r, v)
    decreases s.disc[v]
  {
    Itself(g, s, v);
    if s.parent[v] == -1 {
      r := v;
    } else {
      assert s.disc[s.parent[v]] < s.disc[v] &&
        Above(s, s.parent[v], v) by { hide Nested, Related, WellFormed; assert s.disc[s.parent[v]] != s.disc[v]; }
      r := Root(g, s, s.parent[v]);
      AboveTrans(g, s, r, s.parent[v], v);
    }
  }

  /** An edge leaving c's subtree leads above c's parent. */
  lemma EdgeOut(g: Graph, s: State, c: nat, w: nat, x: nat, q: nat)
    requires Shape(g, s) && Forest(g, s) && Above(s, c, w) && Joins(g, w, x, q) && x < |g| && !Above(s, c, x)
    ensures s.parent[c] >= 0 && Above(s, x, s.parent[c]) && Above(s, x, c) && x != c
  {
    assert !Above(s, w, x) by {
      hide Related, WellFormed, TreeEdges, Times;
    }
    assert Above(s, x, w) by {
      hide Nested, WellFormed, TreeEdges, Times;
    }
    Comparable(g, s, c, x, w);
    Up(g, s, x, c);
  }

  /** A child of u above or at z, which lies below u. */
  lemma {:induction false} ChildToward(g: Graph, s: State, u: nat, z: nat) returns (c: nat)
    requires Shape(g, s) && Forest(g, s) && Above(s, u, z) && u != z
    ensures IsChild(s, u, c) && Above(s, c, z) && c < |g| && s.disc[u] < s.disc[c] && !Above(s, c, u)
    decreases s.disc[z]
  {
    Up(g, s, u, z);
    if s.parent[z] == u {
      c := z;
      Itself(g, s, z);
    } else {
      c := ChildToward(g, s, u, s.parent[z]);
      AboveTrans(g, s, c, s.parent[z], z);
    }
  }

  // --------------------------------------------------------------------------------- low values

  /** low never grows on the way up. */
  lemma {:induction false} LowMono(g: Graph, s: State, c: nat, w: nat)
    requires Shape(g, s) && Done(g, s) && Forest(g, s) && Above(s, c, w)
    ensures s.low[c] <= s.low[w]
    decreases s.disc[w]
  {
    hide Forest, TreeEdges, Times, WellFormed, BridgeFlags, CutFlags, LowReached, Nested, Related;
    if c != w {
      Up(g, s, c, w);
      var u := s.parent[w];
      LowMono(g, s, c, u);
      assert Scanned(g, s, u, |g[u]|) by { assert s.last[u] != 0; }
      assert s.disc[w] != 0;
    }
  }

  /** c's low value is at most any time its subtree reaches by an edge that is not a tree edge up. */
  lemma LowBound(g: Graph, s: State, c: nat, w: nat, x: nat, q: nat)
    requires Shape(g, s) && Done(g, s) && Forest(g, s) && Above(s, c, w) && Joins(g, w, x, q) && x < |g|
    requires q != s.via[w]
    ensures s.low[c] <= s.disc[x]
  {
    hide Forest, TreeEdges, Times, WellFormed, BridgeFlags, CutFlags, LowReached, Nested, Related;
    LowMono(g, s, c, w);
    assert Scanned(g, s, w, |g[w]|) by { assert s.last[w] != 0; }
    var k :| 0 <= k < |g[w]| && g[w][k] == Adj(x, q);
  }

  /** Where a subtree's low value comes from, when it is not its top's own time. */
  lemma LowFrom(g: Graph, s: State, c: nat) returns (w: nat, x: nat, q: nat)
    requires Shape(g, s) && Done(g, s) && c < |g| && s.low[c] != s.disc[c]
    ensures Above(s, c, w) && Joins(g, w, x, q) && x < |g| && q != s.via[w] && s.disc[x] == s.low[c] && w < |g|
    ensures s.low[c] < s.disc[c]
  {
    hide Forest, TreeEdges, Times, WellFormed, BridgeFlags, CutFlags, Nested, Related;
    assert Scanned(g, s, c, |g[c]|) by { assert s.last[c] != 0; }
    w, x, q :| Above(s, c, w) && Joins(g, w, x, q) && x < |g| && q != s.via[w] && s.disc[x] == s.low[c] != 0;
  }

  // ------------------------------------------------------------------------------------ bridges

  /** Two vertices have different tree edges. */
  lemma ViaUnique(g: Graph, s: State, z: nat, v: nat)
    requires Shape(g, s) && Forest(g, s) && z < |g| && v < |g| && s.via[z] == s.via[v] >= 0
    ensures z == v
  {
    hide Nested, Related;
    assert s.parent[z] >= 0 && s.parent[v] >= 0;
    assert Joins(g, s.parent[z], z, s.via[z]) && Joins(g, s.parent[v], v, s.via[z]);
  }

  /** A pair joins the same two vertices whichever end it is seen from. */
  lemma SamePair(g: Graph, u: nat, x: nat, v: nat, y: nat, p: nat)
    requires WellFormed(g) && Joins(g, u, x, p) && Joins(g, v, y, p)
    ensures (u == v && x == y) || (u == y && x == v)
  {}

  /** A subtree held by pair p alone is cut off without it. */
  lemma HeldSplits(g: Graph, s: State, v: nat, p: nat)
    requires Shape(g, s) && Done(g, s) && Forest(g, s) && v < |g| && HeldBy(s, v, p)
    ensures Joins(g, s.parent[v], v, p) && !Linked<nat>(WithoutPair(g, p), v, s.parent[v])
  {
    hide Done, Forest;
    var u, E := s.parent[v], WithoutPair(g, p);
    Itself(g, s, v);
    ParentAbove(g, s, v);
    var S := iset w: nat | Above(s, v, w);
    forall a: nat, b: nat | Touch(E, a, b) && a in S
      ensures b in S
    {
      TouchJoined'(g, s, p, a, b);
      var q: nat :| q != p && Joins(g, a, b, q);
      HeldStays(g, s, v, p, a, b, q);
    }
    if Linked<nat>(E, v, u) {
      ClosedHoldsLinked<nat>(E, S, v, u);
      Distinct(g, s, u, v);
      assert false;
    }
  }

  lemma ParentAbove(g: Graph, s: State, v: nat)
    requires Shape(g, s) && Forest(g, s) && v < |g| && s.parent[v] >= 0
    ensures s.parent[v] < |g| && s.via[v] >= 0 && Joins(g, s.parent[v], v, s.via[v])
    ensures s.parent[v] != v && Above(s, s.parent[v], v)
  {
    hide Nested, Related, WellFormed;
  }

  lemma Distinct(g: Graph, s: State, u: nat, v: nat)
    requires Shape(g, s) && Forest(g, s) && Above(s, u, v) && u != v
    ensures !Above(s, v, u)
  {
    hide Nested, Related, WellFormed, TreeEdges;
    assert s.disc[u] != s.disc[v];
  }

  lemma HeldStays(g: Graph, s: State, v: nat, p: nat, a: nat, b: nat, q: nat)
    requires Shape(g, s) && Done(g, s) && Forest(g, s) && v < |g| && HeldBy(s, v, p)
    requires Above(s, v, a) && Joins(g, a, b, q) && q != p && b < |g|
    ensures Above(s, v, b)
  {
    hide Forest, Done;
    if !Above(s, v, b) {
      EdgeOut(g, s, v, a, b, q);
      if q != s.via[a] {
        LowBound(g, s, v, a, b, q);
        assert false;
      } else {
        Up(g, s, v, a);
        PairOf(g, s, s.parent[a], a, a, b, q);
        assert false;
      }
    }
  }

  lemma PairOf(g: Graph, s: State, u: nat, x: nat, v: nat, y: nat, p: nat)
    requires Forest(g, s) && Joins(g, u, x, p) && Joins(g, v, y, p)
    ensures (u == v && x == y) || (u == y && x == v)
  {}

  /** The tree path between two vertices one above the other, when it does not use pair p. */
  lemma TreePathWithout(g: Graph, s: State, p: int, v: nat, w: nat)
    requires Shape(g, s) && Forest(g, s) && Above(s, v, w)
    requires forall z: nat :: Above(s, v, z) && Above(s, z, w) && z != v ==> s.via[z] != p
    ensures Linked<nat>(WithoutPair(g, p), v, w)
  {
    forall z: nat | Above(s, v, z) && Above(s, z, w) && z != v
      ensures s.parent[z] >= 0 && Touch(WithoutPair(g, p), s.parent[z], z)
    {
      Up(g, s, v, z);
      assert Joined(g, s.parent[z], z, p);
      TouchJoined(g, p, s.parent[z], z);
    }
    TreePath(g, s, WithoutPair(g, p), v, w);
  }

  /** A pair that holds no subtree alone can be gone around. */
  lemma UnheldJoined(g: Graph, s: State, a: nat, b: nat, p: nat)
    requires Shape(g, s) && Done(g, s) && Forest(g, s) && Joins(g, a, b, p) && Above(s, a, b)
    requires forall v: nat :: !HeldBy(s, v, p)
    ensures Linked<nat>(WithoutPair(g, p), a, b)
  {
    hide Forest, Done;
    var E := WithoutPair(g, p);
    if a == b {
      LinkedSelf<nat>(E, a);
    } else if s.via[b] != p {
      forall z: nat | Above(s, a, z) && Above(s, z, b) && z != a
        ensures s.via[z] != p
      {
        if s.via[z] == p {
          Up(g, s, a, z);
          PairOf(g, s, s.parent[z], z, a, b, p);
          Distinct(g, s, a, z);
        }
      }
      TreePathWithout(g, s, p, a, b);
    } else {
      Up(g, s, a, b);
      PairOf(g, s, s.parent[b], b, a, b, p);
      assert !HeldBy(s, b, p);
      DoneLast(g, s, b);
      AroundBy(g, s, a, b, p);
    }
  }

  lemma DoneLast(g: Graph, s: State, b: nat)
    requires Done(g, s) && b < |g|
    ensures Shape(g, s) && s.last[b] != 0
  {}

  /** b's subtree has another edge to above its tree edge p from a. */
  lemma AroundBy(g: Graph, s: State, a: nat, b: nat, p: nat)
    requires Shape(g, s) && Done(g, s) && Forest(g, s) && a < |g| && b < |g| && s.parent[b] == a && s.via[b] == p
    requires Joins(g, a, b, p)
    requires s.low[b] <= s.disc[a] < s.disc[b] && Above(s, a, b)
    ensures Linked<nat>(WithoutPair(g, p), a, b)
  {
    hide Forest, Done;
    var E := WithoutPair(g, p);
    var w, x, q := LowFrom(g, s, b);
    EdgeOut(g, s, b, w, x, q);
    if q == p {
      PairOf(g, s, w, x, a, b, p);
      assert false;
    }
    assert Joined(g, w, x, p);
    TouchJoined'(g, s, p, w, x);
    forall z: nat | z != b && z < |g|
      ensures s.via[z] != p
    {
      if s.via[z] == p { ViaUnique(g, s, z, b); }
    }
    TreePathWithout(g, s, p, b, w);
    TreePathWithout(g, s, p, x, a);
    LinkedTouch<nat>(E, w, x);
    LinkedTrans<nat>(E, b, w, x);
    LinkedTrans<nat>(E, b, x, a);
    LinkedSym<nat>(E, b, a);
  }

  lemma TouchJoined'(g: Graph, s: State, p: int, u: nat, x: nat)
    requires Forest(g, s)
    ensures Touch(WithoutPair(g, p), u, x) <==> u < |g| && x < |g| && Joined(g, u, x, p)
  {
    TouchJoined(g, p, u, x);
  }

  /** A finished search marks exactly the pairs whose ends are not linked without them. */
  lemma BridgeExactly(g: Graph, s: State, a: nat, b: nat, p: nat)
    requires Done(g, s) && Joins(g, a, b, p)
    ensures p < |s.bridge| && (s.bridge[p] <==> !Linked<nat>(WithoutPair(g, p), a, b))
  {
    DoneForest(g, s);
    DoneBridge(g, s, a, b, p);
    hide Done, Forest;
    if s.bridge[p] {
      var v: nat :| HeldBy(s, v, p);
      HeldSplits(g, s, v, p);
      PairOf(g, s, s.parent[v], v, a, b, p);
      if Linked<nat>(WithoutPair(g, p), a, b) { LinkedSym<nat>(WithoutPair(g, p), a, b); }
    } else {
      forall v: nat ensures !HeldBy(s, v, p) {}
      if Above(s, a, b) {
        UnheldJoined(g, s, a, b, p);
      } else {
        UnheldJoined(g, s, b, a, p);
        LinkedSym<nat>(WithoutPair(g, p), b, a);
      }
    }
  }

  lemma DoneBridge(g: Graph, s: State, a: nat, b: nat, p: nat)
    requires Done(g, s) && Shape(g, s) && Forest(g, s) && Joins(g, a, b, p)
    ensures a < |g| && b < |g| && p < |s.bridge| && Joins(g, b, a, p) && (Above(s, a, b) || Above(s, b, a))
    ensures s.bridge[p] <==> exists v: nat :: HeldBy(s, v, p)
  {
    hide AllScanned, CutFlags, TreeEdges, Nested;
    assert Joins(g, b, a, p);
  }

  // ------------------------------------------------------------------------------- cut vertices

  ghost predicate LinkedOnlyThrough(g: Graph, u: nat, x: nat, y: nat) {
    && x < |g| && y < |g| && x != u && y != u
    && Linked<nat>(WithoutPair(g, -1), x, y) && !Linked<nat>(WithoutVertex(g, u), x, y)
  }

  /** Taking u away parts two other vertices that were linked. */
  ghost predicate Separates(g: Graph, u: nat) {
    exists x: nat, y: nat :: LinkedOnlyThrough(g, u, x, y)
  }

  lemma TouchAvoids'(g: Graph, s: State, z: nat, u: nat, x: nat)
    requires Forest(g, s)
    ensures Touch(WithoutVertex(g, z), u, x) <==> u < |g| && x < |g| && u != z && x != z && Joined(g, u, x, -1)
  {
    TouchAvoids(g, z, u, x);
  }

  /** The tree path between two vertices one above the other, when it does not pass u. */
  lemma TreePathAvoids(g: Graph, s: State, u: nat, v: nat, w: nat)
    requires Shape(g, s) && Forest(g, s) && Above(s, v, w)
    requires !Above(s, u, w) || (Above(s, u, v) && u != v)
    ensures Linked<nat>(WithoutVertex(g, u), v, w)
  {
    hide Forest;
    forall z: nat | Above(s, v, z) && Above(s, z, w) && z != v
      ensures s.parent[z] >= 0 && Touch(WithoutVertex(g, u), s.parent[z], z)
    {
      Up(g, s, v, z);
      assert Joined(g, s.parent[z], z, -1);
      TouchAvoids'(g, s, u, s.parent[z], z);
      AboveTrans(g, s, s.parent[z], z, w);
      if Above(s, u, v) && u != v {
        Distinct(g, s, u, v);
      }
    }
    TreePath(g, s, WithoutVertex(g, u), v, w);
  }

  /** The tree path between two vertices one above the other. */
  lemma TreePathAll(g: Graph, s: State, v: nat, w: nat)
    requires Shape(g, s) && Forest(g, s) && Above(s, v, w)
    ensures Linked<nat>(WithoutPair(g, -1), v, w)
  {
    forall z: nat | Above(s, v, z) && Above(s, z, w) && z != v
      ensures s.via[z] != -1
    {
      Up(g, s, v, z);
    }
    TreePathWithout(g, s, -1, v, w);
  }

  /** Without u, nothing leaves the subtree of a child c of u that does not reach above u. */
  lemma HangingStays(g: Graph, s: State, u: nat, c: nat, a: nat, b: nat)
    requires Shape(g, s) && Done(g, s) && Forest(g, s) && u < |g| && IsChild(s, u, c) && s.low[c] >= s.disc[u]
    requires Above(s, c, a) && Touch(WithoutVertex(g, u), a, b)
    ensures Above(s, c, b)
  {
    hide Done, Forest;
    TouchAvoids'(g, s, u, a, b);
    var q: nat :| q != -1 && Joins(g, a, b, q);
    if !Above(s, c, b) {
      EdgeOut(g, s, c, a, b, q);
      if q != s.via[a] {
        LowBound(g, s, c, a, b, q);
        SameTime(g, s, b, u);
      } else {
        if a == c {
          ParentAbove(g, s, c);
          PairOf(g, s, u, c, a, b, q);
        } else {
          Up(g, s, c, a);
          PairOf(g, s, s.parent[a], a, a, b, q);
        }
      }
      assert false;
    }
  }

  /** A vertex above another and not reached before it is that vertex. */
  lemma SameTime(g: Graph, s: State, b: nat, u: nat)
    requires Shape(g, s) && Forest(g, s) && Above(s, b, u) && s.disc[u] <= s.disc[b]
    ensures b == u
  {
    hide Nested, Related, TreeEdges, WellFormed;
  }

  lemma HangingSplits(g: Graph, s: State, u: nat, c: nat, y: nat)
    requires Shape(g, s) && Done(g, s) && Forest(g, s) && u < |g| && IsChild(s, u, c) && s.low[c] >= s.disc[u]
    requires y < |g| && y != u && !Above(s, c, y)
    ensures c < |g| && c != u && !Linked<nat>(WithoutVertex(g, u), c, y)
  {
    hide Done, Forest;
    ParentAbove(g, s, c);
    Itself(g, s, c);
    var S := iset w: nat | Above(s, c, w);
    forall a: nat, b: nat | Touch(WithoutVertex(g, u), a, b) && a in S
      ensures b in S
    {
      HangingStays(g, s, u, c, a, b);
    }
    if Linked<nat>(WithoutVertex(g, u), c, y) {
      ClosedHoldsLinked<nat>(WithoutVertex(g, u), S, c, y);
    }
  }

  lemma CutSplits(g: Graph, s: State, u: nat)
    requires Shape(g, s) && Done(g, s) && Forest(g, s) && u < |g| && s.cut[u]
    ensures Separates(g, u)
  {
    DoneCut(g, s, u);
    hide Done, Forest;
    if s.parent[u] >= 0 {
      var c: nat :| Hangs(s, u, c);
      ParentAbove(g, s, u);
      ParentAbove(g, s, c);
      var y := s.parent[u];
      Distinct(g, s, u, c);
      Distinct(g, s, y, u);
      if Above(s, c, y) { AboveTrans(g, s, c, y, u); }
      HangingSplits(g, s, u, c, y);
      AboveTrans(g, s, y, u, c);
      TreePathAll(g, s, y, c);
      LinkedSym<nat>(WithoutPair(g, -1), y, c);
      assert LinkedOnlyThrough(g, u, c, y);
    } else {
      var c: nat, d: nat :| c != d && IsChild(s, u, c) && IsChild(s, u, d);
      ParentAbove(g, s, c);
      ParentAbove(g, s, d);
      Siblings(g, s, u, c, d);
      RootLow(g, s, u, c);
      HangingSplits(g, s, u, c, d);
      TreePathAll(g, s, u, c);
      TreePathAll(g, s, u, d);
      LinkedSym<nat>(WithoutPair(g, -1), u, c);
      LinkedTrans<nat>(WithoutPair(g, -1), c, u, d);
      assert LinkedOnlyThrough(g, u, c, d);
    }
  }

  lemma DoneCut(g: Graph, s: State, u: nat)
    requires Done(g, s) && Shape(g, s) && Forest(g, s) && u < |g|
    ensures s.parent[u] >= 0 ==> (s.cut[u] <==> exists c: nat :: Hangs(s, u, c))
    ensures s.parent[u] < 0 ==> (s.cut[u] <==> TwoChildren(s, u))
    ensures forall c: nat :: Hangs(s, u, c) <==> IsChild(s, u, c) && s.low[c] >= s.disc[u]
  {
    hide AllScanned, BridgeFlags, Nested, Related;
    assert s.disc[u] != 0 && s.last[u] != 0;
  }

  lemma Siblings(g: Graph, s: State, u: nat, c: nat, d: nat)
    requires Shape(g, s) && Forest(g, s) && IsChild(s, u, c) && IsChild(s, u, d) && c != d
    ensures !Above(s, c, d)
  {
    hide Forest;
    if Above(s, c, d) {
      ParentAbove(g, s, c);
      Up(g, s, c, d);
      Distinct(g, s, u, c);
    }
  }

  /** Nothing in a root's tree reaches above the root. */
  lemma RootLow(g: Graph, s: State, u: nat, c: nat)
    requires Shape(g, s) && Done(g, s) && Forest(g, s) && u < |g| && s.parent[u] == -1 && IsChild(s, u, c)
    ensures s.low[c] >= s.disc[u]
  {
    hide Done, Forest;
    ParentAbove(g, s, c);
    if s.low[c] < s.disc[c] {
      var w, x, q := LowFrom(g, s, c);
      AboveTrans(g, s, u, c, w);
      if !Above(s, u, x) { EdgeOut(g, s, u, w, x, q); }
    }
  }

  /** Everything linked to a vertex of r's tree is in r's tree. */
  lemma SameTree(g: Graph, s: State, r: nat, x: nat, y: nat)
    requires Shape(g, s) && Forest(g, s) && r < |g| && s.parent[r] == -1 && Above(s, r, x)
    requires Linked<nat>(WithoutPair(g, -1), x, y)
    ensures Above(s, r, y)
  {
    hide Forest;
    var S := iset w: nat | Above(s, r, w);
    forall a: nat, b: nat | Touch(WithoutPair(g, -1), a, b) && a in S
      ensures b in S
    {
      TouchJoined'(g, s, -1, a, b);
      var q: nat :| q != -1 && Joins(g, a, b, q);
      if !Above(s, r, b) { EdgeOut(g, s, r, a, b, q); }
    }
    ClosedHoldsLinked<nat>(WithoutPair(g, -1), S, x, y);
  }

  /** A child c of u that reaches above u links to u's root without u. */
  lemma ClimbPast(g: Graph, s: State, u: nat, r: nat, c: nat)
    requires Shape(g, s) && Done(g, s) && Forest(g, s) && u < |g| && r < |g| && r != u
    requires s.parent[r] == -1 && Above(s, r, u) && IsChild(s, u, c) && s.low[c] < s.disc[u]
    ensures Linked<nat>(WithoutVertex(g, u), r, c)
  {
    hide Forest, Done;
    var E := WithoutVertex(g, u);
    ParentAbove(g, s, c);
    Distinct(g, s, u, c);
    var w, x, q := LowFrom(g, s, c);
    EdgeOut(g, s, c, w, x, q);
    assert x != u && w != u;
    assert Joined(g, w, x, -1);
    TouchAvoids'(g, s, u, w, x);
    Comparable(g, s, r, x, u);
    if !Above(s, r, x) { Up(g, s, x, r); }
    Distinct(g, s, x, u);
    TreePathAvoids(g, s, u, r, x);
    Itself(g, s, c);
    TreePathAvoids(g, s, u, c, w);
    LinkedTouch<nat>(E, w, x);
    LinkedTrans<nat>(E, c, w, x);
    LinkedSym<nat>(E, c, x);
    LinkedTrans<nat>(E, r, x, c);
  }

  /** When u is not marked, every other vertex of its tree is linked to the tree's root without u. */
  lemma RootWithout(g: Graph, s: State, u: nat, r: nat, z: nat)
    requires Shape(g, s) && Done(g, s) && Forest(g, s) && u < |g| && !s.cut[u] && r < |g| && r != u && z != u
    requires s.parent[r] == -1 && Above(s, r, z)
    ensures Linked<nat>(WithoutVertex(g, u), r, z)
  {
    DoneCut(g, s, u);
    hide Forest, Done;
    if !Above(s, u, z) {
      TreePathAvoids(g, s, u, r, z);
    } else {
      Comparable(g, s, r, u, z);
      if !Above(s, r, u) { Up(g, s, u, r); }
      Up(g, s, r, u);
      var c := ChildToward(g, s, u, z);
      assert !Hangs(s, u, c);
      ClimbPast(g, s, u, r, c);
      ParentAbove(g, s, c);
      TreePathAvoids(g, s, u, c, z);
      LinkedTrans<nat>(WithoutVertex(g, u), r, c, z);
    }
  }

  lemma UncutKeeps(g: Graph, s: State, u: nat, x: nat, y: nat)
    requires Shape(g, s) && Done(g, s) && Forest(g, s) && u < |g| && !s.cut[u]
    requires x < |g| && y < |g| && x != u && y != u && Linked<nat>(WithoutPair(g, -1), x, y)
    ensures Linked<nat>(WithoutVertex(g, u), x, y)
  {
    DoneCut(g, s, u);
    hide Forest, Done;
    var E := WithoutVertex(g, u);
    var r := Root(g, s, x);
    SameTree(g, s, r, x, y);
    if r != u {
      RootWithout(g, s, u, r, x);
      RootWithout(g, s, u, r, y);
      LinkedSym<nat>(E, r, x);
      LinkedTrans<nat>(E, x, r, y);
    } else {
      var c := ChildToward(g, s, u, x);
      var d := ChildToward(g, s, u, y);
      assert c == d;
      ParentAbove(g, s, c);
      TreePathAvoids(g, s, u, c, x);
      TreePathAvoids(g, s, u, c, y);
      LinkedSym<nat>(E, c, x);
      LinkedTrans<nat>(E, x, c, y);
    }
  }

  /** A finished search marks exactly the vertices whose removal parts two others. */
  lemma CutExactly(g: Graph, s: State, u: nat)
    requires Done(g, s) && u < |g|
    ensures u < |s.cut| && (s.cut[u] <==> Separates(g, u))
  {
    DoneForest(g, s);
    hide Forest, Done;
    if s.cut[u] {
      CutSplits(g, s, u);
    } else if Separates(g, u) {
      var x: nat, y: nat :| LinkedOnlyThrough(g, u, x, y);
      UncutKeeps(g, s, u, x, y);
    }
  }

  // --------------------------------------------------------------------------------- components

  /** v is the smallest vertex of its component. */
  ghost predicate IsSmallest(g: Graph, v: nat) {
    forall w: nat :: w < |g| && Linked<nat>(WithoutPair(g, -1), v, w) ==> v <= w
  }

  ghost function Smallest(g: Graph): set<nat> {
    set v: nat | v < |g| && IsSmallest(g, v)
  }

  predicate IsRoot(s: State, v: nat) {
    v < |s.parent| && v < |s.disc| && s.disc[v] != 0 && s.parent[v] == -1
  }

  ghost function Roots(s: State): set<nat> {
    set v: nat | v < |s.parent| && IsRoot(s, v)
  }

  /** Every root has the smallest number in its tree. */
  ghost predicate RootsFirst(s: State) {
    forall r: nat, v: nat :: IsRoot(s, r) && Above(s, r, v) ==> r <= v
  }

  lemma ComponentsExactly(g: Graph, s: State)
    requires Done(g, s) && RootsFirst(s)
    ensures Roots(s) == Smallest(g)
  {
    DoneForest(g, s);
    hide Forest, Done;
    var E := WithoutPair(g, -1);
    forall v: nat | v < |g|
      ensures v in Roots(s) <==> v in Smallest(g)
    {
      var r := Root(g, s, v);
      TreePathAll(g, s, r, v);
      LinkedSym<nat>(E, r, v);
      assert IsRoot(s, r);
      assert r <= v;
      if v in Roots(s) {
        forall w: nat | w < |g| && Linked<nat>(E, v, w)
          ensures v <= w
        {
          Itself(g, s, v);
          SameTree(g, s, v, v, w);
        }
      }
    }
  }

  /** Between two searches from roots: every vertex below i is reached, every reached one settled. */
  ghost predicate BetweenRoots(g: Graph, s: State, i: nat) {
    && Inv(g, s) && Deepest(g, s, -1) && i <= |g| && RootsFirst(s)
    && forall j {:trigger s.disc[j]} :: 0 <= j < i ==> s.disc[j] != 0
  }

  lemma RootSearched(g: Graph, s: State, t: State, i: nat)
    requires BetweenRoots(g, s, i) && i < |g| && s.disc[i] == 0 && Searched(g, s, t, i, -1, -1)
    ensures CanSettle(g, t, i) && t.parent[i] == -1 == t.via[i] && BetweenRoots(g, Settled(t, i), i + 1)
    ensures Roots(Settled(t, i)) == Roots(s) + {i} && i !in Roots(s)
  {
    RootReturns(g, s, t, i);
    OneNewRoot(g, s, t, i);
    hide Searched, CanSettle, Times, Continues, Nested;
    assert CanSettle(g, t, i);
    assert Inv(g, Settled(t, i)) by {
      hide Inv;
      SettledKeeps(g, t, i);
    }
    RootsStayFirst(g, s, t, i);
  }

  /** The search from i has returned: only i is left to settle. */
  lemma RootReturns(g: Graph, s: State, t: State, i: nat)
    requires BetweenRoots(g, s, i) && i < |g| && s.disc[i] == 0 && Searched(g, s, t, i, -1, -1)
    ensures Inv(g, t) && CanSettle(g, t, i) && Continues(g, s, t, {}) && t.parent[i] == -1 == t.via[i]
    ensures t.disc[i] == s.timer + 1
    ensures Deepest(g, Settled(t, i), -1)
    ensures forall j {:trigger t.disc[j]} :: 0 <= j < i + 1 ==> t.disc[j] != 0
  {
    hide AllScanned, CutFlags, BridgeFlags, Related, TreeEdges, Nested, RootsFirst, Scanned, TwoChildren, Times;
    forall j {:trigger t.disc[j]} | 0 <= j < i + 1
      ensures t.disc[j] != 0
    {
      if j < i { assert s.disc[j] != 0; }
    }
    var r := Settled(t, i);
    forall v {:trigger r.last[v]} | 0 <= v < |g| && r.disc[v] != 0
      ensures r.last[v] != 0
    {
      OnlyOpen(g, s, t, i, v);
    }
  }

  lemma OnlyOpen(g: Graph, s: State, t: State, i: nat, v: nat)
    requires BetweenRoots(g, s, i) && i < |g| && s.disc[i] == 0 && Searched(g, s, t, i, -1, -1) && v < |g|
    ensures t.disc[v] != 0 && t.last[v] == 0 ==> v == i
    ensures t.timer > 0
  {
    hide AllScanned, CutFlags, BridgeFlags, Related, TreeEdges, Nested, RootsFirst, Scanned, TwoChildren;
    assert t.disc[i] <= t.timer;
    if t.disc[v] != 0 && t.last[v] == 0 {
      assert s.disc[v] == 0;
      assert t.disc[v] == t.disc[i];
    }
  }

  /** i is the only root its search has brought. */
  lemma OneNewRoot(g: Graph, s: State, t: State, i: nat)
    requires BetweenRoots(g, s, i) && i < |g| && s.disc[i] == 0 && Searched(g, s, t, i, -1, -1) && CanSettle(g, t, i)
    ensures forall v: nat :: IsRoot(Settled(t, i), v) <==> v == i || IsRoot(s, v)
    ensures Roots(Settled(t, i)) == Roots(s) + {i} && i !in Roots(s)
  {
    hide AllScanned, CutFlags, BridgeFlags, Related, TreeEdges, RootsFirst, Scanned, TwoChildren;
    var r := Settled(t, i);
    forall v: nat
      ensures IsRoot(r, v) <==> v == i || IsRoot(s, v)
    {
      if v < |g| && s.disc[v] == 0 && t.disc[v] != 0 && v != i {
        assert s.timer < t.disc[v] <= t.timer && t.last[i] == 0;
        assert Above(t, i, v);
        assert t.parent[v] >= 0;
      }
    }
    hide Nested, Times, Continues, Deepest;
    assert Roots(r) == Roots(s) + {i};
  }

  lemma RootsStayFirst(g: Graph, s: State, t: State, i: nat)
    requires WellFormed(g) && Shape(g, s) && Shape(g, t) && Times(g, s) && Times(g, t) && RootsFirst(s)
    requires Deepest(g, s, -1)
    requires i < |g| && CanSettle(g, t, i) && Continues(g, s, t, {}) && s.disc[i] == 0 && t.disc[i] == s.timer + 1
    requires forall j {:trigger s.disc[j]} :: 0 <= j < i ==> s.disc[j] != 0
    requires forall v: nat :: IsRoot(Settled(t, i), v) <==> v == i || IsRoot(s, v)
    ensures RootsFirst(Settled(t, i))
  {
    var r := Settled(t, i);
    forall q: nat, v: nat | IsRoot(r, q) && Above(r, q, v)
      ensures q <= v
    {
      if q == i {
        assert s.disc[v] <= s.timer;
      } else {
        assert IsRoot(s, q) && s.last[q] != 0;
        assert s.last[q] <= s.timer;
        assert s.disc[v] != 0;
        assert Above(s, q, v);
      }
    }
  }

  lemma RootEnters(g: Graph, s: State, i: nat)
    requires BetweenRoots(g, s, i)
    ensures Inv(g, s) && i <= |g| == |s.disc|
    ensures i < |g| && s.disc[i] == 0 ==> CanReach(g, s, i, -1, -1)
    ensures i < |g| && s.disc[i] != 0 ==> BetweenRoots(g, s, i + 1)
    ensures i == |g| ==> Done(g, s) && RootsFirst(s)
  {
    hide AllScanned, CutFlags, BridgeFlags, Related, TreeEdges, Nested, Above, RootsFirst;
  }
}
