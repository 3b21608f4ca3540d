/** What the depth-first search of cluster/detail.go keeps true at every step, as values. */
module DepthFirst {

  datatype Adj = Adj(to: nat, pair: nat)

  /** g[u] lists, for each edge touching u, its other end and the number of its pair. */
  type Graph = seq<seq<Adj>>

  predicate Joins(g: Graph, u: nat, x: nat, p: nat) {
    u < |g| && Adj(x, p) in g[u]
  }

  ghost predicate WellFormed(g: Graph) {
    && (forall u, k {:trigger g[u][k]} :: 0 <= u < |g| && 0 <= k < |g[u]| ==> g[u][k].to < |g|)
    && (forall u: nat, x: nat, p: nat {:trigger Joins(g, u, x, p)} :: Joins(g, u, x, p) ==> Joins(g, x, u, p))
    && (forall u: nat, x: nat, v: nat, y: nat, p: nat {:trigger Joins(g, u, x, p), Joins(g, v, y, p)} ::
          Joins(g, u, x, p) && Joins(g, v, y, p) ==> (u == v && x == y) || (u == y && x == v))
  }

  /** A snapshot of the search. disc, low, cut, bridge and timer are the program's own variables
      (disc 0: not reached). parent and via are the tree edge a vertex was reached by (-1 for a
      root), and last is the timer when its parent was done with it (0 before that). */
  datatype State = State(disc: seq<nat>, low: seq<nat>, cut: seq<bool>, bridge: seq<bool>, timer: nat,
                         parent: seq<int>, via: seq<int>, last: seq<nat>)

  ghost predicate Shape(g: Graph, s: State) {
    && |s.disc| == |g| && |s.low| == |g| && |s.cut| == |g|
    && |s.parent| == |g| && |s.via| == |g| && |s.last| == |g|
    && (forall u: nat, x: nat, p: nat {:trigger Joins(g, u, x, p)} :: Joins(g, u, x, p) ==> p < |s.bridge|)
  }

  /** The time v's subtree ends at, or has got to so far. */
  function End(s: State, v: nat): nat
    requires v < |s.last|
  {
    if s.last[v] != 0 then s.last[v] else s.timer
  }

  /** v is w or an ancestor of w in the search forest. */
  predicate Above(s: State, v: nat, w: nat) {
    && v < |s.disc| && w < |s.disc| && v < |s.last|
    && s.disc[v] != 0 && s.disc[v] <= s.disc[w] <= End(s, v)
  }

  ghost predicate Times(g: Graph, s: State)
    requires Shape(g, s)
  {
    && (forall v {:trigger s.disc[v]} :: 0 <= v < |g| ==> s.disc[v] <= s.timer)
    && (forall v {:trigger s.last[v]} :: 0 <= v < |g| && s.last[v] != 0 ==>
          s.disc[v] != 0 && s.disc[v] <= s.last[v] <= s.timer)
    && (forall v {:trigger s.cut[v]} :: 0 <= v < |g| && s.disc[v] == 0 ==> !s.cut[v])
    && (forall v, w {:trigger s.disc[v], s.disc[w]} :: 0 <= v < |g| && 0 <= w < |g| && s.disc[v] == s.disc[w] != 0 ==>
         v == w)
  }

  /** Every reached vertex is a root or was reached along its tree edge, from an earlier one. */
  ghost predicate TreeEdges(g: Graph, s: State)
    requires Shape(g, s)
  {
    forall v {:trigger s.parent[v]} :: 0 <= v < |g| && s.disc[v] != 0 ==>
      (s.parent[v] == -1 && s.via[v] == -1) ||
      (0 <= s.parent[v] < |g| && 0 <= s.via[v] && Joins(g, s.parent[v], v, s.via[v]) &&
       s.parent[v] != v && Above(s, s.parent[v], v))
  }

  /** Subtrees are nested, and being above a vertex means being it or being above its parent. */
  ghost predicate Nested(g: Graph, s: State)
    requires Shape(g, s)
  {
    && (forall v: nat, w: nat {:trigger Above(s, v, w)} :: Above(s, v, w) ==>
          End(s, w) <= End(s, v) && (s.last[v] != 0 ==> s.last[w] != 0))
    && (forall v: nat, w: nat {:trigger Above(s, v, w), s.parent[w]} :: Above(s, v, w) && v != w ==>
          s.parent[w] >= 0 && Above(s, v, s.parent[w]))
  }

  /** No edge joins two vertices unrelated in the forest. */
  ghost predicate Related(g: Graph, s: State)
    requires Shape(g, s)
  {
    forall u: nat, x: nat, p: nat {:trigger Joins(g, u, x, p)} ::
      Joins(g, u, x, p) && x < |g| && s.disc[u] != 0 && s.disc[x] != 0 ==> Above(s, u, x) || Above(s, x, u)
  }

  /** Some vertex of u's subtree has an edge, not its tree edge, to a vertex reached at low[u]. */
  ghost predicate LowReached(g: Graph, s: State, u: nat)
    requires Shape(g, s) && u < |g|
  {
    exists w: nat, x: nat, q: nat :: Above(s, u, w) && Joins(g, w, x, q) && x < |g| && q != s.via[w] &&
      s.disc[x] == s.low[u] != 0
  }

  /** The first i edges of u have been followed, and low[u] is right for them. */
  ghost predicate Scanned(g: Graph, s: State, u: nat, i: nat)
    requires Shape(g, s) && WellFormed(g) && u < |g| && i <= |g[u]|
  {
    && s.low[u] <= s.disc[u]
    && (forall k {:trigger g[u][k]} :: 0 <= k < i ==>
          s.disc[g[u][k].to] != 0 && (g[u][k].pair != s.via[u] ==> s.low[u] <= s.disc[g[u][k].to]))
    && (forall c {:trigger s.parent[c]} :: 0 <= c < |g| && s.disc[c] != 0 && s.parent[c] == u ==>
          s.last[c] != 0 && s.low[u] <= s.low[c])
    && (s.low[u] == s.disc[u] || LowReached(g, s, u))
  }

  predicate IsChild(s: State, u: nat, c: nat) {
    c < |s.parent| && c < |s.disc| && s.disc[c] != 0 && s.parent[c] == u
  }

  /** c is a finished child of u none of whose subtree reaches above u. */
  predicate Hangs(s: State, u: nat, c: nat) {
    && IsChild(s, u, c) && c < |s.last| && s.last[c] != 0
    && c < |s.low| && u < |s.disc| && s.low[c] >= s.disc[u]
  }

  /** v is finished and its subtree is held to its parent by pair p alone. */
  predicate HeldBy(s: State, v: nat, p: nat)
  {
    && v < |s.last| && s.last[v] != 0 && v < |s.via| && s.via[v] == p
    && v < |s.parent| && 0 <= s.parent[v] < |s.disc| && v < |s.low| && s.low[v] > s.disc[s.parent[v]]
  }

  ghost predicate TwoChildren(s: State, u: nat) {
    exists c: nat, d: nat :: c != d && IsChild(s, u, c) && IsChild(s, u, d)
  }

  ghost predicate BridgeFlags(g: Graph, s: State)
    requires Shape(g, s)
  {
    forall p {:trigger s.bridge[p]} :: 0 <= p < |s.bridge| ==> (s.bridge[p] <==> exists v: nat :: HeldBy(s, v, p))
  }

  ghost predicate CutFlags(g: Graph, s: State)
    requires Shape(g, s)
  {
    && (forall v {:trigger s.cut[v]} :: 0 <= v < |g| && s.disc[v] != 0 && s.parent[v] >= 0 ==>
          (s.cut[v] <==> exists c: nat :: Hangs(s, v, c)))
    && (forall v {:trigger s.cut[v]} :: 0 <= v < |g| && s.last[v] != 0 && s.parent[v] == -1 ==>
          (s.cut[v] <==> TwoChildren(s, v)))
  }

  /** What holds between any two steps of the search. */
  ghost predicate Inv(g: Graph, s: State) {
    && WellFormed(g) && Shape(g, s) && Times(g, s) && TreeEdges(g, s) && Nested(g, s) && Related(g, s) &&
       BridgeFlags(g, s) && CutFlags(g, s)
    && AllScanned(g, s)
  }

  ghost predicate AllScanned(g: Graph, s: State)
    requires Shape(g, s) && WellFormed(g)
  {
    forall v {:trigger s.last[v]} :: 0 <= v < |g| && s.last[v] != 0 ==> Scanned(g, s, v, |g[v]|)
  }

  /** u is the deepest vertex being searched (u == -1: none is). */
  ghost predicate Deepest(g: Graph, s: State, u: int)
    requires Shape(g, s) && -1 <= u < |g|
  {
    && (u >= 0 ==> s.disc[u] != 0 && s.last[u] == 0)
    && (forall v {:trigger s.last[v]} :: 0 <= v < |g| && s.disc[v] != 0 && s.last[v] == 0 ==>
         u >= 0 && s.disc[v] <= s.disc[u])
  }

  /** t continues s: what s had reached is as it was, and what t reached since came later. Only
      the fields low and cut of the vertices in `but` may have moved. */
  ghost predicate Continues(g: Graph, s: State, t: State, but: set<nat>)
    requires Shape(g, s) && Shape(g, t)
  {
    && s.timer <= t.timer && |t.bridge| == |s.bridge|
    && (forall v: nat {:trigger t.disc[v]} {:trigger s.disc[v]} :: v < |g| && s.disc[v] != 0 ==>
          t.disc[v] == s.disc[v] && t.parent[v] == s.parent[v] && t.via[v] == s.via[v] && t.last[v] == s.last[v] &&
          (v !in but ==> t.low[v] == s.low[v] && t.cut[v] == s.cut[v]))
    && (forall v: nat {:trigger t.disc[v]} :: v < |g| && s.disc[v] == 0 && t.disc[v] != 0 ==> s.timer < t.disc[v])
  }

  // ------------------------------------------------------------------------------ single steps

  /** u is reached from its parent by pair p (or is a root: up == p == -1). */
  function Reached(s: State, u: nat, up: int, p: int): State
    requires u < |s.disc| && u < |s.low| && u < |s.parent| && u < |s.via|
  {
    s.(timer := s.timer + 1, disc := s.disc[u := s.timer + 1], low := s.low[u := s.timer + 1],
       parent := s.parent[u := up], via := s.via[u := p])
  }

  ghost predicate CanReach(g: Graph, s: State, u: nat, up: int, p: int)
    requires Shape(g, s)
  {
    && u < |g| && s.disc[u] == 0 && -1 <= up < |g| && Deepest(g, s, up)
    && (if up == -1 then p == -1 else p >= 0 && Joins(g, up, u, p))
  }

  lemma ReachedKeeps(g: Graph, s: State, u: nat, up: int, p: int)
    requires Inv(g, s) && CanReach(g, s, u, up, p)
    ensures Inv(g, Reached(s, u, up, p))
  {
    ReachedTree(g, s, u, up, p);
    ReachedNested(g, s, u, up, p);
    ReachedRelated(g, s, u, up, p);
    ReachedBridges(g, s, u, up, p);
    ReachedCuts(g, s, u, up, p);
    ReachedScanned(g, s, u, up, p);
  }

  lemma ReachedFirst(g: Graph, s: State, u: nat, up: int, p: int)
    requires WellFormed(g) && Shape(g, s) && Times(g, s) && TreeEdges(g, s) && CanReach(g, s, u, up, p)
    ensures Deepest(g, Reached(s, u, up, p), u) && Continues(g, s, Reached(s, u, up, p), {})
    ensures Scanned(g, Reached(s, u, up, p), u, 0)
  {}

  lemma ReachedTree(g: Graph, s: State, u: nat, up: int, p: int)
    requires Shape(g, s) && Times(g, s) && TreeEdges(g, s) && CanReach(g, s, u, up, p)
    ensures Times(g, Reached(s, u, up, p)) && TreeEdges(g, Reached(s, u, up, p))
  {}

  lemma ReachedNested(g: Graph, s: State, u: nat, up: int, p: int)
    requires Shape(g, s) && Times(g, s) && Nested(g, s) && CanReach(g, s, u, up, p)
    ensures Nested(g, Reached(s, u, up, p))
  {
    var t := Reached(s, u, up, p);
    forall v: nat, w: nat {:trigger Above(t, v, w)} | Above(t, v, w)
      ensures End(t, w) <= End(t, v) && (t.last[v] != 0 ==> t.last[w] != 0)
      ensures (v != w ==> t.parent[w] >= 0 && Above(t, v, t.parent[w]))
    {
      assert s.last[u] == 0;
      if w == u {
        if v != u {
          assert s.last[v] == 0;
          assert Above(t, v, up);
        }
      } else {
        assert s.disc[w] <= s.timer;
        assert Above(s, v, w);
        if v != w { assert Above(s, v, s.parent[w]); assert Above(t, v, t.parent[w]); }
      }
    }
  }

  lemma ReachedRelated(g: Graph, s: State, u: nat, up: int, p: int)
    requires WellFormed(g) && Shape(g, s) && Times(g, s) && Related(g, s) && AllScanned(g, s)
    requires CanReach(g, s, u, up, p)
    ensures Related(g, Reached(s, u, up, p))
  {
    var t := Reached(s, u, up, p);
    forall a: nat, x: nat, q: nat | Joins(g, a, x, q) && x < |g| && t.disc[a] != 0 && t.disc[x] != 0
      ensures Above(t, a, x) || Above(t, x, a)
    {
      if a != u && x != u {
        assert Above(s, a, x) || Above(s, x, a);
      } else if a != u || x != u {
        var other := if a == u then x else a;
        assert Joins(g, other, u, q);
        assert s.last[other] == 0;
        assert Above(t, other, u);
      }
    }
  }

  lemma ReachedScanned(g: Graph, s: State, u: nat, up: int, p: int)
    requires WellFormed(g) && Shape(g, s) && Times(g, s) && AllScanned(g, s) && CanReach(g, s, u, up, p)
    ensures AllScanned(g, Reached(s, u, up, p))
  {
    var t := Reached(s, u, up, p);
    forall v | 0 <= v < |g| && t.last[v] != 0
      ensures Scanned(g, t, v, |g[v]|)
    {
      assert Scanned(g, s, v, |g[v]|);
      if s.low[v] != s.disc[v] {
        var w: nat, x: nat, q: nat :| Above(s, v, w) && Joins(g, w, x, q) && x < |g| && q != s.via[w] &&
          s.disc[x] == s.low[v] != 0;
        assert Above(t, v, w);
      }
    }
  }

  lemma ReachedBridges(g: Graph, s: State, u: nat, up: int, p: int)
    requires Shape(g, s) && Times(g, s) && TreeEdges(g, s) && BridgeFlags(g, s) && CanReach(g, s, u, up, p)
    ensures BridgeFlags(g, Reached(s, u, up, p))
  {
    var t := Reached(s, u, up, p);
    forall v: nat, q: nat
      ensures HeldBy(t, v, q) <==> HeldBy(s, v, q)
    {
      if v < |g| && s.last[v] != 0 { assert s.disc[v] != 0; assert s.parent[v] != u; }
    }
    forall q | 0 <= q < |t.bridge|
      ensures t.bridge[q] <==> exists v: nat :: HeldBy(t, v, q)
    {
      assert s.bridge[q] <==> exists v: nat :: HeldBy(s, v, q);
    }
  }

  lemma ReachedCuts(g: Graph, s: State, u: nat, up: int, p: int)
    requires Shape(g, s) && Times(g, s) && TreeEdges(g, s) && CutFlags(g, s) && CanReach(g, s, u, up, p)
    ensures CutFlags(g, Reached(s, u, up, p))
  {
    var t := Reached(s, u, up, p);
    forall v | 0 <= v < |g| && t.disc[v] != 0 && t.parent[v] >= 0
      ensures t.cut[v] <==> exists c: nat :: Hangs(t, v, c)
    {
      forall c: nat
        ensures Hangs(t, v, c) <==> Hangs(s, v, c)
      {
        if c < |g| && s.disc[c] != 0 { assert s.parent[c] != u; }
      }
    }
    forall v | 0 <= v < |g| && t.last[v] != 0 && t.parent[v] == -1
      ensures t.cut[v] <==> TwoChildren(t, v)
    {
      assert s.disc[v] != 0;
      forall c: nat ensures IsChild(t, v, c) <==> IsChild(s, v, c) {
        assert up != v;
      }
    }
  }

  function Min(a: nat, b: nat): nat {
    if a <= b then a else b
  }

  /** low[u] is lowered to at most m. */
  function Lowered(s: State, u: nat, m: nat): State
    requires u < |s.low|
  {
    s.(low := s.low[u := Min(s.low[u], m)])
  }

  /** Nothing lasting depends on low[u] while u is still being searched. */
  lemma LoweredKeeps(g: Graph, s: State, u: nat, m: nat)
    requires Inv(g, s) && u < |g| && s.last[u] == 0
    ensures Inv(g, Lowered(s, u, m))
  {
    var t := Lowered(s, u, m);
    assert Nested(g, t) && Related(g, t) by {
      assert forall v: nat, w: nat :: Above(t, v, w) <==> Above(s, v, w);
    }
    LoweredFlags(g, s, u, m);
    LoweredScanned(g, s, u, m);
  }

  lemma LoweredFlags(g: Graph, s: State, u: nat, m: nat)
    requires Shape(g, s) && Times(g, s) && BridgeFlags(g, s) && CutFlags(g, s) && u < |g| && s.last[u] == 0
    ensures BridgeFlags(g, Lowered(s, u, m)) && CutFlags(g, Lowered(s, u, m))
  {
    var t := Lowered(s, u, m);
    assert forall v: nat, q: nat :: HeldBy(t, v, q) <==> HeldBy(s, v, q);
    assert forall v: nat, c: nat :: Hangs(t, v, c) <==> Hangs(s, v, c);
    assert forall v: nat, c: nat :: IsChild(t, v, c) <==> IsChild(s, v, c);
    assert forall v: nat :: TwoChildren(t, v) <==> TwoChildren(s, v);
  }

  lemma LoweredScanned(g: Graph, s: State, u: nat, m: nat)
    requires WellFormed(g) && Shape(g, s) && AllScanned(g, s) && u < |g| && s.last[u] == 0
    ensures AllScanned(g, Lowered(s, u, m))
  {
    var t := Lowered(s, u, m);
    forall v | 0 <= v < |g| && t.last[v] != 0
      ensures Scanned(g, t, v, |g[v]|)
    {
      assert Scanned(g, s, v, |g[v]|);
      if s.low[v] != s.disc[v] {
        var w: nat, x: nat, q: nat :| Above(s, v, w) && Joins(g, w, x, q) && x < |g| && q != s.via[w] &&
          s.disc[x] == s.low[v] != 0;
        assert Above(t, v, w);
      }
    }
  }

  /** Following an edge of u to a vertex already reached, other than u's own tree edge. */
  lemma BackEdge(g: Graph, s: State, u: nat, i: nat)
    requires WellFormed(g) && Shape(g, s) && Times(g, s) && u < |g| && i < |g[u]| && s.disc[u] != 0 && s.last[u] == 0
    requires Scanned(g, s, u, i) && s.disc[g[u][i].to] != 0 && g[u][i].pair != s.via[u]
    ensures Scanned(g, Lowered(s, u, s.disc[g[u][i].to]), u, i + 1)
  {
    var x, q := g[u][i].to, g[u][i].pair;
    var t := Lowered(s, u, s.disc[x]);
    if t.low[u] == s.low[u] {
      if s.low[u] != s.disc[u] {
        var w: nat, y: nat, r: nat :| Above(s, u, w) && Joins(g, w, y, r) && y < |g| && r != s.via[w] &&
          s.disc[y] == s.low[u] != 0;
        assert Above(t, u, w);
      }
    } else {
      assert Above(t, u, u) && Joins(g, u, x, q);
    }
  }

  /** The tree edge back to u's parent needs no following. */
  lemma TreeEdgeBack(g: Graph, s: State, u: nat, i: nat)
    requires WellFormed(g) && Shape(g, s) && TreeEdges(g, s) && u < |g| && i < |g[u]| && s.disc[u] != 0
    requires Scanned(g, s, u, i) && g[u][i].pair == s.via[u]
    ensures Scanned(g, s, u, i + 1)
  {
    assert Joins(g, u, g[u][i].to, g[u][i].pair);
    assert s.parent[u] >= 0;
  }

  /** c is done with: it is counted in its parent's flags, and its subtree is over. */
  function Settled(s: State, c: nat): State
    requires c < |s.last| && c < |s.parent| && c < |s.via| && c < |s.low| && s.parent[c] < |s.disc|
    requires |s.cut| == |s.disc| == |s.parent| && s.via[c] < |s.bridge| && (s.parent[c] >= 0 ==> s.via[c] >= 0)
  {
    var u := s.parent[c];
    s.(last := s.last[c := s.timer],
       bridge := if u >= 0 && s.low[c] > s.disc[u] then s.bridge[s.via[c] := true] else s.bridge,
       cut := if u >= 0 && s.parent[u] >= 0 && s.low[c] >= s.disc[u] then s.cut[u := true] else s.cut)
  }

  ghost predicate CanSettle(g: Graph, s: State, c: nat)
    requires WellFormed(g) && Shape(g, s)
  {
    && c < |g| && Deepest(g, s, c) && Scanned(g, s, c, |g[c]|)
    && -1 <= s.parent[c] < |g| && -1 <= s.via[c] < |s.bridge|
    && (if s.parent[c] >= 0 then s.via[c] >= 0 && s.last[s.parent[c]] == 0 && s.parent[c] != c &&
         s.disc[s.parent[c]] != 0
        else s.cut[c] <==> TwoChildren(s, c))
  }

  lemma SettledKeeps(g: Graph, s: State, c: nat)
    requires Inv(g, s) && CanSettle(g, s, c)
    ensures Inv(g, Settled(s, c))
  {
    var t := Settled(s, c);
    SettledNested(g, s, c);
    SettledBridges(g, s, c);
    SettledCuts(g, s, c);
    SettledScanned(g, s, c);
  }

  lemma SettledNested(g: Graph, s: State, c: nat)
    requires WellFormed(g) && Shape(g, s) && Times(g, s) && TreeEdges(g, s) && Nested(g, s) && Related(g, s)
    requires CanSettle(g, s, c)
    ensures Shape(g, Settled(s, c)) && Times(g, Settled(s, c)) && TreeEdges(g, Settled(s, c))
    ensures Nested(g, Settled(s, c)) && Related(g, Settled(s, c))
  {
    var t := Settled(s, c);
    assert forall v: nat, w: nat :: Above(t, v, w) <==> Above(s, v, w);
  }

  lemma SettledBridges(g: Graph, s: State, c: nat)
    requires WellFormed(g) && Shape(g, s) && Times(g, s) && BridgeFlags(g, s) && CanSettle(g, s, c)
    ensures BridgeFlags(g, Settled(s, c))
  {
    var t := Settled(s, c);
    forall v: nat, q: nat
      ensures HeldBy(t, v, q) <==> HeldBy(s, v, q) || (v == c && HeldBy(t, c, q))
    {}
    forall q | 0 <= q < |t.bridge|
      ensures t.bridge[q] <==> exists v: nat :: HeldBy(t, v, q)
    {
      assert s.bridge[q] <==> exists v: nat :: HeldBy(s, v, q);
      if t.bridge[q] && !s.bridge[q] {
        assert HeldBy(t, c, q);
      }
    }
  }

  lemma SettledCuts(g: Graph, s: State, c: nat)
    requires WellFormed(g) && Shape(g, s) && Times(g, s) && CutFlags(g, s) && CanSettle(g, s, c)
    ensures CutFlags(g, Settled(s, c))
  {
    var t := Settled(s, c);
    assert forall v: nat, d: nat :: IsChild(t, v, d) <==> IsChild(s, v, d);
    forall v: nat, d: nat
      ensures Hangs(t, v, d) <==> Hangs(s, v, d) || (d == c && Hangs(t, v, c))
    {}
    forall v | 0 <= v < |g| && t.disc[v] != 0 && t.parent[v] >= 0
      ensures t.cut[v] <==> exists d: nat :: Hangs(t, v, d)
    {
      assert s.cut[v] <==> exists d: nat :: Hangs(s, v, d);
      if t.cut[v] && !s.cut[v] {
        assert Hangs(t, v, c);
      }
    }
    forall v | 0 <= v < |g| && t.last[v] != 0 && t.parent[v] == -1
      ensures t.cut[v] <==> TwoChildren(t, v)
    {
      assert TwoChildren(t, v) <==> TwoChildren(s, v);
    }
  }

  lemma SettledScanned(g: Graph, s: State, c: nat)
    requires WellFormed(g) && Shape(g, s) && Times(g, s) && AllScanned(g, s) && CanSettle(g, s, c)
    ensures AllScanned(g, Settled(s, c))
  {
    var t := Settled(s, c);
    forall v | 0 <= v < |g| && t.last[v] != 0
      ensures Scanned(g, t, v, |g[v]|)
    {
      assert Scanned(g, s, v, |g[v]|);
      if s.low[v] != s.disc[v] {
        var w: nat, x: nat, q: nat :| Above(s, v, w) && Joins(g, w, x, q) && x < |g| && q != s.via[w] &&
          s.disc[x] == s.low[v] != 0;
        assert Above(t, v, w);
      }
    }
  }

  // ------------------------------------------------------------------- returning from a child

  /** The search of c, a child of u reached by u's i-th edge, has led from s1 to s2. */
  ghost predicate ChildSearched(g: Graph, s1: State, s2: State, u: nat, c: nat, i: nat) {
    && WellFormed(g) && Shape(g, s1) && Shape(g, s2) && Times(g, s1)
    && u < |g| && i < |g[u]| && c == g[u][i].to
    && Deepest(g, s1, u) && Scanned(g, s1, u, i) && s1.disc[c] == 0 && g[u][i].pair != s1.via[u]
    && Continues(g, s1, s2, {}) && Deepest(g, s2, c) && Scanned(g, s2, c, |g[c]|)
    && s2.parent[c] == u && s2.via[c] == g[u][i].pair && s2.disc[c] == s1.timer + 1
  }

  function Children(s: State, u: nat): set<nat> {
    set c | 0 <= c < |s.parent| && IsChild(s, u, c)
  }

  /** c is the only child of u the search of c has brought. */
  lemma OneNewChild(g: Graph, s1: State, s2: State, u: nat, c: nat, i: nat)
    requires ChildSearched(g, s1, s2, u, c, i) && Times(g, s2) && Nested(g, s2)
    ensures Children(s2, u) == Children(s1, u) + {c} && c !in Children(s1, u)
  {
    forall d: nat | d < |g| && d != c && s1.disc[d] == 0 && s2.disc[d] != 0
      ensures s2.parent[d] != u
    {
      assert s2.disc[d] <= s2.timer && s2.last[c] == 0 && s1.timer < s2.disc[d];
      assert Above(s2, c, d);
      assert Above(s2, c, s2.parent[d]);
      assert s1.disc[u] <= s1.timer;
    }
    forall d: nat
      ensures IsChild(s2, u, d) <==> d == c || IsChild(s1, u, d)
    {}
  }

  lemma ChildReturned(g: Graph, s1: State, s2: State, u: nat, c: nat, i: nat)
    requires ChildSearched(g, s1, s2, u, c, i) && Times(g, s2) && Nested(g, s2)
    ensures CanSettle(g, Lowered(s2, u, s2.low[c]), c)
    ensures var t := Settled(Lowered(s2, u, s2.low[c]), c);
      Deepest(g, t, u) && Continues(g, s1, t, {u}) && Scanned(g, t, u, i + 1)
    ensures var t := Settled(Lowered(s2, u, s2.low[c]), c);
      Children(t, u) == Children(s1, u) + {c} && c !in Children(s1, u)
  {
    OneNewChild(g, s1, s2, u, c, i);
    assert g[u][i] == Adj(c, s2.via[c]) && Joins(g, u, c, s2.via[c]);
    ChildLowered(g, s2, u, c);
    var t := Settled(Lowered(s2, u, s2.low[c]), c);
    assert Children(t, u) == Children(s2, u);
    ChildDeepest(g, s1, s2, u, c, i);
    ChildScanned(g, s1, s2, u, c, i);
  }

  lemma ChildLowered(g: Graph, s: State, u: nat, c: nat)
    requires WellFormed(g) && Shape(g, s) && c < |g| && u < |g| && u != c && s.disc[u] != 0 && s.last[u] == 0
    requires Deepest(g, s, c) && Scanned(g, s, c, |g[c]|)
    requires s.parent[c] == u && 0 <= s.via[c] && Joins(g, u, c, s.via[c])
    ensures CanSettle(g, Lowered(s, u, s.low[c]), c)
  {
    var t := Lowered(s, u, s.low[c]);
    if s.low[c] != s.disc[c] {
      var w: nat, x: nat, q: nat :| Above(s, c, w) && Joins(g, w, x, q) && x < |g| && q != s.via[w] &&
        s.disc[x] == s.low[c] != 0;
      assert Above(t, c, w);
    }
  }

  lemma ChildDeepest(g: Graph, s1: State, s2: State, u: nat, c: nat, i: nat)
    requires ChildSearched(g, s1, s2, u, c, i) && Times(g, s2) && CanSettle(g, Lowered(s2, u, s2.low[c]), c)
    ensures Deepest(g, Settled(Lowered(s2, u, s2.low[c]), c), u)
    ensures Continues(g, s1, Settled(Lowered(s2, u, s2.low[c]), c), {u})
  {
    var t := Settled(Lowered(s2, u, s2.low[c]), c);
    forall v | 0 <= v < |g| && t.disc[v] != 0 && t.last[v] == 0
      ensures t.disc[v] <= t.disc[u]
    {
      assert s2.disc[v] <= s2.disc[c];
      assert s1.disc[v] != 0;
    }
  }

  lemma ChildScanned(g: Graph, s1: State, s2: State, u: nat, c: nat, i: nat)
    requires ChildSearched(g, s1, s2, u, c, i) && CanSettle(g, Lowered(s2, u, s2.low[c]), c)
    requires Children(s2, u) == Children(s1, u) + {c}
    ensures Scanned(g, Settled(Lowered(s2, u, s2.low[c]), c), u, i + 1)
  {
    var t := Settled(Lowered(s2, u, s2.low[c]), c);
    forall d | 0 <= d < |g| && t.disc[d] != 0 && t.parent[d] == u
      ensures t.last[d] != 0 && t.low[u] <= t.low[d]
    {
      assert d in Children(s2, u);
      if d != c { assert d in Children(s1, u); }
    }
    ChildLow(g, s1, s2, t, u, c);
  }

  lemma ChildLow(g: Graph, s1: State, s2: State, t: State, u: nat, c: nat)
    requires Shape(g, s1) && Shape(g, s2) && Shape(g, t) && u < |g| && c < |g|
    requires s1.disc[u] != 0 && s1.last[u] == 0 == t.last[u] && s2.last[c] == 0
    requires s1.timer <= s2.timer == t.timer && s2.disc == t.disc && s2.via == t.via && s2.disc[c] == s1.timer + 1
    requires Continues(g, s1, s2, {}) && t.low[u] == Min(s1.low[u], s2.low[c]) && s1.disc[u] <= s1.timer
    requires s1.low[u] == s1.disc[u] || LowReached(g, s1, u)
    requires s2.low[c] == s2.disc[c] || LowReached(g, s2, c)
    requires s1.low[u] <= s1.disc[u]
    ensures t.low[u] == t.disc[u] || LowReached(g, t, u)
  {
    if t.low[u] == s1.low[u] {
      if s1.low[u] != s1.disc[u] {
        var w: nat, x: nat, q: nat :| Above(s1, u, w) && Joins(g, w, x, q) && x < |g| && q != s1.via[w] &&
          s1.disc[x] == s1.low[u] != 0;
        assert Above(t, u, w) && t.via[w] == s1.via[w];
      }
    } else {
      var w: nat, x: nat, q: nat :| Above(s2, c, w) && Joins(g, w, x, q) && x < |g| && q != s2.via[w] &&
        s2.disc[x] == s2.low[c] != 0;
      assert Above(t, u, w);
    }
  }

  lemma ContinuesTrans(g: Graph, s: State, t: State, r: State, u: nat)
    requires Shape(g, s) && Shape(g, t) && Shape(g, r) && u < |g| && s.disc[u] == 0
    requires Continues(g, s, t, {}) && Continues(g, t, r, {u})
    ensures Continues(g, s, r, {})
  {}

  lemma SameUnreached(s: State, t: State)
    requires s.disc == t.disc
    ensures Unreached(s) == Unreached(t)
  {}

  /** The vertices not reached yet. */
  function Unreached(s: State): set<nat> {
    set v | 0 <= v < |s.disc| && s.disc[v] == 0
  }

  /** A complete search of u's subtree, u having been reached from `up` by pair p, has led from
      s to t: only u itself is left for its parent to settle. */
  ghost predicate Searched(g: Graph, s: State, t: State, u: nat, up: int, p: int) {
    && Inv(g, t) && Shape(g, s) && u < |g| && Continues(g, s, t, {}) && s.disc[u] == 0
    && Deepest(g, t, u) && Scanned(g, t, u, |g[u]|)
    && t.parent[u] == up && t.via[u] == p && t.disc[u] == s.timer + 1
    && (up == -1 ==> (t.cut[u] <==> TwoChildren(t, u)))
  }

  /** u's first i edges have been followed since u was reached in state s. */
  ghost predicate Searching(g: Graph, s: State, t: State, u: nat, up: int, p: int, i: nat, children: nat) {
    && Inv(g, t) && Shape(g, s) && u < |g| && i <= |g[u]| && Continues(g, s, t, {}) && s.disc[u] == 0
    && Deepest(g, t, u) && Scanned(g, t, u, i)
    && t.parent[u] == up && t.via[u] == p && t.disc[u] == s.timer + 1
    && children == |Children(t, u)| && (up == -1 ==> !t.cut[u])
  }

  lemma SearchingStarts(g: Graph, s: State, u: nat, up: int, p: int)
    requires Inv(g, s) && CanReach(g, s, u, up, p)
    ensures Searching(g, s, Reached(s, u, up, p), u, up, p, 0, 0)
    ensures Unreached(Reached(s, u, up, p)) < Unreached(s) && (up >= 0 <==> p >= 0)
  {
    ReachedKeeps(g, s, u, up, p);
    ReachedFirst(g, s, u, up, p);
    var t := Reached(s, u, up, p);
    assert forall c: nat :: !IsChild(t, u, c) by {
      assert forall c {:trigger s.parent[c]} :: 0 <= c < |g| && s.disc[c] != 0 ==> s.parent[c] != u;
    }
    assert Children(t, u) == {};
    assert u in Unreached(s) && u !in Unreached(t);
  }

  lemma SearchingSkips(g: Graph, s: State, t: State, u: nat, up: int, p: int, i: nat, children: nat)
    requires Searching(g, s, t, u, up, p, i, children) && i < |g[u]| && g[u][i].pair == p
    ensures Searching(g, s, t, u, up, p, i + 1, children)
  {
    TreeEdgeBack(g, t, u, i);
  }

  lemma SearchingBack(g: Graph, s: State, t: State, u: nat, up: int, p: int, i: nat, children: nat)
    requires Searching(g, s, t, u, up, p, i, children) && i < |g[u]| && g[u][i].pair != p && t.disc[g[u][i].to] != 0
    ensures Searching(g, s, Lowered(t, u, t.disc[g[u][i].to]), u, up, p, i + 1, children)
  {
    hide AllScanned, CutFlags, BridgeFlags, Related, Nested;
    BackEdge(g, t, u, i);
    LoweredKeeps(g, t, u, t.disc[g[u][i].to]);
    assert Children(Lowered(t, u, t.disc[g[u][i].to]), u) == Children(t, u);
  }

  lemma SearchingChild(g: Graph, s: State, t: State, r: State, u: nat, up: int, p: int, i: nat, children: nat)
    requires Searching(g, s, t, u, up, p, i, children) && i < |g[u]| && g[u][i].pair != p && t.disc[g[u][i].to] == 0
    requires Searched(g, t, r, g[u][i].to, u, g[u][i].pair)
    ensures CanSettle(g, Lowered(r, u, r.low[g[u][i].to]), g[u][i].to)
    ensures r.parent[g[u][i].to] == u && r.via[g[u][i].to] == g[u][i].pair && r.parent[u] == up
    ensures Searching(g, s, Settled(Lowered(r, u, r.low[g[u][i].to]), g[u][i].to), u, up, p, i + 1, children + 1)
  {
    hide Inv, Scanned, Deepest, Continues, Children, Times, Nested, ChildSearched;
    var c := g[u][i].to;
    ChildBack(g, s, t, r, u, up, p, i, children);
    InvShape(g, t);
    InvShape(g, r);
    ChildReturned(g, t, r, u, c, i);
    ChildInv(g, r, u, c);
    var v := Settled(Lowered(r, u, r.low[c]), c);
    InvShape(g, v);
    ContinuesTrans(g, s, t, v, u);
    OneMore(Children(t, u), c);
  }

  lemma OneMore(cs: set<nat>, c: nat)
    requires c !in cs
    ensures |cs + {c}| == |cs| + 1
  {}

  lemma InvShape(g: Graph, s: State)
    requires Inv(g, s)
    ensures WellFormed(g) && Shape(g, s) && Times(g, s) && Nested(g, s)
  {}

  /** What the search of c leaves of u, its parent. */
  lemma ChildBack(g: Graph, s: State, t: State, r: State, u: nat, up: int, p: int, i: nat, children: nat)
    requires Searching(g, s, t, u, up, p, i, children) && i < |g[u]| && g[u][i].pair != p && t.disc[g[u][i].to] == 0
    requires Searched(g, t, r, g[u][i].to, u, g[u][i].pair)
    ensures ChildSearched(g, t, r, u, g[u][i].to, i) && Times(g, r) && Nested(g, r)
    ensures g[u][i].to != u && r.parent[u] == up && r.via[u] == p && r.disc[u] == s.timer + 1 && r.last[u] == 0
    ensures r.cut[u] == t.cut[u]
  {
    hide AllScanned, CutFlags, BridgeFlags, Related, TreeEdges, Nested, Scanned;
  }

  lemma ChildInv(g: Graph, r: State, u: nat, c: nat)
    requires Inv(g, r) && u < |g| && c < |g| && r.last[u] == 0 && CanSettle(g, Lowered(r, u, r.low[c]), c)
    ensures Inv(g, Settled(Lowered(r, u, r.low[c]), c))
  {
    hide Inv;
    InvShape(g, r);
    LoweredKeeps(g, r, u, r.low[c]);
    SettledKeeps(g, Lowered(r, u, r.low[c]), c);
  }

  lemma SearchingEnters(g: Graph, s: State, t: State, u: nat, up: int, p: int, i: nat, children: nat)
    requires Searching(g, s, t, u, up, p, i, children) && i < |g[u]|
    ensures Inv(g, t) && g[u][i].to < |g| && g[u][i].pair < |t.bridge|
    ensures t.disc[g[u][i].to] == 0 && g[u][i].pair != p ==> CanReach(g, t, g[u][i].to, u, g[u][i].pair)
    ensures forall r :: Searched(g, t, r, g[u][i].to, u, g[u][i].pair) ==> Unreached(r) <= Unreached(t)
  {
    hide AllScanned, CutFlags, BridgeFlags, Related, Nested, TreeEdges;
    assert Joins(g, u, g[u][i].to, g[u][i].pair);
  }

  lemma SearchingEnds(g: Graph, s: State, t: State, u: nat, up: int, p: int, children: nat)
    requires u < |g| && Searching(g, s, t, u, up, p, |g[u]|, children) && CanReach(g, s, u, up, p)
    ensures u < |t.cut|
    ensures var r := if p < 0 && children > 1 then t.(cut := t.cut[u := true]) else t;
      Inv(g, r) && Searched(g, s, r, u, up, p)
  {
    hide AllScanned, CutFlags, BridgeFlags, Related, Nested, TreeEdges, Scanned;
    TwoOrMore(t, u);
    if p < 0 && children > 1 {
      RootCutKeeps(g, t, u);
    }
  }

  lemma TwoOrMore(t: State, u: nat)
    ensures TwoChildren(t, u) <==> |Children(t, u)| > 1
  {
    if TwoChildren(t, u) {
      var c: nat, d: nat :| c != d && IsChild(t, u, c) && IsChild(t, u, d);
      assert {c, d} <= Children(t, u);
      CardinalityMono({c, d}, Children(t, u));
    } else if c :| c in Children(t, u) {
      assert Children(t, u) == {c};
    }
  }

  lemma CardinalityMono<T>(a: set<T>, b: set<T>)
    requires a <= b
    ensures |a| <= |b|
  {
    assert b == a + (b - a);
  }

  lemma RootCutKeeps(g: Graph, t: State, u: nat)
    requires Inv(g, t) && u < |g| && t.disc[u] != 0 && t.last[u] == 0 && t.parent[u] == -1
    ensures Inv(g, t.(cut := t.cut[u := true]))
    ensures TwoChildren(t.(cut := t.cut[u := true]), u) <==> TwoChildren(t, u)
    ensures Scanned(g, t, u, |g[u]|) ==> Scanned(g, t.(cut := t.cut[u := true]), u, |g[u]|)
  {
    var r := t.(cut := t.cut[u := true]);
    assert forall c: nat :: IsChild(r, u, c) <==> IsChild(t, u, c);
    RootCutTree(g, t, u);
    RootCutFlags(g, t, u);
    RootCutScanned(g, t, u);
  }

  lemma RootCutTree(g: Graph, t: State, u: nat)
    requires Shape(g, t) && Times(g, t) && TreeEdges(g, t) && Nested(g, t) && Related(g, t) && u < |g| && t.disc[u] != 0
    ensures var r := t.(cut := t.cut[u := true]); Times(g, r) && TreeEdges(g, r) && Nested(g, r) && Related(g, r)
  {
    var r := t.(cut := t.cut[u := true]);
    assert forall v: nat, w: nat :: Above(r, v, w) <==> Above(t, v, w);
  }

  lemma RootCutFlags(g: Graph, t: State, u: nat)
    requires Shape(g, t) && BridgeFlags(g, t) && CutFlags(g, t) && u < |g| && t.last[u] == 0 && t.parent[u] == -1
    ensures var r := t.(cut := t.cut[u := true]); BridgeFlags(g, r) && CutFlags(g, r)
  {
    var r := t.(cut := t.cut[u := true]);
    assert forall v: nat, c: nat :: IsChild(r, v, c) <==> IsChild(t, v, c);
    assert forall v: nat :: TwoChildren(r, v) <==> TwoChildren(t, v);
    assert forall v: nat, c: nat :: Hangs(r, v, c) <==> Hangs(t, v, c);
    assert forall v: nat, q: nat :: HeldBy(r, v, q) <==> HeldBy(t, v, q);
  }

  lemma RootCutScanned(g: Graph, t: State, u: nat)
    requires WellFormed(g) && Shape(g, t) && AllScanned(g, t) && u < |g|
    ensures var r := t.(cut := t.cut[u := true]);
      AllScanned(g, r) && (Scanned(g, t, u, |g[u]|) ==> Scanned(g, r, u, |g[u]|))
  {
    var r := t.(cut := t.cut[u := true]);
    assert forall v: nat, w: nat :: Above(r, v, w) <==> Above(t, v, w);
    assert forall v: nat | v < |g| && LowReached(g, t, v) :: LowReached(g, r, v);
  }
}
