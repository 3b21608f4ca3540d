/** The union-find of cluster/reconcile.go (and of identityGroups in cluster/conflicts.go). */
module UnionFind {
  import opened Reach

  /** A parent map with, for the proofs, a level that falls along every parent link. */
  datatype Parents<T> = Parents(parent: map<T, T>, level: map<T, nat>) {

    ghost predicate Valid() {
      && level.Keys == parent.Keys
      && forall x {:trigger parent[x]} :: x in parent ==>
           parent[x] in parent && (parent[x] != x ==> level[parent[x]] < level[x])
    }

    /** The root x's parent links lead to; an element never seen is its own root. */
    ghost function Rep(x: T): (r: T)
      requires Valid()
      ensures x in parent ==> r in parent && parent[r] == r && level[r] <= level[x]
      decreases if x in level then level[x] else 0
    {
      if x !in parent || parent[x] == x then x else Rep(parent[x])
    }
  }

  /** The classes of f are exactly the components of E. */
  ghost predicate Classes<T(!new)>(f: Parents<T>, E: set<(T, T)>) {
    f.Valid() && forall x, y :: f.Rep(x) == f.Rep(y) <==> Linked(E, x, y)
  }

  /** Pointing x straight at its root changes no root. */
  lemma {:induction false} Compressed<T>(f: Parents<T>, x: T, y: T)
    requires f.Valid() && x in f.parent
    ensures f.(parent := f.parent[x := f.Rep(x)]).Valid()
    ensures f.(parent := f.parent[x := f.Rep(x)]).Rep(y) == f.Rep(y)
    decreases if y in f.level then f.level[y] else 0
  {
    if y in f.parent && f.parent[y] != y {
      Compressed(f, x, if y == x then f.Rep(x) else f.parent[y]);
    }
  }

  /** a's root ra is put under b's root rb: a's whole class moves down. */
  ghost function Joined<T>(f: Parents<T>, ra: T, rb: T): Parents<T>
    requires f.Valid() && ra in f.parent && rb in f.parent
  {
    Parents(f.parent[ra := rb],
           map x | x in f.level :: if f.Rep(x) == ra then f.level[x] + f.level[rb] + 1 else f.level[x])
  }

  lemma JoinedValid<T>(f: Parents<T>, ra: T, rb: T)
    requires f.Valid() && ra in f.parent && rb in f.parent && f.parent[ra] == ra && f.parent[rb] == rb && ra != rb
    ensures Joined(f, ra, rb).Valid()
  {
    hide Parents.Rep, Joined, Parents.Valid;
    var h := Joined(f, ra, rb);
    Unfold(f, ra);
    SameKeys(f, ra, rb);
    forall x {:trigger h.parent[x]} | x in h.parent
      ensures h.parent[x] in h.parent && (h.parent[x] != x ==> h.level[h.parent[x]] < h.level[x])
    {
      JoinedFalls(f, ra, rb, x);
    }
    MakeValid(h);
  }

  lemma MakeValid<T>(h: Parents<T>)
    requires h.level.Keys == h.parent.Keys
    requires forall x {:trigger h.parent[x]} :: x in h.parent ==>
               h.parent[x] in h.parent && (h.parent[x] != x ==> h.level[h.parent[x]] < h.level[x])
    ensures h.Valid()
  {}

  lemma SameKeys<T>(f: Parents<T>, ra: T, rb: T)
    requires f.Valid() && ra in f.parent && rb in f.parent && f.level.Keys == f.parent.Keys
    ensures Joined(f, ra, rb).level.Keys == Joined(f, ra, rb).parent.Keys
  {
    hide Parents.Rep;
  }

  lemma JoinedFalls<T>(f: Parents<T>, ra: T, rb: T, x: T)
    requires f.Valid() && ra in f.parent && rb in f.parent && f.parent[ra] == ra && f.parent[rb] == rb && ra != rb
    requires x in Joined(f, ra, rb).parent && f.level.Keys == f.parent.Keys
    ensures var h := Joined(f, ra, rb);
            h.parent[x] in h.parent && h.parent[x] in h.level && x in h.level
            && (h.parent[x] != x ==> h.level[h.parent[x]] < h.level[x])
  {
    Unfold(f, x);
    Unfold(f, ra);
    Unfold(f, rb);
    hide Parents.Valid, Parents.Rep;
  }

  lemma {:induction false} JoinedRep<T>(f: Parents<T>, h: Parents<T>, ra: T, rb: T, y: T)
    requires f.Valid() && ra in f.parent && rb in f.parent && f.parent[ra] == ra && f.parent[rb] == rb && ra != rb
    requires h.Valid() && h.parent == f.parent[ra := rb]
    ensures h.Rep(y) == if f.Rep(y) == ra then rb else f.Rep(y)
    decreases if y in f.level then f.level[y] else 0
  {
    hide Parents.Valid, Parents.Rep;
    Unfold(f, y);
    Unfold(h, y);
    if y in f.parent && f.parent[y] != y {
      JoinedRep(f, h, ra, rb, f.parent[y]);
    } else if y == ra {
      Unfold(h, rb);
    }
  }

  lemma Unfold<T>(f: Parents<T>, y: T)
    requires f.Valid()
    ensures f.Rep(y) == if y !in f.parent || f.parent[y] == y then y else f.Rep(f.parent[y])
    ensures f.level.Keys == f.parent.Keys && (y in f.parent ==> f.parent[y] in f.parent)
    ensures y in f.parent && f.parent[y] != y ==>
      f.parent[y] in f.level && y in f.level && f.level[f.parent[y]] < f.level[y]
  {}

  /** y's root once a's class has joined b's. */
  ghost function MergedRep<T>(f: Parents<T>, a: T, b: T, y: T): T
    requires f.Valid()
  {
    if f.Rep(y) == f.Rep(a) then f.Rep(b) else f.Rep(y)
  }

  ghost predicate SameReps<T(!new)>(f: Parents<T>, h: Parents<T>) {
    f.Valid() && h.Valid() && forall y :: h.Rep(y) == f.Rep(y)
  }

  /** h's classes are f's, except that a's has joined b's. */
  ghost predicate Merges<T(!new)>(f: Parents<T>, h: Parents<T>, a: T, b: T) {
    f.Valid() && h.Valid() && forall y :: h.Rep(y) == MergedRep(f, a, b, y)
  }

  lemma SameRepsTrans<T(!new)>(f: Parents<T>, g: Parents<T>, h: Parents<T>)
    requires SameReps(f, g) && SameReps(g, h)
    ensures SameReps(f, h)
  {
    hide Parents.Valid, Parents.Rep;
  }

  lemma JoinedMerges<T(!new)>(f0: Parents<T>, f: Parents<T>, h: Parents<T>, ra: T, rb: T, a: T, b: T)
    requires SameReps(f0, f) && f0.Rep(a) == ra && f0.Rep(b) == rb && h.Valid()
    requires forall y :: h.Rep(y) == if f.Rep(y) == ra then rb else f.Rep(y)
    ensures Merges(f0, h, a, b)
  {
    hide Parents.Valid, Parents.Rep;
  }

  /** Joining the classes of a and b matches adding an edge between them. */
  lemma UnionLinks<T(!new)>(f: Parents<T>, h: Parents<T>, E: set<(T, T)>, a: T, b: T)
    requires Classes(f, E) && Merges(f, h, a, b)
    ensures Classes(h, E + {(a, b)})
  {
    hide Parents.Valid, Parents.Rep;
    var F := E + {(a, b)};
    forall x, y
      ensures h.Rep(x) == h.Rep(y) <==> Linked(F, x, y)
    {
      if h.Rep(x) == h.Rep(y) {
        LinkedTouch(F, a, b);
        LinkedSym(F, a, b);
        if f.Rep(x) == f.Rep(y) {
          LinkedMono(E, F, x, y);
        } else if f.Rep(x) == f.Rep(a) {
          Across(E, F, x, a, b, y);
        } else {
          Across(E, F, x, b, a, y);
        }
      }
      if Linked(F, x, y) {
        var S := iset z | h.Rep(z) == h.Rep(x);
        forall u, v | Touch(F, u, v) && u in S
          ensures v in S
        {
          if Touch(E, u, v) { LinkedTouch(E, u, v); }
        }
        ClosedHoldsLinked(F, S, x, y);
      }
    }
  }

  lemma Across<T(!new)>(E: set<(T, T)>, F: set<(T, T)>, x: T, a: T, b: T, y: T)
    requires E <= F && Linked(E, x, a) && Linked(F, a, b) && Linked(E, b, y)
    ensures Linked(F, x, y)
  {
    LinkedMono(E, F, x, a);
    LinkedMono(E, F, b, y);
    LinkedTrans(F, x, a, b);
    LinkedTrans(F, x, b, y);
  }

  class UnionFind<T(==, !new)> {
    var parent: map<T, T>
    ghost var level: map<T, nat>

    ghost function Snapshot(): Parents<T>
      reads this
    {
      Parents(parent, level)
    }

    ghost predicate Valid()
      reads this
    {
      Snapshot().Valid()
    }

    constructor ()
      ensures Valid() && parent == map[] && Classes(Snapshot(), {})
    {
      parent, level := map[], map[];
      new;
      forall x: T, y: T
        ensures Snapshot().Rep(x) == Snapshot().Rep(y) <==> Linked({}, x, y)
      {
        if x == y {
          LinkedSelf({}, x);
        } else if Linked({}, x, y) {
          ClosedHoldsLinked({}, iset{x}, x, y);
        }
      }
    }

    /** x's root; the links on the way are shortened. */
    method Find(x: T) returns (r: T)
      requires Valid()
      modifies this
      ensures Valid() && r == old(Snapshot()).Rep(x) && parent.Keys == old(parent).Keys + {x} && r in parent
      ensures parent[r] == r
      ensures SameReps(old(Snapshot()), Snapshot())
      ensures forall y :: y in old(level) ==> y in level && level[y] == old(level)[y]
      decreases if x in level then level[x] else 0
    {
      hide Parents.Valid, Parents.Rep;
      Unfold(Snapshot(), x);
      if x !in parent {
        parent := parent[x := x];
        level := level[x := 0];
        AllInserted(old(Snapshot()), x);
      }
      Unfold(Snapshot(), x);
      if parent[x] != x {
        var root := Find(parent[x]);
        ghost var f := Snapshot();
        Unfold(f, x);
        parent := parent[x := root];
        AllCompressed(f, x);
      }
      r := parent[x];
      Unfold(Snapshot(), r);
    }

    /** The classes of a and b become one, with b's root. */
    method Union(a: T, b: T)
      requires Valid()
      modifies this
      ensures Valid() && parent.Keys == old(parent).Keys + {a, b} && Merges(old(Snapshot()), Snapshot(), a, b)
    {
      hide Parents.Valid, Parents.Rep, Merges, SameReps, Joined;
      var ra := Find(a);
      ghost var f := Snapshot();
      var rb := Find(b);
      ghost var h := Snapshot();
      RootStays(f, h, ra);
      SameRepsTrans(old(Snapshot()), f, h);
      assert rb == old(Snapshot()).Rep(b) by { SameRep(old(Snapshot()), f, b); }
      if ra != rb {
        AllJoined(h, ra, rb);
        parent := parent[ra := rb];
        level := Joined(h, ra, rb).level;
        assert Snapshot() == Joined(h, ra, rb);
      }
      JoinedMerges(old(Snapshot()), h, Snapshot(), ra, rb, a, b);
      MergesValid(old(Snapshot()), Snapshot(), a, b);
    }
  }

  lemma SameRep<T(!new)>(f: Parents<T>, h: Parents<T>, y: T)
    requires SameReps(f, h)
    ensures f.Rep(y) == h.Rep(y)
  {}

  lemma RootStays<T(!new)>(f: Parents<T>, h: Parents<T>, r: T)
    requires SameReps(f, h) && r in f.parent && f.parent[r] == r && r in h.parent
    ensures h.parent[r] == r
  {
    assert f.Rep(r) == r == h.Rep(r);
  }

  lemma MergesValid<T(!new)>(f: Parents<T>, h: Parents<T>, a: T, b: T)
    ensures Merges(f, h, a, b) ==> h.Valid()
  {}

  lemma AllInserted<T(!new)>(f: Parents<T>, x: T)
    requires f.Valid() && x !in f.parent
    ensures Parents(f.parent[x := x], f.level[x := 0]).Valid()
    ensures forall y :: Parents(f.parent[x := x], f.level[x := 0]).Rep(y) == f.Rep(y)
  {
    forall y
      ensures Parents(f.parent[x := x], f.level[x := 0]).Valid()
      ensures Parents(f.parent[x := x], f.level[x := 0]).Rep(y) == f.Rep(y)
    {
      Inserted(f, x, y);
    }
  }

  lemma AllCompressed<T(!new)>(f: Parents<T>, x: T)
    requires f.Valid() && x in f.parent
    ensures f.(parent := f.parent[x := f.Rep(x)]).Valid()
    ensures forall y :: f.(parent := f.parent[x := f.Rep(x)]).Rep(y) == f.Rep(y)
  {
    forall y
      ensures f.(parent := f.parent[x := f.Rep(x)]).Valid()
      ensures f.(parent := f.parent[x := f.Rep(x)]).Rep(y) == f.Rep(y)
    {
      Compressed(f, x, y);
    }
  }

  lemma AllJoined<T(!new)>(f: Parents<T>, ra: T, rb: T)
    requires f.Valid() && ra in f.parent && rb in f.parent && f.parent[ra] == ra && f.parent[rb] == rb && ra != rb
    ensures Joined(f, ra, rb).Valid() && Joined(f, ra, rb).parent == f.parent[ra := rb]
    ensures forall y :: Joined(f, ra, rb).Rep(y) == if f.Rep(y) == ra then rb else f.Rep(y)
  {
    JoinedValid(f, ra, rb);
    forall y
      ensures Joined(f, ra, rb).Rep(y) == if f.Rep(y) == ra then rb else f.Rep(y)
    {
      JoinedRep(f, Joined(f, ra, rb), ra, rb, y);
    }
  }

  lemma {:induction false} Inserted<T>(f: Parents<T>, x: T, y: T)
    requires f.Valid() && x !in f.parent
    ensures Parents(f.parent[x := x], f.level[x := 0]).Valid()
    ensures Parents(f.parent[x := x], f.level[x := 0]).Rep(y) == f.Rep(y)
    decreases if y in f.level then f.level[y] else 0
  {
    if y in f.parent && f.parent[y] != y {
      Inserted(f, x, f.parent[y]);
    }
  }
}
