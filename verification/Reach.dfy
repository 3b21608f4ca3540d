/** Reachability in an undirected graph given by its edge set. */
module Reach {

  /** x and y are the two ends of some edge of E, in either order. */
  predicate Touch<T(==)>(E: set<(T, T)>, x: T, y: T) {
    (x, y) in E || (y, x) in E
  }

  ghost predicate IsWalk<T>(E: set<(T, T)>, w: seq<T>) {
    0 < |w| && forall i: nat {:trigger EdgeAt(E, w, i)} :: i < |w| - 1 ==> EdgeAt(E, w, i)
  }

  ghost predicate EdgeAt<T>(E: set<(T, T)>, w: seq<T>, i: nat)
    requires i < |w| - 1
  {
    Touch(E, w[i], w[i + 1])
  }

  ghost predicate WalkFromTo<T>(E: set<(T, T)>, w: seq<T>, x: T, y: T) {
    IsWalk(E, w) && w[0] == x && w[|w| - 1] == y
  }

  /** Some chain of edges leads from x to y. */
  ghost predicate Linked<T(!new)>(E: set<(T, T)>, x: T, y: T) {
    exists w :: WalkFromTo(E, w, x, y)
  }

  lemma LinkedSelf<T(!new)>(E: set<(T, T)>, x: T)
    ensures Linked(E, x, x)
  {
    assert WalkFromTo(E, [x], x, x);
  }

  lemma LinkedTouch<T(!new)>(E: set<(T, T)>, x: T, y: T)
    requires Touch(E, x, y)
    ensures Linked(E, x, y)
  {
    assert EdgeAt(E, [x, y], 0);
    assert WalkFromTo(E, [x, y], x, y);
  }

  lemma LinkedTrans<T(!new)>(E: set<(T, T)>, x: T, y: T, z: T)
    requires Linked(E, x, y) && Linked(E, y, z)
    ensures Linked(E, x, z)
  {
    var v :| WalkFromTo(E, v, x, y);
    var w :| WalkFromTo(E, w, y, z);
    var c := v + w[1..];
    forall i: nat | i < |c| - 1
      ensures EdgeAt(E, c, i)
    {
      if i < |v| - 1 {
        assert EdgeAt(E, v, i);
        assert c[i] == v[i] && c[i + 1] == v[i + 1];
      } else {
        var j := i - (|v| - 1);
        assert EdgeAt(E, w, j);
        assert c[i] == w[j] && c[i + 1] == w[j + 1];
      }
    }
    assert WalkFromTo(E, c, x, z);
  }

  lemma LinkedSym<T(!new)>(E: set<(T, T)>, x: T, y: T)
    requires Linked(E, x, y)
    ensures Linked(E, y, x)
  {
    var w :| WalkFromTo(E, w, x, y);
    var r := seq(|w|, i requires 0 <= i < |w| => w[|w| - 1 - i]);
    forall i: nat | i < |r| - 1
      ensures EdgeAt(E, r, i)
    {
      var j := |w| - 2 - i;
      assert EdgeAt(E, w, j);
      assert r[i] == w[j + 1] && r[i + 1] == w[j];
    }
    assert WalkFromTo(E, r, y, x);
  }

  /** A set no edge leaves holds everything its members are linked to. */
  lemma ClosedHoldsLinked<T(!new)>(E: set<(T, T)>, S: iset<T>, x: T, y: T)
    requires forall u, v :: Touch(E, u, v) && u in S ==> v in S
    requires x in S && Linked(E, x, y)
    ensures y in S
  {
    var w :| WalkFromTo(E, w, x, y);
    for i := 0 to |w| - 1
      invariant w[i] in S
    {
      assert EdgeAt(E, w, i);
    }
  }

  /** A graph with at least the same adjacencies links at least the same pairs. */
  lemma LinkedMono<T(!new)>(E: set<(T, T)>, F: set<(T, T)>, x: T, y: T)
    requires forall u, v :: Touch(E, u, v) ==> Touch(F, u, v)
    requires Linked(E, x, y)
    ensures Linked(F, x, y)
  {
    var w :| WalkFromTo(E, w, x, y);
    forall i: nat | i < |w| - 1
      ensures EdgeAt(F, w, i)
    {
      assert EdgeAt(E, w, i);
    }
    assert WalkFromTo(F, w, x, y);
  }

  /** An adjacency-preserving renaming of the vertices preserves links. */
  lemma LinkedImage<T(!new), U(!new)>(E: set<(T, T)>, F: set<(U, U)>, f: T -> U, x: T, y: T)
    requires forall u, v :: Touch(E, u, v) ==> Touch(F, f(u), f(v))
    requires Linked(E, x, y)
    ensures Linked(F, f(x), f(y))
  {
    var w :| WalkFromTo(E, w, x, y);
    var image := seq(|w|, i requires 0 <= i < |w| => f(w[i]));
    forall i: nat | i < |image| - 1
      ensures EdgeAt(F, image, i)
    {
      assert EdgeAt(E, w, i);
    }
    assert WalkFromTo(F, image, f(x), f(y));
  }
}
