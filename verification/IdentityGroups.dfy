/** cluster/conflicts.go: sorting records into identities, and what binds each identity. */
module IdentityGroups {
  import opened Reach
  import opened UnionFind

  /** A record with its name folded and its other fields trimmed; "" is a missing field. */
  datatype Record = Record(featureID: string, person: int, fiscal: string, name: string, birth: string)

  datatype Basis = PERSON | NAME_BIRTH | FISCAL

  type Key = (string, string)

  function KeyOf(r: Record): Key { (r.name, r.birth) }

  predicate InClass(r: Record, key: Key) { r.birth != "" && KeyOf(r) == key }

  /** r and s share a person row or a fiscal number. */
  predicate Bound(r: Record, s: Record) {
    r.person == s.person || (r.fiscal != "" && r.fiscal == s.fiscal)
  }

  predicate Numbered(r: Record, key: Key) { InClass(r, key) && r.fiscal != "" }

  /** No two records with this name and birth date have different fiscal numbers. */
  predicate Admitted(rs: seq<Record>, key: Key) {
    forall i, j :: 0 <= i < |rs| && 0 <= j < |rs| && Numbered(rs[i], key) && Numbered(rs[j], key) ==>
      rs[i].fiscal == rs[j].fiscal
  }

  predicate NameJoined(rs: seq<Record>, r: Record, s: Record) {
    r.birth != "" && InClass(s, KeyOf(r)) && Admitted(rs, KeyOf(r))
  }

  ghost function BoundEdges(rs: seq<Record>): set<(int, int)> {
    set i, j | 0 <= i < |rs| && 0 <= j < |rs| && Bound(rs[i], rs[j]) :: (i, j)
  }

  /** What may put two records together: a shared person row or fiscal number, or a name and birth date
    * that no fiscal number contradicts. */
  ghost function Evidence(rs: seq<Record>): set<(int, int)> {
    set i, j | 0 <= i < |rs| && 0 <= j < |rs| && (Bound(rs[i], rs[j]) || NameJoined(rs, rs[i], rs[j])) :: (i, j)
  }

  // ---------------------------------------------------------------------------- a name's class

  predicate Within(rs: seq<Record>, ms: seq<int>) {
    forall k :: 0 <= k < |ms| ==> 0 <= ms[k] < |rs|
  }

  /** The records before n with this name and birth date, in order. */
  function ClassOf(rs: seq<Record>, key: Key, n: nat): (ms: seq<int>)
    requires n <= |rs|
    ensures Within(rs, ms) && forall m :: m in ms <==> 0 <= m < n && InClass(rs[m], key)
  {
    if n == 0 then [] else
      ClassOf(rs, key, n - 1) + if InClass(rs[n - 1], key) then [n - 1] else []
  }

  /** Those of ms without a fiscal number. */
  function Without(rs: seq<Record>, ms: seq<int>): (ws: seq<int>)
    requires Within(rs, ms)
    ensures Within(rs, ws) && forall m :: m in ws <==> m in ms && rs[m].fiscal == ""
  {
    if ms == [] then [] else
      Without(rs, ms[..|ms| - 1]) + if rs[ms[|ms| - 1]].fiscal == "" then [ms[|ms| - 1]] else []
  }

  /** The last of ms with a fiscal number, or -1. */
  function LastFiscal(rs: seq<Record>, ms: seq<int>): (m: int)
    requires Within(rs, ms)
    ensures m == -1 <==> forall k :: 0 <= k < |ms| ==> rs[ms[k]].fiscal == ""
    ensures m != -1 ==> m in ms && 0 <= m < |rs| && rs[m].fiscal != ""
  {
    if ms == [] then -1
    else if rs[ms[|ms| - 1]].fiscal != "" then ms[|ms| - 1]
    else LastFiscal(rs, ms[..|ms| - 1])
  }

  /** The record the others of ms join. */
  function Anchor(rs: seq<Record>, ms: seq<int>): (a: int)
    requires Within(rs, ms) && ms != []
    ensures a in ms && 0 <= a < |rs|
  {
    if LastFiscal(rs, ms) != -1 then LastFiscal(rs, ms) else ms[0]
  }

  /** Record i has no fiscal number and joins the others with its name and birth date. */
  predicate JoinsByName(rs: seq<Record>, i: int) {
    0 <= i < |rs| && rs[i].birth != "" && rs[i].fiscal == "" && Admitted(rs, KeyOf(rs[i]))
  }

  function AnchorAt(rs: seq<Record>, i: int): (a: int)
    requires JoinsByName(rs, i)
    ensures 0 <= a < |rs| && InClass(rs[a], KeyOf(rs[i]))
  {
    var ms := ClassOf(rs, KeyOf(rs[i]), |rs|);
    assert i in ms;
    Anchor(rs, ms)
  }

  ghost function NameEdges(rs: seq<Record>): set<(int, int)> {
    set i | 0 <= i < |rs| && JoinsByName(rs, i) :: (AnchorAt(rs, i), i)
  }

  /** i's join is with another person row: the only thing that holds the two together may be the name. */
  predicate NameAlone(rs: seq<Record>, i: int) {
    JoinsByName(rs, i) && rs[i].person != rs[AnchorAt(rs, i)].person
  }

  // ---------------------------------------------------------------------- the edges, and links

  /** Unions made for shared rows and numbers: only between bound records, and enough to link them. */
  ghost predicate Shared(rs: seq<Record>, n: nat, U: set<(int, int)>)
    requires n <= |rs|
  {
    && U <= BoundEdges(rs)
    && forall i, j :: 0 <= i < n && 0 <= j < n && Bound(rs[i], rs[j]) ==> Linked(U, i, j)
  }

  /** A graph whose every adjacency is linked in F has all its links in F. */
  lemma LinkedWithin(E: set<(int, int)>, F: set<(int, int)>, x: int, y: int)
    requires forall u, v :: Touch(E, u, v) ==> Linked(F, u, v)
    requires Linked(E, x, y)
    ensures Linked(F, x, y)
  {
    hide Linked;
    var S := iset z | Linked(F, x, z);
    LinkedSelf(F, x);
    forall u, v | Touch(E, u, v) && u in S
      ensures v in S
    {
      LinkedTrans(F, x, u, v);
    }
    ClosedHoldsLinked(E, S, x, y);
  }

  /** The unions made link exactly what the evidence links. */
  lemma UnionsAreEvidence(rs: seq<Record>, U: set<(int, int)>, x: int, y: int)
    requires Shared(rs, |rs|, U)
    ensures Linked(U + NameEdges(rs), x, y) <==> Linked(Evidence(rs), x, y)
  {
    hide Linked, NameEdges, Evidence, BoundEdges;
    var V, E := U + NameEdges(rs), Evidence(rs);
    forall u, v | Touch(V, u, v)
      ensures Linked(E, u, v)
    {
      UnionInEvidence(rs, U, u, v);
      LinkedTouch(E, u, v);
    }
    forall u, v | Touch(E, u, v)
      ensures Linked(V, u, v)
    {
      EvidenceInUnions(rs, U, u, v);
    }
    if Linked(V, x, y) { LinkedWithin(V, E, x, y); }
    if Linked(E, x, y) { LinkedWithin(E, V, x, y); }
  }

  lemma UnionInEvidence(rs: seq<Record>, U: set<(int, int)>, u: int, v: int)
    requires Shared(rs, |rs|, U) && Touch(U + NameEdges(rs), u, v)
    ensures Touch(Evidence(rs), u, v)
  {
    hide Linked, Admitted, Anchor, AnchorAt;
  }

  lemma EvidenceInUnions(rs: seq<Record>, U: set<(int, int)>, u: int, v: int)
    requires Shared(rs, |rs|, U) && Touch(Evidence(rs), u, v)
    ensures Linked(U + NameEdges(rs), u, v)
  {
    hide Linked, NameEdges, Admitted;
    var V := U + NameEdges(rs);
    if Bound(rs[u], rs[v]) {
      LinkedMono(U, V, u, v);
    } else if NameJoined(rs, rs[u], rs[v]) {
      ThroughAnchor(rs, U, u, v);
    } else {
      ThroughAnchor(rs, U, v, u);
      LinkedSym(V, v, u);
    }
  }

  lemma ThroughAnchor(rs: seq<Record>, U: set<(int, int)>, u: int, v: int)
    requires Shared(rs, |rs|, U) && 0 <= u < |rs| && 0 <= v < |rs| && NameJoined(rs, rs[u], rs[v])
    ensures Linked(U + NameEdges(rs), u, v)
  {
    hide Linked, NameEdges, BoundEdges;
    var V := U + NameEdges(rs);
    var ms := ClassOf(rs, KeyOf(rs[u]), |rs|);
    assert u in ms && v in ms;
    ToAnchor(rs, U, u, u);
    ToAnchor(rs, U, u, v);
    LinkedSym(V, v, Anchor(rs, ms));
    LinkedTrans(V, u, Anchor(rs, ms), v);
  }

  /** Every record of an admitted class is linked to its anchor. */
  lemma ToAnchor(rs: seq<Record>, U: set<(int, int)>, u: int, m: int)
    requires Shared(rs, |rs|, U) && 0 <= u < |rs| && 0 <= m < |rs| && NameJoined(rs, rs[u], rs[m])
    ensures ClassOf(rs, KeyOf(rs[u]), |rs|) != []
    ensures Linked(U + NameEdges(rs), m, Anchor(rs, ClassOf(rs, KeyOf(rs[u]), |rs|)))
  {
    hide Linked, BoundEdges;
    var V := U + NameEdges(rs);
    var ms := ClassOf(rs, KeyOf(rs[u]), |rs|);
    assert m in ms;
    var a := Anchor(rs, ms);
    if rs[m].fiscal == "" {
      assert JoinsByName(rs, m) && a == AnchorAt(rs, m);
      LinkedTouch(V, m, a);
    } else {
      assert LastFiscal(rs, ms) != -1;
      assert Bound(rs[m], rs[a]);
      LinkedMono(U, V, m, a);
    }
  }

  /** The records of i's identity. */
  ghost predicate SameIdentity(rs: seq<Record>, i: int, j: int) {
    Linked(Evidence(rs), i, j)
  }

  ghost predicate OnePerson(rs: seq<Record>, i: int)
    requires 0 <= i < |rs|
  {
    forall j {:trigger rs[j]} :: 0 <= j < |rs| && SameIdentity(rs, i, j) ==> rs[j].person == rs[i].person
  }

  /** What binds i's identity. */
  ghost function BasisOf(rs: seq<Record>, i: int): Basis
    requires 0 <= i < |rs|
  {
    if OnePerson(rs, i) then PERSON
    else if exists j :: SameIdentity(rs, i, j) && NameAlone(rs, j) then NAME_BIRTH
    else FISCAL
  }

  /** An identity labelled PERSON or FISCAL holds together without any name. */
  lemma BoundWithoutNames(rs: seq<Record>, U: set<(int, int)>, i: int, j: int)
    requires Shared(rs, |rs|, U) && 0 <= i < |rs| && 0 <= j < |rs|
    requires SameIdentity(rs, i, j) && BasisOf(rs, i) != NAME_BIRTH
    ensures Linked(BoundEdges(rs), i, j)
  {
    hide Linked, BoundEdges, Evidence, NameEdges, Shared;
    if OnePerson(rs, i) {
      InBound(rs, i, j);
      LinkedTouch(BoundEdges(rs), i, j);
    } else {
      var V, B := U + NameEdges(rs), BoundEdges(rs);
      var S := iset z | Linked(B, i, z) && Linked(V, i, z);
      LinkedSelf(B, i);
      LinkedSelf(V, i);
      forall u, v | Touch(V, u, v) && u in S
        ensures v in S
      {
        LinkedTouch(V, u, v);
        LinkedTrans(V, i, u, v);
        UnionsAreEvidence(rs, U, i, u);
        UnionsAreEvidence(rs, U, i, v);
        UnnamedIsBound(rs, U, i, u, v);
        LinkedTouch(B, u, v);
        LinkedTrans(B, i, u, v);
      }
      UnionsAreEvidence(rs, U, i, j);
      ClosedHoldsLinked(V, S, i, j);
    }
  }

  lemma InBound(rs: seq<Record>, u: int, v: int)
    requires 0 <= u < |rs| && 0 <= v < |rs| && rs[u].person == rs[v].person
    ensures Touch(BoundEdges(rs), u, v)
  {
    assert Bound(rs[u], rs[v]);
  }

  lemma UnnamedIsBound(rs: seq<Record>, U: set<(int, int)>, i: int, u: int, v: int)
    requires Shared(rs, |rs|, U) && Touch(U + NameEdges(rs), u, v)
    requires SameIdentity(rs, i, u) && SameIdentity(rs, i, v)
    requires forall k :: SameIdentity(rs, i, k) ==> !NameAlone(rs, k)
    ensures Touch(BoundEdges(rs), u, v)
  {
    hide Linked, SameIdentity, BoundEdges;
    if (u, v) in NameEdges(rs) {
      InBound(rs, u, v);
    } else if (v, u) in NameEdges(rs) {
      InBound(rs, u, v);
    }
  }

  // ------------------------------------------------------- what the code's comments say of it

  /** Some record of i's identity is held in it by a name, whatever rows and numbers are shared. */
  ghost predicate ByNameOnly(rs: seq<Record>, i: int) {
    exists j :: 0 <= j < |rs| && SameIdentity(rs, i, j) && !Linked(BoundEdges(rs), i, j)
  }

  /** k was put by name with a record that rows and numbers do not link it to. */
  ghost predicate NeedsName(rs: seq<Record>, k: int) {
    NameAlone(rs, k) && !Linked(BoundEdges(rs), k, AnchorAt(rs, k))
  }

  /** A name alone holds an identity together if and only if some record in it needs its name, and then
    * its label is NAME_BIRTH. */
  lemma ByNameExactly(rs: seq<Record>, i: int)
    requires 0 <= i < |rs|
    ensures ByNameOnly(rs, i) <==> exists k :: SameIdentity(rs, i, k) && NeedsName(rs, k)
    ensures ByNameOnly(rs, i) ==> BasisOf(rs, i) == NAME_BIRTH
  {
    BoundIsShared(rs);
    hide Linked, BoundEdges, Evidence, NameAlone;
    if k :| SameIdentity(rs, i, k) && NeedsName(rs, k) {
      NeedingSplits(rs, i, k);
    }
    if forall k :: SameIdentity(rs, i, k) ==> !NeedsName(rs, k) {
      forall j | 0 <= j < |rs| && SameIdentity(rs, i, j)
        ensures Linked(BoundEdges(rs), i, j)
      {
        BoundUnlessNeeded(rs, i, j);
      }
    }
    if BasisOf(rs, i) != NAME_BIRTH {
      forall j | 0 <= j < |rs| && SameIdentity(rs, i, j)
        ensures Linked(BoundEdges(rs), i, j)
      {
        BoundWithoutNames(rs, BoundEdges(rs), i, j);
      }
    }
  }

  lemma BoundIsShared(rs: seq<Record>)
    ensures Shared(rs, |rs|, BoundEdges(rs))
  {
    forall i, j | 0 <= i < |rs| && 0 <= j < |rs| && Bound(rs[i], rs[j])
      ensures Linked(BoundEdges(rs), i, j)
    {
      assert (i, j) in BoundEdges(rs);
      hide BoundEdges, Linked;
      LinkedTouch(BoundEdges(rs), i, j);
    }
  }

  /** A record put by name is of its anchor's identity. */
  lemma WithItsAnchor(rs: seq<Record>, k: int)
    requires JoinsByName(rs, k)
    ensures SameIdentity(rs, k, AnchorAt(rs, k)) && Touch(BoundEdges(rs) + NameEdges(rs), k, AnchorAt(rs, k))
  {
    BoundIsShared(rs);
    var a := AnchorAt(rs, k);
    assert (a, k) in NameEdges(rs);
    hide Linked, BoundEdges, NameEdges, Evidence, AnchorAt, Shared;
    UnionInEvidence(rs, BoundEdges(rs), k, a);
    LinkedTouch(Evidence(rs), k, a);
  }

  lemma NeedingSplits(rs: seq<Record>, i: int, k: int)
    requires 0 <= i < |rs| && SameIdentity(rs, i, k) && NeedsName(rs, k)
    ensures ByNameOnly(rs, i)
  {
    var B, a := BoundEdges(rs), AnchorAt(rs, k);
    WithItsAnchor(rs, k);
    hide Linked, BoundEdges, NameEdges, Evidence, AnchorAt;
    LinkedTrans(Evidence(rs), i, k, a);
    if Linked(B, i, k) && Linked(B, i, a) {
      LinkedSym(B, i, k);
      LinkedTrans(B, k, i, a);
    }
  }

  lemma BoundUnlessNeeded(rs: seq<Record>, i: int, j: int)
    requires 0 <= i < |rs| && 0 <= j < |rs| && SameIdentity(rs, i, j)
    requires forall k :: SameIdentity(rs, i, k) ==> !NeedsName(rs, k)
    ensures Linked(BoundEdges(rs), i, j)
  {
    BoundIsShared(rs);
    hide Linked, BoundEdges, Evidence, NameEdges, Shared, NeedsName;
    var B := BoundEdges(rs);
    var V := B + NameEdges(rs);
    var S := iset z | Linked(B, i, z) && Linked(V, i, z);
    LinkedSelf(B, i);
    LinkedSelf(V, i);
    forall u, v | Touch(V, u, v) && u in S
      ensures v in S
    {
      LinkedTouch(V, u, v);
      LinkedTrans(V, i, u, v);
      UnionsAreEvidence(rs, B, i, u);
      UnionsAreEvidence(rs, B, i, v);
      UnneededIsBound(rs, i, u, v);
      LinkedTrans(B, i, u, v);
    }
    UnionsAreEvidence(rs, B, i, j);
    ClosedHoldsLinked(V, S, i, j);
  }

  lemma UnneededIsBound(rs: seq<Record>, i: int, u: int, v: int)
    requires Touch(BoundEdges(rs) + NameEdges(rs), u, v) && SameIdentity(rs, i, u) && SameIdentity(rs, i, v)
    requires forall k :: SameIdentity(rs, i, k) ==> !NeedsName(rs, k)
    ensures Linked(BoundEdges(rs), u, v)
  {
    hide Linked, SameIdentity, BoundEdges;
    var B := BoundEdges(rs);
    if Touch(B, u, v) {
      LinkedTouch(B, u, v);
    } else {
      var k, a := if (u, v) in NameEdges(rs) then v else u, if (u, v) in NameEdges(rs) then u else v;
      assert JoinsByName(rs, k) && a == AnchorAt(rs, k);
      if NameAlone(rs, k) {
        assert !NeedsName(rs, k);
      } else {
        InBound(rs, k, a);
        LinkedTouch(B, k, a);
      }
      LinkedSym(B, k, a);
    }
  }

  /** The label NAME_BIRTH is given without a name holding the identity together if and only if the identity
    * has several person rows, some record was joined by name to another of them, and none needed to be. */
  lemma LabelledYetBound(rs: seq<Record>, i: int)
    requires 0 <= i < |rs|
    ensures BasisOf(rs, i) == NAME_BIRTH && !ByNameOnly(rs, i) <==>
            && !OnePerson(rs, i) && (exists k :: SameIdentity(rs, i, k) && NameAlone(rs, k))
            && forall k :: SameIdentity(rs, i, k) ==> !NeedsName(rs, k)
  {
    hide OnePerson, NameAlone, NeedsName, ByNameOnly, SameIdentity;
    ByNameExactly(rs, i);
  }

  const BOUND_YET_NAMED := [Record("a", 1, "F", "rosa lima", "1990-02-01"),
                            Record("b", 1, "", "ana silva", "1984-07-12"),
                            Record("c", 2, "F", "ana silva", "1984-07-12")]

  lemma SecondNamed()
    ensures NameAlone(BOUND_YET_NAMED, 1)
  {
    var rs := BOUND_YET_NAMED;
    assert JoinsByName(rs, 1);
    var ms := ClassOf(rs, KeyOf(rs[1]), |rs|);
    assert 2 in ms;
    assert LastFiscal(rs, ms) == 2;
  }

  lemma AllBound()
    ensures Touch(BoundEdges(BOUND_YET_NAMED), 0, 1) && Touch(BoundEdges(BOUND_YET_NAMED), 0, 2)
    ensures Touch(Evidence(BOUND_YET_NAMED), 0, 1) && Touch(Evidence(BOUND_YET_NAMED), 0, 2)
  {
    var rs := BOUND_YET_NAMED;
    assert Bound(rs[0], rs[1]) && Bound(rs[0], rs[2]);
  }

  /** NAME_BIRTH is not the strongest that applies here: a shared person row and a shared fiscal number
    * link all three records. */
  lemma BoundYetNamed()
    ensures BasisOf(BOUND_YET_NAMED, 0) == NAME_BIRTH && !ByNameOnly(BOUND_YET_NAMED, 0)
  {
    SecondNamed();
    AllBound();
    var rs := BOUND_YET_NAMED;
    assert rs[2].person != rs[0].person;
    hide Linked, BoundEdges, Evidence, NameAlone;
    LinkedTouch(Evidence(rs), 0, 1);
    LinkedTouch(Evidence(rs), 0, 2);
    LinkedSelf(BoundEdges(rs), 0);
    LinkedTouch(BoundEdges(rs), 0, 1);
    LinkedTouch(BoundEdges(rs), 0, 2);
    assert SameIdentity(rs, 0, 1) && SameIdentity(rs, 0, 2);
    forall j | 0 <= j < |rs|
      ensures Linked(BoundEdges(rs), 0, j)
    {
      assert j == 0 || j == 1 || j == 2;
    }
  }

  /** Two records with different fiscal numbers are never one identity. */
  ghost predicate NumbersApart(rs: seq<Record>) {
    forall i, j ::
      0 <= i < |rs| && 0 <= j < |rs| && rs[i].fiscal != "" && rs[j].fiscal != "" && SameIdentity(rs, i, j) ==>
        rs[i].fiscal == rs[j].fiscal
  }

  /** One number for each record, its own where it has one, the same for any two that one row, number
    * or name joins. */
  ghost predicate Numbering(rs: seq<Record>, number: seq<string>) {
    && |number| == |rs| && (forall i :: 0 <= i < |rs| && rs[i].fiscal != "" ==> number[i] == rs[i].fiscal)
    && (forall i, j {:trigger number[i], number[j]} ::
          0 <= i < |rs| && 0 <= j < |rs| && (Bound(rs[i], rs[j]) || NameJoined(rs, rs[i], rs[j])) ==>
            number[i] == number[j])
  }

  /** Different fiscal numbers stay apart if and only if there is such a numbering. */
  lemma NumbersApartExactly(rs: seq<Record>)
    ensures NumbersApart(rs) <==> exists number :: Numbering(rs, number)
  {
    if number :| Numbering(rs, number) {
      forall i, j | 0 <= i < |rs| && 0 <= j < |rs| && rs[i].fiscal != "" && rs[j].fiscal != "" && SameIdentity(rs, i, j)
        ensures rs[i].fiscal == rs[j].fiscal
      {
        OneNumber(rs, number, i, j);
      }
    }
    if NumbersApart(rs) { NumbersGiven(rs); }
  }

  lemma OneNumber(rs: seq<Record>, number: seq<string>, i: int, j: int)
    requires Numbering(rs, number) && 0 <= i < |rs| && SameIdentity(rs, i, j)
    ensures 0 <= j < |rs| && number[i] == number[j]
  {
    hide NameJoined, Bound;
    var S := iset z | 0 <= z < |rs| && number[z] == number[i];
    ClosedHoldsLinked(Evidence(rs), S, i, j);
  }

  ghost predicate NumberedIn(rs: seq<Record>, i: int, j: int) {
    0 <= j < |rs| && SameIdentity(rs, i, j) && rs[j].fiscal != ""
  }

  /** A fiscal number of i's identity, or "" when none of its records has one. */
  ghost function NumberOf(rs: seq<Record>, i: int): (n: string)
    ensures n == "" <==> forall j :: !NumberedIn(rs, i, j)
    ensures n != "" ==> exists j :: NumberedIn(rs, i, j) && n == rs[j].fiscal
  {
    if exists j :: NumberedIn(rs, i, j) then
      var j :| NumberedIn(rs, i, j); rs[j].fiscal
    else ""
  }

  lemma NumbersGiven(rs: seq<Record>)
    requires NumbersApart(rs)
    ensures exists number :: Numbering(rs, number)
  {
    var number := seq(|rs|, i requires 0 <= i < |rs| => NumberOf(rs, i));
    forall i | 0 <= i < |rs| && rs[i].fiscal != ""
      ensures number[i] == rs[i].fiscal
    {
      OwnNumber(rs, i);
    }
    forall i, j {:trigger number[i], number[j]} | 0 <= i < |rs| && 0 <= j < |rs| &&
      (Bound(rs[i], rs[j]) || NameJoined(rs, rs[i], rs[j]))
      ensures number[i] == number[j]
    {
      SharedNumber(rs, i, j);
    }
    assert Numbering(rs, number);
  }

  lemma OwnNumber(rs: seq<Record>, i: int)
    requires NumbersApart(rs) && 0 <= i < |rs| && rs[i].fiscal != ""
    ensures NumberOf(rs, i) == rs[i].fiscal
  {
    LinkedSelf(Evidence(rs), i);
    hide Linked, Evidence;
    assert NumberedIn(rs, i, i);
  }

  lemma SharedNumber(rs: seq<Record>, i: int, j: int)
    requires NumbersApart(rs) && 0 <= i < |rs| && 0 <= j < |rs| && (Bound(rs[i], rs[j]) || NameJoined(rs, rs[i], rs[j]))
    ensures NumberOf(rs, i) == NumberOf(rs, j)
  {
    var E := Evidence(rs);
    assert Touch(E, i, j);
    hide Linked, Evidence, NameJoined, Bound, NumberOf;
    LinkedTouch(E, i, j);
    LinkedTouch(E, j, i);
    forall k
      ensures NumberedIn(rs, i, k) <==> NumberedIn(rs, j, k)
    {
      if Linked(E, i, k) { LinkedTrans(E, j, i, k); }
      if Linked(E, j, k) { LinkedTrans(E, i, j, k); }
    }
    if NumberOf(rs, i) != "" {
      var k :| NumberedIn(rs, i, k) && NumberOf(rs, i) == rs[k].fiscal;
      assert NumberedIn(rs, j, k);
      var l :| NumberedIn(rs, j, l) && NumberOf(rs, j) == rs[l].fiscal;
      assert NumberedIn(rs, i, l);
      LinkedSym(E, i, k);
      LinkedTrans(E, k, i, l);
    }
  }

  const TWO_NUMBERS := [Record("a", 1, "F1", "ana silva", "1984-07-12"), Record("b", 2, "", "ana silva", "1984-07-12"),
                        Record("c", 2, "F2", "rosa lima", "1990-02-01")]

  /** Two numbers in one identity: the second record, without a number, has the first one's name and the
    * third one's person row. */
  lemma TwoNumbersJoined()
    ensures SameIdentity(TWO_NUMBERS, 0, 2) && !NumbersApart(TWO_NUMBERS)
  {
    var rs := TWO_NUMBERS;
    assert NameJoined(rs, rs[0], rs[1]) && Bound(rs[1], rs[2]);
    assert Touch(Evidence(rs), 0, 1) && Touch(Evidence(rs), 1, 2);
    hide Linked, Evidence;
    LinkedTouch(Evidence(rs), 0, 1);
    LinkedTouch(Evidence(rs), 1, 2);
    LinkedTrans(Evidence(rs), 0, 1, 2);
    assert SameIdentity(rs, 0, 2) && rs[0].fiscal != rs[2].fiscal;
  }

  // ------------------------------------------------------------------ the same, field by field

  /** No two records of this name and birth date have different fiscal numbers. */
  predicate Uncontradicted(rs: seq<Record>, name: string, birth: string) {
    forall k, l ::
      && 0 <= k < |rs| && rs[k].name == name && rs[k].birth == birth && rs[k].fiscal != ""
      && 0 <= l < |rs| && rs[l].name == name && rs[l].birth == birth && rs[l].fiscal != "" ==>
        rs[k].fiscal == rs[l].fiscal
  }

  /** One name and one known birth date, which no fiscal numbers contradict. */
  predicate SameNameAndBirth(rs: seq<Record>, r: Record, s: Record) {
    r.name == s.name && r.birth == s.birth && r.birth != "" && Uncontradicted(rs, r.name, r.birth)
  }

  /** What joins two records directly: their person row, their fiscal number, or their name and birth date. */
  predicate Joins(rs: seq<Record>, i: int, j: int) {
    && 0 <= i < |rs| && 0 <= j < |rs|
    && (|| rs[i].person == rs[j].person
        || (rs[i].fiscal != "" && rs[j].fiscal != "" && rs[i].fiscal == rs[j].fiscal)
        || SameNameAndBirth(rs, rs[i], rs[j]))
  }

  ghost predicate JoinsChain(rs: seq<Record>, w: seq<int>, i: int, j: int) {
    && w != [] && w[0] == i && w[|w| - 1] == j
    && forall a, b :: 0 <= a && b == a + 1 < |w| ==> Joins(rs, w[a], w[b])
  }

  /** A chain of records joined so leads from i to j. */
  ghost predicate ChainJoins(rs: seq<Record>, i: int, j: int) {
    exists w :: JoinsChain(rs, w, i, j)
  }

  /** a is the record that k joins by name: the last with k's name and birth date that has a fiscal number,
    * or the first when none has. */
  predicate JoinedTo(rs: seq<Record>, k: int, a: int) {
    && 0 <= k < |rs| && 0 <= a < |rs| && Alike(rs, a, k)
    && (if exists l :: 0 <= l < |rs| && Alike(rs, l, k) && rs[l].fiscal != ""
        then rs[a].fiscal != "" && forall l :: a < l < |rs| && Alike(rs, l, k) ==> rs[l].fiscal == ""
        else forall l :: 0 <= l < a ==> !Alike(rs, l, k))
  }

  predicate Alike(rs: seq<Record>, a: int, k: int)
    requires 0 <= a < |rs| && 0 <= k < |rs|
  {
    rs[a].name == rs[k].name && rs[a].birth == rs[k].birth
  }

  /** Record k has no fiscal number and joins one of another person row by name and birth date. */
  ghost predicate JoinsOther(rs: seq<Record>, k: int) {
    && 0 <= k < |rs| && rs[k].fiscal == "" && rs[k].birth != "" && Uncontradicted(rs, rs[k].name, rs[k].birth)
    && exists a :: JoinedTo(rs, k, a) && rs[a].person != rs[k].person
  }

  /** The label of the identity of record i. */
  ghost predicate Labelled(rs: seq<Record>, i: int, basis: Basis)
    requires 0 <= i < |rs|
  {
    && (basis == PERSON <==> forall j :: 0 <= j < |rs| && ChainJoins(rs, i, j) ==> rs[j].person == rs[i].person)
    && (basis == NAME_BIRTH <==>
          && (exists j :: 0 <= j < |rs| && ChainJoins(rs, i, j) && rs[j].person != rs[i].person)
          && exists k :: 0 <= k < |rs| && ChainJoins(rs, i, k) && JoinsOther(rs, k))
  }

  /** Two records are one identity exactly when such a chain joins them. */
  lemma IdentityExactly(rs: seq<Record>, i: int, j: int)
    requires 0 <= i < |rs| && 0 <= j < |rs|
    ensures SameIdentity(rs, i, j) <==> ChainJoins(rs, i, j)
  {
    var E := Evidence(rs);
    forall u, v
      ensures Joins(rs, u, v) <==> Touch(E, u, v)
    {
      JoinsIsEvidence(rs, u, v);
    }
    hide Joins, Evidence, Touch;
    forall w | JoinsChain(rs, w, i, j)
      ensures WalkFromTo(E, w, i, j)
    {
      forall a: nat | a < |w| - 1
        ensures EdgeAt(E, w, a)
      {
        var b := a + 1;
        assert Joins(rs, w[a], w[b]);
      }
    }
    forall w | WalkFromTo(E, w, i, j)
      ensures JoinsChain(rs, w, i, j)
    {
      forall a, b | 0 <= a && b == a + 1 < |w|
        ensures Joins(rs, w[a], w[b])
      {
        assert EdgeAt(E, w, a);
      }
    }
  }

  lemma AdmittedIs(rs: seq<Record>, key: Key)
    requires key.1 != ""
    ensures Admitted(rs, key) <==> Uncontradicted(rs, key.0, key.1)
  {
    forall i | 0 <= i < |rs|
      ensures Numbered(rs[i], key) <==> rs[i].name == key.0 && rs[i].birth == key.1 && rs[i].fiscal != ""
    {}
  }

  lemma JoinsIsEvidence(rs: seq<Record>, u: int, v: int)
    ensures Joins(rs, u, v) <==> Touch(Evidence(rs), u, v)
  {
    if 0 <= u < |rs| && 0 <= v < |rs| {
      if rs[u].birth != "" { AdmittedIs(rs, (rs[u].name, rs[u].birth)); }
      if rs[v].birth != "" { AdmittedIs(rs, (rs[v].name, rs[v].birth)); }
      hide Admitted, Uncontradicted;
    }
  }

  /** The anchor of a class is the record the others join. */
  lemma {:induction false} AnchorIsJoined(rs: seq<Record>, k: int)
    requires JoinsByName(rs, k)
    ensures forall a :: JoinedTo(rs, k, a) <==> a == AnchorAt(rs, k)
  {
    var key := KeyOf(rs[k]);
    var ms := ClassOf(rs, key, |rs|);
    hide Admitted;
    forall m | 0 <= m < |rs|
      ensures m in ms <==> Alike(rs, m, k)
    {}
    ClassRises(rs, key, |rs|);
    LastFiscalLatest(rs, ms);
    hide ClassOf, LastFiscal;
    assert k in ms;
    var a := Anchor(rs, ms);
    FirstLeast(ms);
    assert JoinedTo(rs, k, a);
  }

  lemma {:induction false} ClassRises(rs: seq<Record>, key: Key, n: nat)
    requires n <= |rs|
    ensures forall x, y :: 0 <= x < y < |ClassOf(rs, key, n)| ==> ClassOf(rs, key, n)[x] < ClassOf(rs, key, n)[y]
  {
    if n > 0 {
      ClassRises(rs, key, n - 1);
      var ms := ClassOf(rs, key, n - 1);
      forall x | 0 <= x < |ms| ensures ms[x] < n - 1 { assert ms[x] in ms; }
    }
  }

  lemma FirstLeast(ms: seq<int>)
    requires ms != [] && forall x, y :: 0 <= x < y < |ms| ==> ms[x] < ms[y]
    ensures forall m :: m in ms ==> ms[0] <= m
  {}

  lemma {:induction false} LastFiscalLatest(rs: seq<Record>, ms: seq<int>)
    requires Within(rs, ms) && forall x, y :: 0 <= x < y < |ms| ==> ms[x] < ms[y]
    ensures var a := LastFiscal(rs, ms);
      a != -1 ==> forall m :: m in ms && m > a ==> rs[m].fiscal == ""
  {
    if ms != [] {
      var n := |ms| - 1;
      LastFiscalLatest(rs, ms[..n]);
      forall m | m in ms ensures m == ms[n] || m in ms[..n] {
        var x :| 0 <= x < |ms| && ms[x] == m;
        assert x < n ==> ms[..n][x] == m;
      }
      forall m | m in ms ensures m <= ms[n] {}
    }
  }

  lemma JoinsOtherIs(rs: seq<Record>, k: int)
    ensures NameAlone(rs, k) <==> JoinsOther(rs, k)
  {
    hide Admitted, Uncontradicted, AnchorAt, JoinedTo;
    if 0 <= k < |rs| && rs[k].birth != "" {
      AdmittedIs(rs, KeyOf(rs[k]));
      if JoinsByName(rs, k) { AnchorIsJoined(rs, k); }
    }
  }

  /** The labels, field by field. */
  lemma LabelExactly(rs: seq<Record>, i: int)
    requires 0 <= i < |rs|
    ensures Labelled(rs, i, BasisOf(rs, i))
  {
    hide SameIdentity, ChainJoins, NameAlone, JoinsOther;
    forall j | 0 <= j < |rs|
      ensures SameIdentity(rs, i, j) <==> ChainJoins(rs, i, j)
      ensures NameAlone(rs, j) <==> JoinsOther(rs, j)
    {
      IdentityExactly(rs, i, j);
      JoinsOtherIs(rs, j);
    }
    forall k | NameAlone(rs, k) ensures 0 <= k < |rs| { AloneInRange(rs, k); }
  }

  lemma AloneInRange(rs: seq<Record>, k: int)
    requires NameAlone(rs, k)
    ensures 0 <= k < |rs|
  {}

  // ------------------------------------------------------------------------------ the algorithm

  /** One union, with the edge it stands for. */
  method Join(uf: UnionFind<int>, ghost U: set<(int, int)>, a: int, b: int) returns (ghost V: set<(int, int)>)
    requires uf.Valid() && Classes(uf.Snapshot(), U)
    modifies uf
    ensures uf.Valid() && V == U + {(a, b)} && Classes(uf.Snapshot(), V)
  {
    hide Parents.Valid, Parents.Rep, Classes, Merges;
    ghost var before := uf.Snapshot();
    uf.Union(a, b);
    UnionLinks(before, uf.Snapshot(), U, a, b);
    V := U + {(a, b)};
  }

  /** first holds, for each value of the records before n, the first record with it, and every record
    * of that value is that one or linked to it. */
  ghost predicate Stars<T(!new)>(rs: seq<Record>, n: nat, value: Record -> T, first: map<T, int>, U: set<(int, int)>,
                                 blank: T -> bool)
    requires n <= |rs|
  {
    && (forall t :: t in first ==> 0 <= first[t] < n && value(rs[first[t]]) == t && !blank(t))
    && (forall i :: 0 <= i < n && !blank(value(rs[i])) ==>
         value(rs[i]) in first && (i == first[value(rs[i])] || (first[value(rs[i])], i) in U))
  }

  function PersonOf(r: Record): int { r.person }
  function FiscalOf(r: Record): string { r.fiscal }
  predicate NoPerson(p: int) { false }
  predicate NoFiscal(f: string) { f == "" }

  /** The records of each person row, then of each fiscal number, are put together. */
  method JoinShared(rs: seq<Record>, uf: UnionFind<int>) returns (ghost U: set<(int, int)>)
    requires uf.Valid() && Classes(uf.Snapshot(), {})
    modifies uf
    ensures uf.Valid() && Classes(uf.Snapshot(), U) && Shared(rs, |rs|, U)
  {
    hide Parents.Valid, Parents.Rep, Classes;
    hide BoundEdges, Stars;
    U := {};
    var byPerson, byFiscal := map[], map[];
    NoStars(rs);
    for i := 0 to |rs|
      invariant uf.Valid() && Classes(uf.Snapshot(), U) && U <= BoundEdges(rs)
      invariant Stars(rs, i, PersonOf, byPerson, U, NoPerson) && Stars(rs, i, FiscalOf, byFiscal, U, NoFiscal)
    {
      var r := rs[i];
      ghost var before := U;
      if r.person in byPerson {
        StarsBound(rs, i, byPerson, byFiscal, U);
        U := Join(uf, U, byPerson[r.person], i);
        StarsNext(rs, i, PersonOf, byPerson, before, U, NoPerson);
      } else {
        StarsFirst(rs, i, PersonOf, byPerson, U, NoPerson);
        byPerson := byPerson[r.person := i];
      }
      StarsMore(rs, i, FiscalOf, byFiscal, before, U, NoFiscal);
      before := U;
      if r.fiscal != "" {
        if r.fiscal in byFiscal {
          StarsBound(rs, i, map[], byFiscal, U);
          U := Join(uf, U, byFiscal[r.fiscal], i);
          StarsNext(rs, i, FiscalOf, byFiscal, before, U, NoFiscal);
        } else {
          StarsFirst(rs, i, FiscalOf, byFiscal, U, NoFiscal);
          byFiscal := byFiscal[r.fiscal := i];
        }
      } else {
        StarsSkip(rs, i, FiscalOf, byFiscal, U, NoFiscal);
      }
      StarsMore(rs, i + 1, PersonOf, byPerson, before, U, NoPerson);
    }
    StarsLink(rs, byPerson, byFiscal, U);
  }

  lemma NoStars(rs: seq<Record>)
    ensures Stars(rs, 0, PersonOf, map[], {}, NoPerson) && Stars(rs, 0, FiscalOf, map[], {}, NoFiscal)
  {}

  lemma StarsBound(rs: seq<Record>, i: nat, byPerson: map<int, int>, byFiscal: map<string, int>, U: set<(int, int)>)
    requires i < |rs| && (byPerson == map[] || Stars(rs, i, PersonOf, byPerson, U, NoPerson))
    requires Stars(rs, i, FiscalOf, byFiscal, U, NoFiscal)
    ensures rs[i].person in byPerson ==> (byPerson[rs[i].person], i) in BoundEdges(rs)
    ensures rs[i].fiscal in byFiscal ==> (byFiscal[rs[i].fiscal], i) in BoundEdges(rs)
  {}

  lemma StarsFirst<T(!new)>(rs: seq<Record>, i: nat, value: Record -> T, first: map<T, int>, U: set<(int, int)>,
                            blank: T -> bool)
    requires i < |rs| && Stars(rs, i, value, first, U, blank) && !blank(value(rs[i])) && value(rs[i]) !in first
    ensures Stars(rs, i + 1, value, first[value(rs[i]) := i], U, blank)
  {}

  lemma StarsNext<T(!new)>(rs: seq<Record>, i: nat, value: Record -> T, first: map<T, int>, U: set<(int, int)>,
                           V: set<(int, int)>, blank: T -> bool)
    requires i < |rs| && Stars(rs, i, value, first, U, blank) && value(rs[i]) in first
    requires U <= V && (first[value(rs[i])], i) in V
    ensures Stars(rs, i + 1, value, first, V, blank)
  {}

  lemma StarsSkip<T(!new)>(rs: seq<Record>, i: nat, value: Record -> T, first: map<T, int>, U: set<(int, int)>,
                           blank: T -> bool)
    requires i < |rs| && Stars(rs, i, value, first, U, blank) && blank(value(rs[i]))
    ensures Stars(rs, i + 1, value, first, U, blank)
  {}

  lemma StarsMore<T(!new)>(rs: seq<Record>, n: nat, value: Record -> T, first: map<T, int>, U: set<(int, int)>,
                           V: set<(int, int)>, blank: T -> bool)
    requires n <= |rs| && U <= V && Stars(rs, n, value, first, U, blank)
    ensures Stars(rs, n, value, first, V, blank)
  {}

  lemma StarsLink(rs: seq<Record>, byPerson: map<int, int>, byFiscal: map<string, int>, U: set<(int, int)>)
    requires U <= BoundEdges(rs)
    requires Stars(rs, |rs|, PersonOf, byPerson, U, NoPerson) && Stars(rs, |rs|, FiscalOf, byFiscal, U, NoFiscal)
    ensures Shared(rs, |rs|, U)
  {
    hide Linked, BoundEdges;
    forall i, j | 0 <= i < |rs| && 0 <= j < |rs| && Bound(rs[i], rs[j])
      ensures Linked(U, i, j)
    {
      if rs[i].person == rs[j].person {
        Spoke(U, byPerson[rs[i].person], i, j);
      } else {
        Spoke(U, byFiscal[rs[i].fiscal], i, j);
      }
    }
  }

  lemma Spoke(U: set<(int, int)>, hub: int, i: int, j: int)
    requires (i == hub || (hub, i) in U) && (j == hub || (hub, j) in U)
    ensures Linked(U, i, j)
  {
    hide Linked;
    LinkedSelf(U, hub);
    if i != hub { LinkedTouch(U, i, hub); }
    if j != hub { LinkedTouch(U, hub, j); }
    LinkedTrans(U, i, hub, j);
  }

  /** The records of each name and birth date. */
  method GroupByName(rs: seq<Record>) returns (byName: map<Key, seq<int>>)
    ensures forall key :: key in byName <==> ClassOf(rs, key, |rs|) != []
    ensures forall key {:trigger byName[key]} :: key in byName ==> byName[key] == ClassOf(rs, key, |rs|)
  {
    hide ClassOf;
    byName := map[];
    NoClass(rs);
    for i := 0 to |rs|
      invariant forall key :: key in byName <==> ClassOf(rs, key, i) != []
      invariant forall key {:trigger byName[key]} :: key in byName ==> byName[key] == ClassOf(rs, key, i)
    {
      forall key
        ensures ClassOf(rs, key, i + 1) == ClassOf(rs, key, i) + if InClass(rs[i], key) then [i] else []
      {
        ClassStep(rs, key, i);
      }
      if rs[i].birth != "" {
        var key := KeyOf(rs[i]);
        byName := byName[key := (if key in byName then byName[key] else []) + [i]];
      }
    }
  }

  lemma NoClass(rs: seq<Record>)
    ensures forall key :: ClassOf(rs, key, 0) == []
  {}

  lemma ClassStep(rs: seq<Record>, key: Key, i: nat)
    requires i < |rs|
    ensures ClassOf(rs, key, i + 1) == ClassOf(rs, key, i) + if InClass(rs[i], key) then [i] else []
  {}

  /** A class's fiscal numbers, each with its last record, and its records without one. */
  method SplitClass(rs: seq<Record>, members: seq<int>) returns (fiscals: map<string, int>, without: seq<int>)
    requires Within(rs, members)
    ensures without == Without(rs, members)
    ensures forall f :: f in fiscals <==> HasFiscal(rs, members, f)
    ensures LastFiscal(rs, members) != -1 ==>
              var last := LastFiscal(rs, members); rs[last].fiscal in fiscals && fiscals[rs[last].fiscal] == last
  {
    hide HasFiscal, LastFiscal, Without;
    fiscals, without := map[], [];
    NoMembers(rs);
    assert members[..0] == [];
    for n := 0 to |members|
      invariant without == Without(rs, members[..n])
      invariant forall f :: f in fiscals <==> HasFiscal(rs, members[..n], f)
      invariant LastFiscal(rs, members[..n]) != -1 ==>
                  var last := LastFiscal(rs, members[..n]);
                  rs[last].fiscal in fiscals && fiscals[rs[last].fiscal] == last
    {
      assert members[..n + 1] == members[..n] + [members[n]];
      var i := members[n];
      NextMember(rs, members[..n], i);
      if rs[i].fiscal != "" {
        fiscals := fiscals[rs[i].fiscal := i];
      } else {
        without := without + [i];
      }
    }
    assert members[..|members|] == members;
  }

  /** Some record of ms has fiscal number f. */
  ghost predicate HasFiscal(rs: seq<Record>, ms: seq<int>, f: string)
    requires Within(rs, ms)
  {
    f != "" && exists k :: 0 <= k < |ms| && rs[ms[k]].fiscal == f
  }

  lemma NoMembers(rs: seq<Record>)
    ensures Without(rs, []) == [] && LastFiscal(rs, []) == -1 && forall f :: !HasFiscal(rs, [], f)
  {}

  lemma NextMember(rs: seq<Record>, ms: seq<int>, i: int)
    requires Within(rs, ms) && 0 <= i < |rs|
    ensures Within(rs, ms + [i])
    ensures Without(rs, ms + [i]) == Without(rs, ms) + if rs[i].fiscal == "" then [i] else []
    ensures LastFiscal(rs, ms + [i]) == if rs[i].fiscal != "" then i else LastFiscal(rs, ms)
    ensures LastFiscal(rs, ms) != -1 ==> 0 <= LastFiscal(rs, ms) < |rs| && rs[LastFiscal(rs, ms)].fiscal != ""
    ensures forall f :: HasFiscal(rs, ms + [i], f) <==> HasFiscal(rs, ms, f) || (f == rs[i].fiscal && f != "")
  {
    var more := ms + [i];
    assert more[..|ms|] == ms && more[|ms|] == i;
    forall f
      ensures HasFiscal(rs, more, f) <==> HasFiscal(rs, ms, f) || (f == rs[i].fiscal && f != "")
    {
      if HasFiscal(rs, ms, f) {
        var k :| 0 <= k < |ms| && rs[ms[k]].fiscal == f;
        assert more[k] == ms[k];
      }
    }
  }

  /** A class is admitted when it has at most one fiscal number. */
  lemma AdmittedIfFew(rs: seq<Record>, key: Key, fiscals: map<string, int>)
    requires forall f :: f in fiscals <==> HasFiscal(rs, ClassOf(rs, key, |rs|), f)
    ensures |fiscals| <= 1 <==> Admitted(rs, key)
  {
    var ms := ClassOf(rs, key, |rs|);
    forall i | 0 <= i < |rs| && InClass(rs[i], key) && rs[i].fiscal != ""
      ensures rs[i].fiscal in fiscals
    {
      assert i in ms;
      var k :| 0 <= k < |ms| && ms[k] == i;
      assert HasFiscal(rs, ms, rs[i].fiscal);
    }
    if |fiscals| <= 1 {
      forall f, g | f in fiscals && g in fiscals
        ensures f == g
      {
        OnlyOne(fiscals.Keys, f, g);
      }
    } else {
      var f, g := TwoOf(fiscals.Keys);
      assert HasFiscal(rs, ms, f) && HasFiscal(rs, ms, g);
      var j :| 0 <= j < |ms| && rs[ms[j]].fiscal == f;
      var k :| 0 <= k < |ms| && rs[ms[k]].fiscal == g;
      assert ms[j] in ms && ms[k] in ms;
    }
  }

  lemma OnlyOne(s: set<string>, f: string, g: string)
    requires |s| <= 1 && f in s && g in s
    ensures f == g
  {
    assert |s - {f}| == |s| - 1;
    assert s - {f} == {};
    assert g !in s - {f};
  }

  lemma TwoOf(s: set<string>) returns (f: string, g: string)
    requires |s| > 1
    ensures f in s && g in s && f != g
  {
    f := Any(s);
    assert |s - {f}| == |s| - 1;
    g := Any(s - {f});
  }

  lemma Any(s: set<string>) returns (f: string)
    requires s != {}
    ensures f in s
  {
    f :| f in s;
  }

  /** The name edges of the records whose class has been seen. */
  ghost function NameEdgesOf(rs: seq<Record>, keys: set<Key>): set<(int, int)> {
    set i | 0 <= i < |rs| && JoinsByName(rs, i) && KeyOf(rs[i]) in keys :: (AnchorAt(rs, i), i)
  }

  ghost function AloneOf(rs: seq<Record>, keys: set<Key>): set<int> {
    set i | 0 <= i < |rs| && NameAlone(rs, i) && KeyOf(rs[i]) in keys
  }

  ghost function EdgesAmong(rs: seq<Record>, key: Key, ws: seq<int>): set<(int, int)> {
    set i | 0 <= i < |rs| && i in ws && JoinsByName(rs, i) && KeyOf(rs[i]) == key :: (AnchorAt(rs, i), i)
  }

  ghost function AloneAmong(rs: seq<Record>, key: Key, ws: seq<int>): set<int> {
    set i | 0 <= i < |rs| && i in ws && NameAlone(rs, i) && KeyOf(rs[i]) == key
  }

  /** What a class adds: an edge from its anchor to each of its records without a fiscal number. */
  ghost predicate ClassAdds(rs: seq<Record>, key: Key, ws: seq<int>, edges: set<(int, int)>, alone: set<int>) {
    edges == EdgesAmong(rs, key, ws) && alone == AloneAmong(rs, key, ws)
  }

  lemma HasKey(keys: set<Key>)
    requires keys != {}
    ensures exists key :: key in keys
  {
    if forall key: Key :: key !in keys { assert false; }
  }

  /** The classes, taken in any order. */
  method JoinByName(rs: seq<Record>, uf: UnionFind<int>, ghost U: set<(int, int)>)
    returns (joinedByName: set<int>, ghost V: set<(int, int)>)
    requires uf.Valid() && Classes(uf.Snapshot(), U)
    modifies uf
    ensures uf.Valid() && V == U + NameEdges(rs) && Classes(uf.Snapshot(), V)
    ensures forall i :: i in joinedByName <==> NameAlone(rs, i)
  {
    hide Parents.Valid, Parents.Rep, Classes, ClassOf, JoinsByName, NameEdgesOf, AloneOf, NameAlone, ClassAdds;
    var byName := GroupByName(rs);
    var keys := byName.Keys;
    joinedByName, V := {}, U;
    NoneSeen(rs);
    assert byName.Keys - keys == {};
    while keys != {}
      invariant keys <= byName.Keys && uf.Valid() && Classes(uf.Snapshot(), V)
      invariant V == U + NameEdgesOf(rs, byName.Keys - keys) && joinedByName == AloneOf(rs, byName.Keys - keys)
    {
      HasKey(keys);
      var key :| key in keys;
      ghost var seen := byName.Keys - keys;
      keys := keys - {key};
      assert byName.Keys - keys == seen + {key};
      ghost var edges;
      ghost var alone;
      ghost var before := joinedByName;
      joinedByName, V, edges, alone := JoinClass(rs, uf, V, key, byName[key], joinedByName);
      ClassSeen(rs, seen, key, edges, alone);
    }
    assert byName.Keys - {} == byName.Keys;
    AllSeen(rs, byName.Keys);
  }

  lemma NoneSeen(rs: seq<Record>)
    ensures NameEdgesOf(rs, {}) == {} && AloneOf(rs, {}) == {}
  {
    hide JoinsByName, NameAlone;
  }

  lemma ClassSeen(rs: seq<Record>, seen: set<Key>, key: Key, edges: set<(int, int)>, alone: set<int>)
    requires ClassAdds(rs, key, Without(rs, ClassOf(rs, key, |rs|)), edges, alone)
    ensures NameEdgesOf(rs, seen + {key}) == NameEdgesOf(rs, seen) + edges
    ensures AloneOf(rs, seen + {key}) == AloneOf(rs, seen) + alone
  {
    forall i | 0 <= i < |rs| && JoinsByName(rs, i) && KeyOf(rs[i]) == key
      ensures i in Without(rs, ClassOf(rs, key, |rs|))
    {}
    hide JoinsByName, Without, ClassOf, AnchorAt;
  }

  lemma AllSeen(rs: seq<Record>, keys: set<Key>)
    requires forall key :: key in keys <==> ClassOf(rs, key, |rs|) != []
    ensures NameEdgesOf(rs, keys) == NameEdges(rs)
    ensures forall i :: i in AloneOf(rs, keys) <==> NameAlone(rs, i)
  {
    forall i | 0 <= i < |rs| && JoinsByName(rs, i)
      ensures KeyOf(rs[i]) in keys
    {
      assert i in ClassOf(rs, KeyOf(rs[i]), |rs|);
    }
    hide Admitted, ClassOf, AnchorAt;
  }

  /** One class: nothing when its fiscal numbers contradict each other, or say all there is. */
  method JoinClass(rs: seq<Record>, uf: UnionFind<int>, ghost U: set<(int, int)>, key: Key, members: seq<int>,
                   before: set<int>)
    returns (joinedByName: set<int>, ghost V: set<(int, int)>, ghost edges: set<(int, int)>, ghost alone: set<int>)
    requires uf.Valid() && Classes(uf.Snapshot(), U) && members == ClassOf(rs, key, |rs|)
    modifies uf
    ensures uf.Valid() && V == U + edges && Classes(uf.Snapshot(), V) && joinedByName == before + alone
    ensures ClassAdds(rs, key, Without(rs, ClassOf(rs, key, |rs|)), edges, alone)
  {
    hide Parents.Valid, Parents.Rep, Classes, ClassOf, Without, ClassAdds, LastFiscal, Admitted;
    hide HasFiscal, JoinsByName, NameAlone, Anchor, AnchorAt;
    joinedByName, V, edges, alone := before, U, {}, {};
    var fiscals, without := SplitClass(rs, members);
    AdmittedIfFew(rs, key, fiscals);
    NothingAdded(rs, key, without);
    if |fiscals| > 1 || |without| == 0 { return; }
    var anchor := PickAnchor(rs, members, fiscals, without);
    assert without[..0] == [];
    for n := 0 to |without|
      invariant uf.Valid() && V == U + edges && Classes(uf.Snapshot(), V) && joinedByName == before + alone
      invariant ClassAdds(rs, key, without[..n], edges, alone)
    {
      var i := without[n];
      TakeNext(without, n);
      AnchorOfMember(rs, key, i);
      NextAdded(rs, key, without[..n], edges, alone, i);
      if rs[i].person != rs[anchor].person {
        joinedByName, alone := joinedByName + {i}, alone + {i};
      }
      V := Join(uf, V, anchor, i);
      edges := edges + {(anchor, i)};
    }
    assert without[..|without|] == without;
  }

  lemma TakeNext(s: seq<int>, n: nat)
    requires n < |s|
    ensures s[n] in s && s[..n + 1] == s[..n] + [s[n]]
  {}

  lemma NothingAdded(rs: seq<Record>, key: Key, without: seq<int>)
    ensures ClassAdds(rs, key, [], {}, {})
    ensures !Admitted(rs, key) ==> ClassAdds(rs, key, without, {}, {})
  {
    hide Admitted, AnchorAt;
  }

  lemma AnchorOfMember(rs: seq<Record>, key: Key, i: int)
    requires i in Without(rs, ClassOf(rs, key, |rs|)) && Admitted(rs, key)
    ensures JoinsByName(rs, i) && KeyOf(rs[i]) == key && ClassOf(rs, key, |rs|) != []
    ensures AnchorAt(rs, i) == Anchor(rs, ClassOf(rs, key, |rs|))
    ensures NameAlone(rs, i) <==> rs[i].person != rs[AnchorAt(rs, i)].person
  {
    hide Admitted, Anchor;
  }

  lemma NextAdded(rs: seq<Record>, key: Key, ws: seq<int>, edges: set<(int, int)>, alone: set<int>, i: int)
    requires ClassAdds(rs, key, ws, edges, alone) && JoinsByName(rs, i) && KeyOf(rs[i]) == key
    ensures ClassAdds(rs, key, ws + [i], edges + {(AnchorAt(rs, i), i)},
                      if NameAlone(rs, i) then alone + {i} else alone)
  {
    assert 0 <= i < |rs|;
    hide JoinsByName, AnchorAt;
    assert forall m :: m in ws + [i] <==> m in ws || m == i;
    assert EdgesAmong(rs, key, ws + [i]) == EdgesAmong(rs, key, ws) + {(AnchorAt(rs, i), i)};
    hide NameAlone;
    assert NameAlone(rs, i) ==> AloneAmong(rs, key, ws + [i]) == AloneAmong(rs, key, ws) + {i};
    assert !NameAlone(rs, i) ==> AloneAmong(rs, key, ws + [i]) == AloneAmong(rs, key, ws);
  }

  /** The record with the class's one fiscal number, if any; otherwise its first record. */
  method PickAnchor(rs: seq<Record>, members: seq<int>, fiscals: map<string, int>, without: seq<int>)
    returns (anchor: int)
    requires Within(rs, members) && without == Without(rs, members) && without != [] && |fiscals| <= 1
    requires forall f :: f in fiscals <==> HasFiscal(rs, members, f)
    requires LastFiscal(rs, members) != -1 ==>
               var last := LastFiscal(rs, members); rs[last].fiscal in fiscals && fiscals[rs[last].fiscal] == last
    ensures members != [] && anchor == Anchor(rs, members)
  {
    FirstWithout(rs, members);
    anchor := without[0];
    var keys := fiscals.Keys;
    while keys != {}
      invariant keys <= fiscals.Keys
      invariant anchor == if keys == fiscals.Keys then without[0] else LastFiscal(rs, members)
    {
      HasText(keys);
      var f :| f in keys;
      assert HasFiscal(rs, members, f);
      OnlyOne(fiscals.Keys, f, rs[LastFiscal(rs, members)].fiscal);
      anchor := fiscals[f];
      keys := keys - {f};
    }
    if LastFiscal(rs, members) != -1 { assert fiscals.Keys != {}; }
  }

  lemma HasText(keys: set<string>)
    requires keys != {}
    ensures exists key :: key in keys
  {
    if forall key: string :: key !in keys { assert false; }
  }

  lemma {:induction false} FirstWithout(rs: seq<Record>, ms: seq<int>)
    requires Within(rs, ms) && Without(rs, ms) != []
    ensures ms != [] && (LastFiscal(rs, ms) == -1 ==> Without(rs, ms)[0] == ms[0])
  {
    if |ms| > 1 && LastFiscal(rs, ms) == -1 {
      var rest := ms[..|ms| - 1];
      assert rs[rest[0]].fiscal == "" && rest[0] in rest;
      assert rest[0] in Without(rs, rest);
      FirstWithout(rs, rest);
    }
  }

  ghost predicate DistinctFeatures(rs: seq<Record>) {
    forall i, j :: 0 <= i < j < |rs| ==> rs[i].featureID != rs[j].featureID
  }

  /** Two records are in one group exactly when a chain of evidence links them, whatever order the maps
    * are taken in; each group has one label, and it says what binds the group. */
  method IdentityGroups(rs: seq<Record>) returns (groupOf: map<string, int>, basis: map<int, Basis>)
    requires DistinctFeatures(rs)
    ensures forall i {:trigger rs[i]} :: 0 <= i < |rs| ==>
      rs[i].featureID in groupOf && groupOf[rs[i].featureID] in basis
    ensures forall i, j :: 0 <= i < |rs| && 0 <= j < |rs| ==>
              (groupOf[rs[i].featureID] == groupOf[rs[j].featureID] <==> SameIdentity(rs, i, j))
    ensures forall i {:trigger rs[i]} :: 0 <= i < |rs| ==> basis[groupOf[rs[i].featureID]] == BasisOf(rs, i)
    ensures forall i, j :: 0 <= i < |rs| && 0 <= j < |rs| ==>
              (groupOf[rs[i].featureID] == groupOf[rs[j].featureID] <==> ChainJoins(rs, i, j))
    ensures forall i {:trigger rs[i]} :: 0 <= i < |rs| ==> Labelled(rs, i, basis[groupOf[rs[i].featureID]])
    ensures forall g :: g in basis ==> exists i :: 0 <= i < |rs| && groupOf[rs[i].featureID] == g
    ensures forall i, j :: 0 <= i < |rs| && 0 <= j < |rs| && SameIdentity(rs, i, j) && BasisOf(rs, i) != NAME_BIRTH ==>
      Linked(BoundEdges(rs), i, j)
  {
    hide Parents.Valid, Parents.Rep, Classes, Shared, NameEdges, BoundEdges, Evidence, BasisOf, NameAlone, SameIdentity,
      ChainJoins, Labelled;
    var uf := new UnionFind<int>();
    ghost var U := JoinShared(rs, uf);
    forall i, j | 0 <= i < |rs| && 0 <= j < |rs| && SameIdentity(rs, i, j) && BasisOf(rs, i) != NAME_BIRTH
      ensures Linked(BoundEdges(rs), i, j)
    {
      BoundWithoutNames(rs, U, i, j);
    }
    ghost var V;
    var joinedByName;
    joinedByName, V := JoinByName(rs, uf, U);
    ghost var f := uf.Snapshot();
    var persons, byNameOnly;
    ghost var roots;
    groupOf, persons, byNameOnly, roots := Collect(rs, uf, joinedByName);
    forall i, j | 0 <= i < |rs| && 0 <= j < |rs|
      ensures roots[i] == roots[j] <==> SameIdentity(rs, i, j)
      ensures roots[i] == roots[j] <==> ChainJoins(rs, i, j)
    {
      RootsLink(rs, f, U, V, i, j);
      IdentityExactly(rs, i, j);
    }
    basis := Label(persons, byNameOnly);
    forall i {:trigger rs[i]} | 0 <= i < |rs|
      ensures roots[i] in basis && basis[roots[i]] == BasisOf(rs, i) && Labelled(rs, i, basis[roots[i]])
    {
      LabelExactly(rs, i);
      LabelRight(rs, roots, persons, byNameOnly, joinedByName, i);
    }
  }

  lemma RootsLink(rs: seq<Record>, f: Parents<int>, U: set<(int, int)>, V: set<(int, int)>, i: int, j: int)
    requires Classes(f, V) && V == U + NameEdges(rs) && Shared(rs, |rs|, U)
    ensures f.Rep(i) == f.Rep(j) <==> SameIdentity(rs, i, j)
  {
    hide Linked, NameEdges, Evidence, Shared, Parents.Valid, Parents.Rep;
    UnionsAreEvidence(rs, U, i, j);
  }

  /** people and named say, of each group, its person rows and whether a name put a record in it. */
  ghost predicate Collected(rs: seq<Record>, roots: seq<int>, n: nat, joined: set<int>, persons: map<int, set<int>>,
                            named: set<int>)
    requires n <= |roots| && n <= |rs|
  {
    && (forall g :: g in persons <==> exists i :: 0 <= i < n && roots[i] == g)
    && (forall g, p :: g in persons ==>
         (p in persons[g] <==> exists i :: 0 <= i < n && roots[i] == g && rs[i].person == p))
    && (forall g :: g in named <==> exists i :: 0 <= i < n && roots[i] == g && i in joined)
  }

  method Collect(rs: seq<Record>, uf: UnionFind<int>, joined: set<int>)
    returns (groupOf: map<string, int>, persons: map<int, set<int>>, named: set<int>, ghost roots: seq<int>)
    requires uf.Valid() && DistinctFeatures(rs)
    modifies uf
    ensures |roots| == |rs| && forall i :: 0 <= i < |rs| ==> roots[i] == old(uf.Snapshot()).Rep(i)
    ensures forall i {:trigger rs[i]} :: 0 <= i < |rs| ==>
      rs[i].featureID in groupOf && groupOf[rs[i].featureID] == roots[i]
    ensures Collected(rs, roots, |rs|, joined, persons, named)
  {
    hide Parents.Valid, Parents.Rep, Collected, SameReps;
    ghost var f := uf.Snapshot();
    groupOf, persons, named, roots := map[], map[], {}, [];
    NoneCollected(rs, joined);
    SameAgain(f);
    for i := 0 to |rs|
      invariant uf.Valid() && SameReps(f, uf.Snapshot())
      invariant |roots| == i && forall k :: 0 <= k < i ==> roots[k] == f.Rep(k)
      invariant forall k {:trigger rs[k]} :: 0 <= k < i ==>
        rs[k].featureID in groupOf && groupOf[rs[k].featureID] == roots[k]
      invariant Collected(rs, roots, i, joined, persons, named)
    {
      ghost var before := uf.Snapshot();
      var g := uf.Find(i);
      SameRep(f, before, i);
      SameRepsTrans(f, before, uf.Snapshot());
      CollectNext(rs, roots, i, joined, persons, named, g);
      groupOf := groupOf[rs[i].featureID := g];
      persons := persons[g := (if g in persons then persons[g] else {}) + {rs[i].person}];
      named := if i in joined then named + {g} else named;
      roots := roots + [g];
    }
  }

  lemma SameAgain(f: Parents<int>)
    requires f.Valid()
    ensures SameReps(f, f)
  {}

  lemma NoneCollected(rs: seq<Record>, joined: set<int>)
    ensures Collected(rs, [], 0, joined, map[], {})
  {}

  lemma CollectNext(rs: seq<Record>, roots: seq<int>, i: nat, joined: set<int>, persons: map<int, set<int>>,
                    named: set<int>, g: int)
    requires |roots| == i < |rs| && Collected(rs, roots, i, joined, persons, named)
    ensures Collected(rs, roots + [g], i + 1, joined,
                      persons[g := (if g in persons then persons[g] else {}) + {rs[i].person}],
                      if i in joined then named + {g} else named)
  {
    var more := roots + [g];
    assert more[i] == g && forall k :: 0 <= k < i ==> more[k] == roots[k];
  }

  method Label(persons: map<int, set<int>>, named: set<int>) returns (basis: map<int, Basis>)
    ensures basis.Keys == persons.Keys
    ensures forall g {:trigger basis[g]} :: g in basis ==>
      basis[g] == if |persons[g]| == 1 then PERSON else if g in named then NAME_BIRTH else FISCAL
  {
    basis := map[];
    var groups := persons.Keys;
    while groups != {}
      invariant groups <= persons.Keys && basis.Keys == persons.Keys - groups
      invariant forall g {:trigger basis[g]} :: g in basis ==>
        basis[g] == if |persons[g]| == 1 then PERSON else if g in named then NAME_BIRTH else FISCAL
    {
      HasNumber(groups);
      var g :| g in groups;
      groups := groups - {g};
      basis := basis[g := if |persons[g]| == 1 then PERSON else if g in named then NAME_BIRTH else FISCAL];
    }
  }

  lemma HasNumber(groups: set<int>)
    requires groups != {}
    ensures exists g :: g in groups
  {
    if forall g: int :: g !in groups { assert false; }
  }

  lemma LabelRight(rs: seq<Record>, roots: seq<int>, persons: map<int, set<int>>, named: set<int>, joined: set<int>,
                   i: nat)
    requires |roots| == |rs| && i < |rs| && Collected(rs, roots, |rs|, joined, persons, named)
    requires forall j, k :: 0 <= j < |rs| && 0 <= k < |rs| ==> (roots[j] == roots[k] <==> SameIdentity(rs, j, k))
    requires forall j :: j in joined <==> NameAlone(rs, j)
    ensures roots[i] in persons
    ensures BasisOf(rs, i) ==
            if |persons[roots[i]]| == 1 then PERSON else if roots[i] in named then NAME_BIRTH else FISCAL
  {
    OneRow(rs, roots, persons, named, joined, i);
    NamedExactly(rs, roots, persons, named, joined, i);
    hide SameIdentity, OnePerson, Collected, NameAlone;
  }

  lemma OneRow(rs: seq<Record>, roots: seq<int>, persons: map<int, set<int>>, named: set<int>, joined: set<int>, i: nat)
    requires |roots| == |rs| && i < |rs| && Collected(rs, roots, |rs|, joined, persons, named)
    requires forall j, k :: 0 <= j < |rs| && 0 <= k < |rs| ==> (roots[j] == roots[k] <==> SameIdentity(rs, j, k))
    ensures roots[i] in persons && (|persons[roots[i]]| == 1 <==> OnePerson(rs, i))
  {
    hide SameIdentity, Collected;
    PersonsOf(rs, roots, persons, named, joined, i);
    var people := persons[roots[i]];
    if |people| == 1 {
      forall j {:trigger rs[j]} | 0 <= j < |rs| && SameIdentity(rs, i, j)
        ensures rs[j].person == rs[i].person
      {
        assert roots[j] == roots[i];
        SameNumber(people, rs[i].person, rs[j].person);
      }
    }
    if OnePerson(rs, i) {
      forall p | p in people
        ensures p == rs[i].person
      {
        var j :| 0 <= j < |rs| && roots[j] == roots[i] && rs[j].person == p;
        assert SameIdentity(rs, i, j);
      }
      assert people == {rs[i].person};
    }
  }

  /** The person rows collected for i's group are those of its records. */
  lemma PersonsOf(rs: seq<Record>, roots: seq<int>, persons: map<int, set<int>>, named: set<int>, joined: set<int>,
                  i: nat)
    requires |roots| == |rs| && i < |rs| && Collected(rs, roots, |rs|, joined, persons, named)
    ensures roots[i] in persons
    ensures forall j {:trigger rs[j]} :: 0 <= j < |rs| && roots[j] == roots[i] ==> rs[j].person in persons[roots[i]]
    ensures forall p :: p in persons[roots[i]] ==>
      exists j :: 0 <= j < |rs| && roots[j] == roots[i] && rs[j].person == p
  {
    var g := roots[i];
    assert g in persons;
    forall j {:trigger rs[j]} | 0 <= j < |rs| && roots[j] == g
      ensures rs[j].person in persons[g]
    {
      var p := rs[j].person;
      assert p in persons[g] <==> exists k :: 0 <= k < |rs| && roots[k] == g && rs[k].person == p;
    }
    forall p | p in persons[g]
      ensures exists j :: 0 <= j < |rs| && roots[j] == g && rs[j].person == p
    {}
  }

  lemma NamedExactly(rs: seq<Record>, roots: seq<int>, persons: map<int, set<int>>, named: set<int>, joined: set<int>,
                     i: nat)
    requires |roots| == |rs| && i < |rs| && Collected(rs, roots, |rs|, joined, persons, named)
    requires forall j, k :: 0 <= j < |rs| && 0 <= k < |rs| ==> (roots[j] == roots[k] <==> SameIdentity(rs, j, k))
    requires forall j :: j in joined <==> NameAlone(rs, j)
    ensures roots[i] in named <==> exists j :: SameIdentity(rs, i, j) && NameAlone(rs, j)
  {
    hide SameIdentity, JoinsByName;
    if j :| SameIdentity(rs, i, j) && NameAlone(rs, j) {
      InRange(rs, j);
      assert roots[j] == roots[i] && j in joined;
      assert roots[i] in named;
    }
    if roots[i] in named {
      var j :| 0 <= j < |rs| && roots[j] == roots[i] && j in joined;
      assert SameIdentity(rs, i, j) && NameAlone(rs, j);
    }
  }

  lemma InRange(rs: seq<Record>, j: int)
    requires NameAlone(rs, j)
    ensures 0 <= j < |rs|
  {}

  lemma SameNumber(s: set<int>, p: int, q: int)
    requires |s| == 1 && p in s && q in s
    ensures p == q
  {
    assert |s - {p}| == 0;
    assert q !in s - {p};
  }
}
