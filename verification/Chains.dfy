/** Runs that leave long chains of merges, and a split cluster: what following merges then finds. */
module Chains {
  import opened Reach
  import opened Order
  import opened Reconcile
  import opened Clusters
  import opened History
  import opened Mentions

  // ------------------------------------------------------------------------------- the inputs

  /** The i-th of some features. */
  function Face(i: nat): (x: string)
    ensures |x| == i + 1
  {
    seq(i + 1, _ => 'f')
  }

  /** The first n features, as the feature list gives them. */
  function Features(n: nat): (m: map<string, string>)
    ensures forall x :: x in m <==> FaceOf(n, x)
  {
    if n == 0 then map[] else Features(n - 1)[Face(n - 1) := "FACIAL"]
  }

  predicate FaceOf(n: nat, x: string) {
    exists i: nat :: i < n && x == Face(i)
  }

  /** A matcher has confirmed the last of n features with each other from the first-th on. */
  function Pairs(first: nat, n: nat): (ps: seq<ConfirmedPair>)
    requires first < n
    ensures |ps| == n - 1 - first
    ensures forall j {:trigger ps[j]} :: 0 <= j < |ps| ==>
      ps[j] == ConfirmedPair(Face(first + j), Face(n - 1), "FACIAL", false)
  {
    seq(n - 1 - first, j requires 0 <= j < n - 1 - first =>
      ConfirmedPair(Face(first + j), Face(n - 1), "FACIAL", false))
  }

  lemma StarEdges(first: nat, n: nat, u: string, v: string)
    requires first < n
    ensures (u, v) in Links(EdgesOf(Pairs(first, n), AUTOMATIC)) <==>
            exists j: nat :: first <= j < n - 1 && u == Face(j) && v == Face(n - 1)
  {
    var ps, edges := Pairs(first, n), EdgesOf(Pairs(first, n), AUTOMATIC);
    if (u, v) in Links(edges) {
      var e :| e in edges && (e.left, e.right) == (u, v);
      EdgeOfPair(ps, AUTOMATIC, e);
      var p :| p in ps && e == Edge(p.featureA, p.featureB, p.modality);
      var j :| 0 <= j < |ps| && ps[j] == p;
      assert u == Face(first + j);
    }
    if j: nat :| first <= j < n - 1 && u == Face(j) && v == Face(n - 1) {
      var p, e := ps[j - first], Edge(u, v, "FACIAL");
      assert p in ps && e == Edge(p.featureA, p.featureB, p.modality);
      EdgeOfPair(ps, AUTOMATIC, e);
    }
  }

  /** Then exactly the features from the first-th on are linked. */
  lemma StarLinks(first: nat, n: nat, i: nat, j: nat)
    requires first < n && i < n && j < n
    ensures Linked(Links(EdgesOf(Pairs(first, n), AUTOMATIC)), Face(i), Face(j)) <==>
            i == j || (first <= i && first <= j)
  {
    var E := Links(EdgesOf(Pairs(first, n), AUTOMATIC));
    if Linked(E, Face(i), Face(j)) && !(first <= i && first <= j) {
      if first <= i {
        LinkedSym(E, Face(i), Face(j));
        Alone(first, n, j, Face(i));
      } else {
        Alone(first, n, i, Face(j));
      }
    }
    if i == j {
      LinkedSelf(E, Face(i));
    } else if first <= i && first <= j {
      ToLast(first, n, i);
      ToLast(first, n, j);
      LinkedSym(E, Face(j), Face(n - 1));
      LinkedTrans(E, Face(i), Face(n - 1), Face(j));
    }
  }

  lemma ToLast(first: nat, n: nat, i: nat)
    requires first <= i < n
    ensures Linked(Links(EdgesOf(Pairs(first, n), AUTOMATIC)), Face(i), Face(n - 1))
  {
    var E := Links(EdgesOf(Pairs(first, n), AUTOMATIC));
    if i == n - 1 {
      LinkedSelf(E, Face(i));
    } else {
      StarEdges(first, n, Face(i), Face(n - 1));
      LinkedTouch(E, Face(i), Face(n - 1));
    }
  }

  lemma Alone(first: nat, n: nat, i: nat, y: string)
    requires i < first < n && Linked(Links(EdgesOf(Pairs(first, n), AUTOMATIC)), Face(i), y)
    ensures y == Face(i)
  {
    var E := Links(EdgesOf(Pairs(first, n), AUTOMATIC));
    forall u, v | Touch(E, u, v)
      ensures u != Face(i)
    {
      StarEdges(first, n, u, v);
      StarEdges(first, n, v, u);
    }
    ClosedHoldsLinked(E, iset{Face(i)}, Face(i), y);
  }

  lemma NoLinks(x: string, y: string)
    ensures Linked({}, x, y) <==> x == y
  {
    LinkedSelf<string>({}, x);
    if Linked({}, x, y) { ClosedHoldsLinked<string>({}, iset{x}, x, y); }
  }

  lemma NoneReviewed(first: nat, n: nat)
    requires first < n
    ensures Links(EdgesOf(Pairs(first, n), REVIEWED)) == {}
  {
    var edges := EdgesOf(Pairs(first, n), REVIEWED);
    forall e | e in edges
      ensures false
    {
      EdgeOfPair(Pairs(first, n), REVIEWED, e);
    }
  }

  // ------------------------------------------------------------------------------- the tables

  /** The cluster the i-th feature is in while the first `live` of them are left. */
  function Slot(i: nat, live: nat): nat
    requires live > 0
  {
    if i < live then i else live - 1
  }

  /** The newest clusters first, each merged into the one created before it. */
  function ChainLog(ids: seq<int>, live: nat): (merges: seq<MergeRow>)
    requires live <= |ids| && (ids != [] ==> live > 0)
    ensures |merges| == |ids| - live
    ensures forall j {:trigger merges[j]} :: 0 <= j < |merges| ==>
      merges[j] == MergeRow(AUTOMATIC, ids[|ids| - 1 - j], ids[|ids| - 2 - j])
  {
    seq(|ids| - live, j requires 0 <= j < |ids| - live => MergeRow(AUTOMATIC, ids[|ids| - 1 - j], ids[|ids| - 2 - j]))
  }

  /** One AUTOMATIC cluster a feature was created, in order; all but the first `live` have been merged, one
    * after the other, into the one before. */
  ghost predicate InLine(db: Db, ids: seq<int>, live: nat) {
    && Sound(db) && live <= |ids| && (ids != [] ==> live > 0)
    && (forall i, j :: 0 <= i < j < |ids| ==> ids[i] < ids[j])
    && Placed(db, ids, live) && db.merges == ChainLog(ids, live)
  }

  ghost predicate Placed(db: Db, ids: seq<int>, live: nat)
    requires live <= |ids| && (ids != [] ==> live > 0)
  {
    && (forall id :: id in db.clusters && db.clusters[id].basis == AUTOMATIC <==> id in ids[..live])
    && (forall x :: (AUTOMATIC, x) in db.members <==> FaceOf(|ids|, x))
    && (forall i {:trigger Face(i)} :: 0 <= i < |ids| ==>
          (AUTOMATIC, Face(i)) in db.members && db.members[(AUTOMATIC, Face(i))] == ids[Slot(i, live)])
  }

  /** The clusters that hold members are those that are there, so the member rows decide both. */
  lemma PlacedBy(db: Db, ids: seq<int>, live: nat)
    requires Sound(db) && live <= |ids| && (ids != [] ==> live > 0)
    requires forall x :: (AUTOMATIC, x) in db.members <==> FaceOf(|ids|, x)
    requires forall i {:trigger Face(i)} :: 0 <= i < |ids| ==>
      (AUTOMATIC, Face(i)) in db.members && db.members[(AUTOMATIC, Face(i))] == ids[Slot(i, live)]
    ensures Placed(db, ids, live)
  {
    forall id
      ensures id in db.clusters && db.clusters[id].basis == AUTOMATIC <==> id in ids[..live]
    {
      if id in db.clusters && db.clusters[id].basis == AUTOMATIC {
        var x :| (AUTOMATIC, x) in db.members && db.members[(AUTOMATIC, x)] == id;
        var i: nat :| i < |ids| && x == Face(i);
        assert ids[..live][Slot(i, live)] == id;
      }
      if id in ids[..live] {
        var i :| 0 <= i < live && ids[i] == id;
        assert db.members[(AUTOMATIC, Face(i))] == id;
      }
    }
  }

  /** x is one of the features in the a-th cluster. */
  predicate FaceAt(n: nat, live: nat, a: nat, x: string)
    requires live > 0
  {
    exists i: nat :: i < n && x == Face(i) && Slot(i, live) == a
  }

  /** The clusters as a run loads them. */
  lemma LoadedInLine(db: Db, ids: seq<int>, live: nat, existing: Existing, a: nat)
    requires InLine(db, ids, live) && Loaded(db, AUTOMATIC, existing) && a < live
    ensures ids[a] in existing
    ensures forall x :: x in existing[ids[a]].members <==> FaceAt(|ids|, live, a, x)
  {
    var id := ids[a];
    assert id in ids[..live];
    forall x
      ensures x in existing[id].members <==> FaceAt(|ids|, live, a, x)
    {
      if x in existing[id].members {
        assert (AUTOMATIC, x) in db.members && FaceOf(|ids|, x);
        var i: nat :| i < |ids| && x == Face(i);
        assert ids[Slot(i, live)] == ids[a];
      }
      if i: nat :| i < |ids| && x == Face(i) && Slot(i, live) == a {
        assert (AUTOMATIC, Face(i)) in db.members;
      }
    }
  }

  /** A cluster's anchor is one of its features. */
  lemma AnchorInLine(db: Db, ids: seq<int>, live: nat, existing: Existing, a: nat) returns (i: nat)
    requires InLine(db, ids, live) && Loaded(db, AUTOMATIC, existing) && a < live
    ensures Anchored(existing, ids[a]) && i < |ids| && Slot(i, live) == a && Anchor(existing, ids[a]) == Face(i)
  {
    LoadedInLine(db, ids, live, existing, a);
    assert Face(a) in existing[ids[a]].members;
    var x := Anchor(existing, ids[a]);
    assert x in existing[ids[a]].members;
    assert FaceAt(|ids|, live, a, x);
    i :| i < |ids| && x == Face(i) && Slot(i, live) == a;
  }

  /** Only these clusters are loaded. */
  lemma OnlyInLine(db: Db, ids: seq<int>, live: nat, existing: Existing, id: int) returns (a: nat)
    requires InLine(db, ids, live) && Loaded(db, AUTOMATIC, existing) && id in existing
    ensures a < live && id == ids[a]
  {
    assert id in ids[..live];
    a :| 0 <= a < live && ids[..live][a] == id;
  }

  // --------------------------------------------------------------------------------- the runs

  /** Without edges no clusters merge. */
  lemma NoEdgesNoMerges(existing: Existing, merges: seq<Merge>)
    requires Disjoint(existing) && MergesRight({}, existing, merges)
    ensures merges == []
  {
    if merges != [] {
      var m := merges[0];
      assert m in merges;
      OneAnchor(existing, m.to, m.from);
    }
  }

  lemma OneAnchor(existing: Existing, i: int, j: int)
    requires Disjoint(existing) && Anchored(existing, i) && Anchored(existing, j)
    requires Linked({}, Anchor(existing, i), Anchor(existing, j))
    ensures i == j
  {
    NoLinks(Anchor(existing, i), Anchor(existing, j));
    assert Anchor(existing, i) in existing[i].members && Anchor(existing, j) in existing[j].members;
  }

  /** A REVIEWED run without edges leaves the AUTOMATIC layer and the log alone. */
  lemma ReviewedIdle(db: Db, after: Db, ids: seq<int>, live: nat, modalities: map<string, string>, edges: seq<Edge>)
    requires InLine(db, ids, live) && LayerRun(db, after, REVIEWED, modalities, edges) && Links(edges) == {}
    ensures InLine(after, ids, live)
  {
    LayerRunSound(db, after, REVIEWED, modalities, edges);
    var existing, nodeModality, p, newIds :|
      LayerRunBy(db, after, REVIEWED, modalities, edges, existing, nodeModality, p, newIds);
    LoadedDisjoint(db, REVIEWED, existing);
    NoEdgesNoMerges(existing, p.merges);
    hide Sound, Loaded, PlanFor, Wrote, Constraints;
    forall x
      ensures (AUTOMATIC, x) in after.members <==> (AUTOMATIC, x) in db.members
      ensures (AUTOMATIC, x) in db.members ==> after.members[(AUTOMATIC, x)] == db.members[(AUTOMATIC, x)]
    {
      OtherLayerKept(db, after, REVIEWED, AUTOMATIC, modalities, edges, x);
    }
    assert MergeRows(REVIEWED, p.merges) == [];
    PlacedBy(after, ids, live);
  }

  /** A cluster claims the features its anchor is linked to. */
  lemma ClaimsInLine(db: Db, ids: seq<int>, live: nat, existing: Existing, E: set<(string, string)>, id: int, x: string)
      returns (a: nat, i: nat)
    requires InLine(db, ids, live) && Loaded(db, AUTOMATIC, existing) && Claims(E, existing, id, x)
    ensures a < live && id == ids[a] && i < |ids| && Slot(i, live) == a && Linked(E, Face(i), x)
  {
    a := OnlyInLine(db, ids, live, existing, id);
    i := AnchorInLine(db, ids, live, existing, a);
  }

  /** Where no edge leads, each feature in its own cluster stays, and a new one gets a new cluster. */
  lemma KeepsOwn(db: Db, ids: seq<int>, existing: Existing, i: nat)
    requires InLine(db, ids, |ids|) && Loaded(db, AUTOMATIC, existing)
    ensures i < |ids| ==> Keeper({}, existing, ids[i], Face(i))
    ensures i >= |ids| ==> Unclaimed({}, existing, Face(i))
  {
    forall id | Claims({}, existing, id, Face(i))
      ensures i < |ids| && id == ids[i]
    {
      var a, k := ClaimsInLine(db, ids, |ids|, existing, {}, id, Face(i));
      NoLinks(Face(k), Face(i));
    }
    if i < |ids| {
      var k := AnchorInLine(db, ids, |ids|, existing, i);
      NoLinks(Face(k), Face(i));
    }
  }

  /** One more feature, no edges: one more cluster. */
  lemma LayerGrows(db: Db, after: Db, ids: seq<int>) returns (id: int)
    requires InLine(db, ids, |ids|) && LayerRun(db, after, AUTOMATIC, Features(|ids| + 1), [])
    ensures InLine(after, ids + [id], |ids| + 1)
  {
    assert Sound(db);
    hide InLine, Sound, LayerRunBy, Features;
    LayerRunSound(db, after, AUTOMATIC, Features(|ids| + 1), []);
    var existing, nodeModality, p, newIds :|
      LayerRunBy(db, after, AUTOMATIC, Features(|ids| + 1), [], existing, nodeModality, p, newIds);
    id := GrowsBy(db, after, ids, existing, nodeModality, p, newIds);
  }

  lemma GrowsBy(db: Db, after: Db, ids: seq<int>, existing: Existing, nodeModality: map<string, string>, p: Plan,
                newIds: seq<int>)
      returns (id: int)
    requires InLine(db, ids, |ids|) && Sound(after)
    requires LayerRunBy(db, after, AUTOMATIC, Features(|ids| + 1), [], existing, nodeModality, p, newIds)
    ensures InLine(after, ids + [id], |ids| + 1)
  {
    hide InLine, Sound, LayerRunBy, GrownAt, FaceOf, Face, ChainLog, Features;
    forall i: nat | i <= |ids|
      ensures GrownAt(after, ids, newIds, i)
    {
      Grown(db, after, ids, existing, nodeModality, p, newIds, i);
    }
    forall x
      ensures (AUTOMATIC, x) in after.members <==> FaceOf(|ids| + 1, x)
    {
      GrownKnown(db, after, ids, existing, nodeModality, p, newIds, x);
    }
    id := GrownId(after, ids, newIds);
    GrownLog(db, after, ids, existing, nodeModality, p, newIds, id);
    GrownInLine(after, ids, newIds, id);
  }

  lemma GrownId(after: Db, ids: seq<int>, newIds: seq<int>) returns (id: int)
    requires forall i: nat :: i <= |ids| ==> GrownAt(after, ids, newIds, i)
    ensures (AUTOMATIC, Face(|ids|)) in after.members && id == after.members[(AUTOMATIC, Face(|ids|))] && id in newIds
  {
    assert GrownAt(after, ids, newIds, |ids|);
    id := after.members[(AUTOMATIC, Face(|ids|))];
  }

  lemma GrownInLine(after: Db, ids: seq<int>, newIds: seq<int>, id: int)
    requires Sound(after) && forall i: nat :: i <= |ids| ==> GrownAt(after, ids, newIds, i)
    requires (AUTOMATIC, Face(|ids|)) in after.members && id == after.members[(AUTOMATIC, Face(|ids|))]
    requires forall x :: (AUTOMATIC, x) in after.members <==> FaceOf(|ids| + 1, x)
    requires forall i, j :: 0 <= i < j < |ids| ==> ids[i] < ids[j]
    requires forall i :: 0 <= i < |ids| ==> ids[i] < id
    requires after.merges == ChainLog(ids + [id], |ids| + 1)
    ensures InLine(after, ids + [id], |ids| + 1)
  {
    hide Sound, FaceOf, ChainLog;
    var more := ids + [id];
    forall i {:trigger Face(i)} | 0 <= i < |more|
      ensures (AUTOMATIC, Face(i)) in after.members && after.members[(AUTOMATIC, Face(i))] == more[Slot(i, |more|)]
    {
      assert GrownAt(after, ids, newIds, i);
    }
    PlacedBy(after, more, |more|);
  }

  /** Where the i-th feature is after the run. */
  ghost predicate GrownAt(after: Db, ids: seq<int>, newIds: seq<int>, i: nat) {
    && (AUTOMATIC, Face(i)) in after.members
    && var id := after.members[(AUTOMATIC, Face(i))];
    if i < |ids| then id == ids[i] else id in newIds
  }

  lemma Grown(db: Db, after: Db, ids: seq<int>, existing: Existing, nodeModality: map<string, string>, p: Plan,
              newIds: seq<int>, i: nat)
    requires InLine(db, ids, |ids|) && i <= |ids|
    requires LayerRunBy(db, after, AUTOMATIC, Features(|ids| + 1), [], existing, nodeModality, p, newIds)
    ensures GrownAt(after, ids, newIds, i)
  {
    hide InLine, LayerRunBy, Loaded, Keeper, Unclaimed, Face, Features;
    var features := Features(|ids| + 1);
    LoadedBy(db, after, AUTOMATIC, features, [], existing, nodeModality, p, newIds);
    KeepsOwn(db, ids, existing, i);
    assert Links([]) == {};
    assert FaceOf(|ids| + 1, Face(i));
    Placement(db, after, AUTOMATIC, features, [], existing, nodeModality, p, newIds, Face(i));
  }

  lemma LoadedBy(db: Db, after: Db, basis: Basis, modalities: map<string, string>, edges: seq<Edge>,
                 existing: Existing, nodeModality: map<string, string>, p: Plan, newIds: seq<int>)
    requires LayerRunBy(db, after, basis, modalities, edges, existing, nodeModality, p, newIds)
    ensures Constraints(db) && Loaded(db, basis, existing) && Disjoint(existing)
  {
    LoadedDisjoint(db, basis, existing);
    hide Constraints, Loaded, PlanFor, Applied, Wrote;
  }

  lemma GrownKnown(db: Db, after: Db, ids: seq<int>, existing: Existing, nodeModality: map<string, string>, p: Plan,
                   newIds: seq<int>, x: string)
    requires InLine(db, ids, |ids|)
    requires LayerRunBy(db, after, AUTOMATIC, Features(|ids| + 1), [], existing, nodeModality, p, newIds)
    ensures (AUTOMATIC, x) in after.members <==> FaceOf(|ids| + 1, x)
  {
    hide InLine, LayerRunBy, Loaded, Known, Face, Features;
    var features := Features(|ids| + 1);
    LoadedBy(db, after, AUTOMATIC, features, [], existing, nodeModality, p, newIds);
    KnownInLine(db, ids, |ids|, existing, features, [], x);
    LayerMembers(db, after, AUTOMATIC, features, [], existing, nodeModality, p, newIds, x, x);
  }

  lemma GrownLog(db: Db, after: Db, ids: seq<int>, existing: Existing, nodeModality: map<string, string>, p: Plan,
                 newIds: seq<int>, id: int)
    requires InLine(db, ids, |ids|) && id in newIds
    requires LayerRunBy(db, after, AUTOMATIC, Features(|ids| + 1), [], existing, nodeModality, p, newIds)
    ensures forall i :: 0 <= i < |ids| ==> ids[i] < id
    ensures forall i, j :: 0 <= i < j < |ids| ==> ids[i] < ids[j]
    ensures after.merges == ChainLog(ids + [id], |ids| + 1)
  {
    LoadedDisjoint(db, AUTOMATIC, existing);
    assert Links([]) == {};
    NoEdgesNoMerges(existing, p.merges);
    hide Sound, PlanFor, Wrote, Loaded, Placed, MergesRight;
    NewerId(db, after, ids, p, newIds, id);
  }

  lemma NewerId(db: Db, after: Db, ids: seq<int>, p: Plan, newIds: seq<int>, id: int)
    requires InLine(db, ids, |ids|) && Applied(db, after, AUTOMATIC, p, newIds) && id in newIds && p.merges == []
    ensures forall i :: 0 <= i < |ids| ==> ids[i] < id
    ensures after.merges == ChainLog(ids + [id], |ids| + 1)
  {
    forall i | 0 <= i < |ids|
      ensures ids[i] < id
    {
      assert ids[i] in ids[..|ids|] && ids[i] in db.clusters && ids[i] in db.created;
    }
  }

  /** The features known to a run on the line. */
  lemma KnownInLine(db: Db, ids: seq<int>, live: nat, existing: Existing, modalities: map<string, string>,
                    edges: seq<Edge>, x: string)
    requires InLine(db, ids, live) && Loaded(db, AUTOMATIC, existing)
    requires forall y :: FaceOf(|ids|, y) ==> y in modalities
    requires forall y :: Mentioned(edges, y) ==> y in modalities
    ensures Known(modalities, edges, existing, x) <==> x in modalities
  {
    if id :| id in existing && x in existing[id].members {
      assert (AUTOMATIC, x) in db.members;
    }
  }

  // ---------------------------------------------------------------------------- joining two

  /** With the last features linked from the one before the last cluster on, that cluster's own keeps them. */
  lemma JoinedKeeper(db: Db, ids: seq<int>, live: nat, existing: Existing, i: nat)
    requires 2 <= live && i < |ids| && InLine(db, ids, live) && Loaded(db, AUTOMATIC, existing)
    ensures Keeper(Links(EdgesOf(Pairs(live - 2, |ids|), AUTOMATIC)), existing, ids[Slot(i, live - 1)], Face(i))
  {
    hide InLine, Loaded, Linked, Links, EdgesOf, Pairs, Face, Anchor;
    assert |ids| >= live by { RisingIds(db, ids, live, 0, 0); }
    var E, s := Links(EdgesOf(Pairs(live - 2, |ids|), AUTOMATIC)), Slot(i, live - 1);
    forall id | Claims(E, existing, id, Face(i))
      ensures ids[s] <= id
    {
      var a, k := ClaimsInLine(db, ids, live, existing, E, id, Face(i));
      StarLinks(live - 2, |ids|, k, i);
      RisingIds(db, ids, live, s, a);
    }
    var k := AnchorInLine(db, ids, live, existing, s);
    StarLinks(live - 2, |ids|, k, i);
  }

  lemma RisingIds(db: Db, ids: seq<int>, live: nat, i: nat, j: nat)
    requires InLine(db, ids, live)
    ensures live <= |ids| && (i <= j < |ids| ==> ids[i] <= ids[j]) && (i < j < |ids| ==> ids[i] < ids[j])
  {}

  lemma KeeperOnly(E: set<(string, string)>, existing: Existing, i: int, j: int, x: string)
    requires Keeper(E, existing, i, x) && Keeper(E, existing, j, x)
    ensures i == j
  {}

  /** The only merge is of the last cluster into the one before. */
  lemma JoinedMerges(db: Db, ids: seq<int>, live: nat, existing: Existing, merges: seq<Merge>)
    requires 2 <= live && InLine(db, ids, live) && Loaded(db, AUTOMATIC, existing)
    requires MergesRight(Links(EdgesOf(Pairs(live - 2, |ids|), AUTOMATIC)), existing, merges)
    ensures merges == [Merge(ids[live - 1], ids[live - 2])]
  {
    hide InLine, Loaded, Linked, Links, EdgesOf, Pairs, Face, Anchor, Keeper;
    RisingIds(db, ids, live, live - 2, live - 1);
    var E, one := Links(EdgesOf(Pairs(live - 2, |ids|), AUTOMATIC)), Merge(ids[live - 1], ids[live - 2]);
    forall m | m in merges
      ensures m == one
    {
      var a := OnlyInLine(db, ids, live, existing, m.from);
      var k := AnchorInLine(db, ids, live, existing, a);
      JoinedKeeper(db, ids, live, existing, k);
      KeeperOnly(E, existing, m.to, ids[Slot(k, live - 1)], Face(k));
    }
    var k := AnchorInLine(db, ids, live, existing, live - 1);
    JoinedKeeper(db, ids, live, existing, k);
    assert one in merges;
    OnlyOne(merges, one);
  }

  lemma OnlyOne(merges: seq<Merge>, one: Merge)
    requires Rising(merges) && one in merges && forall m :: m in merges ==> m == one
    ensures merges == [one]
  {
    forall i | 0 <= i < |merges|
      ensures merges[i] == one
    {
      assert merges[i] in merges;
    }
    assert |merges| > 1 ==> merges[0].from < merges[1].from;
  }

  /** Such a run merges the last cluster into the one before it. */
  lemma LayerJoins(db: Db, after: Db, ids: seq<int>, live: nat)
    requires 2 <= live <= |ids| && InLine(db, ids, live)
    requires LayerRun(db, after, AUTOMATIC, Features(|ids|), EdgesOf(Pairs(live - 2, |ids|), AUTOMATIC))
    ensures InLine(after, ids, live - 1)
  {
    assert Sound(db);
    hide InLine, Sound, LayerRunBy, Features, EdgesOf;
    var edges := EdgesOf(Pairs(live - 2, |ids|), AUTOMATIC);
    LayerRunSound(db, after, AUTOMATIC, Features(|ids|), edges);
    var existing, nodeModality, p, newIds :|
      LayerRunBy(db, after, AUTOMATIC, Features(|ids|), edges, existing, nodeModality, p, newIds);
    JoinsBy(db, after, ids, live, existing, nodeModality, p, newIds);
  }

  lemma JoinsBy(db: Db, after: Db, ids: seq<int>, live: nat, existing: Existing, nodeModality: map<string, string>,
                p: Plan, newIds: seq<int>)
    requires 2 <= live <= |ids| && InLine(db, ids, live) && Sound(after)
    requires LayerRunBy(db, after, AUTOMATIC, Features(|ids|), EdgesOf(Pairs(live - 2, |ids|), AUTOMATIC), existing,
                        nodeModality, p, newIds)
    ensures InLine(after, ids, live - 1)
  {
    hide InLine, Sound, LayerRunBy, JoinedAt, FaceOf, Face, ChainLog, Features, EdgesOf, Pairs;
    forall i: nat | i < |ids|
      ensures JoinedAt(after, ids, live, i)
    {
      JoinedPlace(db, after, ids, live, existing, nodeModality, p, newIds, i);
    }
    forall x
      ensures (AUTOMATIC, x) in after.members <==> FaceOf(|ids|, x)
    {
      JoinedKnown(db, after, ids, live, existing, nodeModality, p, newIds, x);
    }
    JoinedLog(db, after, ids, live, existing, nodeModality, p, newIds);
    JoinedInLine(after, ids, live);
  }

  ghost predicate JoinedAt(after: Db, ids: seq<int>, live: nat, i: nat)
    requires 2 <= live <= |ids| && i < |ids|
  {
    (AUTOMATIC, Face(i)) in after.members && after.members[(AUTOMATIC, Face(i))] == ids[Slot(i, live - 1)]
  }

  lemma JoinedPlace(db: Db, after: Db, ids: seq<int>, live: nat, existing: Existing, nodeModality: map<string, string>,
                    p: Plan, newIds: seq<int>, i: nat)
    requires 2 <= live <= |ids| && i < |ids| && InLine(db, ids, live)
    requires LayerRunBy(db, after, AUTOMATIC, Features(|ids|), EdgesOf(Pairs(live - 2, |ids|), AUTOMATIC), existing,
                        nodeModality, p, newIds)
    ensures JoinedAt(after, ids, live, i)
  {
    hide InLine, LayerRunBy, Loaded, Keeper, Unclaimed, Face, Features, EdgesOf, Pairs;
    var edges := EdgesOf(Pairs(live - 2, |ids|), AUTOMATIC);
    LoadedBy(db, after, AUTOMATIC, Features(|ids|), edges, existing, nodeModality, p, newIds);
    JoinedKeeper(db, ids, live, existing, i);
    assert FaceOf(|ids|, Face(i));
    Placement(db, after, AUTOMATIC, Features(|ids|), edges, existing, nodeModality, p, newIds, Face(i));
  }

  lemma JoinedKnown(db: Db, after: Db, ids: seq<int>, live: nat, existing: Existing, nodeModality: map<string, string>,
                    p: Plan, newIds: seq<int>, x: string)
    requires 2 <= live <= |ids| && InLine(db, ids, live)
    requires LayerRunBy(db, after, AUTOMATIC, Features(|ids|), EdgesOf(Pairs(live - 2, |ids|), AUTOMATIC), existing,
                        nodeModality, p, newIds)
    ensures (AUTOMATIC, x) in after.members <==> FaceOf(|ids|, x)
  {
    hide InLine, LayerRunBy, Loaded, Known, Face, Features, EdgesOf, Pairs, Mentioned;
    var edges := EdgesOf(Pairs(live - 2, |ids|), AUTOMATIC);
    LoadedBy(db, after, AUTOMATIC, Features(|ids|), edges, existing, nodeModality, p, newIds);
    forall y | Mentioned(edges, y)
      ensures y in Features(|ids|)
    {
      PairedFace(live - 2, |ids|, y);
    }
    KnownInLine(db, ids, live, existing, Features(|ids|), edges, x);
    LayerMembers(db, after, AUTOMATIC, Features(|ids|), edges, existing, nodeModality, p, newIds, x, x);
  }

  lemma PairedFace(first: nat, n: nat, y: string)
    requires first < n && Mentioned(EdgesOf(Pairs(first, n), AUTOMATIC), y)
    ensures FaceOf(n, y)
  {
    var edges := EdgesOf(Pairs(first, n), AUTOMATIC);
    var e :| e in edges && (e.left == y || e.right == y);
    assert (e.left, e.right) in Links(edges);
    StarEdges(first, n, e.left, e.right);
  }

  lemma JoinedLog(db: Db, after: Db, ids: seq<int>, live: nat, existing: Existing, nodeModality: map<string, string>,
                  p: Plan, newIds: seq<int>)
    requires 2 <= live <= |ids| && InLine(db, ids, live)
    requires LayerRunBy(db, after, AUTOMATIC, Features(|ids|), EdgesOf(Pairs(live - 2, |ids|), AUTOMATIC), existing,
                        nodeModality, p, newIds)
    ensures after.merges == ChainLog(ids, live - 1)
    ensures forall i, j :: 0 <= i < j < |ids| ==> ids[i] < ids[j]
  {
    hide InLine, LayerRunBy, Features, EdgesOf, Pairs, Loaded, MergesRight;
    var edges := EdgesOf(Pairs(live - 2, |ids|), AUTOMATIC);
    LoadedBy(db, after, AUTOMATIC, Features(|ids|), edges, existing, nodeModality, p, newIds);
    PlannedMerges(db, after, AUTOMATIC, Features(|ids|), edges, existing, nodeModality, p, newIds);
    JoinedMerges(db, ids, live, existing, p.merges);
    OneMore(db, after, ids, live);
  }

  lemma PlannedMerges(db: Db, after: Db, basis: Basis, modalities: map<string, string>, edges: seq<Edge>,
                      existing: Existing, nodeModality: map<string, string>, p: Plan, newIds: seq<int>)
    requires LayerRunBy(db, after, basis, modalities, edges, existing, nodeModality, p, newIds)
    ensures MergesRight(Links(edges), existing, p.merges) && after.merges == db.merges + MergeRows(basis, p.merges)
  {
    hide Constraints, Loaded, Wrote, KeptRight, NewRight, MergesRight, Known, ModalityRight;
  }

  lemma OneMore(db: Db, after: Db, ids: seq<int>, live: nat)
    requires 2 <= live <= |ids| && InLine(db, ids, live)
    requires after.merges == db.merges + MergeRows(AUTOMATIC, [Merge(ids[live - 1], ids[live - 2])])
    ensures after.merges == ChainLog(ids, live - 1)
    ensures forall i, j :: 0 <= i < j < |ids| ==> ids[i] < ids[j]
  {
    hide Sound, Placed;
    assert MergeRows(AUTOMATIC, [Merge(ids[live - 1], ids[live - 2])]) ==
      [MergeRow(AUTOMATIC, ids[live - 1], ids[live - 2])];
  }

  lemma JoinedInLine(after: Db, ids: seq<int>, live: nat)
    requires 2 <= live <= |ids| && Sound(after) && forall i: nat :: i < |ids| ==> JoinedAt(after, ids, live, i)
    requires forall x :: (AUTOMATIC, x) in after.members <==> FaceOf(|ids|, x)
    requires forall i, j :: 0 <= i < j < |ids| ==> ids[i] < ids[j]
    requires after.merges == ChainLog(ids, live - 1)
    ensures InLine(after, ids, live - 1)
  {
    hide Sound, FaceOf, ChainLog;
    forall i {:trigger Face(i)} | 0 <= i < |ids|
      ensures (AUTOMATIC, Face(i)) in after.members && after.members[(AUTOMATIC, Face(i))] == ids[Slot(i, live - 1)]
    {
      assert JoinedAt(after, ids, live, i);
    }
    PlacedBy(after, ids, live - 1);
  }

  // ------------------------------------------------------------------------- complete runs

  /** A complete run on one more feature. */
  lemma RunGrows(db: Db, after: Db, ids: seq<int>) returns (id: int)
    requires InLine(db, ids, |ids|) && CompleteRun(db, after, Features(|ids| + 1), [])
    ensures InLine(after, ids + [id], |ids| + 1)
  {
    hide InLine, LayerRun, Features;
    assert EdgesOf([], AUTOMATIC) == [] && EdgesOf([], REVIEWED) == [] && Links([]) == {};
    var mid :| LayerRun(db, mid, AUTOMATIC, Features(|ids| + 1), EdgesOf([], AUTOMATIC)) &&
      LayerRun(mid, after, REVIEWED, Features(|ids| + 1), EdgesOf([], REVIEWED));
    id := LayerGrows(db, mid, ids);
    ReviewedIdle(mid, after, ids + [id], |ids| + 1, Features(|ids| + 1), []);
  }

  /** A complete run on the same features, the last ones now linked from one cluster further on. */
  lemma RunJoins(db: Db, after: Db, ids: seq<int>, live: nat)
    requires 2 <= live <= |ids| && InLine(db, ids, live)
    requires CompleteRun(db, after, Features(|ids|), Pairs(live - 2, |ids|))
    ensures InLine(after, ids, live - 1)
  {
    hide InLine, LayerRun, Features, EdgesOf, Pairs;
    var pairs := Pairs(live - 2, |ids|);
    var mid :| LayerRun(db, mid, AUTOMATIC, Features(|ids|), EdgesOf(pairs, AUTOMATIC)) &&
      LayerRun(mid, after, REVIEWED, Features(|ids|), EdgesOf(pairs, REVIEWED));
    LayerJoins(db, mid, ids, live);
    NoneReviewed(live - 2, |ids|);
    ReviewedIdle(mid, after, ids, live - 1, Features(|ids|), EdgesOf(pairs, REVIEWED));
  }

  lemma HistoryGoesOn(dbs: seq<Db>, mid: Db, after: Db, modalities: map<string, string>, pairs: seq<ConfirmedPair>)
    requires IsHistory(dbs)
    requires LayerRun(dbs[|dbs| - 1], mid, AUTOMATIC, modalities, EdgesOf(pairs, AUTOMATIC))
    requires LayerRun(mid, after, REVIEWED, modalities, EdgesOf(pairs, REVIEWED))
    ensures IsHistory(dbs + [mid, after])
  {
    hide LayerRun, EdgesOf;
    var more := dbs + [mid, after];
    forall i: nat | i < |more| - 1
      ensures StepAt(more, i)
    {
      if i < |dbs| - 1 { assert StepAt(dbs, i); }
    }
  }

  lemma EmptyInLine(db: Db)
    requires Empty(db)
    ensures InLine(db, [], 0) && IsHistory([db])
  {}

  /** One run of the whole, kept in the history. */
  method RunOn(tables: Tables, modalities: map<string, string>, pairs: seq<ConfirmedPair>, ghost dbs: seq<Db>)
    returns (ghost more: seq<Db>)
    requires Constraints(tables.Snapshot()) && IsHistory(dbs) && dbs[|dbs| - 1] == tables.Snapshot()
    modifies tables
    ensures Constraints(tables.Snapshot()) && IsHistory(more) && more != [] && more[|more| - 1] == tables.Snapshot()
    ensures CompleteRun(old(tables.Snapshot()), tables.Snapshot(), modalities, pairs)
  {
    hide Constraints, IsHistory, LayerRun;
    ghost var db := tables.Snapshot();
    Run(tables, modalities, pairs);
    ghost var mid :| LayerRun(db, mid, AUTOMATIC, modalities, EdgesOf(pairs, AUTOMATIC)) &&
      LayerRun(mid, tables.Snapshot(), REVIEWED, modalities, EdgesOf(pairs, REVIEWED));
    HistoryGoesOn(dbs, mid, tables.Snapshot(), modalities, pairs);
    more := dbs + [mid, tables.Snapshot()];
  }

  lemma LineConstrained(db: Db, ids: seq<int>, live: nat)
    requires InLine(db, ids, live)
    ensures Constraints(db)
  {}

  /** n + 1 features arrive one run at a time, and then the matcher links the last with one more before it
    * each run. The runs leave a chain of n merges. */
  method GrowChain(n: nat) returns (tables: Tables, ghost dbs: seq<Db>, ghost ids: seq<int>)
    ensures fresh(tables) && IsHistory(dbs) && dbs[|dbs| - 1] == tables.Snapshot()
    ensures |ids| == n + 1 && InLine(tables.Snapshot(), ids, 1) && IsChain(tables.merges, ids)
  {
    hide InLine, IsChain, IsHistory, CompleteRun, Constraints, Features, Pairs, Empty;
    tables := new Tables();
    assert Empty(tables.Snapshot()) by { NewIsEmpty(tables.Snapshot()); }
    dbs, ids := [tables.Snapshot()], [];
    EmptyInLine(tables.Snapshot());
    for i := 0 to n + 1
      invariant |ids| == i && InLine(tables.Snapshot(), ids, i) && fresh(tables)
      invariant dbs != [] && IsHistory(dbs) && dbs[|dbs| - 1] == tables.Snapshot()
    {
      LineConstrained(tables.Snapshot(), ids, i);
      ghost var db := tables.Snapshot();
      dbs := RunOn(tables, Features(i + 1), [], dbs);
      ghost var id := RunGrows(db, tables.Snapshot(), ids);
      ids := ids + [id];
    }
    var live := n + 1;
    while live > 1
      invariant 1 <= live <= n + 1 == |ids| && InLine(tables.Snapshot(), ids, live) && fresh(tables)
      invariant dbs != [] && IsHistory(dbs) && dbs[|dbs| - 1] == tables.Snapshot()
    {
      LineConstrained(tables.Snapshot(), ids, live);
      ghost var db := tables.Snapshot();
      dbs := RunOn(tables, Features(n + 1), Pairs(live - 2, n + 1), dbs);
      RunJoins(db, tables.Snapshot(), ids, live);
      live := live - 1;
    }
    LineIsChain(tables.Snapshot(), ids);
  }

  lemma NewIsEmpty(db: Db)
    requires db == Db(map[], map[], [], 1, {}, [])
    ensures Empty(db)
  {}

  // --------------------------------------------------------------------- following the chain

  /** The log leads from each of the ids to the one before it. */
  ghost predicate IsChain(merges: seq<MergeRow>, ids: seq<int>) {
    && LogSound(merges) && ids != [] && merges == ChainLog(ids, 1)
    && forall i, j :: 0 <= i < j < |ids| ==> ids[i] < ids[j]
  }

  lemma LineIsChain(db: Db, ids: seq<int>)
    requires InLine(db, ids, 1)
    ensures IsChain(db.merges, ids)
  {}

  lemma ChainInto(merges: seq<MergeRow>, ids: seq<int>, i: nat)
    requires IsChain(merges, ids) && i < |ids|
    ensures Retired(merges, ids[i]) <==> i > 0
    ensures i > 0 ==> Into(merges, ids[i]) == ids[i - 1]
  {
    if i > 0 {
      var m := merges[|ids| - 1 - i];
      assert m in merges;
      IntoIs(merges, m);
    } else {
      forall j | 0 <= j < |merges|
        ensures merges[j].from != ids[0]
      {
        assert merges[j].from == ids[|ids| - 1 - j];
      }
    }
  }

  /** From the i-th of them i merges lead on. */
  lemma {:induction false} ChainDepth(merges: seq<MergeRow>, ids: seq<int>, i: nat)
    requires IsChain(merges, ids) && i < |ids|
    ensures LogSound(merges) && Depth(merges, ids[i]) == i
  {
    ChainInto(merges, ids, i);
    if i > 0 { ChainDepth(merges, ids, i - 1); }
  }

  lemma {:induction false} ChainAfter(merges: seq<MergeRow>, ids: seq<int>, i: nat, k: nat)
    requires IsChain(merges, ids) && k <= i < |ids|
    ensures LogSound(merges) && k <= Depth(merges, ids[i]) && After(merges, ids[i], k) == ids[i - k]
    decreases i
  {
    hide IsChain, LogSound, Retired, Into;
    ChainDepth(merges, ids, i);
    if k > 0 {
      ChainInto(merges, ids, i);
      ChainAfter(merges, ids, i - 1, k - 1);
    }
  }

  /** Asked alone, the newest of 33 clusters merged so does not reach the live one. */
  lemma StopsShort(merges: seq<MergeRow>, ids: seq<int>)
    requires IsChain(merges, ids) && |ids| == 34
    ensures !Reachable(merges, [ids[33]], ids[33])
  {
    var id, x := ids[33], ids[1];
    ChainAfter(merges, ids, 33, 32);
    ChainDepth(merges, ids, 33);
    forall y, k: nat {:trigger OnChain(merges, y, k, x)} | y in [id] && k < 32
      ensures !OnChain(merges, y, k, x)
    {
      ChainAfter(merges, ids, 33, k);
      assert ids[1] < ids[33 - k];
    }
    hide IsChain, LogSound, Retired, Depth, After, OnChain;
  }

  /** Asked together with the cluster it was merged into, it does. */
  lemma ReachesTogether(merges: seq<MergeRow>, ids: seq<int>)
    requires IsChain(merges, ids) && |ids| == 34
    ensures Reachable(merges, [ids[33], ids[32]], ids[33])
  {
    ChainAfter(merges, ids, 33, 32);
    ChainDepth(merges, ids, 33);
    ChainAfter(merges, ids, 32, 31);
    ChainDepth(merges, ids, 32);
    hide IsChain, LogSound, Retired, Depth, After;
    var both := [ids[33], ids[32]];
    assert both[1] in both && OnChain(merges, ids[32], 31, ids[1]);
    assert Near(merges, both, ids[1], 32);
  }

  /** No list of ids makes the newest of a longer chain reach it. */
  lemma NeverReaches(merges: seq<MergeRow>, ids: seq<int>, asked: seq<int>)
    requires IsChain(merges, ids) && |ids| > 34
    ensures !Reachable(merges, asked, ids[|ids| - 1])
  {
    ChainDepth(merges, ids, |ids| - 1);
    hide IsChain, LogSound, Retired, Depth, After, Near;
  }

  // --------------------------------------------------------------------------------- a split

  /** After the first two features' clusters were merged, a run without the edge puts the second in a new
    * cluster, while the log still leads from its old one to the first's. */
  lemma RunSplits(db: Db, after: Db, ids: seq<int>)
    requires |ids| == 2 && InLine(db, ids, 1) && CompleteRun(db, after, Features(2), [])
    ensures Sound(after) && Retired(after.merges, ids[1])
    ensures Depth(after.merges, ids[1]) == 1 && After(after.merges, ids[1], 1) == ids[0]
    ensures (AUTOMATIC, Face(0)) in after.members && after.members[(AUTOMATIC, Face(0))] == ids[0]
    ensures (AUTOMATIC, Face(1)) in after.members && after.members[(AUTOMATIC, Face(1))] > ids[1]
  {
    LineIsChain(db, ids);
    ChainInto(db.merges, ids, 1);
    ChainDepth(db.merges, ids, 1);
    ChainAfter(db.merges, ids, 1, 1);
    assert Sound(db);
    hide InLine, IsChain, LayerRun, Features, Sound, LogSound, Retired, Depth, After, Face;
    assert EdgesOf([], AUTOMATIC) == [] && EdgesOf([], REVIEWED) == [] && Links([]) == {};
    var mid :| LayerRun(db, mid, AUTOMATIC, Features(2), EdgesOf([], AUTOMATIC)) &&
      LayerRun(mid, after, REVIEWED, Features(2), EdgesOf([], REVIEWED));
    LayerRunSound(db, mid, AUTOMATIC, Features(2), []);
    LayerRunSound(mid, after, REVIEWED, Features(2), []);
    SameLog(db, mid, AUTOMATIC, Features(2), []);
    SameLog(mid, after, REVIEWED, Features(2), []);
    LayerSplits(db, mid, ids);
    OtherLayerKept(mid, after, REVIEWED, AUTOMATIC, Features(2), [], Face(0));
    OtherLayerKept(mid, after, REVIEWED, AUTOMATIC, Features(2), [], Face(1));
  }

  lemma SameLog(db: Db, after: Db, basis: Basis, modalities: map<string, string>, edges: seq<Edge>)
    requires LayerRun(db, after, basis, modalities, edges) && Links(edges) == {}
    ensures after.merges == db.merges
  {
    hide LayerRunBy, Links;
    var existing, nodeModality, p, newIds :|
      LayerRunBy(db, after, basis, modalities, edges, existing, nodeModality, p, newIds);
    LoadedBy(db, after, basis, modalities, edges, existing, nodeModality, p, newIds);
    PlannedMerges(db, after, basis, modalities, edges, existing, nodeModality, p, newIds);
    NoEdgesNoMerges(existing, p.merges);
    assert MergeRows(basis, []) == [];
  }

  lemma LayerSplits(db: Db, after: Db, ids: seq<int>)
    requires |ids| == 2 && InLine(db, ids, 1) && LayerRun(db, after, AUTOMATIC, Features(2), [])
    ensures (AUTOMATIC, Face(0)) in after.members && after.members[(AUTOMATIC, Face(0))] == ids[0]
    ensures (AUTOMATIC, Face(1)) in after.members && after.members[(AUTOMATIC, Face(1))] > ids[1]
  {
    hide InLine, LayerRunBy, Features, Loaded, Keeper, Unclaimed, Face;
    var existing, nodeModality, p, newIds :|
      LayerRunBy(db, after, AUTOMATIC, Features(2), [], existing, nodeModality, p, newIds);
    LoadedBy(db, after, AUTOMATIC, Features(2), [], existing, nodeModality, p, newIds);
    assert FaceOf(2, Face(0)) && FaceOf(2, Face(1)) && Links([]) == {};
    Placement(db, after, AUTOMATIC, Features(2), [], existing, nodeModality, p, newIds, Face(0));
    Placement(db, after, AUTOMATIC, Features(2), [], existing, nodeModality, p, newIds, Face(1));
    FirstAnchors(db, ids, existing);
    NewAbove(db, after, ids, existing, nodeModality, p, newIds, after.members[(AUTOMATIC, Face(1))]);
  }

  /** The cluster of both features has the first as its anchor. */
  lemma FirstAnchors(db: Db, ids: seq<int>, existing: Existing)
    requires |ids| == 2 && InLine(db, ids, 1) && Loaded(db, AUTOMATIC, existing)
    ensures Keeper({}, existing, ids[0], Face(0)) && Unclaimed({}, existing, Face(1))
  {
    var k := AnchorInLine(db, ids, 1, existing, 0);
    LoadedInLine(db, ids, 1, existing, 0);
    assert FaceAt(2, 1, 0, Face(0));
    SmallestLe(existing[ids[0]].members);
    if k == 1 { LongerNotLe(); }
    NoLinks(Face(0), Face(0));
    forall id, i: nat | Claims({}, existing, id, Face(i))
      ensures id == ids[0] && i == 0
    {
      var a := OnlyInLine(db, ids, 1, existing, id);
      NoLinks(Face(0), Face(i));
    }
  }

  lemma LongerNotLe()
    ensures !Le(Face(1), Face(0))
  {
    assert Face(1)[1..] == Face(0) && Face(0)[1..] == [];
  }

  lemma NewAbove(db: Db, after: Db, ids: seq<int>, existing: Existing, nodeModality: map<string, string>, p: Plan,
                 newIds: seq<int>, id: int)
    requires |ids| == 2 && InLine(db, ids, 1) && id in newIds
    requires LayerRunBy(db, after, AUTOMATIC, Features(2), [], existing, nodeModality, p, newIds)
    ensures id > ids[1]
  {
    hide PlanFor, Loaded, Wrote, Placed;
    assert db.merges[0].from == ids[1] && db.merges[0] in db.merges;
  }

  /** Two features arrive, are linked, and are no longer linked. */
  method SplitAgain() returns (tables: Tables, ghost dbs: seq<Db>, ghost ids: seq<int>)
    ensures IsHistory(dbs) && dbs[|dbs| - 1] == tables.Snapshot() && |ids| == 2
    ensures LogSound(tables.merges) && Depth(tables.merges, ids[1]) == 1 && After(tables.merges, ids[1], 1) == ids[0]
    ensures (AUTOMATIC, Face(1)) in tables.members && tables.members[(AUTOMATIC, Face(1))] != ids[0]
  {
    hide InLine, IsHistory, CompleteRun, Constraints, Features;
    tables, dbs, ids := GrowChain(1);
    LineConstrained(tables.Snapshot(), ids, 1);
    ghost var db := tables.Snapshot();
    dbs := RunOn(tables, Features(2), [], dbs);
    RunSplits(db, tables.Snapshot(), ids);
    assert ids[0] < ids[1] by { RisingIds(db, ids, 1, 0, 1); }
  }
}
