/** cluster/cluster.go over the cluster tables of db/migrations/008_clusters.sql. */
module Clusters {
  import opened Reach
  import opened Order
  import opened Reconcile

  datatype Basis = AUTOMATIC | REVIEWED

  datatype Row = Row(modality: string, basis: Basis)
  datatype MergeRow = MergeRow(basis: Basis, from: int, to: int)

  /** A statement that changed a table. */
  datatype Write =
    | ClusterCreated(id: int)
    | MemberInserted(basis: Basis, feature: string, id: int)
    | MemberDeleted(basis: Basis, feature: string)
    | ClusterDeleted(id: int)
    | MergeInserted(row: MergeRow)

  /** The three tables, the id sequence (every id so far is below nextId), the ids ever created, and
      every write so far. */
  datatype Db = Db(clusters: map<int, Row>, members: map<(Basis, string), int>, merges: seq<MergeRow>, nextId: int,
                   created: set<int>, writes: seq<Write>)

  /** What the schema itself enforces: a member row's cluster exists, in the row's layer. */
  ghost predicate Constraints(db: Db) {
    && 0 < db.nextId && db.clusters.Keys <= db.created
    && (forall id :: id in db.created ==> 0 < id < db.nextId)
    && (forall k {:trigger db.members[k]} :: k in db.members ==>
          db.members[k] in db.clusters && db.clusters[db.members[k]].basis == k.0)
  }

  /** existing lists layer `basis` as the tables hold it, for the member rows in `rows`. */
  ghost predicate LoadedFrom(db: Db, basis: Basis, rows: set<(Basis, string)>, existing: Existing) {
    && (forall id :: id in existing <==> id in db.clusters && db.clusters[id].basis == basis)
    && (forall id {:trigger existing[id]} :: id in existing ==>
          existing[id].modality == db.clusters[id].modality && NoRepeats(existing[id].members))
    && (forall id, x :: id in existing ==>
          (x in existing[id].members <==>
            (basis, x) in rows && (basis, x) in db.members && db.members[(basis, x)] == id))
  }

  ghost predicate Loaded(db: Db, basis: Basis, existing: Existing) {
    LoadedFrom(db, basis, db.members.Keys, existing)
  }

  lemma LoadedDisjoint(db: Db, basis: Basis, existing: Existing)
    requires Constraints(db) && Loaded(db, basis, existing)
    ensures Disjoint(existing)
  {
    forall i, j, m | i in existing && j in existing && m in existing[i].members && m in existing[j].members
      ensures i == j
    {
      assert db.members[(basis, m)] == i;
    }
  }

  lemma RowListed(db: Db, basis: Basis, existing: Existing, x: string)
    requires Constraints(db) && Loaded(db, basis, existing) && (basis, x) in db.members
    ensures db.members[(basis, x)] in existing && x in existing[db.members[(basis, x)]].members
  {
    var id := db.members[(basis, x)];
    assert id in db.clusters && db.clusters[id].basis == (basis, x).0;
  }

  /** x's group in the plan is stored under id. */
  predicate Assigned(p: Plan, newIds: seq<int>, x: string, id: int) {
    (id in p.kept && x in p.kept[id]) ||
      (exists i :: 0 <= i < |newIds| && i < |p.newClusters| && newIds[i] == id && x in p.newClusters[i].evidence)
  }

  /** The tables after layer `basis` has been rewritten to plan p, the new clusters getting newIds. */
  ghost predicate Applied(db: Db, after: Db, basis: Basis, p: Plan, newIds: seq<int>) {
    && |newIds| == |p.newClusters| && NoRepeats(newIds) && db.nextId <= after.nextId
    && (forall id :: id in newIds ==> db.nextId <= id < after.nextId)
    && after.created == db.created + (set id | id in newIds)
    && (forall id :: id in after.clusters <==>
          id in newIds || (id in db.clusters && (db.clusters[id].basis == basis ==> id in p.kept)))
    && (forall id {:trigger after.clusters[id]} :: id in after.clusters && id in db.clusters ==>
         after.clusters[id] == db.clusters[id])
    && (forall i {:trigger newIds[i]} :: 0 <= i < |newIds| ==>
          newIds[i] in after.clusters && after.clusters[newIds[i]] == Row(p.newClusters[i].modality, basis))
    && (forall k: (Basis, string) :: k.0 != basis ==> (k in after.members <==> k in db.members))
    && (forall k: (Basis, string) {:trigger after.members[k]} :: k.0 != basis && k in after.members ==>
         after.members[k] == db.members[k])
    && (forall x, id :: (basis, x) in after.members && after.members[(basis, x)] == id <==> Assigned(p, newIds, x, id))
    && after.merges == db.merges + MergeRows(basis, p.merges)
  }

  function MergeRows(basis: Basis, merges: seq<Merge>): (rows: seq<MergeRow>)
    ensures |rows| == |merges|
    ensures forall i {:trigger rows[i]} :: 0 <= i < |merges| ==>
      rows[i] == MergeRow(basis, merges[i].from, merges[i].to)
  {
    seq(|merges|, i requires 0 <= i < |merges| => MergeRow(basis, merges[i].from, merges[i].to))
  }

  // ------------------------------------------------------------------------------- the writes

  function CreatedWrites(newIds: seq<int>): (ws: seq<Write>)
    ensures |ws| == |newIds| && forall i {:trigger ws[i]} :: 0 <= i < |newIds| ==> ws[i] == ClusterCreated(newIds[i])
  {
    seq(|newIds|, i requires 0 <= i < |newIds| => ClusterCreated(newIds[i]))
  }

  function MergeWrites(rows: seq<MergeRow>): (ws: seq<Write>)
    ensures |ws| == |rows| && forall i {:trigger ws[i]} :: 0 <= i < |rows| ==> ws[i] == MergeInserted(rows[i])
  {
    seq(|rows|, i requires 0 <= i < |rows| => MergeInserted(rows[i]))
  }

  /** A feature moves when its final cluster is not the one it is in: its old row goes, a new one comes. */
  predicate IsMove(members: map<(Basis, string), int>, final: map<string, int>, basis: Basis, w: Write) {
    match w
    case MemberInserted(b, x, id) => b == basis && x in final && final[x] == id &&
      !((b, x) in members && members[(b, x)] == id)
    case MemberDeleted(b, x) => b == basis && x in final && (b, x) in members && members[(b, x)] != final[x]
    case _ => false
  }

  /** The writes that bring feature x into cluster id. */
  function MovesOf(members: map<(Basis, string), int>, basis: Basis, x: string, id: int): seq<Write> {
    if (basis, x) in members && members[(basis, x)] == id then []
    else if (basis, x) in members then [MemberDeleted(basis, x), MemberInserted(basis, x, id)]
    else [MemberInserted(basis, x, id)]
  }

  /** The writes are exactly those of the features that move, once each. */
  ghost predicate AreMoves(members: map<(Basis, string), int>, final: map<string, int>, basis: Basis,
                           moves: seq<Write>) {
    NoRepeats(moves) && forall w :: w in moves <==> IsMove(members, final, basis, w)
  }

  /** The writes are the deletions of the clusters not kept, once each. */
  ghost predicate AreDeletions(existing: set<int>, kept: set<int>, deletions: seq<Write>) {
    NoRepeats(deletions) && forall w :: w in deletions <==> w.ClusterDeleted? && w.id in existing && w.id !in kept
  }

  /** Layer `basis` as the table of clusters has it. */
  function IdsOfLayer(db: Db, basis: Basis): set<int> {
    set id | id in db.clusters && db.clusters[id].basis == basis
  }

  /** What writing plan p writes, and in which order: the new clusters, the features that move, the
      clusters that go, the merges. Nothing else. */
  ghost predicate Wrote(db: Db, after: Db, basis: Basis, p: Plan, newIds: seq<int>) {
    && (newIds == [] ==> after.nextId == db.nextId)
    && exists final, moves, deletions :: WroteBy(db, after, basis, p, newIds, final, moves, deletions)
  }

  ghost predicate WroteBy(db: Db, after: Db, basis: Basis, p: Plan, newIds: seq<int>, final: map<string, int>,
                          moves: seq<Write>, deletions: seq<Write>) {
    && (forall x, id :: x in final && final[x] == id <==> Assigned(p, newIds, x, id))
    && AreMoves(db.members, final, basis, moves)
    && AreDeletions(IdsOfLayer(db, basis), p.kept.Keys, deletions)
    && after.writes == db.writes + CreatedWrites(newIds) + moves + deletions + MergeWrites(MergeRows(basis, p.merges))
  }

  class Tables {
    var clusters: map<int, Row>
    var members: map<(Basis, string), int>
    var merges: seq<MergeRow>
    var nextId: int
    ghost var created: set<int>
    ghost var writes: seq<Write>

    ghost function Snapshot(): Db
      reads this
    {
      Db(clusters, members, merges, nextId, created, writes)
    }

    /** The tables as the migration makes them. */
    constructor ()
      ensures Snapshot() == Db(map[], map[], [], 1, {}, [])
    {
      clusters, members, merges, nextId := map[], map[], [], 1;
      created, writes := {}, [];
    }

    /** INSERT INTO clusters: the id comes from a sequence, which may skip numbers. */
    method CreateCluster(modality: string, basis: Basis) returns (id: int)
      requires Constraints(Snapshot())
      modifies this
      ensures Constraints(Snapshot()) && old(nextId) <= id < nextId
      ensures clusters == old(clusters)[id := Row(modality, basis)] && created == old(created) + {id}
      ensures members == old(members) && merges == old(merges) && writes == old(writes) + [ClusterCreated(id)]
    {
      id :| nextId <= id;
      writes := writes + [ClusterCreated(id)];
      nextId := id + 1;
      clusters := clusters[id := Row(modality, basis)];
      created := created + {id};
    }

    /** INSERT INTO cluster_members: the feature must be free in the layer and the cluster of it. */
    method InsertClusterMember(id: int, feature: string, basis: Basis)
      requires Constraints(Snapshot())
      requires (basis, feature) !in members && id in clusters && clusters[id].basis == basis
      modifies `members, `writes
      ensures Constraints(Snapshot()) && members == old(members)[(basis, feature) := id]
      ensures writes == old(writes) + [MemberInserted(basis, feature, id)]
    {
      writes := writes + [MemberInserted(basis, feature, id)];
      members := members[(basis, feature) := id];
    }

    method DeleteClusterMember(basis: Basis, feature: string)
      requires Constraints(Snapshot())
      modifies `members, `writes
      ensures Constraints(Snapshot()) && members == old(members) - {(basis, feature)}
      ensures writes == old(writes) + [MemberDeleted(basis, feature)]
    {
      writes := writes + [MemberDeleted(basis, feature)];
      members := members - {(basis, feature)};
    }

    /** DELETE FROM clusters: refused while a member row still refers to the cluster. */
    method DeleteCluster(id: int)
      requires Constraints(Snapshot())
      requires forall k :: k in members ==> members[k] != id
      modifies `clusters, `writes
      ensures Constraints(Snapshot()) && clusters == old(clusters) - {id}
      ensures writes == old(writes) + [ClusterDeleted(id)]
    {
      writes := writes + [ClusterDeleted(id)];
      clusters := clusters - {id};
    }

    method InsertClusterMerge(from: int, to: int, basis: Basis)
      requires Constraints(Snapshot())
      modifies `merges, `writes
      ensures Constraints(Snapshot()) && merges == old(merges) + [MergeRow(basis, from, to)]
      ensures writes == old(writes) + [MergeInserted(MergeRow(basis, from, to))]
    {
      writes := writes + [MergeInserted(MergeRow(basis, from, to))];
      merges := merges + [MergeRow(basis, from, to)];
    }

    /** A cluster row for each new cluster of the plan. */
    method CreateAll(p: Plan, basis: Basis) returns (newIds: seq<int>)
      requires Constraints(Snapshot())
      modifies this
      ensures Constraints(Snapshot()) && members == old(members) && merges == old(merges) && old(nextId) <= nextId
      ensures |newIds| == |p.newClusters| && NoRepeats(newIds)
      ensures writes == old(writes) + CreatedWrites(newIds) && (newIds == [] ==> nextId == old(nextId))
      ensures forall id :: id in newIds ==> old(nextId) <= id < nextId
      ensures created == old(created) + (set id | id in newIds)
      ensures clusters.Keys == old(clusters).Keys + (set id | id in newIds)
      ensures forall id {:trigger clusters[id]} :: id in old(clusters) ==> clusters[id] == old(clusters)[id]
      ensures forall i {:trigger newIds[i]} :: 0 <= i < |newIds| ==>
        clusters[newIds[i]] == Row(p.newClusters[i].modality, basis)
    {
      newIds := [];
      for i := 0 to |p.newClusters|
        invariant Constraints(Snapshot()) && members == old(members) && merges == old(merges) && old(nextId) <= nextId
        invariant |newIds| == i && NoRepeats(newIds)
        invariant writes == old(writes) + CreatedWrites(newIds) && (newIds == [] ==> nextId == old(nextId))
        invariant forall id :: id in newIds ==> old(nextId) <= id < nextId
        invariant created == old(created) + (set id | id in newIds)
        invariant clusters.Keys == old(clusters).Keys + (set id | id in newIds)
        invariant forall id {:trigger clusters[id]} :: id in old(clusters) ==> clusters[id] == old(clusters)[id]
        invariant forall j {:trigger newIds[j]} :: 0 <= j < i ==>
          newIds[j] in clusters && clusters[newIds[j]] == Row(p.newClusters[j].modality, basis)
      {
        var id := CreateCluster(p.newClusters[i].modality, basis);
        assert CreatedWrites(newIds + [id]) == CreatedWrites(newIds) + [ClusterCreated(id)];
        newIds := newIds + [id];
      }
    }

    /** One feature's row, written only when its cluster changes. */
    method MoveMember(feature: string, id: int, memberCluster: map<string, int>, basis: Basis)
      requires Constraints(Snapshot()) && id in clusters && clusters[id].basis == basis
      requires feature in memberCluster <==> (basis, feature) in members
      requires feature in memberCluster ==> memberCluster[feature] == members[(basis, feature)]
      modifies `members, `writes
      ensures Constraints(Snapshot()) && members == old(members)[(basis, feature) := id]
      ensures writes == old(writes) + MovesOf(old(members), basis, feature, id)
    {
      if feature in memberCluster && memberCluster[feature] == id {
        return;
      }
      if feature in memberCluster {
        DeleteClusterMember(basis, feature);
      }
      InsertClusterMember(id, feature, basis);
    }

    /** Every feature whose cluster changes is moved: its old row deleted, its new one inserted. No row of
        a feature that stays is written. */
    method MoveMembers(final: map<string, int>, memberCluster: map<string, int>, basis: Basis)
      requires Constraints(Snapshot())
      requires forall x {:trigger final[x]} :: x in final ==> final[x] in clusters && clusters[final[x]].basis == basis
      requires forall x :: x in memberCluster <==> (basis, x) in members
      requires forall x {:trigger memberCluster[x]} :: x in memberCluster ==> memberCluster[x] == members[(basis, x)]
      modifies `members, `writes
      ensures Constraints(Snapshot())
      ensures old(writes) <= writes && AreMoves(old(members), final, basis, writes[|old(writes)|..])
      ensures forall k: (Basis, string) :: k in members <==> k in old(members) || (k.0 == basis && k.1 in final)
      ensures forall k: (Basis, string) {:trigger members[k]} :: k in members ==>
        members[k] == if k.0 == basis && k.1 in final then final[k.1] else old(members)[k]
    {
      ghost var moves: seq<Write> := [];
      var todo := final.Keys;
      NothingMoved(old(members), final, basis);
      while todo != {}
        invariant Constraints(Snapshot()) && todo <= final.Keys
        invariant writes == old(writes) + moves && MovedSoFar(old(members), final, basis, todo, moves)
        invariant forall k: (Basis, string) ::
          k in members <==> k in old(members) || (k.0 == basis && k.1 in final && k.1 !in todo)
        invariant forall k: (Basis, string) {:trigger members[k]} :: k in members ==>
          members[k] == if k.0 == basis && k.1 in final && k.1 !in todo then final[k.1] else old(members)[k]
      {
        hide MovedSoFar, AreMoves, MovesOf, Constraints;
        HasString(todo);
        var feature :| feature in todo;
        MoveNext(old(members), final, basis, todo, moves, feature);
        todo := todo - {feature};
        MoveMember(feature, final[feature], memberCluster, basis);
        moves := moves + MovesOf(old(members), basis, feature, final[feature]);
      }
      assert writes[|old(writes)|..] == moves;
    }

    /** The clusters the plan does not keep are deleted. No member row refers to them any more. */
    method DeleteRetired(existing: Existing, kept: map<int, seq<string>>)
      requires Constraints(Snapshot())
      requires forall k :: k in members ==> members[k] in existing ==> members[k] in kept
      modifies `clusters, `writes
      ensures Constraints(Snapshot())
      ensures old(writes) <= writes && AreDeletions(existing.Keys, kept.Keys, writes[|old(writes)|..])
      ensures clusters == map id | id in old(clusters) && (id in existing ==> id in kept) :: old(clusters)[id]
    {
      ghost var deletions: seq<Write> := [];
      var ids := existing.Keys;
      while ids != {}
        invariant ids <= existing.Keys && Constraints(Snapshot())
        invariant writes == old(writes) + deletions && AreDeletions(existing.Keys - ids, kept.Keys, deletions)
        invariant clusters == map id | id in old(clusters) && (id in existing && id !in ids ==> id in kept) ::
          old(clusters)[id]
      {
        HasId(ids);
        var id :| id in ids;
        ids := ids - {id};
        if id !in kept {
          DeleteCluster(id);
          deletions := deletions + [ClusterDeleted(id)];
        }
      }
      assert existing.Keys - {} == existing.Keys;
      assert writes[|old(writes)|..] == deletions;
    }

    method LogMerges(log: seq<Merge>, basis: Basis)
      requires Constraints(Snapshot())
      modifies `merges, `writes
      ensures Constraints(Snapshot()) && merges == old(merges) + MergeRows(basis, log)
      ensures writes == old(writes) + MergeWrites(MergeRows(basis, log))
    {
      for i := 0 to |log|
        invariant Constraints(Snapshot()) && merges == old(merges) + MergeRows(basis, log[..i])
        invariant writes == old(writes) + MergeWrites(MergeRows(basis, log[..i]))
      {
        var row := MergeRow(basis, log[i].from, log[i].to);
        InsertClusterMerge(log[i].from, log[i].to, basis);
        assert MergeRows(basis, log[..i + 1]) == MergeRows(basis, log[..i]) + [row];
        assert MergeWrites(MergeRows(basis, log[..i]) + [row]) ==
          MergeWrites(MergeRows(basis, log[..i])) + [MergeInserted(row)];
      }
      assert log[..|log|] == log;
    }
  }

  /** The moves of the features seen so far. */
  ghost predicate MovedSoFar(members: map<(Basis, string), int>, final: map<string, int>, basis: Basis,
                             todo: set<string>, moves: seq<Write>)
  {
    && NoRepeats(moves)
    && (forall w :: w in moves <==> IsMove(members, final, basis, w) && w.feature !in todo)
  }

  lemma NothingMoved(members: map<(Basis, string), int>, final: map<string, int>, basis: Basis)
    ensures MovedSoFar(members, final, basis, final.Keys, [])
    ensures forall moves :: MovedSoFar(members, final, basis, {}, moves) ==> AreMoves(members, final, basis, moves)
  {}

  /** One feature's writes, if it moves, join the moves. */
  lemma MoveNext(members: map<(Basis, string), int>, final: map<string, int>, basis: Basis, todo: set<string>,
                 moves: seq<Write>, x: string)
    requires x in todo && x in final && MovedSoFar(members, final, basis, todo, moves)
    ensures MovedSoFar(members, final, basis, todo - {x}, moves + MovesOf(members, basis, x, final[x]))
  {
    var gone, added := MemberDeleted(basis, x), MemberInserted(basis, x, final[x]);
    assert gone !in moves && added !in moves;
    forall w
      ensures IsMove(members, final, basis, w) && w.feature !in todo - {x} <==>
        w in moves || (IsMove(members, final, basis, w) && w.feature == x)
    {}
    forall w | IsMove(members, final, basis, w) && w.feature == x
      ensures w == gone || w == added
    {}
  }

  /** The cluster each feature of the plan ends in. */
  method FinalOf(p: Plan, newIds: seq<int>) returns (final: map<string, int>)
    requires |newIds| == |p.newClusters|
    requires forall x, i, j :: Assigned(p, newIds, x, i) && Assigned(p, newIds, x, j) ==> i == j
    ensures forall x, id :: x in final && final[x] == id <==> Assigned(p, newIds, x, id)
  {
    final := map[];
    var ids := p.kept.Keys;
    while ids != {}
      invariant ids <= p.kept.Keys
      invariant forall x :: x in final <==> exists id :: id in p.kept && id !in ids && x in p.kept[id]
      invariant forall x {:trigger final[x]} :: x in final ==> Assigned(p, newIds, x, final[x])
    {
      HasId(ids);
      var id :| id in ids;
      ids := ids - {id};
      final := Place(final, p.kept[id], id);
    }
    for i := 0 to |p.newClusters|
      invariant forall x :: x in final <==>
        (exists id :: id in p.kept && x in p.kept[id]) || (exists k :: 0 <= k < i && x in p.newClusters[k].evidence)
      invariant forall x {:trigger final[x]} :: x in final ==> Assigned(p, newIds, x, final[x])
    {
      final := Place(final, p.newClusters[i].evidence, newIds[i]);
    }
  }

  method Place(before: map<string, int>, features: seq<string>, id: int) returns (final: map<string, int>)
    ensures forall x :: x in final <==> x in before || x in features
    ensures forall x {:trigger final[x]} :: x in final ==> final[x] == if x in features then id else before[x]
  {
    final := before;
    for i := 0 to |features|
      invariant forall x :: x in final <==> x in before || x in features[..i]
      invariant forall x {:trigger final[x]} :: x in final ==> final[x] == if x in features[..i] then id else before[x]
    {
      final := final[features[i] := id];
    }
    assert features[..|features|] == features;
  }

  /** What apply relies on: the plan's groups are disjoint, hold every clustered feature, and only
      existing clusters survive. */
  ghost predicate Applicable(p: Plan, existing: Existing) {
    && (forall id :: id in p.kept ==> id in existing)
    && (forall g, h, x :: In(p, g, x) && In(p, h, x) ==> g == h)
    && (forall id, x :: id in existing && x in existing[id].members ==> exists g :: In(p, g, x))
  }

  lemma PlanApplicable(modalities: map<string, string>, edges: seq<Edge>, existing: Existing,
                       nodeModality: map<string, string>, p: Plan)
    requires PlanFor(modalities, edges, existing, nodeModality, p) && Disjoint(existing)
    ensures Applicable(p, existing)
  {
    forall g, h, x | In(p, g, x) && In(p, h, x)
      ensures g == h
    {
      OneGroup(modalities, edges, existing, nodeModality, p, g, h, x);
    }
    forall id, x | id in existing && x in existing[id].members
      ensures exists g :: In(p, g, x)
    {
      assert Known(modalities, edges, existing, x);
      var g := InSome(modalities, edges, existing, nodeModality, p, x);
    }
    hide NewRight, MergesRight, ModalityRight, Known, Linked;
  }

  lemma AssignedIn(p: Plan, newIds: seq<int>, x: string)
    requires |newIds| == |p.newClusters|
    ensures (exists g :: In(p, g, x)) <==> exists id :: Assigned(p, newIds, x, id)
  {
    if g :| In(p, g, x) {
      assert Assigned(p, newIds, x, if g.Surviving? then g.id else newIds[g.index]);
    }
    if id :| Assigned(p, newIds, x, id) {
      if id in p.kept && x in p.kept[id] {
        assert In(p, Surviving(id), x);
      } else {
        var i :| 0 <= i < |newIds| && newIds[i] == id && x in p.newClusters[i].evidence;
        assert In(p, Created(i), x);
      }
    }
  }

  lemma AssignedOnce(p: Plan, newIds: seq<int>, x: string, i: int, j: int)
    requires forall g, h, x :: In(p, g, x) && In(p, h, x) ==> g == h
    requires |newIds| == |p.newClusters| && Assigned(p, newIds, x, i) && Assigned(p, newIds, x, j)
    ensures i == j
  {
    var g := if i in p.kept && x in p.kept[i] then Surviving(i) else
      var k :| 0 <= k < |newIds| && newIds[k] == i && x in p.newClusters[k].evidence; Created(k);
    var h := if j in p.kept && x in p.kept[j] then Surviving(j) else
      var k :| 0 <= k < |newIds| && newIds[k] == j && x in p.newClusters[k].evidence; Created(k);
    assert In(p, g, x) && In(p, h, x);
  }

  /** Writes one layer's plan. No statement violates the schema's constraints. */
  method Apply(tables: Tables, basis: Basis, p: Plan, memberCluster: map<string, int>, existing: Existing)
    returns (newIds: seq<int>)
    requires Constraints(tables.Snapshot()) && Loaded(tables.Snapshot(), basis, existing) && Applicable(p, existing)
    requires forall x :: x in memberCluster <==> (basis, x) in tables.members
    requires forall x {:trigger memberCluster[x]} :: x in memberCluster ==>
      memberCluster[x] == tables.members[(basis, x)]
    modifies tables
    ensures Constraints(tables.Snapshot()) && Applied(old(tables.Snapshot()), tables.Snapshot(), basis, p, newIds)
    ensures Wrote(old(tables.Snapshot()), tables.Snapshot(), basis, p, newIds)
  {
    hide Constraints, Loaded, AreMoves, AreDeletions, Applied, Wrote;
    ghost var db := tables.Snapshot();
    newIds := tables.CreateAll(p, basis);
    ghost var created := tables.Snapshot();
    forall x, i, j | Assigned(p, newIds, x, i) && Assigned(p, newIds, x, j)
      ensures i == j
    {
      AssignedOnce(p, newIds, x, i, j);
    }
    var final := FinalOf(p, newIds);
    FinalPlaced(db, created, basis, existing, p, newIds, final);
    tables.MoveMembers(final, memberCluster, basis);
    ghost var moves := tables.writes[|created.writes|..];
    MovedAway(db, created, tables.Snapshot(), basis, existing, p, newIds, final);
    ghost var moved := tables.writes;
    tables.DeleteRetired(existing, p.kept);
    ghost var deletions := tables.writes[|moved|..];
    assert tables.writes == created.writes + moves + deletions;
    tables.LogMerges(p.merges, basis);
    WrittenApplied(db, created, tables.Snapshot(), basis, existing, p, newIds, final);
    AllWritten(db, tables.Snapshot(), basis, existing, p, newIds, final, moves, deletions);
  }

  lemma LoadedIds(db: Db, basis: Basis, existing: Existing)
    requires Loaded(db, basis, existing)
    ensures existing.Keys == IdsOfLayer(db, basis)
  {
    forall id
      ensures id in existing <==> id in IdsOfLayer(db, basis)
    {}
  }

  lemma AllWritten(db: Db, after: Db, basis: Basis, existing: Existing, p: Plan, newIds: seq<int>,
                   final: map<string, int>, moves: seq<Write>, deletions: seq<Write>)
    requires Loaded(db, basis, existing) && (newIds == [] ==> after.nextId == db.nextId)
    requires forall x, id :: x in final && final[x] == id <==> Assigned(p, newIds, x, id)
    requires AreMoves(db.members, final, basis, moves) && AreDeletions(existing.Keys, p.kept.Keys, deletions)
    requires after.writes == db.writes + CreatedWrites(newIds) + moves + deletions
      + MergeWrites(MergeRows(basis, p.merges))
    ensures Wrote(db, after, basis, p, newIds)
  {
    hide AreMoves, AreDeletions, Assigned;
    LoadedIds(db, basis, existing);
    assert WroteBy(db, after, basis, p, newIds, final, moves, deletions);
  }

  /** The tables once the new clusters' rows are in. */
  ghost predicate RowsAdded(db: Db, created: Db, basis: Basis, p: Plan, newIds: seq<int>) {
    && |newIds| == |p.newClusters| && NoRepeats(newIds) && db.nextId <= created.nextId
    && created.members == db.members && created.merges == db.merges
    && (forall id :: id in newIds ==> db.nextId <= id < created.nextId)
    && created.created == db.created + (set id | id in newIds)
    && created.clusters.Keys == db.clusters.Keys + (set id | id in newIds)
    && (forall id {:trigger created.clusters[id]} :: id in db.clusters ==> created.clusters[id] == db.clusters[id])
    && (forall i {:trigger newIds[i]} :: 0 <= i < |newIds| ==>
         created.clusters[newIds[i]] == Row(p.newClusters[i].modality, basis))
  }

  lemma FinalPlaced(db: Db, created: Db, basis: Basis, existing: Existing, p: Plan, newIds: seq<int>,
                    final: map<string, int>)
    requires Constraints(db) && Loaded(db, basis, existing) && Applicable(p, existing)
    requires RowsAdded(db, created, basis, p, newIds)
    requires forall x, id :: x in final && final[x] == id <==> Assigned(p, newIds, x, id)
    ensures forall x {:trigger final[x]} :: x in final ==>
      final[x] in created.clusters && created.clusters[final[x]].basis == basis
    ensures forall x {:trigger final[x]} :: x in final ==> final[x] in p.kept || final[x] in newIds
    ensures forall x :: (basis, x) in db.members && db.members[(basis, x)] in existing ==> x in final
  {
    forall x | x in final
      ensures final[x] in created.clusters && created.clusters[final[x]].basis == basis
      ensures (final[x] in p.kept || final[x] in newIds)
    {
      assert Assigned(p, newIds, x, final[x]);
    }
    forall x | (basis, x) in db.members && db.members[(basis, x)] in existing
      ensures x in final
    {
      RowListed(db, basis, existing, x);
      GroupOf(p, existing, db.members[(basis, x)], x);
      AssignedIn(p, newIds, x);
      var id :| Assigned(p, newIds, x, id);
    }
  }

  lemma GroupOf(p: Plan, existing: Existing, id: int, x: string)
    requires Applicable(p, existing) && id in existing && x in existing[id].members
    ensures exists g :: In(p, g, x)
  {}

  lemma MovedAway(db: Db, created: Db, moved: Db, basis: Basis, existing: Existing, p: Plan, newIds: seq<int>,
                  final: map<string, int>)
    requires Constraints(db) && Loaded(db, basis, existing) && RowsAdded(db, created, basis, p, newIds)
    requires forall x {:trigger final[x]} :: x in final ==> final[x] in p.kept || final[x] in newIds
    requires forall x :: (basis, x) in db.members && db.members[(basis, x)] in existing ==> x in final
    requires forall k: (Basis, string) :: k in moved.members <==> k in db.members || (k.0 == basis && k.1 in final)
    requires forall k: (Basis, string) {:trigger moved.members[k]} :: k in moved.members ==>
      moved.members[k] == if k.0 == basis && k.1 in final then final[k.1] else db.members[k]
    ensures forall k :: k in moved.members ==> moved.members[k] in existing ==> moved.members[k] in p.kept
  {}

  lemma WrittenApplied(db: Db, created: Db, after: Db, basis: Basis, existing: Existing, p: Plan, newIds: seq<int>,
                       final: map<string, int>)
    requires Constraints(db) && Loaded(db, basis, existing) && Applicable(p, existing)
    requires RowsAdded(db, created, basis, p, newIds)
    requires forall x, id :: x in final && final[x] == id <==> Assigned(p, newIds, x, id)
    requires forall x :: (basis, x) in db.members && db.members[(basis, x)] in existing ==> x in final
    requires forall k: (Basis, string) :: k in after.members <==> k in db.members || (k.0 == basis && k.1 in final)
    requires forall k: (Basis, string) {:trigger after.members[k]} :: k in after.members ==>
      after.members[k] == if k.0 == basis && k.1 in final then final[k.1] else db.members[k]
    requires after.clusters == map id | id in created.clusters && (id in existing ==> id in p.kept) ::
      created.clusters[id]
    requires after.merges == db.merges + MergeRows(basis, p.merges) && after.nextId == created.nextId
    requires after.created == created.created
    ensures Applied(db, after, basis, p, newIds)
  {
    forall x, id
      ensures (basis, x) in after.members && after.members[(basis, x)] == id <==> Assigned(p, newIds, x, id)
    {
      if (basis, x) in db.members { RowListed(db, basis, existing, x); }
    }
  }

  // ------------------------------------------------------------------------------------- runs

  datatype ConfirmedPair = ConfirmedPair(featureA: string, featureB: string, modality: string, reviewed: bool)

  /** The confirmed pairs layer `basis` follows, as edges: all of them, or the reviewed ones. */
  function EdgesOf(pairs: seq<ConfirmedPair>, basis: Basis): seq<Edge> {
    if pairs == [] then []
    else
      var p := pairs[|pairs| - 1];
      EdgesOf(pairs[..|pairs| - 1], basis)
      + if basis == REVIEWED && !p.reviewed then [] else [Edge(p.featureA, p.featureB, p.modality)]
  }

  method EdgesFor(pairs: seq<ConfirmedPair>, basis: Basis) returns (edges: seq<Edge>)
    ensures edges == EdgesOf(pairs, basis)
  {
    edges := [];
    for i := 0 to |pairs|
      invariant edges == EdgesOf(pairs[..i], basis)
    {
      assert pairs[..i + 1][..i] == pairs[..i];
      if basis == REVIEWED && !pairs[i].reviewed { continue; }
      edges := edges + [Edge(pairs[i].featureA, pairs[i].featureB, pairs[i].modality)];
    }
    assert pairs[..|pairs|] == pairs;
  }

  lemma {:induction false} EdgeOfPair(pairs: seq<ConfirmedPair>, basis: Basis, e: Edge)
    ensures e in EdgesOf(pairs, basis) <==>
      exists p :: p in pairs && (basis == REVIEWED ==> p.reviewed) && e == Edge(p.featureA, p.featureB, p.modality)
  {
    if pairs != [] {
      var rest, last := pairs[..|pairs| - 1], pairs[|pairs| - 1];
      assert pairs == rest + [last];
      EdgeOfPair(rest, basis, e);
    }
  }

  lemma HasMember(todo: set<(Basis, string)>)
    requires todo != {}
    ensures exists k: (Basis, string) :: k in todo
  {
    if forall k: (Basis, string) :: k !in todo { assert false; }
  }

  /** One layer's clusters with their members, and each clustered feature's cluster. */
  method LoadClusters(tables: Tables, basis: Basis) returns (existing: Existing, memberCluster: map<string, int>)
    requires Constraints(tables.Snapshot())
    ensures Loaded(tables.Snapshot(), basis, existing)
    ensures forall x :: x in memberCluster <==> (basis, x) in tables.members
    ensures forall x {:trigger memberCluster[x]} :: x in memberCluster ==>
      memberCluster[x] == tables.members[(basis, x)]
  {
    ghost var db := tables.Snapshot();
    existing := map id | id in tables.clusters && tables.clusters[id].basis == basis ::
      ClusterState(tables.clusters[id].modality, []);
    memberCluster := map[];
    var todo := set k | k in tables.members && k.0 == basis;
    ghost var rows, done: set<(Basis, string)> := todo, {};
    hide Constraints, LoadedFrom;
    LoadedFirst(db, basis, existing);
    while todo != {}
      invariant rows == todo + done && todo !! done && tables.Snapshot() == db && LoadedFrom(db, basis, done, existing)
      invariant forall x :: x in memberCluster <==> (basis, x) in done
      invariant forall x {:trigger memberCluster[x]} :: x in memberCluster ==>
        memberCluster[x] == db.members[(basis, x)]
    {
      HasMember(todo);
      var k: (Basis, string) :| k in todo;
      todo := todo - {k};
      assert k == (basis, k.1) && k in db.members;
      LoadedStep(db, basis, done, existing, k);
      var id := tables.members[k];
      var cs := existing[id];
      existing := existing[id := cs.(members := cs.members + [k.1])];
      memberCluster := memberCluster[k.1 := id];
      done := done + {k};
    }
    LoadedAll(db, basis, done, existing);
  }

  lemma LoadedFirst(db: Db, basis: Basis, existing: Existing)
    requires existing == map id | id in db.clusters && db.clusters[id].basis == basis ::
      ClusterState(db.clusters[id].modality, [])
    ensures LoadedFrom(db, basis, {}, existing)
  {}

  lemma LoadedStep(db: Db, basis: Basis, done: set<(Basis, string)>, existing: Existing, k: (Basis, string))
    requires Constraints(db) && LoadedFrom(db, basis, done, existing) && k.0 == basis && k in db.members && k !in done
    ensures db.members[k] in existing
    ensures var id := db.members[k];
      LoadedFrom(db, basis, done + {k}, existing[id := existing[id].(members := existing[id].members + [k.1])])
  {
    var id := db.members[k];
    assert k == (basis, k.1);
    assert k.1 !in existing[id].members;
    var after := existing[id := existing[id].(members := existing[id].members + [k.1])];
    forall i, x | i in after
      ensures x in after[i].members <==>
        (basis, x) in done + {k} && (basis, x) in db.members && db.members[(basis, x)] == i
    {
      assert x in existing[i].members <==>
        (basis, x) in done && (basis, x) in db.members && db.members[(basis, x)] == i;
    }
  }

  lemma LoadedAll(db: Db, basis: Basis, done: set<(Basis, string)>, existing: Existing)
    requires LoadedFrom(db, basis, done, existing)
    requires done == set k | k in db.members && k.0 == basis
    ensures Loaded(db, basis, existing)
  {
    forall x ensures (basis, x) in done <==> (basis, x) in db.members {
      assert (basis, x).0 == basis;
    }
  }

  /** One layer of one run: load it, plan, and write the plan. */
  ghost predicate LayerRun(db: Db, after: Db, basis: Basis, modalities: map<string, string>, edges: seq<Edge>) {
    exists existing, nodeModality, p, newIds ::
      LayerRunBy(db, after, basis, modalities, edges, existing, nodeModality, p, newIds)
  }

  ghost predicate LayerRunBy(db: Db, after: Db, basis: Basis, modalities: map<string, string>, edges: seq<Edge>,
                             existing: Existing, nodeModality: map<string, string>, p: Plan, newIds: seq<int>) {
    && Constraints(db) && Constraints(after) && Loaded(db, basis, existing)
    && PlanFor(modalities, edges, existing, nodeModality, p) && Applied(db, after, basis, p, newIds)
    && Wrote(db, after, basis, p, newIds)
  }

  /** A complete run: the AUTOMATIC layer, then the REVIEWED one, from the same features and pairs. */
  ghost predicate CompleteRun(db: Db, after: Db, modalities: map<string, string>, pairs: seq<ConfirmedPair>) {
    exists mid :: LayerRun(db, mid, AUTOMATIC, modalities, EdgesOf(pairs, AUTOMATIC)) &&
      LayerRun(mid, after, REVIEWED, modalities, EdgesOf(pairs, REVIEWED))
  }

  // ------------------------------------------- the same in terms of pairs and byte order alone

  /** a is the first of cluster id's members, in byte order. */
  ghost predicate FirstMember(db: Db, basis: Basis, id: int, a: string) {
    && (basis, a) in db.members && db.members[(basis, a)] == id
    && forall x :: (basis, x) in db.members && db.members[(basis, x)] == id ==> x == a || Before(a, x)
  }

  /** Some confirmed pair, reviewed by people if the layer is the REVIEWED one, is of x and y. */
  ghost predicate Paired(pairs: seq<ConfirmedPair>, basis: Basis, x: string, y: string) {
    exists p :: p in pairs && (basis == REVIEWED ==> p.reviewed) &&
      ((p.featureA == x && p.featureB == y) || (p.featureA == y && p.featureB == x))
  }

  /** A chain of such pairs leads from x to y. */
  ghost predicate PairChain(pairs: seq<ConfirmedPair>, basis: Basis, x: string, y: string) {
    exists w :: PairChainBy(pairs, basis, w, x, y)
  }

  ghost predicate PairChainBy(pairs: seq<ConfirmedPair>, basis: Basis, w: seq<string>, x: string, y: string) {
    && w != [] && w[0] == x && w[|w| - 1] == y
    && forall i, j :: 0 <= i && j == i + 1 < |w| ==> Paired(pairs, basis, w[i], w[j])
  }

  ghost predicate Outlives(db: Db, basis: Basis, pairs: seq<ConfirmedPair>, id: int, a: string) {
    forall c, b :: FirstMember(db, basis, c, b) && PairChain(pairs, basis, b, a) ==> id <= c
  }

  /** A cluster outlives a run if and only if no older one's first member is chained to its own; it keeps
    * that member, and its other members are the clustered ones chained to it. */
  ghost predicate FirstsStay(db: Db, after: Db, basis: Basis, pairs: seq<ConfirmedPair>) {
    forall id, a :: FirstMember(db, basis, id, a) ==>
      && (id in after.clusters <==> Outlives(db, basis, pairs, id, a))
      && (id in after.clusters ==> HoldsChained(after, basis, pairs, id, a))
  }

  /** a is in cluster id, and so are exactly the clustered features chained to it. */
  ghost predicate HoldsChained(db: Db, basis: Basis, pairs: seq<ConfirmedPair>, id: int, a: string) {
    && (basis, a) in db.members && db.members[(basis, a)] == id
    && forall x :: (basis, x) in db.members ==> (db.members[(basis, x)] == id <==> PairChain(pairs, basis, a, x))
  }

  lemma PairChainIsChained(pairs: seq<ConfirmedPair>, basis: Basis, x: string, y: string)
    ensures PairChain(pairs, basis, x, y) <==> Chained(EdgesOf(pairs, basis), x, y)
  {
    var edges := EdgesOf(pairs, basis);
    forall u, v
      ensures Paired(pairs, basis, u, v) <==> Joined(edges, u, v)
    {
      PairedIsJoined(pairs, basis, u, v);
    }
    hide Paired, Joined, EdgesOf;
    forall w | PairChainBy(pairs, basis, w, x, y) ensures ChainFromTo(edges, w, x, y) {}
    forall w | ChainFromTo(edges, w, x, y) ensures PairChainBy(pairs, basis, w, x, y) {}
  }

  lemma PairedIsJoined(pairs: seq<ConfirmedPair>, basis: Basis, x: string, y: string)
    ensures Paired(pairs, basis, x, y) <==> Joined(EdgesOf(pairs, basis), x, y)
  {
    hide EdgesOf;
    var edges := EdgesOf(pairs, basis);
    forall e: Edge ensures e in edges <==>
      exists p :: p in pairs && (basis == REVIEWED ==> p.reviewed) && e == Edge(p.featureA, p.featureB, p.modality)
    {
      EdgeOfPair(pairs, basis, e);
    }
    forall p | p in pairs && (basis == REVIEWED ==> p.reviewed)
      ensures Edge(p.featureA, p.featureB, p.modality) in edges
    {}
  }

  lemma FirstMemberIsFirst(db: Db, basis: Basis, existing: Existing, id: int, a: string)
    requires Constraints(db) && Loaded(db, basis, existing)
    ensures FirstMember(db, basis, id, a) <==> id in existing && First(existing[id].members, a)
  {
    if FirstMember(db, basis, id, a) {
      RowListed(db, basis, existing, a);
      hide Before;
    }
  }

  lemma OutlivesIsOldest(db: Db, basis: Basis, existing: Existing, pairs: seq<ConfirmedPair>, id: int, a: string)
    requires Constraints(db) && Loaded(db, basis, existing)
    ensures Outlives(db, basis, pairs, id, a) <==> NoneOlder(EdgesOf(pairs, basis), existing, id, a)
  {
    hide Constraints, Loaded, FirstMember, First, PairChain, Chained, EdgesOf;
    forall c, b
      ensures FirstMember(db, basis, c, b) <==> c in existing && First(existing[c].members, b)
      ensures PairChain(pairs, basis, b, a) <==> Chained(EdgesOf(pairs, basis), b, a)
    {
      FirstMemberIsFirst(db, basis, existing, c, b);
      PairChainIsChained(pairs, basis, b, a);
    }
  }

  lemma LayerFirstsStay(db: Db, after: Db, basis: Basis, modalities: map<string, string>, pairs: seq<ConfirmedPair>)
    requires LayerRun(db, after, basis, modalities, EdgesOf(pairs, basis))
    ensures FirstsStay(db, after, basis, pairs)
  {
    hide LayerRunBy, Outlives, FirstMember, PairChain, HoldsChained;
    var edges := EdgesOf(pairs, basis);
    var existing, nodeModality, p, newIds :|
      LayerRunBy(db, after, basis, modalities, edges, existing, nodeModality, p, newIds);
    forall id, a | FirstMember(db, basis, id, a)
      ensures id in after.clusters <==> Outlives(db, basis, pairs, id, a)
      ensures id in after.clusters ==> HoldsChained(after, basis, pairs, id, a)
    {
      FirstStays(db, after, basis, modalities, pairs, existing, nodeModality, p, newIds, id, a);
    }
  }

  lemma FirstStays(db: Db, after: Db, basis: Basis, modalities: map<string, string>, pairs: seq<ConfirmedPair>,
                   existing: Existing, nodeModality: map<string, string>, p: Plan, newIds: seq<int>, id: int, a: string)
    requires var edges := EdgesOf(pairs, basis);
      LayerRunBy(db, after, basis, modalities, edges, existing, nodeModality, p, newIds)
    requires FirstMember(db, basis, id, a)
    ensures id in after.clusters <==> Outlives(db, basis, pairs, id, a)
    ensures id in after.clusters ==> HoldsChained(after, basis, pairs, id, a)
  {
    hide PlanFor, NoneOlder, Outlives, First, Lists, MergedWith, Rising, EdgesOf, PairChain, Chained;
    var edges := EdgesOf(pairs, basis);
    PlanByFirsts(modalities, edges, existing, nodeModality, p);
    FirstMemberIsFirst(db, basis, existing, id, a);
    OutlivesIsOldest(db, basis, existing, pairs, id, a);
    KeptIfLives(db, after, basis, existing, p, newIds, id);
    FirstDecides(modalities, edges, existing, p, id, a);
    if id in p.kept {
      ListedStays(db, after, basis, modalities, pairs, existing, p, newIds, id, a);
    }
  }

  lemma FirstDecides(modalities: map<string, string>, edges: seq<Edge>, existing: Existing, p: Plan, id: int, a: string)
    requires PlannedByFirsts(modalities, edges, existing, p) && id in existing && First(existing[id].members, a)
    ensures id in p.kept <==> NoneOlder(edges, existing, id, a)
  {
    hide NoneOlder, First;
    AnchorIsFirst(existing, id);
  }

  lemma KeptIfLives(db: Db, after: Db, basis: Basis, existing: Existing, p: Plan, newIds: seq<int>, id: int)
    requires Constraints(db) && Loaded(db, basis, existing) && Applied(db, after, basis, p, newIds) && id in existing
    ensures id in after.clusters <==> id in p.kept
  {}

  lemma ListedStays(db: Db, after: Db, basis: Basis, modalities: map<string, string>, pairs: seq<ConfirmedPair>,
                    existing: Existing, p: Plan, newIds: seq<int>, id: int, a: string)
    requires Constraints(db) && Loaded(db, basis, existing) && Applied(db, after, basis, p, newIds)
    requires id in existing && id in p.kept && First(existing[id].members, a)
    requires PlannedByFirsts(modalities, EdgesOf(pairs, basis), existing, p)
    ensures HoldsChained(after, basis, pairs, id, a)
  {
    hide EdgesOf, Before, PairChain, Chained, First, Known, MergedWith, NoneOlder, Rising;
    var edges := EdgesOf(pairs, basis);
    assert Chained(edges, a, a) by { ChainedSelf(edges, a); }
    assert Known(modalities, edges, existing, a) by { FirstKnown(modalities, edges, existing, id, a); }
    assert Lists(modalities, edges, existing, a, p.kept[id]);
    assert Assigned(p, newIds, a, id);
    forall x | (basis, x) in after.members
      ensures after.members[(basis, x)] == id <==> PairChain(pairs, basis, a, x)
    {
      PairChainIsChained(pairs, basis, a, x);
      AssignedKnown(modalities, edges, existing, p, newIds, x, after.members[(basis, x)]);
      KeptHolds(db, after, basis, existing, p, newIds, id, x);
    }
  }

  lemma KeptHolds(db: Db, after: Db, basis: Basis, existing: Existing, p: Plan, newIds: seq<int>, id: int, x: string)
    requires Constraints(db) && Loaded(db, basis, existing) && Applied(db, after, basis, p, newIds)
    requires id in existing && id in p.kept && (basis, x) in after.members
    ensures after.members[(basis, x)] == id <==> x in p.kept[id]
  {
    assert id in db.created && id !in newIds;
    assert Assigned(p, newIds, x, id) <==> x in p.kept[id];
  }

  lemma ChainedSelf(edges: seq<Edge>, a: string)
    ensures Chained(edges, a, a)
  {
    assert ChainFromTo(edges, [a], a, a);
  }

  lemma FirstKnown(modalities: map<string, string>, edges: seq<Edge>, existing: Existing, id: int, a: string)
    requires id in existing && First(existing[id].members, a)
    ensures Known(modalities, edges, existing, a)
  {}

  /** Only known features are assigned to clusters. */
  lemma AssignedKnown(modalities: map<string, string>, edges: seq<Edge>, existing: Existing, p: Plan, newIds: seq<int>,
                      x: string, id: int)
    requires PlannedByFirsts(modalities, edges, existing, p) && Assigned(p, newIds, x, id)
    ensures Known(modalities, edges, existing, x)
  {
    hide First, Known, Chained, MergedWith, Rising;
    if id in p.kept && x in p.kept[id] {
      var a :| First(existing[id].members, a) && NoneOlder(edges, existing, id, a);
      assert Lists(modalities, edges, existing, a, p.kept[id]);
    } else {
      var i :| 0 <= i < |newIds| && i < |p.newClusters| && newIds[i] == id && x in p.newClusters[i].evidence;
      assert p.newClusters[i] in p.newClusters;
    }
  }

  method RunLayer(tables: Tables, basis: Basis, modalities: map<string, string>, pairs: seq<ConfirmedPair>)
    requires Constraints(tables.Snapshot())
    modifies tables
    ensures Constraints(tables.Snapshot())
    ensures LayerRun(old(tables.Snapshot()), tables.Snapshot(), basis, modalities, EdgesOf(pairs, basis))
    ensures FirstsStay(old(tables.Snapshot()), tables.Snapshot(), basis, pairs)
  {
    hide FirstsStay, LayerRun, Constraints, Loaded, Applicable, Applied, Wrote, PlanFor, Disjoint;
    ghost var db := tables.Snapshot();
    var existing, memberCluster := LoadClusters(tables, basis);
    LoadedDisjoint(db, basis, existing);
    var edges := EdgesFor(pairs, basis);
    var p := Reconcile.Reconcile(modalities, edges, existing);
    ghost var nodeModality :| PlanFor(modalities, edges, existing, nodeModality, p);
    PlanApplicable(modalities, edges, existing, nodeModality, p);
    ghost var newIds := Apply(tables, basis, p, memberCluster, existing);
    LayerRunIs(db, tables.Snapshot(), basis, modalities, edges, existing, nodeModality, p, newIds);
    LayerFirstsStay(db, tables.Snapshot(), basis, modalities, pairs);
  }

  lemma LayerRunIs(db: Db, after: Db, basis: Basis, modalities: map<string, string>, edges: seq<Edge>,
                   existing: Existing, nodeModality: map<string, string>, p: Plan, newIds: seq<int>)
    requires Constraints(db) && Constraints(after) && Loaded(db, basis, existing)
    requires PlanFor(modalities, edges, existing, nodeModality, p) && Applied(db, after, basis, p, newIds)
    requires Wrote(db, after, basis, p, newIds)
    ensures LayerRun(db, after, basis, modalities, edges)
  {
    hide Constraints, Loaded, PlanFor, Applied, Wrote;
    assert LayerRunBy(db, after, basis, modalities, edges, existing, nodeModality, p, newIds);
  }

  /** The same clusters and member rows in one layer, as far as clusters with members go. */
  ghost predicate SameLayer(db: Db, after: Db, basis: Basis) {
    && (forall x :: (basis, x) in after.members <==> (basis, x) in db.members)
    && (forall x :: (basis, x) in db.members ==>
          after.members[(basis, x)] == db.members[(basis, x)])
  }

  /** A layer's run leaves the other layer alone. */
  lemma OtherLayerSame(db: Db, after: Db, basis: Basis, other: Basis, modalities: map<string, string>, edges: seq<Edge>)
    requires LayerRun(db, after, basis, modalities, edges) && other != basis
    ensures SameLayer(db, after, other)
    ensures forall x :: (other, x) in db.members ==> db.members[(other, x)] in after.clusters
    ensures forall x :: (other, x) in after.members ==> after.members[(other, x)] in db.created
    ensures db.created <= after.created
    ensures forall id :: id in db.created && id !in db.clusters ==> id !in after.clusters
  {
    hide PlanFor, Wrote, Loaded;
    var existing, nodeModality, p, newIds :|
      LayerRunBy(db, after, basis, modalities, edges, existing, nodeModality, p, newIds);
    forall x
      ensures (other, x) in after.members <==> (other, x) in db.members
      ensures (other, x) in db.members ==> after.members[(other, x)] == db.members[(other, x)]
    {
      assert (other, x).0 != basis;
    }
    forall id | id in db.created && id !in db.clusters
      ensures id !in after.clusters
    {
      assert id !in newIds;
    }
    forall x | (other, x) in db.members
      ensures db.members[(other, x)] in after.clusters
    {
      var id := db.members[(other, x)];
      assert (other, x).0 != basis && id in db.clusters && db.clusters[id].basis == other;
    }
  }

  lemma OutlivesSame(db: Db, after: Db, basis: Basis, pairs: seq<ConfirmedPair>)
    requires SameLayer(db, after, basis)
    ensures forall id, a :: FirstMember(db, basis, id, a) <==> FirstMember(after, basis, id, a)
    ensures forall id, a :: Outlives(db, basis, pairs, id, a) <==> Outlives(after, basis, pairs, id, a)
    ensures forall id, a :: HoldsChained(db, basis, pairs, id, a) <==> HoldsChained(after, basis, pairs, id, a)
  {
    hide PairChain, Before;
  }

  lemma RunFirstsStay(db: Db, mid: Db, after: Db, modalities: map<string, string>, pairs: seq<ConfirmedPair>)
    requires LayerRun(db, mid, AUTOMATIC, modalities, EdgesOf(pairs, AUTOMATIC))
    requires LayerRun(mid, after, REVIEWED, modalities, EdgesOf(pairs, REVIEWED))
    ensures FirstsStay(db, after, AUTOMATIC, pairs) && FirstsStay(db, after, REVIEWED, pairs)
  {
    LayerFirstsStay(db, mid, AUTOMATIC, modalities, pairs);
    LayerFirstsStay(mid, after, REVIEWED, modalities, pairs);
    OtherLayerSame(db, mid, AUTOMATIC, REVIEWED, modalities, EdgesOf(pairs, AUTOMATIC));
    OtherLayerSame(mid, after, REVIEWED, AUTOMATIC, modalities, EdgesOf(pairs, REVIEWED));
    OutlivesSame(db, mid, REVIEWED, pairs);
    OutlivesSame(mid, after, AUTOMATIC, pairs);
    hide LayerRun, Outlives, PairChain, EdgesOf;
    forall id, a | FirstMember(db, AUTOMATIC, id, a)
      ensures id in after.clusters <==> Outlives(db, AUTOMATIC, pairs, id, a)
      ensures id in after.clusters ==> HoldsChained(after, AUTOMATIC, pairs, id, a)
    {
      RowCreated(db, mid, AUTOMATIC, modalities, EdgesOf(pairs, AUTOMATIC), a);
      if id in mid.clusters { assert HoldsChained(mid, AUTOMATIC, pairs, id, a); }
    }
    forall id, a | FirstMember(db, REVIEWED, id, a)
      ensures id in after.clusters <==> Outlives(db, REVIEWED, pairs, id, a)
      ensures id in after.clusters ==> HoldsChained(after, REVIEWED, pairs, id, a)
    {
      assert FirstMember(mid, REVIEWED, id, a);
    }
  }

  lemma RowCreated(db: Db, after: Db, basis: Basis, modalities: map<string, string>, edges: seq<Edge>, a: string)
    requires LayerRun(db, after, basis, modalities, edges) && (basis, a) in db.members
    ensures db.members[(basis, a)] in db.created && db.created <= after.created
  {
    hide PlanFor, Wrote, Loaded;
    var existing, nodeModality, p, newIds :|
      LayerRunBy(db, after, basis, modalities, edges, existing, nodeModality, p, newIds);
  }

  /** Reconciles both layers and writes them. */
  method Run(tables: Tables, modalities: map<string, string>, pairs: seq<ConfirmedPair>)
    requires Constraints(tables.Snapshot())
    modifies tables
    ensures Constraints(tables.Snapshot())
    ensures CompleteRun(old(tables.Snapshot()), tables.Snapshot(), modalities, pairs)
    ensures FirstsStay(old(tables.Snapshot()), tables.Snapshot(), AUTOMATIC, pairs)
    ensures FirstsStay(old(tables.Snapshot()), tables.Snapshot(), REVIEWED, pairs)
  {
    hide Constraints, LayerRun, FirstsStay;
    ghost var db := tables.Snapshot();
    RunLayer(tables, AUTOMATIC, modalities, pairs);
    ghost var mid := tables.Snapshot();
    RunLayer(tables, REVIEWED, modalities, pairs);
    RunFirstsStay(db, mid, tables.Snapshot(), modalities, pairs);
    assert LayerRun(mid, tables.Snapshot(), REVIEWED, modalities, EdgesOf(pairs, REVIEWED));
  }
}
