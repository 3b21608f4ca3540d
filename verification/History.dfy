/** What every sequence of runs keeps, and what the merge log it leaves behind says. */
module History {
  import opened Reach
  import opened Order
  import opened Reconcile
  import opened Clusters

  /** Some merge retired id. */
  predicate Retired(merges: seq<MergeRow>, id: int) {
    exists i :: 0 <= i < |merges| && merges[i].from == id
  }

  /** Each id is retired at most once, into a smaller positive one. */
  ghost predicate LogSound(merges: seq<MergeRow>) {
    && (forall i, j :: 0 <= i < j < |merges| ==> merges[i].from != merges[j].from)
    && (forall m :: m in merges ==> 0 < m.to < m.from)
  }

  /** No cluster is empty. */
  ghost predicate NoneEmpty(db: Db) {
    forall id {:trigger db.clusters[id]} :: id in db.clusters ==>
      exists x :: (db.clusters[id].basis, x) in db.members && db.members[(db.clusters[id].basis, x)] == id
  }

  /** Every id ever created is live, or was retired by a merge, and not both. */
  ghost predicate Accounted(db: Db) {
    && (forall id :: id in db.created ==> (id in db.clusters <==> !Retired(db.merges, id)))
    && (forall m :: m in db.merges ==> m.from in db.created && m.to in db.created)
  }

  /** What holds of the tables between any two layer runs. */
  ghost predicate Sound(db: Db) {
    Constraints(db) && LogSound(db.merges) && NoneEmpty(db) && Accounted(db)
  }

  ghost predicate Empty(db: Db) {
    db.clusters == map[] && db.members == map[] && db.merges == [] && 0 < db.nextId && db.created == {}
  }

  lemma LoadedNonEmpty(db: Db, basis: Basis, existing: Existing, id: int)
    requires Sound(db) && Loaded(db, basis, existing) && id in existing
    ensures Anchored(existing, id)
  {
    var x :| (basis, x) in db.members && db.members[(basis, x)] == id;
    RowListed(db, basis, existing, x);
  }

  /** A cluster that is not kept is merged into a smaller id that is. */
  lemma RetiredMerged(E: set<(string, string)>, existing: Existing, kept: map<int, seq<string>>, merges: seq<Merge>,
                      nodes: set<string>, id: int)
    requires Disjoint(existing) && KeptRight(E, nodes, existing, kept) && MergesRight(E, existing, merges)
    requires Anchored(existing, id) && id !in kept
    ensures exists m :: m in merges && m.from == id
  {
    hide ComponentOf;
    var a := Anchor(existing, id);
    LinkedSelf(E, a);
    assert Claims(E, existing, id, a);
    var to := OldestClaim(E, existing, a);
    assert Merge(id, to) in merges;
  }

  lemma MergedRetires(E: set<(string, string)>, existing: Existing, kept: map<int, seq<string>>, merges: seq<Merge>,
                      nodes: set<string>, m: Merge)
    requires Disjoint(existing) && KeptRight(E, nodes, existing, kept) && MergesRight(E, existing, merges)
    requires m in merges
    ensures m.from in existing && m.from !in kept && m.to in kept && m.to in existing && 0 < m.to < m.from
  {
    hide ComponentOf;
    var a := Anchor(existing, m.from);
    LinkedSelf(E, a);
    assert Claims(E, existing, m.from, a);
    KeeperShared(E, existing, m.to, a);
    assert Claims(E, existing, m.to, a);
  }

  lemma LayerLog(db: Db, after: Db, basis: Basis, modalities: map<string, string>, edges: seq<Edge>, existing: Existing,
                 nodeModality: map<string, string>, p: Plan, newIds: seq<int>)
    requires Sound(db) && LayerRunBy(db, after, basis, modalities, edges, existing, nodeModality, p, newIds)
    ensures LogSound(after.merges)
    ensures forall m :: m in after.merges ==> m.from in after.created && m.to in after.created
    ensures forall id :: Retired(after.merges, id) <==> Retired(db.merges, id) || exists m ::
      m in p.merges && m.from == id
    ensures forall m :: m in p.merges ==> m.from in existing && m.from !in p.kept
    ensures forall id :: id in existing && id !in p.kept ==> exists m :: m in p.merges && m.from == id
  {
    LoadedDisjoint(db, basis, existing);
    var E := Links(edges);
    forall m | m in p.merges
      ensures m.from in existing && m.from !in p.kept && m.to in existing && 0 < m.to < m.from
    {
      MergedRetires(E, existing, p.kept, p.merges, nodeModality.Keys, m);
    }
    forall id | id in existing && id !in p.kept
      ensures exists m :: m in p.merges && m.from == id
    {
      LoadedNonEmpty(db, basis, existing, id);
      RetiredMerged(E, existing, p.kept, p.merges, nodeModality.Keys, id);
    }
    LogGrows(db, after, basis, existing, p, newIds);
  }

  lemma LogGrows(db: Db, after: Db, basis: Basis, existing: Existing, p: Plan, newIds: seq<int>)
    requires Sound(db) && Loaded(db, basis, existing) && Applied(db, after, basis, p, newIds) && Rising(p.merges)
    requires forall m :: m in p.merges ==>
      m.from in existing && m.from !in p.kept && m.to in existing && 0 < m.to < m.from
    ensures LogSound(after.merges)
    ensures forall m :: m in after.merges ==> m.from in after.created && m.to in after.created
    ensures forall id :: Retired(after.merges, id) <==> Retired(db.merges, id) || exists m ::
      m in p.merges && m.from == id
  {
    var rows := MergeRows(basis, p.merges);
    RowsSound(basis, p.merges);
    forall id
      ensures Retired(after.merges, id) <==> Retired(db.merges, id) || exists m :: m in p.merges && m.from == id
      ensures !(Retired(db.merges, id) && Retired(rows, id))
    {
      RetiredAppend(db.merges, rows, id);
      RowsRetired(basis, p.merges, id);
      if m :| m in p.merges && m.from == id { assert id in db.created && id in db.clusters; }
    }
    SoundAppend(db.merges, rows);
    forall m | m in after.merges
      ensures m.from in after.created && m.to in after.created
    {
      if m in rows {
        assert Merge(m.from, m.to) in p.merges;
      }
    }
  }

  lemma RetiredAppend(a: seq<MergeRow>, b: seq<MergeRow>, id: int)
    ensures Retired(a + b, id) <==> Retired(a, id) || Retired(b, id)
  {
    if Retired(a, id) {
      var i :| 0 <= i < |a| && a[i].from == id;
      assert (a + b)[i] == a[i];
    }
    if Retired(b, id) {
      var i :| 0 <= i < |b| && b[i].from == id;
      assert (a + b)[|a| + i] == b[i];
    }
  }

  lemma RowsRetired(basis: Basis, ms: seq<Merge>, id: int)
    ensures Retired(MergeRows(basis, ms), id) <==> exists m :: m in ms && m.from == id
  {
    if m :| m in ms && m.from == id {
      var i :| 0 <= i < |ms| && ms[i] == m;
      assert MergeRows(basis, ms)[i].from == id;
    }
    if Retired(MergeRows(basis, ms), id) {
      var i :| 0 <= i < |ms| && MergeRows(basis, ms)[i].from == id;
      assert ms[i] in ms;
    }
  }

  lemma RowsSound(basis: Basis, ms: seq<Merge>)
    requires Rising(ms) && forall m :: m in ms ==> 0 < m.to < m.from
    ensures LogSound(MergeRows(basis, ms))
    ensures forall m :: m in MergeRows(basis, ms) ==> Merge(m.from, m.to) in ms
  {
    var rows := MergeRows(basis, ms);
    forall m | m in rows
      ensures Merge(m.from, m.to) in ms
    {
      var i :| 0 <= i < |rows| && rows[i] == m;
      assert ms[i] in ms;
    }
  }

  lemma SoundAppend(a: seq<MergeRow>, b: seq<MergeRow>)
    requires LogSound(a) && LogSound(b) && forall id :: !(Retired(a, id) && Retired(b, id))
    ensures LogSound(a + b)
  {
    var c := a + b;
    forall i, j | 0 <= i < j < |c|
      ensures c[i].from != c[j].from
    {
      if i < |a| <= j {
        assert Retired(a, a[i].from);
        assert b[j - |a|] == c[j];
      }
    }
  }

  lemma LayerClusters(db: Db, after: Db, basis: Basis, modalities: map<string, string>, edges: seq<Edge>,
                      existing: Existing, nodeModality: map<string, string>, p: Plan, newIds: seq<int>, id: int)
    requires Sound(db) && LayerRunBy(db, after, basis, modalities, edges, existing, nodeModality, p, newIds)
    requires id in after.clusters
    ensures exists x ::
      (after.clusters[id].basis, x) in after.members && after.members[(after.clusters[id].basis, x)] == id
  {
    if id in newIds {
      var i :| 0 <= i < |newIds| && newIds[i] == id;
      NewHasMember(db, after, basis, modalities, edges, existing, nodeModality, p, newIds, i);
    } else if db.clusters[id].basis == basis {
      KeptHasMember(db, after, basis, modalities, edges, existing, nodeModality, p, newIds, id);
    } else {
      var b := db.clusters[id].basis;
      var x :| (b, x) in db.members && db.members[(b, x)] == id;
      assert (b, x).0 != basis;
      assert (b, x) in after.members && after.members[(b, x)] == id;
    }
  }

  lemma NewHasMember(db: Db, after: Db, basis: Basis, modalities: map<string, string>, edges: seq<Edge>,
                     existing: Existing, nodeModality: map<string, string>, p: Plan, newIds: seq<int>, i: nat)
    requires LayerRunBy(db, after, basis, modalities, edges, existing, nodeModality, p, newIds) && i < |newIds|
    ensures newIds[i] in after.clusters && after.clusters[newIds[i]].basis == basis
    ensures exists x :: (basis, x) in after.members && after.members[(basis, x)] == newIds[i]
  {
    hide Known, ModalityRight, KeptRight, MergesRight, Loaded, Constraints, Linked;
    assert MadeRight(Links(edges), nodeModality, existing, p.newClusters[i]);
    var x := p.newClusters[i].evidence[0];
    InFirst(p, i, newIds);
    assert Assigned(p, newIds, x, newIds[i]);
  }

  lemma InFirst(p: Plan, i: nat, newIds: seq<int>)
    requires i < |p.newClusters| == |newIds| && p.newClusters[i].evidence != []
    ensures Assigned(p, newIds, p.newClusters[i].evidence[0], newIds[i])
  {}

  lemma KeptHasMember(db: Db, after: Db, basis: Basis, modalities: map<string, string>, edges: seq<Edge>,
                      existing: Existing, nodeModality: map<string, string>, p: Plan, newIds: seq<int>, id: int)
    requires LayerRunBy(db, after, basis, modalities, edges, existing, nodeModality, p, newIds)
    requires id in db.clusters && db.clusters[id].basis == basis && id in after.clusters && id !in newIds
    ensures id in p.kept && after.clusters[id].basis == basis
    ensures exists x :: (basis, x) in after.members && after.members[(basis, x)] == id
  {
    hide ModalityRight, NewRight, MergesRight, Constraints, Linked;
    var x := Anchor(existing, id);
    LinkedSelf(Links(edges), x);
    assert Known(modalities, edges, existing, x);
    assert ComponentOf(Links(edges), nodeModality.Keys, x, p.kept[id]);
    assert Assigned(p, newIds, x, id);
  }

  /** A layer's run keeps the tables sound. */
  lemma LayerRunSound(db: Db, after: Db, basis: Basis, modalities: map<string, string>, edges: seq<Edge>)
    requires Sound(db) && LayerRun(db, after, basis, modalities, edges)
    ensures Sound(after)
  {
    hide Sound, PlanFor, Applied, Loaded, Constraints;
    var existing, nodeModality, p, newIds :|
      LayerRunBy(db, after, basis, modalities, edges, existing, nodeModality, p, newIds);
    LayerNoneEmpty(db, after, basis, modalities, edges, existing, nodeModality, p, newIds);
    LayerAccounted(db, after, basis, modalities, edges, existing, nodeModality, p, newIds);
    SoundFrom(after);
  }

  lemma SoundFrom(db: Db)
    requires Constraints(db) && LogSound(db.merges) && NoneEmpty(db) && Accounted(db)
    ensures Sound(db)
  {}

  lemma LayerNoneEmpty(db: Db, after: Db, basis: Basis, modalities: map<string, string>, edges: seq<Edge>,
                       existing: Existing, nodeModality: map<string, string>, p: Plan, newIds: seq<int>)
    requires Sound(db) && LayerRunBy(db, after, basis, modalities, edges, existing, nodeModality, p, newIds)
    ensures NoneEmpty(after)
  {
    hide Sound, LayerRunBy;
    forall id {:trigger after.clusters[id]} | id in after.clusters
      ensures exists x ::
        (after.clusters[id].basis, x) in after.members && after.members[(after.clusters[id].basis, x)] == id
    {
      LayerClusters(db, after, basis, modalities, edges, existing, nodeModality, p, newIds, id);
    }
  }

  lemma LayerAccounted(db: Db, after: Db, basis: Basis, modalities: map<string, string>, edges: seq<Edge>,
                       existing: Existing, nodeModality: map<string, string>, p: Plan, newIds: seq<int>)
    requires Sound(db) && LayerRunBy(db, after, basis, modalities, edges, existing, nodeModality, p, newIds)
    ensures Accounted(after) && LogSound(after.merges)
  {
    hide PlanFor, Applied, Loaded, Sound, Retired, LogSound;
    LayerLog(db, after, basis, modalities, edges, existing, nodeModality, p, newIds);
    LayerIds(db, after, basis, existing, p, newIds);
  }

  lemma LayerIds(db: Db, after: Db, basis: Basis, existing: Existing, p: Plan, newIds: seq<int>)
    requires Sound(db) && Loaded(db, basis, existing) && Applied(db, after, basis, p, newIds)
    requires forall id :: Retired(after.merges, id) <==> Retired(db.merges, id) || exists m ::
      m in p.merges && m.from == id
    requires forall m :: m in p.merges ==> m.from in existing && m.from !in p.kept
    requires forall id :: id in existing && id !in p.kept ==> exists m :: m in p.merges && m.from == id
    ensures forall id :: id in after.created ==> (id in after.clusters <==> !Retired(after.merges, id))
  {
    forall id | id in after.created
      ensures id in after.clusters <==> !Retired(after.merges, id)
    {
      if Retired(db.merges, id) {
        var i :| 0 <= i < |db.merges| && db.merges[i].from == id;
        assert db.merges[i] in db.merges;
      }
    }
  }

  // ------------------------------------------------------------------------ whole histories

  /** Some layer was rewritten, from whatever features and pairs there were then. */
  ghost predicate Step(db: Db, after: Db) {
    exists basis, modalities, edges :: LayerRun(db, after, basis, modalities, edges)
  }

  /** The states of tables that started empty, one layer rewrite after another. */
  ghost predicate IsHistory(dbs: seq<Db>) {
    dbs != [] && Empty(dbs[0]) && forall i: nat {:trigger StepAt(dbs, i)} :: i < |dbs| - 1 ==> StepAt(dbs, i)
  }

  ghost predicate StepAt(dbs: seq<Db>, i: nat)
    requires i < |dbs| - 1
  {
    Step(dbs[i], dbs[i + 1])
  }

  lemma {:induction false} HistorySound(dbs: seq<Db>, i: nat)
    requires IsHistory(dbs) && i < |dbs|
    ensures Sound(dbs[i])
  {
    if i > 0 {
      HistorySound(dbs, i - 1);
      assert StepAt(dbs, i - 1);
      hide Sound, LayerRun;
      var basis, modalities, edges :| LayerRun(dbs[i - 1], dbs[i], basis, modalities, edges);
      LayerRunSound(dbs[i - 1], dbs[i], basis, modalities, edges);
    }
  }

  /** Every merge is into an id no earlier merge had retired. */
  ghost predicate IntoLive(merges: seq<MergeRow>) {
    forall i, j :: 0 <= i < j < |merges| ==> merges[i].from != merges[j].to
  }

  lemma IntoLiveAppend(a: seq<MergeRow>, b: seq<MergeRow>)
    requires IntoLive(a) && forall m, n :: m in b && n in b ==> !Retired(a, m.to) && n.from != m.to
    ensures IntoLive(a + b)
  {
    var c := a + b;
    forall i, j | 0 <= i < j < |c|
      ensures c[i].from != c[j].to
    {
      if j >= |a| {
        assert c[j] == b[j - |a|] && b[j - |a|] in b;
        if i >= |a| {
          assert c[i] == b[i - |a|] && b[i - |a|] in b;
        } else {
          assert c[i] == a[i] && Retired(a, a[i].from);
        }
      }
    }
  }

  lemma MergesIntoLive(db: Db, basis: Basis, modalities: map<string, string>, edges: seq<Edge>, existing: Existing,
                       nodeModality: map<string, string>, p: Plan)
    requires Sound(db) && Loaded(db, basis, existing) && PlanFor(modalities, edges, existing, nodeModality, p)
    ensures forall m :: m in p.merges ==> m.from !in p.kept && m.to in p.kept && !Retired(db.merges, m.to)
  {
    LoadedDisjoint(db, basis, existing);
    forall m | m in p.merges
      ensures m.from !in p.kept && m.to in p.kept && !Retired(db.merges, m.to)
    {
      MergedRetires(Links(edges), existing, p.kept, p.merges, nodeModality.Keys, m);
      assert m.to in db.clusters && m.to in db.created;
    }
  }

  lemma StepIntoLive(db: Db, after: Db, basis: Basis, modalities: map<string, string>, edges: seq<Edge>,
                     existing: Existing, nodeModality: map<string, string>, p: Plan, newIds: seq<int>)
    requires Sound(db) && LayerRunBy(db, after, basis, modalities, edges, existing, nodeModality, p, newIds)
    requires IntoLive(db.merges)
    ensures IntoLive(after.merges)
  {
    MergesIntoLive(db, basis, modalities, edges, existing, nodeModality, p);
    hide Sound, PlanFor, Loaded, Constraints, Wrote, Retired, IntoLive;
    var rows := MergeRows(basis, p.merges);
    forall m | m in rows
      ensures Merge(m.from, m.to) in p.merges
    {
      var i :| 0 <= i < |rows| && rows[i] == m;
      assert p.merges[i] in p.merges;
    }
    IntoLiveAppend(db.merges, rows);
  }

  /** At every point of every history, merges lead into clusters that were live when they were made. */
  lemma {:induction false} HistoryIntoLive(dbs: seq<Db>, i: nat)
    requires IsHistory(dbs) && i < |dbs|
    ensures IntoLive(dbs[i].merges)
  {
    if i > 0 {
      HistoryIntoLive(dbs, i - 1);
      HistorySound(dbs, i - 1);
      assert StepAt(dbs, i - 1);
      hide Sound, LayerRunBy, IntoLive;
      var basis, modalities, edges :| LayerRun(dbs[i - 1], dbs[i], basis, modalities, edges);
      var existing, nodeModality, p, newIds :|
        LayerRunBy(dbs[i - 1], dbs[i], basis, modalities, edges, existing, nodeModality, p, newIds);
      StepIntoLive(dbs[i - 1], dbs[i], basis, modalities, edges, existing, nodeModality, p, newIds);
    } else {
      assert dbs[0].merges == [];
    }
  }

  /** How many merges retire id. */
  function TimesRetired(merges: seq<MergeRow>, id: int): nat {
    if merges == [] then 0
    else TimesRetired(merges[..|merges| - 1], id) + if merges[|merges| - 1].from == id then 1 else 0
  }

  lemma {:induction false} RetiredOnce(merges: seq<MergeRow>, id: int)
    requires LogSound(merges)
    ensures TimesRetired(merges, id) == if Retired(merges, id) then 1 else 0
  {
    if merges != [] {
      var rest, last := merges[..|merges| - 1], merges[|merges| - 1];
      assert merges == rest + [last];
      RetiredOnce(rest, id);
      RetiredAppend(rest, [last], id);
      assert Retired([last], id) <==> [last][0].from == id;
      if Retired(rest, id) {
        var i :| 0 <= i < |rest| && rest[i].from == id;
        assert merges[i].from != merges[|merges| - 1].from;
      }
    }
  }

  /** At any point of any history, an id created by then is live and never merged, or gone and the
      source of exactly one merge. Ids are never reused: what was created stays created. */
  lemma LiveOrMergedOnce(dbs: seq<Db>, i: nat, j: nat, id: int)
    requires IsHistory(dbs) && i <= j < |dbs| && id in dbs[i].created
    ensures id in dbs[j].created
    ensures TimesRetired(dbs[j].merges, id) == if id in dbs[j].clusters then 0 else 1
  {
    CreatedStays(dbs, i, j);
    HistorySound(dbs, j);
    RetiredOnce(dbs[j].merges, id);
  }

  lemma {:induction false} CreatedStays(dbs: seq<Db>, i: nat, j: nat)
    requires IsHistory(dbs) && i <= j < |dbs|
    ensures dbs[i].created <= dbs[j].created
  {
    if i < j {
      hide Step;
      CreatedStays(dbs, i, j - 1);
      assert StepAt(dbs, j - 1);
      StepCreates(dbs[j - 1], dbs[j]);
    }
  }

  lemma StepCreates(db: Db, after: Db)
    requires Step(db, after)
    ensures db.created <= after.created
  {
    hide PlanFor, Loaded, Constraints;
    var basis, modalities, edges :| LayerRun(db, after, basis, modalities, edges);
    var existing, nodeModality, p, newIds :|
      LayerRunBy(db, after, basis, modalities, edges, existing, nodeModality, p, newIds);
    assert Applied(db, after, basis, p, newIds);
  }

  // ------------------------------------------------------------------- the membership table

  /** After a layer's run, exactly the known features are members, and two share a cluster exactly
      when edges link them. */
  lemma LayerMembers(db: Db, after: Db, basis: Basis, modalities: map<string, string>, edges: seq<Edge>,
                     existing: Existing, nodeModality: map<string, string>, p: Plan, newIds: seq<int>, x: string,
                     y: string)
    requires LayerRunBy(db, after, basis, modalities, edges, existing, nodeModality, p, newIds)
    ensures (basis, x) in after.members <==> Known(modalities, edges, existing, x)
    ensures (basis, x) in after.members && (basis, y) in after.members ==>
      (after.members[(basis, x)] == after.members[(basis, y)] <==> Linked(Links(edges), x, y))
  {
    LoadedDisjoint(db, basis, existing);
    InPlan(modalities, edges, existing, nodeModality, p, newIds, x);
    InPlan(modalities, edges, existing, nodeModality, p, newIds, y);
    MemberAssigned(db, after, basis, p, newIds, x);
    MemberAssigned(db, after, basis, p, newIds, y);
    hide PlanFor, Loaded, Constraints, Linked, Known, Applied, Assigned;
    if (basis, x) in after.members && (basis, y) in after.members {
      SharesGroup(db, after, basis, modalities, edges, existing, nodeModality, p, newIds, x, y);
    }
  }

  /** Which cluster a feature ends in: the oldest whose anchor is in its component, or a new one. */
  lemma Placement(db: Db, after: Db, basis: Basis, modalities: map<string, string>, edges: seq<Edge>,
                  existing: Existing, nodeModality: map<string, string>, p: Plan, newIds: seq<int>, x: string)
    requires LayerRunBy(db, after, basis, modalities, edges, existing, nodeModality, p, newIds)
    requires Known(modalities, edges, existing, x)
    ensures (basis, x) in after.members
    ensures forall id :: Keeper(Links(edges), existing, id, x) ==> after.members[(basis, x)] == id
    ensures Unclaimed(Links(edges), existing, x) ==> after.members[(basis, x)] in newIds
  {
    LoadedDisjoint(db, basis, existing);
    InPlan(modalities, edges, existing, nodeModality, p, newIds, x);
    MemberAssigned(db, after, basis, p, newIds, x);
    PlannedPlace(modalities, edges, existing, nodeModality, p, newIds, x);
    hide PlanFor, Loaded, Constraints, Known, Wrote, Keeper, Unclaimed, Assigned;
  }

  lemma PlannedPlace(modalities: map<string, string>, edges: seq<Edge>, existing: Existing,
                     nodeModality: map<string, string>, p: Plan, newIds: seq<int>, x: string)
    requires PlanFor(modalities, edges, existing, nodeModality, p) && |newIds| == |p.newClusters|
    requires Known(modalities, edges, existing, x)
    ensures forall id :: Keeper(Links(edges), existing, id, x) ==> Assigned(p, newIds, x, id)
    ensures Unclaimed(Links(edges), existing, x) ==> exists id :: id in newIds && Assigned(p, newIds, x, id)
  {
    var E := Links(edges);
    hide Linked, Known, ModalityRight, MergesRight, Anchor, MadeRight, Claims, Links;
    forall id | Keeper(E, existing, id, x)
      ensures Assigned(p, newIds, x, id)
    {
      KeeperShared(E, existing, id, x);
      ClaimsAnchored(E, existing, id, x);
      assert ComponentOf(E, nodeModality.Keys, Anchor(existing, id), p.kept[id]);
    }
    if Unclaimed(E, existing, x) {
      var c :| c in p.newClusters && x in c.evidence;
      var i :| 0 <= i < |p.newClusters| && p.newClusters[i] == c;
      assert Assigned(p, newIds, x, newIds[i]) && newIds[i] in newIds;
    }
  }

  lemma MemberAssigned(db: Db, after: Db, basis: Basis, p: Plan, newIds: seq<int>, x: string)
    requires Applied(db, after, basis, p, newIds)
    ensures (basis, x) in after.members <==> exists id :: Assigned(p, newIds, x, id)
    ensures (basis, x) in after.members ==> Assigned(p, newIds, x, after.members[(basis, x)])
  {
    if (basis, x) in after.members {
      assert Assigned(p, newIds, x, after.members[(basis, x)]);
    }
    if id :| Assigned(p, newIds, x, id) {
      assert (basis, x) in after.members;
    }
  }

  lemma InPlan(modalities: map<string, string>, edges: seq<Edge>, existing: Existing, nodeModality: map<string, string>,
               p: Plan, newIds: seq<int>, x: string)
    requires PlanFor(modalities, edges, existing, nodeModality, p) && Disjoint(existing) && |newIds| == |p.newClusters|
    ensures Known(modalities, edges, existing, x) <==> exists id :: Assigned(p, newIds, x, id)
  {
    AssignedIn(p, newIds, x);
    if Known(modalities, edges, existing, x) {
      var g := InSome(modalities, edges, existing, nodeModality, p, x);
    }
    if g :| In(p, g, x) {
      InLinked(modalities, edges, existing, nodeModality, p, g, x, x);
    }
  }

  lemma SharesGroup(db: Db, after: Db, basis: Basis, modalities: map<string, string>, edges: seq<Edge>,
                    existing: Existing, nodeModality: map<string, string>, p: Plan, newIds: seq<int>, x: string,
                    y: string)
    requires LayerRunBy(db, after, basis, modalities, edges, existing, nodeModality, p, newIds)
    requires (basis, x) in after.members && (basis, y) in after.members
    ensures after.members[(basis, x)] == after.members[(basis, y)] <==> Linked(Links(edges), x, y)
  {
    MemberAssigned(db, after, basis, p, newIds, x);
    MemberAssigned(db, after, basis, p, newIds, y);
    NewApartFromKept(db, after, basis, existing, p, newIds);
    LoadedDisjoint(db, basis, existing);
    PlanApplicable(modalities, edges, existing, nodeModality, p);
    KeptExist(modalities, edges, existing, nodeModality, p);
    hide LayerRunBy, Applied, Loaded, Constraints, PlanFor, Linked, Assigned;
    var i, j := after.members[(basis, x)], after.members[(basis, y)];
    var g := GroupAssigned(p, newIds, x, i);
    var h := GroupAssigned(p, newIds, y, j);
    assert PlanFor(modalities, edges, existing, nodeModality, p)
      by { PlanOf(db, after, basis, modalities, edges, existing, nodeModality, p, newIds); }
    InLinked(modalities, edges, existing, nodeModality, p, g, x, y);
    InLinked(modalities, edges, existing, nodeModality, p, h, y, y);
    SameIdSameGroup(p, newIds, g, h, i, j);
    GroupsDiffer(p, existing, g, h, y);
  }

  lemma GroupsDiffer(p: Plan, existing: Existing, g: GroupId, h: GroupId, y: string)
    requires Applicable(p, existing) && In(p, h, y)
    ensures In(p, g, y) <==> g == h
  {}

  lemma PlanOf(db: Db, after: Db, basis: Basis, modalities: map<string, string>, edges: seq<Edge>, existing: Existing,
               nodeModality: map<string, string>, p: Plan, newIds: seq<int>)
    requires LayerRunBy(db, after, basis, modalities, edges, existing, nodeModality, p, newIds)
    ensures PlanFor(modalities, edges, existing, nodeModality, p)
  {}

  lemma KeptExist(modalities: map<string, string>, edges: seq<Edge>, existing: Existing,
                  nodeModality: map<string, string>, p: Plan)
    requires PlanFor(modalities, edges, existing, nodeModality, p)
    ensures forall id :: id in p.kept ==> id in existing
  {
    hide NewRight, MergesRight, Known, ModalityRight, Linked;
  }

  /** The id group g is stored under. */
  predicate StoredAs(p: Plan, newIds: seq<int>, g: GroupId, id: int) {
    match g
    case Surviving(i) => i == id && id in p.kept
    case Created(i) => i < |newIds| && newIds[i] == id
  }

  lemma GroupAssigned(p: Plan, newIds: seq<int>, x: string, id: int) returns (g: GroupId)
    requires |newIds| == |p.newClusters| && Assigned(p, newIds, x, id)
    ensures In(p, g, x) && StoredAs(p, newIds, g, id)
  {
    if id in p.kept && x in p.kept[id] {
      g := Surviving(id);
    } else {
      var i :| 0 <= i < |newIds| && newIds[i] == id && x in p.newClusters[i].evidence;
      g := Created(i);
    }
  }

  lemma NewApartFromKept(db: Db, after: Db, basis: Basis, existing: Existing, p: Plan, newIds: seq<int>)
    requires Constraints(db) && Loaded(db, basis, existing) && Applied(db, after, basis, p, newIds)
    ensures NoRepeats(newIds) && |newIds| == |p.newClusters|
    ensures forall id :: id in newIds ==> id !in existing
  {}

  lemma SameIdSameGroup(p: Plan, newIds: seq<int>, g: GroupId, h: GroupId, i: int, j: int)
    requires NoRepeats(newIds) && StoredAs(p, newIds, g, i) && StoredAs(p, newIds, h, j)
    requires forall id :: id in newIds ==> id !in p.kept
    ensures i == j <==> g == h
  {
    if g.Created? { assert newIds[g.index] in newIds; }
    if h.Created? { assert newIds[h.index] in newIds; }
  }

  // --------------------------------------------------------------------------- the two layers

  lemma LayerMembersOf(db: Db, after: Db, basis: Basis, modalities: map<string, string>, edges: seq<Edge>, x: string,
                       y: string)
    requires LayerRun(db, after, basis, modalities, edges)
    ensures x in modalities || Mentioned(edges, x) || (basis, x) in db.members <==> (basis, x) in after.members
    ensures (basis, x) in after.members && (basis, y) in after.members ==>
      (after.members[(basis, x)] == after.members[(basis, y)] <==> Linked(Links(edges), x, y))
  {
    hide PlanFor, Applied, Constraints, Loaded, Linked;
    var existing, nodeModality, p, newIds :|
      LayerRunBy(db, after, basis, modalities, edges, existing, nodeModality, p, newIds);
    LayerMembers(db, after, basis, modalities, edges, existing, nodeModality, p, newIds, x, y);
    ClusteredIff(db, basis, existing, x);
  }

  lemma ClusteredIff(db: Db, basis: Basis, existing: Existing, x: string)
    requires Constraints(db) && Loaded(db, basis, existing)
    ensures (basis, x) in db.members <==> exists id :: id in existing && x in existing[id].members
  {
    if (basis, x) in db.members {
      RowListed(db, basis, existing, x);
      assert db.members[(basis, x)] in existing;
    }
    if id :| id in existing && x in existing[id].members {
      assert (basis, x) in db.members && db.members[(basis, x)] == id;
    }
  }

  /** Rewriting one layer leaves the other's member rows alone. */
  lemma OtherLayerKept(db: Db, after: Db, basis: Basis, other: Basis, modalities: map<string, string>, edges: seq<Edge>,
                       x: string)
    requires LayerRun(db, after, basis, modalities, edges) && other != basis
    ensures (other, x) in after.members <==> (other, x) in db.members
    ensures (other, x) in after.members ==> after.members[(other, x)] == db.members[(other, x)]
  {
    hide PlanFor, Constraints, Loaded;
    var existing, nodeModality, p, newIds :|
      LayerRunBy(db, after, basis, modalities, edges, existing, nodeModality, p, newIds);
    assert Applied(db, after, basis, p, newIds) && (other, x).0 == other;
  }

  lemma ReviewedAreConfirmed(pairs: seq<ConfirmedPair>)
    ensures Links(EdgesOf(pairs, REVIEWED)) <= Links(EdgesOf(pairs, AUTOMATIC))
    ensures forall x :: Mentioned(EdgesOf(pairs, REVIEWED), x) ==> Mentioned(EdgesOf(pairs, AUTOMATIC), x)
  {
    forall e | e in EdgesOf(pairs, REVIEWED)
      ensures e in EdgesOf(pairs, AUTOMATIC)
    {
      EdgeOfPair(pairs, REVIEWED, e);
      EdgeOfPair(pairs, AUTOMATIC, e);
    }
    forall l | l in Links(EdgesOf(pairs, REVIEWED))
      ensures l in Links(EdgesOf(pairs, AUTOMATIC))
    {
      var e :| e in EdgesOf(pairs, REVIEWED) && l == (e.left, e.right);
    }
  }

  lemma LinkedMentioned(edges: seq<Edge>, x: string, y: string)
    requires Linked(Links(edges), x, y) && x != y
    ensures Mentioned(edges, x)
  {
    var w :| WalkFromTo(Links(edges), w, x, y);
    assert EdgeAt(Links(edges), w, 0);
    var e :| e in edges && ((x, w[1]) == (e.left, e.right) || (w[1], x) == (e.left, e.right));
  }

  /** After a complete run, two features that share a REVIEWED cluster share an AUTOMATIC one. */
  lemma ReviewedInsideAutomatic(db: Db, after: Db, modalities: map<string, string>, pairs: seq<ConfirmedPair>,
                                x: string, y: string)
    requires CompleteRun(db, after, modalities, pairs) && x != y
    requires (REVIEWED, x) in after.members && (REVIEWED, y) in after.members
    requires after.members[(REVIEWED, x)] == after.members[(REVIEWED, y)]
    ensures (AUTOMATIC, x) in after.members && (AUTOMATIC, y) in after.members
    ensures after.members[(AUTOMATIC, x)] == after.members[(AUTOMATIC, y)]
  {
    hide LayerRun, Linked, Mentioned, Links, EdgesOf;
    var all, reviewed := EdgesOf(pairs, AUTOMATIC), EdgesOf(pairs, REVIEWED);
    var mid :| LayerRun(db, mid, AUTOMATIC, modalities, all) && LayerRun(mid, after, REVIEWED, modalities, reviewed);
    LayerMembersOf(mid, after, REVIEWED, modalities, reviewed, x, y);
    ReviewedAreConfirmed(pairs);
    LinkedMono(Links(reviewed), Links(all), x, y);
    LinkedSym(Links(all), x, y);
    LinkedMentioned(all, x, y);
    LinkedMentioned(all, y, x);
    LayerMembersOf(db, mid, AUTOMATIC, modalities, all, x, y);
    LayerMembersOf(db, mid, AUTOMATIC, modalities, all, y, x);
    OtherLayerKept(mid, after, REVIEWED, AUTOMATIC, modalities, reviewed, x);
    OtherLayerKept(mid, after, REVIEWED, AUTOMATIC, modalities, reviewed, y);
  }

  /** Every feature of the REVIEWED layer is in the AUTOMATIC one too. */
  ghost predicate Covered(db: Db) {
    forall x :: (REVIEWED, x) in db.members ==> (AUTOMATIC, x) in db.members
  }

  /** Complete runs keep every REVIEWED cluster, singletons included, inside an AUTOMATIC one. */
  lemma CoveredStays(db: Db, after: Db, modalities: map<string, string>, pairs: seq<ConfirmedPair>)
    requires CompleteRun(db, after, modalities, pairs) && Covered(db)
    ensures Covered(after)
  {
    hide LayerRun, Linked, Mentioned, Links, EdgesOf;
    var all, reviewed := EdgesOf(pairs, AUTOMATIC), EdgesOf(pairs, REVIEWED);
    var mid :| LayerRun(db, mid, AUTOMATIC, modalities, all) && LayerRun(mid, after, REVIEWED, modalities, reviewed);
    ReviewedAreConfirmed(pairs);
    forall x | (REVIEWED, x) in after.members
      ensures (AUTOMATIC, x) in after.members
    {
      LayerMembersOf(mid, after, REVIEWED, modalities, reviewed, x, x);
      OtherLayerKept(db, mid, AUTOMATIC, REVIEWED, modalities, all, x);
      LayerMembersOf(db, mid, AUTOMATIC, modalities, all, x, x);
      OtherLayerKept(mid, after, REVIEWED, AUTOMATIC, modalities, reviewed, x);
    }
  }

  // ------------------------------------------------------------------------------ second runs

  /** The layer's member rows are what the features and pairs call for. */
  ghost predicate SettledLayer(db: Db, basis: Basis, modalities: map<string, string>, edges: seq<Edge>) {
    && (forall x :: x in modalities || Mentioned(edges, x) ==> (basis, x) in db.members)
    && (forall x, y :: (basis, x) in db.members && (basis, y) in db.members ==>
          (db.members[(basis, x)] == db.members[(basis, y)] <==> Linked(Links(edges), x, y)))
  }

  lemma RunSettles(db: Db, after: Db, basis: Basis, modalities: map<string, string>, edges: seq<Edge>)
    requires LayerRun(db, after, basis, modalities, edges)
    ensures SettledLayer(after, basis, modalities, edges)
  {
    hide LayerRun, Linked, Mentioned;
    forall x | x in modalities || Mentioned(edges, x)
      ensures (basis, x) in after.members
    {
      LayerMembersOf(db, after, basis, modalities, edges, x, x);
    }
    forall x, y | (basis, x) in after.members && (basis, y) in after.members
      ensures after.members[(basis, x)] == after.members[(basis, y)] <==> Linked(Links(edges), x, y)
    {
      LayerMembersOf(db, after, basis, modalities, edges, x, y);
    }
  }

  lemma StaysSettled(db: Db, after: Db, basis: Basis, other: Basis, modalities: map<string, string>, edges: seq<Edge>,
                     more: seq<Edge>)
    requires SettledLayer(db, basis, modalities, edges) && LayerRun(db, after, other, modalities, more)
    requires other != basis
    ensures SettledLayer(after, basis, modalities, edges)
  {
    hide LayerRun, Linked, Mentioned;
    forall x
      ensures (basis, x) in after.members <==> (basis, x) in db.members
      ensures (basis, x) in after.members ==> after.members[(basis, x)] == db.members[(basis, x)]
    {
      OtherLayerKept(db, after, other, basis, modalities, more, x);
    }
  }

  /** Running a settled layer again on the same features and pairs plans nothing and writes nothing: the
      tables, the id sequence and the writes made so far are as they were. */
  lemma SettledRunIdle(mid: Db, after: Db, basis: Basis, modalities: map<string, string>, edges: seq<Edge>,
                       existing: Existing, nodeModality: map<string, string>, p: Plan, newIds: seq<int>)
    requires Sound(mid) && SettledLayer(mid, basis, modalities, edges)
    requires LayerRunBy(mid, after, basis, modalities, edges, existing, nodeModality, p, newIds)
    ensures p.newClusters == [] && p.merges == [] && p.kept.Keys == existing.Keys && after == mid
  {
    LoadedDisjoint(mid, basis, existing);
    forall x
      ensures Known(modalities, edges, existing, x) <==> (basis, x) in mid.members
    {
      ClusteredIff(mid, basis, existing, x);
    }
    SettledClaims(mid, basis, modalities, edges, existing);
    IdlePlan(mid, basis, modalities, edges, existing, nodeModality, p);
    hide Linked, PlanFor, SettledLayer;
    SecondMembers(mid, after, basis, modalities, edges, existing, nodeModality, p, newIds);
    IdleTables(mid, after, basis, existing, p, newIds);
    IdleWrites(mid, after, basis, existing, p, newIds);
  }

  lemma LayerIdle(mid: Db, after: Db, basis: Basis, modalities: map<string, string>, edges: seq<Edge>)
    requires Sound(mid) && SettledLayer(mid, basis, modalities, edges) && LayerRun(mid, after, basis, modalities, edges)
    ensures after == mid
  {
    hide Sound, SettledLayer, LayerRunBy;
    var existing, nodeModality, p, newIds :|
      LayerRunBy(mid, after, basis, modalities, edges, existing, nodeModality, p, newIds);
    SettledRunIdle(mid, after, basis, modalities, edges, existing, nodeModality, p, newIds);
  }

  /** A second complete run on the same features and decisions writes nothing. */
  lemma SecondRunIdle(db: Db, mid: Db, after: Db, modalities: map<string, string>, pairs: seq<ConfirmedPair>)
    requires Sound(db) && CompleteRun(db, mid, modalities, pairs) && CompleteRun(mid, after, modalities, pairs)
    ensures after == mid
  {
    hide Sound, SettledLayer, LayerRun, EdgesOf;
    var all, reviewed := EdgesOf(pairs, AUTOMATIC), EdgesOf(pairs, REVIEWED);
    var first :| LayerRun(db, first, AUTOMATIC, modalities, all) &&
      LayerRun(first, mid, REVIEWED, modalities, reviewed);
    var second :| LayerRun(mid, second, AUTOMATIC, modalities, all) &&
      LayerRun(second, after, REVIEWED, modalities, reviewed);
    LayerRunSound(db, first, AUTOMATIC, modalities, all);
    LayerRunSound(first, mid, REVIEWED, modalities, reviewed);
    LayerRunSound(mid, second, AUTOMATIC, modalities, all);
    RunSettles(db, first, AUTOMATIC, modalities, all);
    StaysSettled(first, mid, AUTOMATIC, REVIEWED, modalities, all, reviewed);
    RunSettles(first, mid, REVIEWED, modalities, reviewed);
    StaysSettled(mid, second, REVIEWED, AUTOMATIC, modalities, reviewed, all);
    LayerIdle(mid, second, AUTOMATIC, modalities, all);
    LayerIdle(second, after, REVIEWED, modalities, reviewed);
  }

  /** Once a layer is settled, the only cluster claiming a feature is its own. */
  ghost predicate OwnClaims(mid: Db, basis: Basis, E: set<(string, string)>, existing: Existing) {
    forall x, id :: (basis, x) in mid.members ==> (Claims(E, existing, id, x) <==> id == mid.members[(basis, x)])
  }

  lemma SettledClaims(mid: Db, basis: Basis, modalities: map<string, string>, edges: seq<Edge>, existing: Existing)
    requires Sound(mid) && SettledLayer(mid, basis, modalities, edges) && Loaded(mid, basis, existing)
    ensures OwnClaims(mid, basis, Links(edges), existing)
  {
    hide Linked;
    forall x, id | (basis, x) in mid.members
      ensures Claims(Links(edges), existing, id, x) <==> id == mid.members[(basis, x)]
    {
      RowListed(mid, basis, existing, x);
      if Anchored(existing, id) {
        var a := Anchor(existing, id);
        assert a in existing[id].members && mid.members[(basis, a)] == id;
      }
    }
  }

  lemma IdlePlan(mid: Db, basis: Basis, modalities: map<string, string>, edges: seq<Edge>, existing: Existing,
                 nodeModality: map<string, string>, p: Plan)
    requires Sound(mid) && Loaded(mid, basis, existing) && PlanFor(modalities, edges, existing, nodeModality, p)
    requires OwnClaims(mid, basis, Links(edges), existing)
    requires forall x :: Known(modalities, edges, existing, x) <==> (basis, x) in mid.members
    ensures p.newClusters == [] && p.merges == [] && p.kept.Keys == existing.Keys
  {
    var E := Links(edges);
    forall x | x in nodeModality
      ensures !Unclaimed(E, existing, x)
    {
      assert Claims(E, existing, mid.members[(basis, x)], x);
    }
    forall c ensures c !in p.newClusters {
      if c in p.newClusters {
        CreatedRight(E, nodeModality, existing, p.newClusters, c);
        assert false;
      }
    }
    SomeMember(p.newClusters);
    SomeMember(p.merges);
    forall id | id in existing
      ensures id in p.kept && forall to :: Keeper(E, existing, to, Anchor(existing, id)) ==> to == id
    {
      LoadedNonEmpty(mid, basis, existing, id);
      var a := Anchor(existing, id);
      assert a in existing[id].members && mid.members[(basis, a)] == id;
    }
    forall m ensures m !in p.merges {
      if Anchored(existing, m.from) {
        assert Keeper(E, existing, m.to, Anchor(existing, m.from)) ==> m.to == m.from;
      }
    }
    forall id ensures id in p.kept <==> id in existing {
      assert id in p.kept ==> Anchored(existing, id);
    }
  }

  lemma SomeMember<T>(s: seq<T>)
    ensures s == [] || exists x :: x in s
  {
    if s != [] { assert s[0] in s; }
  }

  lemma SecondMembers(mid: Db, after: Db, basis: Basis, modalities: map<string, string>, edges: seq<Edge>,
                      existing: Existing, nodeModality: map<string, string>, p: Plan, newIds: seq<int>)
    requires Sound(mid) && LayerRunBy(mid, after, basis, modalities, edges, existing, nodeModality, p, newIds)
    requires forall x :: Known(modalities, edges, existing, x) <==> (basis, x) in mid.members
    requires p.newClusters == [] && p.kept.Keys == existing.Keys && OwnClaims(mid, basis, Links(edges), existing)
    ensures forall x :: (basis, x) in after.members <==> (basis, x) in mid.members
    ensures forall x :: (basis, x) in mid.members ==> after.members[(basis, x)] == mid.members[(basis, x)]
  {
    forall x
      ensures (basis, x) in after.members <==> (basis, x) in mid.members
      ensures (basis, x) in mid.members ==> after.members[(basis, x)] == mid.members[(basis, x)]
    {
      LayerMembers(mid, after, basis, modalities, edges, existing, nodeModality, p, newIds, x, x);
      if (basis, x) in mid.members {
        MemberAssigned(mid, after, basis, p, newIds, x);
        var id := after.members[(basis, x)];
        assert ComponentOf(Links(edges), nodeModality.Keys, Anchor(existing, id), p.kept[id]);
        assert Claims(Links(edges), existing, id, x);
      }
    }
  }

  lemma IdleTables(mid: Db, after: Db, basis: Basis, existing: Existing, p: Plan, newIds: seq<int>)
    requires Constraints(mid) && Loaded(mid, basis, existing) && Applied(mid, after, basis, p, newIds)
    requires p.newClusters == [] && p.merges == [] && p.kept.Keys == existing.Keys
    requires forall x :: (basis, x) in after.members <==> (basis, x) in mid.members
    requires forall x :: (basis, x) in mid.members ==> after.members[(basis, x)] == mid.members[(basis, x)]
    ensures after.clusters == mid.clusters && after.members == mid.members
    ensures after.merges == mid.merges && after.created == mid.created
  {
    assert newIds == [];
    forall id
      ensures id in after.clusters <==> id in mid.clusters
      ensures id in after.clusters ==> after.clusters[id] == mid.clusters[id]
    {
      assert id in existing <==> id in mid.clusters && mid.clusters[id].basis == basis;
    }
    forall k: (Basis, string)
      ensures k in after.members <==> k in mid.members
      ensures k in after.members ==> after.members[k] == mid.members[k]
    {
      assert k == (k.0, k.1);
    }
    assert MergeRows(basis, p.merges) == [];
  }

  /** A plan that keeps every row where it is makes no write. */
  lemma IdleWrites(mid: Db, after: Db, basis: Basis, existing: Existing, p: Plan, newIds: seq<int>)
    requires Loaded(mid, basis, existing) && Applied(mid, after, basis, p, newIds)
    requires Wrote(mid, after, basis, p, newIds)
    requires p.newClusters == [] && p.merges == [] && p.kept.Keys == existing.Keys && after.members == mid.members
    ensures after.writes == mid.writes && after.nextId == mid.nextId
  {
    assert newIds == [];
    var final, moves, deletions :| WroteBy(mid, after, basis, p, newIds, final, moves, deletions);
    forall w
      ensures !IsMove(mid.members, final, basis, w)
    {
      if w.MemberInserted? && w.feature in final { Unmoved(mid, after, basis, p, newIds, final, w.feature); }
      if w.MemberDeleted? && w.feature in final { Unmoved(mid, after, basis, p, newIds, final, w.feature); }
    }
    SomeMember(moves);
    SomeMember(deletions);
    LoadedIds(mid, basis, existing);
    assert moves == [] && deletions == [];
    assert CreatedWrites(newIds) == [] && MergeWrites(MergeRows(basis, p.merges)) == [];
  }

  lemma Unmoved(mid: Db, after: Db, basis: Basis, p: Plan, newIds: seq<int>, final: map<string, int>, x: string)
    requires Applied(mid, after, basis, p, newIds) && after.members == mid.members && x in final
    requires forall x, id :: x in final && final[x] == id <==> Assigned(p, newIds, x, id)
    ensures (basis, x) in mid.members && mid.members[(basis, x)] == final[x]
  {
    assert Assigned(p, newIds, x, final[x]);
  }
}
