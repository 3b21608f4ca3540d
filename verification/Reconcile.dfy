/** cluster/reconcile.go: what one run does to a layer's clusters. */
module Reconcile {
  import opened Reach
  import opened UnionFind
  import opened Order

  datatype Edge = Edge(left: string, right: string, modality: string)
  datatype ClusterState = ClusterState(modality: string, members: seq<string>)
  datatype NewCluster = NewCluster(modality: string, evidence: seq<string>)
  datatype Merge = Merge(from: int, to: int)
  datatype Plan = Plan(kept: map<int, seq<string>>, newClusters: seq<NewCluster>, merges: seq<Merge>)

  type Existing = map<int, ClusterState>

  // --------------------------------------------------------------------- what a plan must be

  function Links(edges: seq<Edge>): set<(string, string)> {
    set e | e in edges :: (e.left, e.right)
  }

  /** A feature some input mentions. */
  ghost predicate Known(modalities: map<string, string>, edges: seq<Edge>, existing: Existing, x: string) {
    || x in modalities
    || (exists id :: id in existing && x in existing[id].members)
    || Mentioned(edges, x)
  }

  predicate Mentioned(edges: seq<Edge>, x: string) {
    exists e :: e in edges && (e.left == x || e.right == x)
  }

  /** Existing clusters have positive ids and share no member. */
  ghost predicate Disjoint(existing: Existing) {
    && (forall id :: id in existing ==> 0 < id)
    && (forall i, j, m :: i in existing && j in existing && m in existing[i].members && m in existing[j].members ==>
         i == j)
  }

  ghost predicate Anchored(existing: Existing, id: int) {
    id in existing && existing[id].members != []
  }

  /** A cluster's identity follows its smallest member. */
  ghost function Anchor(existing: Existing, id: int): string
    requires Anchored(existing, id)
  {
    Smallest(existing[id].members)
  }

  /** The anchor of cluster id is in x's component. */
  ghost predicate Claims(E: set<(string, string)>, existing: Existing, id: int, x: string) {
    Anchored(existing, id) && Linked(E, Anchor(existing, id), x)
  }

  /** id is the oldest cluster whose anchor is in x's component. */
  ghost predicate Keeper(E: set<(string, string)>, existing: Existing, id: int, x: string) {
    Claims(E, existing, id, x) && forall c :: Claims(E, existing, c, x) ==> id <= c
  }

  ghost predicate Unclaimed(E: set<(string, string)>, existing: Existing, x: string) {
    forall id :: !Claims(E, existing, id, x)
  }

  /** group lists, in order and once each, the nodes linked to x. */
  ghost predicate ComponentOf(E: set<(string, string)>, nodes: set<string>, x: string, group: seq<string>) {
    Sorted(group) && NoRepeats(group) && forall y :: y in group <==> y in nodes && Linked(E, x, y)
  }

  ghost predicate KeptRight(E: set<(string, string)>, nodes: set<string>, existing: Existing,
                            kept: map<int, seq<string>>) {
    && (forall id :: id in kept <==> Anchored(existing, id) && Keeper(E, existing, id, Anchor(existing, id)))
    && (forall id {:trigger kept[id]} :: id in kept ==> ComponentOf(E, nodes, Anchor(existing, id), kept[id]))
  }

  /** c is a whole component no existing cluster's anchor is in, with its first member's modality. */
  ghost predicate MadeRight(E: set<(string, string)>, nodeModality: map<string, string>, existing: Existing,
                            c: NewCluster) {
    && c.evidence != [] && ComponentOf(E, nodeModality.Keys, c.evidence[0], c.evidence)
    && Unclaimed(E, existing, c.evidence[0])
    && c.evidence[0] in nodeModality && c.modality == nodeModality[c.evidence[0]]
  }

  ghost predicate NewRight(E: set<(string, string)>, nodeModality: map<string, string>, existing: Existing,
                           created: seq<NewCluster>) {
    && (forall i {:trigger created[i]} :: 0 <= i < |created| ==> MadeRight(E, nodeModality, existing, created[i]))
    && (forall x :: x in nodeModality && Unclaimed(E, existing, x) ==> exists c :: c in created && x in c.evidence)
    && NewApart(created)
  }

  ghost predicate NewApart(created: seq<NewCluster>) {
    forall i, j, x :: 0 <= i < j < |created| && x in created[i].evidence ==> x !in created[j].evidence
  }

  ghost predicate MergesRight(E: set<(string, string)>, existing: Existing, merges: seq<Merge>) {
    && Rising(merges)
    && (forall m :: m in merges <==>
          Anchored(existing, m.from) && m.from != m.to && Keeper(E, existing, m.to, Anchor(existing, m.from)))
  }

  /** A feature's modality: as the feature list says, else its cluster's, else its first edge's. */
  ghost predicate ModalityRight(modalities: map<string, string>, edges: seq<Edge>, existing: Existing, x: string,
                                modality: string) {
    if x in modalities then modality == modalities[x]
    else if exists id :: id in existing && x in existing[id].members then
      exists id :: id in existing && x in existing[id].members && modality == existing[id].modality
    else
      exists i :: 0 <= i < |edges| && (edges[i].left == x || edges[i].right == x) && modality == edges[i].modality
        && !Mentioned(edges[..i], x)
  }

  /** p is the plan for these inputs. Only the order of the new clusters is left open. */
  ghost predicate PlanFor(modalities: map<string, string>, edges: seq<Edge>, existing: Existing,
                          nodeModality: map<string, string>, p: Plan) {
    var E := Links(edges);
    && (forall x :: x in nodeModality <==> Known(modalities, edges, existing, x))
    && (forall x {:trigger nodeModality[x]} :: x in nodeModality ==>
         ModalityRight(modalities, edges, existing, x, nodeModality[x]))
    && KeptRight(E, nodeModality.Keys, existing, p.kept)
    && NewRight(E, nodeModality, existing, p.newClusters)
    && MergesRight(E, existing, p.merges)
  }

  /** p is a plan for the features, edges and clusters, with some modality found for each feature. */
  ghost predicate IsPlan(modalities: map<string, string>, edges: seq<Edge>, existing: Existing, p: Plan) {
    exists nodeModality :: PlanFor(modalities, edges, existing, nodeModality, p)
  }

  // ------------------------------------------- the same in terms of edges and byte order alone

  /** An edge joins x and y. */
  ghost predicate Joined(edges: seq<Edge>, x: string, y: string) {
    exists e :: e in edges && ((e.left == x && e.right == y) || (e.left == y && e.right == x))
  }

  /** A chain of edges leads from x to y. */
  ghost predicate Chained(edges: seq<Edge>, x: string, y: string) {
    exists w :: ChainFromTo(edges, w, x, y)
  }

  ghost predicate ChainFromTo(edges: seq<Edge>, w: seq<string>, x: string, y: string) {
    && w != [] && w[0] == x && w[|w| - 1] == y
    && forall i, j :: 0 <= i && j == i + 1 < |w| ==> Joined(edges, w[i], w[j])
  }

  /** No cluster older than id has its first member chained to x. */
  ghost predicate NoneOlder(edges: seq<Edge>, existing: Existing, id: int, x: string) {
    forall c, b :: c in existing && First(existing[c].members, b) && Chained(edges, b, x) ==> id <= c
  }

  /** group lists, in byte order and once each, the known features chained to x. */
  ghost predicate Lists(modalities: map<string, string>, edges: seq<Edge>, existing: Existing, x: string,
                        group: seq<string>) {
    Rise(group) && forall y :: y in group <==> Known(modalities, edges, existing, y) && Chained(edges, x, y)
  }

  ghost predicate MergedWith(edges: seq<Edge>, existing: Existing, m: Merge, a: string) {
    && m.from in existing && m.to in existing && m.from != m.to
    && First(existing[m.from].members, a) && NoneOlder(edges, existing, m.to, a)
    && exists b :: First(existing[m.to].members, b) && Chained(edges, b, a)
  }

  /** A cluster is kept if and only if its first member in byte order is chained to no older cluster's first
    * member, and then it keeps what is chained to that member; what is chained to none is new; and a cluster
    * that is not kept is merged into the oldest whose first member is chained to its own. */
  ghost predicate PlannedByFirsts(modalities: map<string, string>, edges: seq<Edge>, existing: Existing, p: Plan) {
    && (forall id :: id in p.kept <==>
          id in existing && exists a :: First(existing[id].members, a) && NoneOlder(edges, existing, id, a))
    && (forall id, a :: id in p.kept && First(existing[id].members, a) ==>
          Lists(modalities, edges, existing, a, p.kept[id]))
    && (forall c :: c in p.newClusters ==>
          c.evidence != [] && Lists(modalities, edges, existing, c.evidence[0], c.evidence))
    && (forall x :: Known(modalities, edges, existing, x) ==>
          ((exists c :: c in p.newClusters && x in c.evidence) <==>
            forall id, a :: id in existing && First(existing[id].members, a) ==> !Chained(edges, a, x)))
    && Rising(p.merges) && (forall m :: m in p.merges <==> exists a :: MergedWith(edges, existing, m, a))
  }

  lemma ChainedIsLinked(edges: seq<Edge>, x: string, y: string)
    ensures Chained(edges, x, y) <==> Linked(Links(edges), x, y)
  {
    var E := Links(edges);
    forall u, v ensures Joined(edges, u, v) <==> Touch(E, u, v) {}
    hide Joined, Links, Touch;
    forall w | ChainFromTo(edges, w, x, y)
      ensures WalkFromTo(E, w, x, y)
    {
      forall i: nat | i < |w| - 1
        ensures EdgeAt(E, w, i)
      {
        var j := i + 1;
        assert Joined(edges, w[i], w[j]);
      }
    }
    forall w | WalkFromTo(E, w, x, y)
      ensures ChainFromTo(edges, w, x, y)
    {
      forall i, j | 0 <= i && j == i + 1 < |w|
        ensures Joined(edges, w[i], w[j])
      {
        assert EdgeAt(E, w, i);
      }
    }
  }

  lemma AnchorIsFirst(existing: Existing, id: int)
    requires id in existing
    ensures forall a :: First(existing[id].members, a) <==> Anchored(existing, id) && a == Anchor(existing, id)
  {
    hide First, Smallest;
    var members := existing[id].members;
    if members != [] {
      SmallestFirst(members);
    } else {
      forall a ensures !First(members, a) { assert First([], a) ==> false by { EmptyHasNone(a); } }
    }
  }

  lemma EmptyHasNone(a: string)
    ensures !First([], a)
  {}

  lemma ClaimsByFirst(edges: seq<Edge>, existing: Existing, id: int, x: string)
    ensures Claims(Links(edges), existing, id, x) <==>
            id in existing && exists a :: First(existing[id].members, a) && Chained(edges, a, x)
    ensures Claims(Links(edges), existing, id, x) ==>
      && Anchored(existing, id) && First(existing[id].members, Anchor(existing, id))
      && Chained(edges, Anchor(existing, id), x)
  {
    hide First, Linked, Chained, Links, Anchor;
    if id in existing {
      AnchorIsFirst(existing, id);
      if Anchored(existing, id) { ChainedIsLinked(edges, Anchor(existing, id), x); }
    }
  }

  lemma OldestByFirst(edges: seq<Edge>, existing: Existing, id: int, x: string)
    ensures NoneOlder(edges, existing, id, x) <==> forall c :: Claims(Links(edges), existing, c, x) ==> id <= c
    ensures Unclaimed(Links(edges), existing, x) <==>
            forall c, b :: c in existing && First(existing[c].members, b) ==> !Chained(edges, b, x)
  {
    hide Claims, First, Chained, Links, Anchor;
    forall c
      ensures Claims(Links(edges), existing, c, x) <==>
              c in existing && exists b :: First(existing[c].members, b) && Chained(edges, b, x)
    {
      ClaimsByFirst(edges, existing, c, x);
    }
  }

  lemma ListsComponent(modalities: map<string, string>, edges: seq<Edge>, existing: Existing,
                       nodeModality: map<string, string>, x: string, group: seq<string>)
    requires forall y :: y in nodeModality <==> Known(modalities, edges, existing, y)
    requires ComponentOf(Links(edges), nodeModality.Keys, x, group)
    ensures Lists(modalities, edges, existing, x, group)
  {
    hide Known, Linked, Chained, Links, Sorted, Rise, NoRepeats;
    SortedRise(group);
    forall y
      ensures y in group <==> Known(modalities, edges, existing, y) && Chained(edges, x, y)
    {
      ChainedIsLinked(edges, x, y);
    }
  }

  lemma PlanByFirsts(modalities: map<string, string>, edges: seq<Edge>, existing: Existing,
                     nodeModality: map<string, string>, p: Plan)
    requires PlanFor(modalities, edges, existing, nodeModality, p)
    ensures PlannedByFirsts(modalities, edges, existing, p)
  {
    hide Known, ModalityRight, KeptRight, NewRight, MergesRight, Lists, Links, First, NoneOlder, MergedWith, Chained;
    KeptByFirsts(modalities, edges, existing, nodeModality, p.kept);
    NewByFirsts(modalities, edges, existing, nodeModality, p.newClusters);
    MergedByFirsts(edges, existing, p.merges);
  }

  lemma KeptByFirsts(modalities: map<string, string>, edges: seq<Edge>, existing: Existing,
                     nodeModality: map<string, string>, kept: map<int, seq<string>>)
    requires forall y :: y in nodeModality <==> Known(modalities, edges, existing, y)
    requires KeptRight(Links(edges), nodeModality.Keys, existing, kept)
    ensures forall id :: id in kept <==>
      id in existing && exists a :: First(existing[id].members, a) && NoneOlder(edges, existing, id, a)
    ensures forall id, a :: id in kept && First(existing[id].members, a) ==>
      Lists(modalities, edges, existing, a, kept[id])
  {
    hide Known, Links, First, NoneOlder, Lists, ComponentOf, Anchor, Claims;
    var E := Links(edges);
    forall id
      ensures id in kept <==>
        id in existing && exists a :: First(existing[id].members, a) && NoneOlder(edges, existing, id, a)
    {
      if id in existing {
        AnchorIsFirst(existing, id);
        if Anchored(existing, id) {
          var a := Anchor(existing, id);
          SelfClaims(E, existing, id);
          OldestByFirst(edges, existing, id, a);
        }
      }
    }
    forall id, a | id in kept && First(existing[id].members, a)
      ensures Lists(modalities, edges, existing, a, kept[id])
    {
      AnchorIsFirst(existing, id);
      ListsComponent(modalities, edges, existing, nodeModality, a, kept[id]);
    }
  }

  lemma SelfClaims(E: set<(string, string)>, existing: Existing, id: int)
    requires Anchored(existing, id)
    ensures Claims(E, existing, id, Anchor(existing, id))
  {
    LinkedSelf(E, Anchor(existing, id));
  }

  lemma NewByFirsts(modalities: map<string, string>, edges: seq<Edge>, existing: Existing,
                    nodeModality: map<string, string>, created: seq<NewCluster>)
    requires forall y :: y in nodeModality <==> Known(modalities, edges, existing, y)
    requires NewRight(Links(edges), nodeModality, existing, created)
    ensures forall c :: c in created ==>
      c.evidence != [] && Lists(modalities, edges, existing, c.evidence[0], c.evidence)
    ensures forall x :: Known(modalities, edges, existing, x) ==>
      ((exists c :: c in created && x in c.evidence) <==>
        forall id, a :: id in existing && First(existing[id].members, a) ==> !Chained(edges, a, x))
  {
    hide Known, Links, First, Lists, ComponentOf, Anchor, Claims, Chained, NewApart;
    var E := Links(edges);
    forall c | c in created
      ensures c.evidence != [] && Lists(modalities, edges, existing, c.evidence[0], c.evidence)
      ensures forall x :: x in c.evidence ==> Unclaimed(E, existing, x)
    {
      var i :| 0 <= i < |created| && created[i] == c;
      assert MadeRight(E, nodeModality, existing, created[i]);
      ListsComponent(modalities, edges, existing, nodeModality, c.evidence[0], c.evidence);
      forall x | x in c.evidence ensures Unclaimed(E, existing, x) { StaysUnclaimed(E, nodeModality, existing, c, x); }
    }
    forall x | Known(modalities, edges, existing, x)
      ensures (exists c :: c in created && x in c.evidence) <==>
        forall id, a :: id in existing && First(existing[id].members, a) ==> !Chained(edges, a, x)
    {
      OldestByFirst(edges, existing, 0, x);
    }
  }

  lemma StaysUnclaimed(E: set<(string, string)>, nodeModality: map<string, string>, existing: Existing, c: NewCluster,
                       x: string)
    requires MadeRight(E, nodeModality, existing, c) && x in c.evidence
    ensures Unclaimed(E, existing, x)
  {
    hide Anchor, Sorted, NoRepeats;
    LinkedSym(E, c.evidence[0], x);
    forall id ensures !Claims(E, existing, id, x) {
      assert !Claims(E, existing, id, c.evidence[0]);
      if Claims(E, existing, id, x) { LinkedTrans(E, Anchor(existing, id), x, c.evidence[0]); }
    }
  }

  lemma MergedByFirsts(edges: seq<Edge>, existing: Existing, merges: seq<Merge>)
    requires MergesRight(Links(edges), existing, merges)
    ensures Rising(merges) && forall m :: m in merges <==> exists a :: MergedWith(edges, existing, m, a)
  {
    hide Links, First, NoneOlder, Anchor, Claims, Chained, Rising;
    var E := Links(edges);
    forall m: Merge
      ensures m in merges <==> exists a :: MergedWith(edges, existing, m, a)
    {
      if m.from in existing {
        AnchorIsFirst(existing, m.from);
        if Anchored(existing, m.from) {
          var a := Anchor(existing, m.from);
          ClaimsByFirst(edges, existing, m.to, a);
          OldestByFirst(edges, existing, m.to, a);
          assert m in merges <==> MergedWith(edges, existing, m, a);
        }
      }
    }
  }

  lemma HasId(ids: set<int>)
    requires ids != {}
    ensures exists id: int :: id in ids
  {
    if forall id: int :: id !in ids { assert false; }
  }

  // -------------------------------------------------------------------------------- the steps

  /** One cluster's members join the nodes and the member index. */
  method AddMembers(nodes: map<string, string>, index: map<string, int>, id: int, cs: ClusterState)
      returns (nodeModality: map<string, string>, memberCluster: map<string, int>)
    ensures forall x :: x in nodeModality <==> x in nodes || x in cs.members
    ensures forall x {:trigger nodeModality[x]} :: x in nodeModality ==>
      nodeModality[x] == if x in nodes then nodes[x] else cs.modality
    ensures forall m :: m in memberCluster <==> m in index || m in cs.members
    ensures forall m {:trigger memberCluster[m]} :: m in memberCluster ==>
      memberCluster[m] == if m in cs.members then id else index[m]
  {
    nodeModality, memberCluster := nodes, index;
    for i := 0 to |cs.members|
      invariant forall x :: x in nodeModality <==> x in nodes || x in cs.members[..i]
      invariant forall x {:trigger nodeModality[x]} :: x in nodeModality ==>
        nodeModality[x] == if x in nodes then nodes[x] else cs.modality
      invariant forall m :: m in memberCluster <==> m in index || m in cs.members[..i]
      invariant forall m {:trigger memberCluster[m]} :: m in memberCluster ==>
        memberCluster[m] == if m in cs.members[..i] then id else index[m]
    {
      var m := cs.members[i];
      memberCluster := memberCluster[m := id];
      if m !in nodeModality { nodeModality := nodeModality[m := cs.modality]; }
    }
    assert cs.members[..|cs.members|] == cs.members;
  }

  /** Every clustered feature's modality and cluster. */
  method FromClusters(modalities: map<string, string>, existing: Existing)
      returns (nodeModality: map<string, string>, memberCluster: map<string, int>)
    requires Disjoint(existing)
    ensures forall x :: x in nodeModality <==> x in modalities || exists id ::
      id in existing && x in existing[id].members
    ensures forall x {:trigger nodeModality[x]} :: x in nodeModality ==>
      if x in modalities then nodeModality[x] == modalities[x]
      else exists id :: id in existing && x in existing[id].members && nodeModality[x] == existing[id].modality
    ensures forall m :: m in memberCluster <==> exists id :: id in existing && m in existing[id].members
    ensures forall m {:trigger memberCluster[m]} :: m in memberCluster ==>
      memberCluster[m] in existing && m in existing[memberCluster[m]].members
  {
    nodeModality, memberCluster := modalities, map[];
    var ids := existing.Keys;
    while ids != {}
      invariant ids <= existing.Keys
      invariant forall x :: x in nodeModality <==> x in modalities || exists id ::
        id in existing && id !in ids && x in existing[id].members
      invariant forall x {:trigger nodeModality[x]} :: x in nodeModality ==>
        if x in modalities then nodeModality[x] == modalities[x]
        else exists id :: id in existing && x in existing[id].members && nodeModality[x] == existing[id].modality
      invariant forall m :: m in memberCluster <==> exists id ::
        id in existing && id !in ids && m in existing[id].members
      invariant forall m {:trigger memberCluster[m]} :: m in memberCluster ==>
        memberCluster[m] in existing && m in existing[memberCluster[m]].members
    {
      HasId(ids);
      var id :| id in ids;
      ids := ids - {id};
      nodeModality, memberCluster := AddMembers(nodeModality, memberCluster, id, existing[id]);
    }
  }

  /** Every known feature's modality, and every clustered feature's cluster. */
  method Nodes(modalities: map<string, string>, edges: seq<Edge>, existing: Existing)
      returns (nodeModality: map<string, string>, memberCluster: map<string, int>)
    requires Disjoint(existing)
    ensures forall x :: x in nodeModality <==> Known(modalities, edges, existing, x)
    ensures forall x {:trigger nodeModality[x]} :: x in nodeModality ==>
      ModalityRight(modalities, edges, existing, x, nodeModality[x])
    ensures forall m :: m in memberCluster <==> exists id :: id in existing && m in existing[id].members
    ensures forall m {:trigger memberCluster[m]} :: m in memberCluster ==>
      memberCluster[m] in existing && m in existing[memberCluster[m]].members
  {
    nodeModality, memberCluster := FromClusters(modalities, existing);
    ghost var before := nodeModality;
    for i := 0 to |edges|
      invariant forall x :: x in nodeModality <==> x in before || Mentioned(edges[..i], x)
      invariant forall x {:trigger nodeModality[x]} :: x in nodeModality ==>
        if x in before then nodeModality[x] == before[x]
        else exists k ::
          && 0 <= k < i && (edges[k].left == x || edges[k].right == x)
          && nodeModality[x] == edges[k].modality && !Mentioned(edges[..k], x)
    {
      var e := edges[i];
      if e.left !in nodeModality { nodeModality := nodeModality[e.left := e.modality]; }
      if e.right !in nodeModality { nodeModality := nodeModality[e.right := e.modality]; }
      assert edges[..i + 1] == edges[..i] + [e];
    }
    assert edges[..|edges|] == edges;
  }

  /** The union-find of all the edges. */
  method Unite(edges: seq<Edge>) returns (uf: UnionFind<string>)
    ensures fresh(uf) && uf.Valid() && Classes(uf.Snapshot(), Links(edges))
  {
    hide Classes, Merges, Parents.Valid, Parents.Rep;
    uf := new UnionFind<string>();
    assert Links(edges[..0]) == {};
    for i := 0 to |edges|
      invariant uf.Valid() && Classes(uf.Snapshot(), Links(edges[..i]))
    {
      ghost var before := uf.Snapshot();
      uf.Union(edges[i].left, edges[i].right);
      UnionLinks(before, uf.Snapshot(), Links(edges[..i]), edges[i].left, edges[i].right);
      assert edges[..i + 1] == edges[..i] + [edges[i]];
      assert Links(edges[..i + 1]) == Links(edges[..i]) + {(edges[i].left, edges[i].right)};
    }
    assert edges[..|edges|] == edges;
  }

  /** Each non-empty cluster's smallest member. */
  method Anchors(existing: Existing) returns (anchor: map<int, string>)
    ensures forall id :: id in anchor <==> Anchored(existing, id)
    ensures forall id {:trigger anchor[id]} :: id in anchor ==> anchor[id] == Anchor(existing, id)
  {
    anchor := map[];
    var ids := existing.Keys;
    while ids != {}
      invariant ids <= existing.Keys
      invariant forall id :: id in anchor <==> Anchored(existing, id) && id !in ids
      invariant forall id {:trigger anchor[id]} :: id in anchor ==> anchor[id] == Anchor(existing, id)
    {
      HasId(ids);
      var id :| id in ids;
      ids := ids - {id};
      var members := existing[id].members;
      if |members| > 0 {
        var a := members[0];
        assert members[..1][0] == members[0];
        for i := 1 to |members|
          invariant a == Smallest(members[..i])
        {
          assert members[..i + 1][..i] == members[..i];
          if members[i] != a && Le(members[i], a) { a := members[i]; }
        }
        assert members[..|members|] == members;
        anchor := anchor[id := a];
      }
    }
  }

  lemma HasString(todo: set<string>)
    requires todo != {}
    ensures exists x: string :: x in todo
  {
    if forall x: string :: x !in todo { assert false; }
  }

  /** components maps each root to the nodes of its class, once each. */
  ghost predicate Grouped(f: Parents<string>, nodes: set<string>, components: map<string, seq<string>>) {
    && f.Valid()
    && (forall root {:trigger components[root]} :: root in components ==>
         components[root] != [] && NoRepeats(components[root]))
    && (forall x :: x in nodes ==> f.Rep(x) in components && x in components[f.Rep(x)])
    && (forall root, x :: root in components && x in components[root] ==> x in nodes && f.Rep(x) == root)
  }

  lemma GroupedStep(f: Parents<string>, nodes: set<string>, components: map<string, seq<string>>, x: string)
    requires Grouped(f, nodes, components) && x !in nodes
    ensures var list := if f.Rep(x) in components then components[f.Rep(x)] else [];
      Grouped(f, nodes + {x}, components[f.Rep(x) := list + [x]])
  {
    hide Parents.Valid, Parents.Rep;
  }

  method Components(nodes: set<string>, uf: UnionFind<string>) returns (components: map<string, seq<string>>)
    requires uf.Valid()
    modifies uf
    ensures SameReps(old(uf.Snapshot()), uf.Snapshot())
    ensures Grouped(old(uf.Snapshot()), nodes, components)
  {
    hide Parents.Valid, Parents.Rep;
    ghost var f := uf.Snapshot();
    components := map[];
    var todo := nodes;
    while todo != {}
      invariant todo <= nodes && uf.Valid() && SameReps(f, uf.Snapshot())
      invariant Grouped(f, nodes - todo, components)
    {
      HasString(todo);
      var evidence :| evidence in todo;
      ghost var done := nodes - todo;
      todo := todo - {evidence};
      ghost var before := uf.Snapshot();
      var root := uf.Find(evidence);
      SameRepsTrans(f, before, uf.Snapshot());
      assert root == f.Rep(evidence);
      var list := if root in components then components[root] else [];
      GroupedStep(f, done, components, evidence);
      assert nodes - todo == done + {evidence};
      components := components[root := list + [evidence]];
    }
    assert nodes - {} == nodes;
  }

  /** present tells, for each class, the clusters with a member in it. */
  method Present(memberCluster: map<string, int>, uf: UnionFind<string>) returns (present: map<string, set<int>>)
    requires uf.Valid()
    modifies uf
    ensures SameReps(old(uf.Snapshot()), uf.Snapshot())
    ensures forall m {:trigger memberCluster[m]} :: m in memberCluster ==>
      old(uf.Snapshot()).Rep(m) in present && memberCluster[m] in present[old(uf.Snapshot()).Rep(m)]
  {
    hide Parents.Valid, Parents.Rep;
    ghost var f := uf.Snapshot();
    present := map[];
    var todo := memberCluster.Keys;
    while todo != {}
      invariant todo <= memberCluster.Keys && uf.Valid() && SameReps(f, uf.Snapshot())
      invariant forall m {:trigger memberCluster[m]} :: m in memberCluster && m !in todo ==>
        f.Rep(m) in present && memberCluster[m] in present[f.Rep(m)]
    {
      HasString(todo);
      var evidence :| evidence in todo;
      todo := todo - {evidence};
      ghost var before := uf.Snapshot();
      var root := uf.Find(evidence);
      SameRepsTrans(f, before, uf.Snapshot());
      assert root == f.Rep(evidence);
      var ids := if root in present then present[root] else {};
      present := present[root := ids + {memberCluster[evidence]}];
    }
  }

  /** kept is the oldest cluster whose anchor is among members, 0 for none. */
  ghost predicate OldestAnchored(anchor: map<int, string>, members: seq<string>, kept: int) {
    && (kept == 0 ==> forall c :: c in anchor ==> anchor[c] !in members)
    && (kept != 0 ==> kept in anchor && anchor[kept] in members && forall c :: c in anchor && anchor[c] in members ==>
         kept <= c)
  }

  method Oldest(anchor: map<int, string>, members: seq<string>, present: set<int>) returns (kept: int)
    requires forall c :: c in anchor ==> 0 < c
    requires forall c :: c in anchor && anchor[c] in members ==> c in present
    ensures OldestAnchored(anchor, members, kept)
  {
    kept := 0;
    var ids := present;
    while ids != {}
      invariant ids <= present
      invariant kept == 0 ==> forall c :: c in anchor && c in present && c !in ids ==> anchor[c] !in members
      invariant kept != 0 ==> kept in anchor && anchor[kept] in members
      invariant kept != 0 ==> forall c :: c in anchor && anchor[c] in members && c in present && c !in ids ==> kept <= c
    {
      HasId(ids);
      var cid :| cid in ids;
      ids := ids - {cid};
      if cid in anchor && anchor[cid] in members && (kept == 0 || cid < kept) {
        kept := cid;
      }
    }
  }

  /** Each class's surviving cluster. */
  method Keepers(components: map<string, seq<string>>, present: map<string, set<int>>, anchor: map<int, string>)
      returns (keptByComponent: map<string, int>)
    requires forall c :: c in anchor ==> 0 < c
    requires forall root, c :: root in components && c in anchor && anchor[c] in components[root] ==>
      root in present && c in present[root]
    ensures keptByComponent.Keys == components.Keys
    ensures forall root {:trigger keptByComponent[root]} :: root in components ==>
      OldestAnchored(anchor, components[root], keptByComponent[root])
  {
    keptByComponent := map[];
    var roots := components.Keys;
    while roots != {}
      invariant roots <= components.Keys && keptByComponent.Keys == components.Keys - roots
      invariant forall root {:trigger keptByComponent[root]} :: root in keptByComponent ==>
        OldestAnchored(anchor, components[root], keptByComponent[root])
    {
      HasString(roots);
      var root :| root in roots;
      roots := roots - {root};
      var kept := Oldest(anchor, components[root], if root in present then present[root] else {});
      keptByComponent := keptByComponent[root := kept];
    }
  }

  /** c is the cluster to create for these members. */
  ghost predicate MadeFrom(members: seq<string>, nodeModality: map<string, string>, c: NewCluster) {
    && c.evidence == Sort(members) && c.evidence != []
    && c.evidence[0] in nodeModality && c.modality == nodeModality[c.evidence[0]]
  }

  /** The cluster to create for the members of a class no cluster keeps. */
  method Make(members: seq<string>, nodeModality: map<string, string>) returns (c: NewCluster)
    requires members != [] && forall x :: x in members ==> x in nodeModality
    ensures MadeFrom(members, nodeModality, c)
  {
    var sorted := Sort(members);
    MembersSort(members);
    assert sorted[0] in members;
    c := NewCluster(nodeModality[sorted[0]], sorted);
  }

  /** kept[id] as Go reads it: nothing for a missing key. */
  function ListAt(kept: map<int, seq<string>>, id: int): seq<string> {
    if id in kept then kept[id] else []
  }

  /** The surviving clusters are the ones some class keeps, each with that class's members. */
  ghost predicate KeptFrom(components: map<string, seq<string>>, keptByComponent: map<string, int>,
                           kept: map<int, seq<string>>) {
    && keptByComponent.Keys == components.Keys
    && (forall id :: id in kept <==> id != 0 && exists root :: root in components && keptByComponent[root] == id)
    && (forall root {:trigger components[root]} :: root in components && keptByComponent[root] != 0 ==>
          kept[keptByComponent[root]] == components[root])
  }

  /** The clusters to create are made from the classes no cluster keeps, one each. */
  ghost predicate CreatedFrom(components: map<string, seq<string>>, keptByComponent: map<string, int>,
                              nodeModality: map<string, string>, created: seq<NewCluster>, origin: seq<string>)
  {
    && keptByComponent.Keys == components.Keys && |origin| == |created| && NoRepeats(origin)
    && (forall root :: root in origin <==> root in components && keptByComponent[root] == 0)
    && (forall i {:trigger created[i]} :: 0 <= i < |created| ==>
          origin[i] in components && MadeFrom(components[origin[i]], nodeModality, created[i]))
  }

  /** The surviving clusters' members, unsorted, and the clusters to create, with the class each
      is made from. */
  method Groups(components: map<string, seq<string>>, keptByComponent: map<string, int>,
                nodeModality: map<string, string>)
      returns (kept: map<int, seq<string>>, created: seq<NewCluster>, ghost origin: seq<string>)
    requires keptByComponent.Keys == components.Keys
    requires forall root {:trigger components[root]} :: root in components ==>
      components[root] != [] && forall x :: x in components[root] ==> x in nodeModality
    requires forall a, b :: a in components && b in components && keptByComponent[a] == keptByComponent[b] != 0 ==>
      a == b
    ensures KeptFrom(components, keptByComponent, kept)
    ensures CreatedFrom(components, keptByComponent, nodeModality, created, origin)
  {
    kept, created, origin := map[], [], [];
    var roots := components.Keys;
    while roots != {}
      invariant roots <= components.Keys
      invariant forall id :: id in kept <==> id != 0 && exists root ::
        root in components && root !in roots && keptByComponent[root] == id
      invariant forall root {:trigger components[root]} ::
        root in components && root !in roots && keptByComponent[root] != 0 ==>
        kept[keptByComponent[root]] == components[root]
      invariant |origin| == |created| && NoRepeats(origin)
      invariant forall root :: root in origin <==> root in components && root !in roots && keptByComponent[root] == 0
      invariant forall i {:trigger created[i]} :: 0 <= i < |created| ==>
        origin[i] in components && MadeFrom(components[origin[i]], nodeModality, created[i])
    {
      hide MadeFrom;
      HasString(roots);
      var root :| root in roots;
      roots := roots - {root};
      var members := components[root];
      var id := keptByComponent[root];
      if id != 0 {
        kept := kept[id := ListAt(kept, id) + members];
      } else {
        var c := Make(members, nodeModality);
        created, origin := created + [c], origin + [root];
      }
    }
  }

  function InsertMerge(m: Merge, ms: seq<Merge>): (r: seq<Merge>)
    ensures multiset(r) == multiset(ms) + multiset{m}
  {
    if ms == [] then [m]
    else if m.from <= ms[0].from then [m] + ms
    else
      assert ms == [ms[0]] + ms[1..];
      [ms[0]] + InsertMerge(m, ms[1..])
  }

  /** sort.Slice by from. */
  function SortMerges(ms: seq<Merge>): (r: seq<Merge>)
    ensures multiset(r) == multiset(ms)
  {
    if ms == [] then []
    else
      assert ms == [ms[0]] + ms[1..];
      InsertMerge(ms[0], SortMerges(ms[1..]))
  }

  ghost predicate Rising(ms: seq<Merge>) {
    forall i, j :: 0 <= i < j < |ms| ==> ms[i].from < ms[j].from
  }

  lemma {:induction false} InsertRising(m: Merge, ms: seq<Merge>)
    requires Rising(ms) && forall n :: n in ms ==> n.from != m.from
    ensures Rising(InsertMerge(m, ms))
  {
    if ms != [] && m.from > ms[0].from {
      var r := InsertMerge(m, ms[1..]);
      InsertRising(m, ms[1..]);
      forall n | n in r ensures ms[0].from < n.from {
        assert n in multiset(r);
        if n != m { var j :| 0 <= j < |ms[1..]| && ms[1..][j] == n; assert ms[j + 1] == n; }
      }
    }
  }

  ghost predicate FromsDiffer(ms: seq<Merge>) {
    forall i, j :: 0 <= i < j < |ms| ==> ms[i].from != ms[j].from
  }

  lemma {:induction false} SortRising(ms: seq<Merge>)
    requires FromsDiffer(ms)
    ensures Rising(SortMerges(ms)) && forall n :: n in SortMerges(ms) <==> n in ms
  {
    if ms != [] {
      SortRising(ms[1..]);
      InsertRising(ms[0], SortMerges(ms[1..]));
    }
    forall n ensures n in SortMerges(ms) <==> n in ms {
      assert n in multiset(SortMerges(ms)) <==> n in multiset(ms);
    }
  }

  /** The clusters a class's keeper absorbs. */
  method Absorbed(kept: int, members: seq<string>, present: set<int>, anchor: map<int, string>)
    returns (merges: seq<Merge>)
    requires forall c :: c in anchor && anchor[c] in members ==> c in present
    ensures forall m :: m in merges <==> m.to == kept && m.from != kept && m.from in anchor && anchor[m.from] in members
    ensures FromsDiffer(merges)
  {
    merges := [];
    var ids := present;
    while ids != {}
      invariant ids <= present && FromsDiffer(merges)
      invariant forall m :: m in merges <==>
        m.to == kept && m.from != kept && m.from in present && m.from !in ids && m.from in anchor &&
          anchor[m.from] in members
    {
      HasId(ids);
      var cid :| cid in ids;
      ids := ids - {cid};
      if cid != kept && cid in anchor && anchor[cid] in members {
        merges := merges + [Merge(cid, kept)];
      }
    }
  }

  method MergeList(components: map<string, seq<string>>, keptByComponent: map<string, int>,
                   present: map<string, set<int>>, anchor: map<int, string>)
      returns (merges: seq<Merge>)
    requires keptByComponent.Keys == components.Keys
    requires forall root, c :: root in components && c in anchor && anchor[c] in components[root] ==>
      root in present && c in present[root]
    requires forall a, b, x :: a in components && b in components && x in components[a] && x in components[b] ==> a == b
    ensures Rising(merges)
    ensures forall m :: m in merges <==> exists root ::
      root in components && Absorbs(components, keptByComponent, anchor, root, m)
  {
    merges := [];
    var roots := components.Keys;
    while roots != {}
      invariant roots <= components.Keys && FromsDiffer(merges)
      invariant forall m :: m in merges <==> exists root ::
        root in components && root !in roots && Absorbs(components, keptByComponent, anchor, root, m)
    {
      HasString(roots);
      var root :| root in roots;
      roots := roots - {root};
      var kept := keptByComponent[root];
      if kept != 0 {
        var more := Absorbed(kept, components[root], if root in present then present[root] else {}, anchor);
        assert forall m :: m in more <==> Absorbs(components, keptByComponent, anchor, root, m);
        forall a, b | a in merges && b in more
          ensures a.from != b.from
        {
          var other :| other in components && other !in roots && other != root &&
            Absorbs(components, keptByComponent, anchor, other, a);
          assert anchor[a.from] in components[other] && anchor[b.from] in components[root];
        }
        merges := merges + more;
      }
    }
    SortRising(merges);
    merges := SortMerges(merges);
  }

  /** The keeper of root's class absorbs m.from. */
  ghost predicate Absorbs(components: map<string, seq<string>>, keptByComponent: map<string, int>,
                          anchor: map<int, string>, root: string, m: Merge)
    requires root in components && components.Keys == keptByComponent.Keys
  {
    keptByComponent[root] != 0 && m.to == keptByComponent[root] && m.from != m.to && m.from in anchor &&
      anchor[m.from] in components[root]
  }

  // ---------------------------------------------------- from union-find classes to components

  /** The tables the plan is read from say what they should. */
  ghost predicate Setup(E: set<(string, string)>, existing: Existing, nodes: set<string>, f: Parents<string>,
                        anchor: map<int, string>, components: map<string, seq<string>>,
                        keptByComponent: map<string, int>) {
    && Classes(f, E) && Grouped(f, nodes, components) && keptByComponent.Keys == components.Keys
    && (forall id :: id in anchor <==> Anchored(existing, id))
    && (forall id {:trigger anchor[id]} :: id in anchor ==>
         anchor[id] == Anchor(existing, id) && anchor[id] in nodes && 0 < id)
    && (forall root {:trigger keptByComponent[root]} :: root in components ==>
         OldestAnchored(anchor, components[root], keptByComponent[root]))
  }

  lemma ClaimsInClass(E: set<(string, string)>, existing: Existing, nodes: set<string>, f: Parents<string>,
                      anchor: map<int, string>, components: map<string, seq<string>>, keptByComponent: map<string, int>,
                      root: string, x: string, id: int)
    requires Setup(E, existing, nodes, f, anchor, components, keptByComponent) && root in components
    requires x in components[root]
    ensures Claims(E, existing, id, x) <==> id in anchor && anchor[id] in components[root]
  {
    hide Parents.Valid, Parents.Rep, OldestAnchored, Linked;
    if id in anchor {
      var a := anchor[id];
      assert f.Rep(a) == f.Rep(x) <==> Linked(E, a, x);
      assert f.Rep(x) == root;
    }
  }

  lemma KeeperOfClass(E: set<(string, string)>, existing: Existing, nodes: set<string>, f: Parents<string>,
                      anchor: map<int, string>, components: map<string, seq<string>>, keptByComponent: map<string, int>,
                      root: string, x: string)
    requires Setup(E, existing, nodes, f, anchor, components, keptByComponent) && root in components
    requires x in components[root]
    ensures keptByComponent[root] != 0 ==> forall id :: Keeper(E, existing, id, x) <==> id == keptByComponent[root]
    ensures keptByComponent[root] == 0 ==> Unclaimed(E, existing, x)
    ensures keptByComponent[root] != 0 ==>
      keptByComponent[root] in anchor && anchor[keptByComponent[root]] in components[root]
  {
    forall id
      ensures Claims(E, existing, id, x) <==> id in anchor && anchor[id] in components[root]
    {
      ClaimsInClass(E, existing, nodes, f, anchor, components, keptByComponent, root, x, id);
    }
    assert OldestAnchored(anchor, components[root], keptByComponent[root]);
    hide Setup, Claims, Linked;
  }

  lemma ClassIsComponent(E: set<(string, string)>, nodes: set<string>, f: Parents<string>,
                         components: map<string, seq<string>>, root: string, x: string)
    requires Classes(f, E) && Grouped(f, nodes, components) && root in components && x in components[root]
    ensures ComponentOf(E, nodes, x, Sort(components[root]))
  {
    hide Parents.Valid, Parents.Rep, Linked;
    SortSorted(components[root]);
    NoRepeatsSort(components[root]);
    MembersSort(components[root]);
    forall y
      ensures y in components[root] <==> y in nodes && Linked(E, x, y)
    {
      assert f.Rep(x) == f.Rep(y) <==> Linked(E, x, y);
    }
  }

  lemma KeptIsRight(E: set<(string, string)>, existing: Existing, nodes: set<string>, f: Parents<string>,
                    anchor: map<int, string>, components: map<string, seq<string>>, keptByComponent: map<string, int>,
                    unsorted: map<int, seq<string>>, kept: map<int, seq<string>>)
    requires Setup(E, existing, nodes, f, anchor, components, keptByComponent)
    requires KeptFrom(components, keptByComponent, unsorted) && kept.Keys == unsorted.Keys
    requires forall id {:trigger kept[id]} :: id in kept ==> kept[id] == Sort(unsorted[id])
    ensures KeptRight(E, nodes, existing, kept)
  {
    forall id
      ensures id in kept <==> Anchored(existing, id) && Keeper(E, existing, id, Anchor(existing, id))
      ensures id in kept ==> Anchored(existing, id) && ComponentOf(E, nodes, Anchor(existing, id), kept[id])
    {
      if id in kept {
        var root :| root in components && keptByComponent[root] == id;
        assert OldestAnchored(anchor, components[root], keptByComponent[root]);
        KeeperOfClass(E, existing, nodes, f, anchor, components, keptByComponent, root, anchor[id]);
        ClassIsComponent(E, nodes, f, components, root, anchor[id]);
      } else if Anchored(existing, id) {
        assert id in anchor && anchor[id] in nodes;
        var root := f.Rep(anchor[id]);
        KeeperOfClass(E, existing, nodes, f, anchor, components, keptByComponent, root, anchor[id]);
      }
    }
  }

  lemma NewIsRight(E: set<(string, string)>, existing: Existing, nodeModality: map<string, string>, f: Parents<string>,
                   anchor: map<int, string>, components: map<string, seq<string>>, keptByComponent: map<string, int>,
                   created: seq<NewCluster>, origin: seq<string>)
    requires Setup(E, existing, nodeModality.Keys, f, anchor, components, keptByComponent)
    requires CreatedFrom(components, keptByComponent, nodeModality, created, origin)
    ensures NewRight(E, nodeModality, existing, created)
  {
    hide Setup, Unclaimed, ComponentOf, MadeFrom, Linked, MadeRight;
    forall i | 0 <= i < |created|
      ensures MadeRight(E, nodeModality, existing, created[i])
      ensures forall x :: x in created[i].evidence <==> x in components[origin[i]]
    {
      assert origin[i] in origin;
      OneMade(E, existing, nodeModality, f, anchor, components, keptByComponent, origin[i], created[i]);
    }
    forall x | x in nodeModality && Unclaimed(E, existing, x)
      ensures exists c :: c in created && x in c.evidence
    {
      var root := UnclaimedUnkept(E, existing, nodeModality.Keys, f, anchor, components, keptByComponent, x);
      var i :| 0 <= i < |origin| && origin[i] == root;
      assert created[i] in created && x in created[i].evidence;
    }
    forall i, j, x | 0 <= i < j < |created| && x in created[i].evidence
      ensures x !in created[j].evidence
    {
      assert created[i] == created[i] && created[j] == created[j];
      Apart(E, existing, nodeModality.Keys, f, anchor, components, keptByComponent, origin[i], origin[j], x);
    }
  }

  lemma OneMade(E: set<(string, string)>, existing: Existing, nodeModality: map<string, string>, f: Parents<string>,
                anchor: map<int, string>, components: map<string, seq<string>>, keptByComponent: map<string, int>,
                root: string, c: NewCluster)
    requires Setup(E, existing, nodeModality.Keys, f, anchor, components, keptByComponent)
    requires root in components && root in keptByComponent && keptByComponent[root] == 0
    requires MadeFrom(components[root], nodeModality, c)
    ensures MadeRight(E, nodeModality, existing, c)
    ensures forall x :: x in c.evidence <==> x in components[root]
  {
    OneNew(E, existing, nodeModality, f, anchor, components, keptByComponent, root, c);
    hide Setup, Unclaimed, ComponentOf, MadeFrom, Linked;
  }

  lemma Apart(E: set<(string, string)>, existing: Existing, nodes: set<string>, f: Parents<string>,
              anchor: map<int, string>, components: map<string, seq<string>>, keptByComponent: map<string, int>,
              a: string, b: string, x: string)
    requires Setup(E, existing, nodes, f, anchor, components, keptByComponent)
    requires a in components && b in components && a != b && x in components[a]
    ensures x !in components[b]
  {
    ClassesApart(E, existing, nodes, f, anchor, components, keptByComponent);
  }

  lemma OneNew(E: set<(string, string)>, existing: Existing, nodeModality: map<string, string>, f: Parents<string>,
               anchor: map<int, string>, components: map<string, seq<string>>, keptByComponent: map<string, int>,
               root: string, c: NewCluster)
    requires Setup(E, existing, nodeModality.Keys, f, anchor, components, keptByComponent)
    requires root in components && keptByComponent[root] == 0 && MadeFrom(components[root], nodeModality, c)
    ensures c.evidence != [] && c.evidence[0] in nodeModality && c.modality == nodeModality[c.evidence[0]]
    ensures ComponentOf(E, nodeModality.Keys, c.evidence[0], c.evidence) && Unclaimed(E, existing, c.evidence[0])
    ensures forall x :: x in c.evidence <==> x in components[root]
  {
    MembersSort(components[root]);
    assert c.evidence[0] in Sort(components[root]);
    ClassIsComponent(E, nodeModality.Keys, f, components, root, c.evidence[0]);
    KeeperOfClass(E, existing, nodeModality.Keys, f, anchor, components, keptByComponent, root, c.evidence[0]);
  }

  lemma UnclaimedUnkept(E: set<(string, string)>, existing: Existing, nodes: set<string>, f: Parents<string>,
                        anchor: map<int, string>, components: map<string, seq<string>>,
                        keptByComponent: map<string, int>, x: string) returns (root: string)
    requires Setup(E, existing, nodes, f, anchor, components, keptByComponent) && x in nodes
    requires Unclaimed(E, existing, x)
    ensures root in components && x in components[root] && root in keptByComponent && keptByComponent[root] == 0
  {
    root := f.Rep(x);
    KeeperOfClass(E, existing, nodes, f, anchor, components, keptByComponent, root, x);
    assert !Keeper(E, existing, keptByComponent[root], x);
  }

  lemma MergesAreRight(E: set<(string, string)>, existing: Existing, nodes: set<string>, f: Parents<string>,
                       anchor: map<int, string>, components: map<string, seq<string>>,
                       keptByComponent: map<string, int>, merges: seq<Merge>)
    requires Setup(E, existing, nodes, f, anchor, components, keptByComponent) && Rising(merges)
    requires forall m :: m in merges <==> exists root ::
      root in components && Absorbs(components, keptByComponent, anchor, root, m)
    ensures MergesRight(E, existing, merges)
  {
    forall m
      ensures m in merges <==>
        Anchored(existing, m.from) && m.from != m.to && Keeper(E, existing, m.to, Anchor(existing, m.from))
    {
      if m in merges {
        var root :| root in components && Absorbs(components, keptByComponent, anchor, root, m);
        KeeperOfClass(E, existing, nodes, f, anchor, components, keptByComponent, root, anchor[m.from]);
      } else if Anchored(existing, m.from) && m.from != m.to && Keeper(E, existing, m.to, Anchor(existing, m.from)) {
        assert m.from in anchor && anchor[m.from] in nodes;
        var root := f.Rep(anchor[m.from]);
        KeeperOfClass(E, existing, nodes, f, anchor, components, keptByComponent, root, anchor[m.from]);
        assert !Unclaimed(E, existing, anchor[m.from]);
        assert Absorbs(components, keptByComponent, anchor, root, m);
      }
    }
  }

  /** Each surviving cluster's members in order. */
  method SortKept(unsorted: map<int, seq<string>>) returns (kept: map<int, seq<string>>)
    ensures kept.Keys == unsorted.Keys && forall id {:trigger kept[id]} :: id in kept ==> kept[id] == Sort(unsorted[id])
  {
    kept := unsorted;
    var ids := unsorted.Keys;
    while ids != {}
      invariant ids <= unsorted.Keys && kept.Keys == unsorted.Keys
      invariant forall id {:trigger kept[id]} :: id in kept ==>
        kept[id] == if id in ids then unsorted[id] else Sort(unsorted[id])
    {
      HasId(ids);
      var id :| id in ids;
      ids := ids - {id};
      kept := kept[id := Sort(kept[id])];
    }
  }

  ghost predicate NodesRight(modalities: map<string, string>, edges: seq<Edge>, existing: Existing,
                             nodeModality: map<string, string>) {
    && (forall x :: x in nodeModality <==> Known(modalities, edges, existing, x))
    && (forall x {:trigger nodeModality[x]} :: x in nodeModality ==>
         ModalityRight(modalities, edges, existing, x, nodeModality[x]))
  }

  /** A class's present clusters include every one whose anchor it holds. */
  ghost predicate AnchorsPresent(components: map<string, seq<string>>, anchor: map<int, string>,
                                 present: map<string, set<int>>) {
    forall root, c :: root in components && c in anchor && anchor[c] in components[root] ==>
      root in present && c in present[root]
  }

  /** The classes of the known features, and the cluster each class keeps. */
  method Grouping(modalities: map<string, string>, edges: seq<Edge>, existing: Existing)
      returns (modalityOf: map<string, string>, anchor: map<int, string>, components: map<string, seq<string>>,
               present: map<string, set<int>>, keptByComponent: map<string, int>, ghost f: Parents<string>)
    requires Disjoint(existing)
    ensures NodesRight(modalities, edges, existing, modalityOf) && AnchorsPresent(components, anchor, present)
    ensures Setup(Links(edges), existing, modalityOf.Keys, f, anchor, components, keptByComponent)
  {
    hide Parents.Valid, Parents.Rep, Linked, Known, ModalityRight, OldestAnchored, Anchor;
    hide Classes, Grouped, Links, Anchored, Disjoint, Setup;
    var memberCluster;
    modalityOf, memberCluster := Nodes(modalities, edges, existing);
    ClusteredKnown(modalities, edges, existing);
    var uf := Unite(edges);
    f := uf.Snapshot();
    anchor := Anchors(existing);
    components := Components(modalityOf.Keys, uf);
    ghost var g := uf.Snapshot();
    present := Present(memberCluster, uf);
    AnchorsPlaced(existing, modalityOf.Keys, memberCluster, anchor, f, g, components, present);
    keptByComponent := Keepers(components, present, anchor);
    MakeSetup(Links(edges), existing, modalityOf.Keys, f, anchor, components, keptByComponent);
  }

  /** The classes become surviving clusters or new ones. */
  method PlanGroups(ghost E: set<(string, string)>, ghost existing: Existing, nodeModality: map<string, string>,
                    ghost f: Parents<string>, ghost anchor: map<int, string>, components: map<string, seq<string>>,
                    keptByComponent: map<string, int>)
      returns (kept: map<int, seq<string>>, created: seq<NewCluster>)
    requires Setup(E, existing, nodeModality.Keys, f, anchor, components, keptByComponent)
    ensures KeptRight(E, nodeModality.Keys, existing, kept) && NewRight(E, nodeModality, existing, created)
  {
    hide Setup, KeptRight, NewRight, KeptFrom, CreatedFrom;
    ClassesApart(E, existing, nodeModality.Keys, f, anchor, components, keptByComponent);
    var unsorted;
    ghost var origin;
    unsorted, created, origin := Groups(components, keptByComponent, nodeModality);
    kept := SortKept(unsorted);
    KeptIsRight(E, existing, nodeModality.Keys, f, anchor, components, keptByComponent, unsorted, kept);
    NewIsRight(E, existing, nodeModality, f, anchor, components, keptByComponent, created, origin);
  }

  /** What one run does to a layer's clusters, given the confirmed edges. */
  method Reconcile(modalities: map<string, string>, edges: seq<Edge>, existing: Existing)
      returns (p: Plan)
    requires Disjoint(existing)
    ensures IsPlan(modalities, edges, existing, p)
    ensures PlannedByFirsts(modalities, edges, existing, p)
  {
    hide PlanFor, PlannedByFirsts;
    hide Known, ModalityRight, KeptRight, NewRight, MergesRight, Setup, Disjoint, Rising, Absorbs, Links;
    var modalityOf, anchor, components, present, keptByComponent;
    ghost var f;
    modalityOf, anchor, components, present, keptByComponent, f := Grouping(modalities, edges, existing);
    ghost var E := Links(edges);
    var kept, created := PlanGroups(E, existing, modalityOf, f, anchor, components, keptByComponent);
    ClassesApart(E, existing, modalityOf.Keys, f, anchor, components, keptByComponent);
    var merges := MergeList(components, keptByComponent, present, anchor);
    MergesAreRight(E, existing, modalityOf.Keys, f, anchor, components, keptByComponent, merges);
    p := Plan(kept, created, merges);
    MakePlan(modalities, edges, existing, modalityOf, p);
    PlanByFirsts(modalities, edges, existing, modalityOf, p);
  }

  lemma MakePlan(modalities: map<string, string>, edges: seq<Edge>, existing: Existing,
                 nodeModality: map<string, string>, p: Plan)
    requires NodesRight(modalities, edges, existing, nodeModality)
    requires KeptRight(Links(edges), nodeModality.Keys, existing, p.kept)
    requires NewRight(Links(edges), nodeModality, existing, p.newClusters)
    requires MergesRight(Links(edges), existing, p.merges)
    ensures PlanFor(modalities, edges, existing, nodeModality, p)
  {
    hide Known, ModalityRight, KeptRight, NewRight, MergesRight;
  }

  lemma ClusteredKnown(modalities: map<string, string>, edges: seq<Edge>, existing: Existing)
    ensures forall id, m :: id in existing && m in existing[id].members ==> Known(modalities, edges, existing, m)
  {}

  lemma MakeSetup(E: set<(string, string)>, existing: Existing, nodes: set<string>, f: Parents<string>,
                  anchor: map<int, string>, components: map<string, seq<string>>, keptByComponent: map<string, int>)
    requires Classes(f, E) && Grouped(f, nodes, components) && keptByComponent.Keys == components.Keys
    requires forall id :: id in anchor <==> Anchored(existing, id)
    requires forall id {:trigger anchor[id]} :: id in anchor ==>
      anchor[id] == Anchor(existing, id) && anchor[id] in nodes && 0 < id
    requires forall root {:trigger keptByComponent[root]} :: root in components ==>
      OldestAnchored(anchor, components[root], keptByComponent[root])
    ensures Setup(E, existing, nodes, f, anchor, components, keptByComponent)
  {}

  lemma ClassesApart(E: set<(string, string)>, existing: Existing, nodes: set<string>, f: Parents<string>,
                     anchor: map<int, string>, components: map<string, seq<string>>, keptByComponent: map<string, int>)
    requires Setup(E, existing, nodes, f, anchor, components, keptByComponent)
    ensures keptByComponent.Keys == components.Keys
    ensures forall root {:trigger components[root]} :: root in components ==>
      components[root] != [] && forall x :: x in components[root] ==> x in nodes
    ensures forall a, b :: a in components && b in components && keptByComponent[a] == keptByComponent[b] != 0 ==>
      a == b
    ensures forall a, b, x :: a in components && b in components && x in components[a] && x in components[b] ==> a == b
  {
    hide Parents.Valid, Parents.Rep;
  }

  lemma AnchorsPlaced(existing: Existing, nodes: set<string>, memberCluster: map<string, int>, anchor: map<int, string>,
                      f: Parents<string>, g: Parents<string>, components: map<string, seq<string>>,
                      present: map<string, set<int>>)
    requires Disjoint(existing) && SameReps(f, g) && Grouped(f, nodes, components)
    requires forall m {:trigger memberCluster[m]} :: m in memberCluster ==>
      g.Rep(m) in present && memberCluster[m] in present[g.Rep(m)]
    requires forall m :: m in memberCluster <==> exists id :: id in existing && m in existing[id].members
    requires forall m {:trigger memberCluster[m]} :: m in memberCluster ==>
      memberCluster[m] in existing && m in existing[memberCluster[m]].members
    requires forall id :: id in anchor <==> Anchored(existing, id)
    requires forall id {:trigger anchor[id]} :: id in anchor ==> anchor[id] == Anchor(existing, id)
    requires forall id, m :: id in existing && m in existing[id].members ==> m in nodes
    ensures forall id {:trigger anchor[id]} :: id in anchor ==> anchor[id] in nodes && 0 < id
    ensures forall root, c :: root in components && c in anchor && anchor[c] in components[root] ==>
      root in present && c in present[root]
  {
    hide Parents.Valid, Parents.Rep;
    forall c | c in anchor
      ensures anchor[c] in nodes && 0 < c && anchor[c] in memberCluster && memberCluster[anchor[c]] == c
    {
      assert anchor[c] in existing[c].members;
    }
  }

  // ------------------------------------------------------------------- what a plan amounts to

  datatype GroupId = Surviving(id: int) | Created(index: nat)

  /** x is a member of group g of plan p. */
  predicate In(p: Plan, g: GroupId, x: string) {
    match g
    case Surviving(id) => id in p.kept && x in p.kept[id]
    case Created(i) => i < |p.newClusters| && x in p.newClusters[i].evidence
  }

  lemma InLinked(modalities: map<string, string>, edges: seq<Edge>, existing: Existing,
                 nodeModality: map<string, string>, p: Plan, g: GroupId, x: string, y: string)
    requires PlanFor(modalities, edges, existing, nodeModality, p) && In(p, g, x)
    ensures x in nodeModality && (In(p, g, y) <==> y in nodeModality && Linked(Links(edges), x, y))
  {
    var E, group := Links(edges), if g.Surviving? then p.kept[g.id] else p.newClusters[g.index].evidence;
    var a := if g.Surviving? then Anchor(existing, g.id) else group[0];
    assert ComponentOf(E, nodeModality.Keys, a, group);
    if Linked(E, a, y) { LinkedSym(E, a, x); LinkedTrans(E, x, a, y); }
    if Linked(E, x, y) { LinkedTrans(E, a, x, y); }
  }

  /** Every known feature is in some group of the plan. */
  lemma InSome(modalities: map<string, string>, edges: seq<Edge>, existing: Existing, nodeModality: map<string, string>,
               p: Plan, x: string)
      returns (g: GroupId)
    requires PlanFor(modalities, edges, existing, nodeModality, p) && Disjoint(existing) && x in nodeModality
    ensures In(p, g, x)
  {
    var E := Links(edges);
    hide Known, ModalityRight, Linked, MergesRight, Links, Anchor, Disjoint, MadeRight, Claims, Keeper;
    if Unclaimed(E, existing, x) {
      var c :| c in p.newClusters && x in c.evidence;
      var i :| 0 <= i < |p.newClusters| && p.newClusters[i] == c;
      g := Created(i);
    } else {
      var id := OldestClaim(E, existing, x);
      KeeperShared(E, existing, id, x);
      ClaimsAnchored(E, existing, id, x);
      assert ComponentOf(E, nodeModality.Keys, Anchor(existing, id), p.kept[id]);
      g := Surviving(id);
    }
  }

  lemma ClaimsAnchored(E: set<(string, string)>, existing: Existing, id: int, x: string)
    requires Keeper(E, existing, id, x)
    ensures Anchored(existing, id)
  {}


  /** Some oldest cluster claims x, when any does. */
  lemma OldestClaim(E: set<(string, string)>, existing: Existing, x: string) returns (id: int)
    requires Disjoint(existing) && !Unclaimed(E, existing, x)
    ensures Keeper(E, existing, id, x)
  {
    id :| Claims(E, existing, id, x);
    while exists c :: Claims(E, existing, c, x) && c < id
      invariant Claims(E, existing, id, x)
      decreases id
    {
      var c :| Claims(E, existing, c, x) && c < id;
      id := c;
    }
  }

  /** The keeper of x's component keeps itself, and its anchor is linked to x. */
  lemma KeeperShared(E: set<(string, string)>, existing: Existing, id: int, x: string)
    requires Keeper(E, existing, id, x)
    ensures Keeper(E, existing, id, Anchor(existing, id)) && Linked(E, Anchor(existing, id), x)
  {
    var a := Anchor(existing, id);
    LinkedSelf(E, a);
    forall c | Claims(E, existing, c, a)
      ensures id <= c
    {
      LinkedTrans(E, Anchor(existing, c), a, x);
      assert Claims(E, existing, c, x);
    }
  }

  /** The plan's groups partition the known features into the components of the edges. */
  lemma PlanPartitions(modalities: map<string, string>, edges: seq<Edge>, existing: Existing,
                       nodeModality: map<string, string>, p: Plan, x: string, y: string)
    requires PlanFor(modalities, edges, existing, nodeModality, p) && Disjoint(existing)
    requires Known(modalities, edges, existing, x) && Known(modalities, edges, existing, y)
    ensures exists g :: In(p, g, x)
    ensures forall g, h :: In(p, g, x) && In(p, h, x) ==> g == h
    ensures (exists g :: In(p, g, x) && In(p, g, y)) <==> Linked(Links(edges), x, y)
  {
    var g := InSome(modalities, edges, existing, nodeModality, p, x);
    InLinked(modalities, edges, existing, nodeModality, p, g, x, y);
    forall a, b | In(p, a, x) && In(p, b, x)
      ensures a == b
    {
      OneGroup(modalities, edges, existing, nodeModality, p, a, b, x);
    }
    hide PlanFor, Known, Linked, In;
    if h :| In(p, h, x) && In(p, h, y) {
      assert h == g;
    }
  }

  lemma OneGroup(modalities: map<string, string>, edges: seq<Edge>, existing: Existing,
                 nodeModality: map<string, string>, p: Plan, g: GroupId, h: GroupId, x: string)
    requires PlanFor(modalities, edges, existing, nodeModality, p) && In(p, g, x) && In(p, h, x)
    ensures g == h
  {
    var E := Links(edges);
    if g.Created? && h.Created? {
    } else if g.Surviving? && h.Surviving? {
      KeptOnce(modalities, edges, existing, nodeModality, p, g.id, h.id, x);
      KeptOnce(modalities, edges, existing, nodeModality, p, h.id, g.id, x);
    } else {
      ClaimedIfKept(modalities, edges, existing, nodeModality, p, g, x);
      ClaimedIfKept(modalities, edges, existing, nodeModality, p, h, x);
    }
  }

  lemma KeptOnce(modalities: map<string, string>, edges: seq<Edge>, existing: Existing,
                 nodeModality: map<string, string>, p: Plan, i: int, j: int, x: string)
    requires PlanFor(modalities, edges, existing, nodeModality, p) && i in p.kept && j in p.kept && x in p.kept[i]
    requires x in p.kept[j]
    ensures i <= j
  {
    hide Known, ModalityRight, NewRight, MergesRight;
    var E := Links(edges);
    LinkedSym(E, Anchor(existing, i), x);
    LinkedTrans(E, Anchor(existing, j), x, Anchor(existing, i));
    assert Claims(E, existing, j, Anchor(existing, i));
  }

  lemma ClaimedIfKept(modalities: map<string, string>, edges: seq<Edge>, existing: Existing,
                      nodeModality: map<string, string>, p: Plan, g: GroupId, x: string)
    requires PlanFor(modalities, edges, existing, nodeModality, p) && In(p, g, x)
    ensures g.Surviving? <==> !Unclaimed(Links(edges), existing, x)
  {
    hide Known, ModalityRight, MergesRight;
    var E := Links(edges);
    if g.Surviving? {
      assert Claims(E, existing, g.id, x);
    } else {
      var c := p.newClusters[g.index];
      assert ComponentOf(E, nodeModality.Keys, c.evidence[0], c.evidence);
      LinkedSym(E, c.evidence[0], x);
      forall id ensures !Claims(E, existing, id, x) {
        assert !Claims(E, existing, id, c.evidence[0]);
        if Claims(E, existing, id, x) {
          LinkedTrans(E, Anchor(existing, id), x, c.evidence[0]);
        }
      }
    }
  }

  /** Two plans for the same inputs differ at most in the order of the new clusters. */
  lemma PlanUnique(modalities: map<string, string>, edges: seq<Edge>, existing: Existing, m1: map<string, string>,
                   p1: Plan, m2: map<string, string>, p2: Plan)
    requires PlanFor(modalities, edges, existing, m1, p1) && PlanFor(modalities, edges, existing, m2, p2)
    requires Disjoint(existing)
    ensures p1.kept == p2.kept && p1.merges == p2.merges
    ensures forall c :: c in p1.newClusters <==> c in p2.newClusters
    ensures |p1.newClusters| == |p2.newClusters|
  {
    SameModalities(modalities, edges, existing, m1, p1, m2, p2);
    SameKept(modalities, edges, existing, m1, p1, p2);
    SameMerges(p1.merges, p2.merges);
    forall c | c in p1.newClusters ensures c in p2.newClusters { SameNew(modalities, edges, existing, m1, p1, p2, c); }
    forall c | c in p2.newClusters ensures c in p1.newClusters { SameNew(modalities, edges, existing, m1, p2, p1, c); }
    NewOnce(modalities, edges, existing, m1, p1);
    NewOnce(modalities, edges, existing, m1, p2);
    SameSize(p1.newClusters, p2.newClusters);
    SameSize(p2.newClusters, p1.newClusters);
  }

  lemma SameModalities(modalities: map<string, string>, edges: seq<Edge>, existing: Existing, m1: map<string, string>,
                       p1: Plan, m2: map<string, string>, p2: Plan)
    requires PlanFor(modalities, edges, existing, m1, p1) && PlanFor(modalities, edges, existing, m2, p2)
    requires Disjoint(existing)
    ensures m1 == m2
  {
    hide KeptRight, NewRight, MergesRight;
    forall x
      ensures x in m1 <==> x in m2
      ensures x in m1 ==> m1[x] == m2[x]
    {
      assert x in m1 ==> ModalityRight(modalities, edges, existing, x, m1[x]);
      assert x in m2 ==> ModalityRight(modalities, edges, existing, x, m2[x]);
      if x in m1 { ModalityUnique(modalities, edges, existing, x, m1[x], m2[x]); }
    }
  }

  lemma ModalityUnique(modalities: map<string, string>, edges: seq<Edge>, existing: Existing, x: string, a: string,
                       b: string)
    requires ModalityRight(modalities, edges, existing, x, a) && ModalityRight(modalities, edges, existing, x, b)
    requires Disjoint(existing)
    ensures a == b
  {
    if x !in modalities && !exists id :: id in existing && x in existing[id].members {
      var i :| 0 <= i < |edges| && (edges[i].left == x || edges[i].right == x) && a == edges[i].modality &&
        !Mentioned(edges[..i], x);
      var j :| 0 <= j < |edges| && (edges[j].left == x || edges[j].right == x) && b == edges[j].modality &&
        !Mentioned(edges[..j], x);
      if i < j { assert edges[..j][i] == edges[i]; }
      if j < i { assert edges[..i][j] == edges[j]; }
    }
  }

  lemma SameKept(modalities: map<string, string>, edges: seq<Edge>, existing: Existing, m: map<string, string>,
                 p1: Plan, p2: Plan)
    requires PlanFor(modalities, edges, existing, m, p1) && PlanFor(modalities, edges, existing, m, p2)
    ensures p1.kept == p2.kept
  {
    hide Known, ModalityRight, NewRight, MergesRight, Linked, Keeper;
    forall id
      ensures id in p1.kept <==> id in p2.kept
      ensures id in p1.kept ==> p1.kept[id] == p2.kept[id]
    {
      assert id in p1.kept <==> id in p2.kept;
      if id in p1.kept { SortedUnique(p1.kept[id], p2.kept[id]); }
    }
  }

  lemma {:induction false} SameMerges(a: seq<Merge>, b: seq<Merge>)
    requires Rising(a) && Rising(b) && forall m :: m in a <==> m in b
    ensures a == b
  {
    if a != [] { assert a[0] in b; }
    if b != [] { assert b[0] in a; }
    if a != [] && b != [] {
      forall m ensures m in a[1..] <==> m in b[1..] {
        MergeTail(a, m);
        MergeTail(b, m);
      }
      SameMerges(a[1..], b[1..]);
    }
  }

  lemma MergeTail(a: seq<Merge>, m: Merge)
    requires a != [] && Rising(a)
    ensures m in a[1..] <==> m in a && m != a[0]
  {
    assert a == [a[0]] + a[1..];
    if m in a[1..] {
      var i :| 0 <= i < |a[1..]| && a[1..][i] == m;
      assert a[i + 1] == m;
    }
  }

  lemma SameNew(modalities: map<string, string>, edges: seq<Edge>, existing: Existing, m: map<string, string>, p1: Plan,
                p2: Plan, c: NewCluster)
    requires PlanFor(modalities, edges, existing, m, p1) && PlanFor(modalities, edges, existing, m, p2)
    requires c in p1.newClusters
    ensures c in p2.newClusters
  {
    SameCreated(Links(edges), m, existing, p1.newClusters, p2.newClusters, c);
  }

  lemma SameCreated(E: set<(string, string)>, m: map<string, string>, existing: Existing, a: seq<NewCluster>,
                    b: seq<NewCluster>, c: NewCluster)
    requires NewRight(E, m, existing, a) && NewRight(E, m, existing, b) && c in a
    ensures c in b
  {
    hide ComponentOf, Unclaimed, Linked, NewRight;
    CreatedRight(E, m, existing, a, c);
    var x := c.evidence[0];
    var d := CreatedWith(E, m, existing, b, x);
    SameComponent(E, m.Keys, x, c.evidence, d.evidence[0], d.evidence);
  }

  lemma CreatedRight(E: set<(string, string)>, m: map<string, string>, existing: Existing, a: seq<NewCluster>,
                     c: NewCluster)
    requires NewRight(E, m, existing, a) && c in a
    ensures MadeRight(E, m, existing, c)
  {
    hide MadeRight;
  }

  lemma CreatedWith(E: set<(string, string)>, m: map<string, string>, existing: Existing, a: seq<NewCluster>, x: string)
    returns (c: NewCluster)
    requires NewRight(E, m, existing, a) && x in m && Unclaimed(E, existing, x)
    ensures c in a && x in c.evidence && MadeRight(E, m, existing, c)
  {
    hide MadeRight;
    c :| c in a && x in c.evidence;
  }

  lemma SameComponent(E: set<(string, string)>, nodes: set<string>, x: string, a: seq<string>, y: string,
                      b: seq<string>)
    requires ComponentOf(E, nodes, x, a) && ComponentOf(E, nodes, y, b) && x in b
    ensures a == b
  {
    hide Linked;
    LinkedSym(E, y, x);
    forall z ensures z in a <==> z in b {
      if Linked(E, x, z) { LinkedTrans(E, y, x, z); }
      if Linked(E, y, z) { LinkedTrans(E, x, y, z); }
    }
    SortedUnique(a, b);
  }

  lemma NewOnce(modalities: map<string, string>, edges: seq<Edge>, existing: Existing, m: map<string, string>, p: Plan)
    requires PlanFor(modalities, edges, existing, m, p)
    ensures NoRepeats(p.newClusters)
  {
    hide Known, ModalityRight, KeptRight, MergesRight, MadeRight, NewApart, Links, NoRepeats;
    forall i | 0 <= i < |p.newClusters|
      ensures p.newClusters[i].evidence != []
    {
      MadeFilled(Links(edges), m, existing, p.newClusters[i]);
    }
    ApartDiffer(p.newClusters);
  }

  lemma MadeFilled(E: set<(string, string)>, m: map<string, string>, existing: Existing, c: NewCluster)
    requires MadeRight(E, m, existing, c)
    ensures c.evidence != []
  {
    hide ComponentOf, Unclaimed;
  }

  lemma ApartDiffer(created: seq<NewCluster>)
    requires NewApart(created) && forall i :: 0 <= i < |created| ==> created[i].evidence != []
    ensures NoRepeats(created)
  {
    forall i, j | 0 <= i < j < |created|
      ensures created[i] != created[j]
    {
      assert created[i].evidence[0] in created[i].evidence;
    }
  }

  lemma {:induction false} SameSize(a: seq<NewCluster>, b: seq<NewCluster>)
    requires NoRepeats(a) && forall x :: x in a ==> x in b
    ensures |a| <= |b|
  {
    if a != [] {
      assert a[0] in b;
      var i :| 0 <= i < |b| && b[i] == a[0];
      var rest := b[..i] + b[i + 1..];
      forall x | x in a[1..] ensures x in rest {
        var k :| 0 <= k < |a[1..]| && a[1..][k] == x;
        assert a[k + 1] == x && x in b;
        var j :| 0 <= j < |b| && b[j] == x;
        assert rest[if j < i then j else j - 1] == x;
      }
      SameSize(a[1..], rest);
    }
  }
}
