/** cases/trace_links.go and cases/identity_decisions.go: what a case page shows of a pair's
    decisions, and the shortest chain of reviewed decisions to each sample. */
module Cases {
  import opened Decision
  import opened Options

  // ------------------------------------------------------------------------ identity status

  datatype Identity = IDENTITY_CONFIRMED | IDENTITY_EXCLUDED | IDENTITY_INCONCLUSIVE | IDENTITY_DISPUTED
    | IDENTITY_PENDING

  /** What the case page calls an outcome; None for a pair it leaves out. */
  function IdentityOf(o: Outcome): Option<Identity> {
    var byPeople := o.settledBy == Some(REVIEWER) || o.settledBy == Some(INCONSISTENCE);
    if o.status == CONFIRMED && byPeople then Some(IDENTITY_CONFIRMED)
    else if o.status == REJECTED && byPeople then Some(IDENTITY_EXCLUDED)
    else if o.status == REJECTED then None
    else if o.status == DISPUTED && o.settledBy == Some(INCONSISTENCE) then Some(IDENTITY_INCONCLUSIVE)
    else if o.status == DISPUTED then Some(IDENTITY_DISPUTED)
    else if o.status == PENDING_REVIEW && o.settledBy == Some(REVIEWER) then Some(IDENTITY_INCONCLUSIVE)
    else Some(IDENTITY_PENDING)
  }

  /** What the page says of a round, over its entries: an INCONSISTENCE's call; without one, what the VERIFICATOR
    * and REVIEWER agree on, or that they do not; and otherwise that the pair is pending, unless the SYSTEM alone
    * was NEGATIVE. */
  ghost predicate RoundSays(chain: Chain, round: int, status: Option<Identity>) {
    var q := Some(round);
    && (forall i :: LastAt(chain, q, INCONSISTENCE, i) ==>
          status == Some(match chain[i].call case POSITIVE => IDENTITY_CONFIRMED case NEGATIVE => IDENTITY_EXCLUDED
            case INCONCLUSIVE => IDENTITY_INCONCLUSIVE))
    && (NoneAt(chain, q, INCONSISTENCE) ==>
          && (forall v, r :: LastAt(chain, q, VERIFICATOR, v) && LastAt(chain, q, REVIEWER, r) ==>
                status == Some(if chain[v].call != chain[r].call || chain[v].conclusion != chain[r].conclusion
                  then IDENTITY_DISPUTED
                  else match chain[v].call case POSITIVE => IDENTITY_CONFIRMED case NEGATIVE => IDENTITY_EXCLUDED
                    case INCONCLUSIVE => IDENTITY_INCONCLUSIVE))
          && (NoneAt(chain, q, REVIEWER) && !NoneAt(chain, q, VERIFICATOR) ==> status == Some(IDENTITY_PENDING))
          && (NoneAt(chain, q, VERIFICATOR) ==>
                && (forall s :: LastAt(chain, q, SYSTEM, s) ==>
                      status == if chain[s].call == NEGATIVE then None else Some(IDENTITY_PENDING))
                && (NoneAt(chain, q, SYSTEM) ==> status == Some(IDENTITY_PENDING))))
  }

  lemma RoundSaysIt(chain: Chain, round: int, o: Outcome)
    requires Ruled(chain, Some(round), o)
    ensures RoundSays(chain, round, IdentityOf(o))
  {
    var q := Some(round);
    var i := LastOrNone(chain, q, INCONSISTENCE);
    var v := LastOrNone(chain, q, VERIFICATOR);
    var r := LastOrNone(chain, q, REVIEWER);
    var s := LastOrNone(chain, q, SYSTEM);
    LastsInRange(chain, q);
    NoLastThere(chain, q);
    hide LastAt, NoneAt;
    if i >= 0 {
      LastAtUnique(chain, q, INCONSISTENCE, i);
    } else if v >= 0 {
      LastAtUnique(chain, q, VERIFICATOR, v);
      if r >= 0 { LastAtUnique(chain, q, REVIEWER, r); }
    } else if s >= 0 {
      LastAtUnique(chain, q, SYSTEM, s);
    }
  }

  method IdentityStatus(chain: Chain) returns (status: Option<Identity>)
    ensures chain != [] ==> forall d :: LatestSettled(chain, d) ==> RoundSays(chain, d, status)
    ensures chain == [] ==> status == None
    ensures chain != [] ==> status == IdentityOf(Derive(chain, Deciding(chain)))
    ensures status == Some(IDENTITY_CONFIRMED) <==> Reviewed(chain)
  {
    hide RoundSays, LatestSettled, Ruled;
    var round, edge, settledBy, ok := DecidingRoundBy(chain);
    if !ok { return None; }
    DecidingUnique(chain, round, Deciding(chain));
    ConfirmedIsReviewed(chain);
    status := IdentityOf(Outcome(edge, settledBy));
    RoundSaysIt(chain, round, Outcome(edge, settledBy));
    forall d | LatestSettled(chain, d)
      ensures d == round
    {
      DecidingIs(chain, d);
      DecidingUnique(chain, d, round);
    }
  }

  /** The case page says CONFIRMED exactly of the pairs that build the REVIEWED clusters. */
  lemma ConfirmedIsReviewed(chain: Chain)
    requires chain != []
    ensures IdentityOf(Derive(chain, Deciding(chain))) == Some(IDENTITY_CONFIRMED) <==> Reviewed(chain)
  {}

  // ------------------------------------------------------------------------- decisive entry

  datatype DecisionRow = DecisionRow(entry: Entry, username: string, systemSource: string, confidence: Option<real>)

  function Entries(rows: seq<DecisionRow>): Chain {
    seq(|rows|, i requires 0 <= i < |rows| => rows[i].entry)
  }

  /** The last row of a role. */
  function LastRow(rows: seq<DecisionRow>, role: Role): Option<DecisionRow> {
    if rows == [] then None
    else if rows[|rows| - 1].entry.role == role then Some(rows[|rows| - 1])
    else LastRow(rows[..|rows| - 1], role)
  }

  lemma {:induction false} LastRowIs(rows: seq<DecisionRow>, role: Role)
    ensures LastRow(rows, role).Some? <==> LastOf(Entries(rows), role).Some?
    ensures LastRow(rows, role).Some? ==>
      LastRow(rows, role).value.entry == LastOf(Entries(rows), role).value &&
      LastRow(rows, role).value.entry.role == role
  {
    if rows != [] {
      LastRowIs(rows[..|rows| - 1], role);
      assert Entries(rows)[..|rows| - 1] == Entries(rows[..|rows| - 1]);
    }
  }

  /** The role whose row is shown as having settled a pair. */
  function DecisiveRole(chain: Chain): Option<Role> {
    if LastOf(chain, INCONSISTENCE).Some? then Some(INCONSISTENCE)
    else if LastOf(chain, REVIEWER).Some? then Some(REVIEWER)
    else if LastOf(chain, VERIFICATOR).Some? then Some(VERIFICATOR)
    else if LastOf(chain, SYSTEM).Some? then Some(SYSTEM)
    else None
  }

  function Decider(row: DecisionRow): string {
    if row.entry.role.SYSTEM? then row.systemSource else row.username
  }

  /** The k-th row is the last of its role. */
  ghost predicate LastOfRole(rows: seq<DecisionRow>, role: Role, k: int) {
    0 <= k < |rows| && rows[k].entry.role == role && forall j :: k < j < |rows| ==> rows[j].entry.role != role
  }

  ghost predicate HasRole(rows: seq<DecisionRow>, role: Role) {
    exists k :: LastOfRole(rows, role, k)
  }

  /** The role shown: INCONSISTENCE before REVIEWER before VERIFICATOR before SYSTEM. */
  ghost predicate HighestRole(rows: seq<DecisionRow>, role: Option<Role>) {
    && (role == Some(INCONSISTENCE) <==> HasRole(rows, INCONSISTENCE))
    && (role == Some(REVIEWER) <==> HasRole(rows, REVIEWER) && !HasRole(rows, INCONSISTENCE))
    && (role == Some(VERIFICATOR) <==>
          HasRole(rows, VERIFICATOR) && !HasRole(rows, REVIEWER) && !HasRole(rows, INCONSISTENCE))
    && (role == None <==> rows == [])
  }

  lemma {:induction false} LastRowAt(rows: seq<DecisionRow>, role: Role) returns (k: int)
    ensures LastRow(rows, role).Some? <==> HasRole(rows, role)
    ensures LastRow(rows, role).Some? ==> LastOfRole(rows, role, k) && LastRow(rows, role) == Some(rows[k])
    ensures forall j :: LastOfRole(rows, role, j) ==> j == k
  {
    k := -1;
    if rows != [] {
      var n := |rows| - 1;
      if rows[n].entry.role == role {
        k := n;
        assert LastOfRole(rows, role, n);
      } else {
        k := LastRowAt(rows[..n], role);
        forall j
          ensures LastOfRole(rows, role, j) <==> LastOfRole(rows[..n], role, j)
        {}
      }
    }
  }

  lemma SomeRole(rows: seq<DecisionRow>)
    ensures rows == [] <==> forall role :: !HasRole(rows, role)
    ensures forall role, k :: LastOfRole(rows, role, k) ==> 0 <= k < |rows| && HasRole(rows, role)
  {
    if rows != [] {
      assert LastOfRole(rows, rows[|rows| - 1].entry.role, |rows| - 1);
      assert HasRole(rows, rows[|rows| - 1].entry.role);
    }
  }

  method DecisiveEntry(rows: seq<DecisionRow>) returns (role: Option<Role>, decidedBy: string, confidence: Option<real>)
    ensures role == DecisiveRole(Entries(rows))
    ensures role.Some? ==> LastRow(rows, role.value).Some? && decidedBy == Decider(LastRow(rows, role.value).value)
    ensures role.Some? ==>
      confidence == if LastRow(rows, SYSTEM).Some? then LastRow(rows, SYSTEM).value.confidence else None
    ensures HighestRole(rows, role)
    ensures role.Some? ==> exists k ::
      && LastOfRole(rows, role.value, k)
      && decidedBy == if role.value == SYSTEM then rows[k].systemSource else rows[k].username
    ensures forall s :: LastOfRole(rows, SYSTEM, s) ==> confidence == rows[s].confidence
    ensures !HasRole(rows, SYSTEM) ==> confidence == None
  {
    var sys, ver, rev, inc: Option<DecisionRow> := None, None, None, None;
    for i := 0 to |rows|
      invariant sys == LastRow(rows[..i], SYSTEM) && ver == LastRow(rows[..i], VERIFICATOR)
      invariant rev == LastRow(rows[..i], REVIEWER) && inc == LastRow(rows[..i], INCONSISTENCE)
    {
      assert rows[..i + 1][..i] == rows[..i];
      match rows[i].entry.role
      case SYSTEM => sys := Some(rows[i]);
      case VERIFICATOR => ver := Some(rows[i]);
      case REVIEWER => rev := Some(rows[i]);
      case INCONSISTENCE => inc := Some(rows[i]);
    }
    assert rows[..|rows|] == rows;
    LastRowIs(rows, SYSTEM);
    LastRowIs(rows, VERIFICATOR);
    LastRowIs(rows, REVIEWER);
    LastRowIs(rows, INCONSISTENCE);
    ghost var s := LastRowAt(rows, SYSTEM);
    ghost var v := LastRowAt(rows, VERIFICATOR);
    ghost var r := LastRowAt(rows, REVIEWER);
    ghost var i := LastRowAt(rows, INCONSISTENCE);
    SomeRole(rows);
    hide LastOfRole, LastRow, LastOf, HasRole;
    var pick := if inc.Some? then inc else if rev.Some? then rev else if ver.Some? then ver else sys;
    if pick.None? { return None, "", None; }
    role := Some(pick.value.entry.role);
    decidedBy := Decider(pick.value);
    confidence := if sys.Some? then sys.value.confidence else None;
  }

  /** The decisive row's role is the one that settled the round, unless the round holds a REVIEWER's
      decision without a VERIFICATOR's or an INCONSISTENCE. */
  lemma DecisiveExactly(chain: Chain, round: int)
    ensures DecisiveRole(RoundChain(chain, round)) == Derive(chain, round).settledBy <==> !Lone(Humans(chain), round)
  {
    LastInRound(chain, round, VERIFICATOR);
    LastInRound(chain, round, REVIEWER);
    LastInRound(chain, round, INCONSISTENCE);
    hide RoundChain, LastOf, LastIn, Humans;
  }

  /** For every reviewed pair the case page names who settled it. */
  lemma DecisiveSettles(chain: Chain)
    requires Reviewed(chain)
    ensures DecisiveRole(RoundChain(chain, Deciding(chain))) == Derive(chain, Deciding(chain)).settledBy
    ensures Derive(chain, Deciding(chain)).settledBy == Some(REVIEWER) ||
      Derive(chain, Deciding(chain)).settledBy == Some(INCONSISTENCE)
  {
    hide LastOf, RoundChain;
  }

  // -------------------------------------------------------------------------- shortest paths

  type Graph = map<string, seq<string>>

  function Next(edges: Graph, node: string): seq<string> {
    if node in edges then edges[node] else []
  }

  predicate Follows(edges: Graph, p: seq<string>, i: nat)
    requires i + 1 < |p|
  {
    p[i + 1] in Next(edges, p[i])
  }

  ghost predicate IsPath(edges: Graph, p: seq<string>) {
    p != [] && forall i: nat {:trigger Follows(edges, p, i)} :: i + 1 < |p| ==> Follows(edges, p, i)
  }

  /** p leads from one of the sources to f. */
  ghost predicate PathTo(sources: seq<string>, edges: Graph, p: seq<string>, f: string) {
    IsPath(edges, p) && p[0] in sources && p[|p| - 1] == f
  }

  lemma PathMore(sources: seq<string>, edges: Graph, p: seq<string>, f: string, n: string)
    requires PathTo(sources, edges, p, f) && n in Next(edges, f)
    ensures PathTo(sources, edges, p + [n], n)
  {
    var q := p + [n];
    forall i: nat | i + 1 < |q| ensures Follows(edges, q, i) {
      if i + 1 < |p| { assert Follows(edges, p, i); }
    }
  }

  /** Every node the search can come to. */
  function Universe(sources: seq<string>, edges: Graph): set<string> {
    (set s | s in sources) + (set n, t | n in edges && t in edges[n] :: t)
  }

  type Paths = map<string, seq<string>>

  /** Each path known is one, and each source is reached by itself. */
  ghost predicate Sound(sources: seq<string>, edges: Graph, paths: Paths) {
    && (forall f {:trigger paths[f]} :: f in paths ==>
         PathTo(sources, edges, paths[f], f) && f in Universe(sources, edges))
    && (forall s :: s in sources ==> s in paths && |paths[s]| == 1)
  }

  /** The queue's nodes are reached, nearest first, and no node reached is much further than the head. */
  ghost predicate Ordered(paths: Paths, queue: seq<string>) {
    && (forall k {:trigger queue[k]} :: 0 <= k < |queue| ==> queue[k] in paths)
    && (forall i, j :: 0 <= i < j < |queue| ==> |paths[queue[i]]| <= |paths[queue[j]]|)
    && (queue != [] ==> forall f {:trigger paths[f]} :: f in paths ==> |paths[f]| <= |paths[queue[0]]| + 1)
  }

  /** Every neighbour of a node taken from the queue is reached, at most one step further. */
  ghost predicate Explored(edges: Graph, paths: Paths, queue: seq<string>) {
    forall f, n :: f in paths && f !in queue && n in Next(edges, f) ==> n in paths && |paths[n]| <= |paths[f]| + 1
  }

  /** Where x first stands in s. */
  function Place(s: seq<string>, x: string): (k: nat)
    ensures k <= |s| && (k < |s| <==> x in s) && (k < |s| ==> s[k] == x) && forall j :: 0 <= j < k ==> s[j] != x
  {
    if s == [] then 0 else if s[0] == x then 0 else 1 + Place(s[1..], x)
  }

  /** p comes before q, of the same length: at the first node where they differ, p's stands earlier among
    * the sources, or among the neighbours of the node before. */
  ghost predicate Precedes(sources: seq<string>, edges: Graph, p: seq<string>, q: seq<string>) {
    |p| == |q| > 0 &&
    var n := |p| - 1;
    if n == 0 then Place(sources, p[0]) < Place(sources, q[0])
    else Precedes(sources, edges, p[..n], q[..n])
         || (p[..n] == q[..n] && Place(Next(edges, p[n - 1]), p[n]) < Place(Next(edges, p[n - 1]), q[n]))
  }

  lemma {:induction false} PrecedesTrans(sources: seq<string>, edges: Graph, p: seq<string>, q: seq<string>,
                                         r: seq<string>)
    requires Precedes(sources, edges, p, q) && Precedes(sources, edges, q, r)
    ensures Precedes(sources, edges, p, r)
    decreases |p|
  {
    var n := |p| - 1;
    if n > 0 && Precedes(sources, edges, p[..n], q[..n]) && Precedes(sources, edges, q[..n], r[..n]) {
      PrecedesTrans(sources, edges, p[..n], q[..n], r[..n]);
    }
  }

  lemma PrecedesLonger(sources: seq<string>, edges: Graph, p: seq<string>, q: seq<string>, x: string, y: string)
    requires p != []
    requires Precedes(sources, edges, p, q) ||
      (p == q && Place(Next(edges, p[|p| - 1]), x) < Place(Next(edges, p[|p| - 1]), y))
    ensures Precedes(sources, edges, p + [x], q + [y])
  {
    assert (p + [x])[..|p|] == p && (q + [y])[..|q|] == q;
  }

  /** Nodes as far as each other wait in the order of their paths, and those one step further were
    * reached through nodes before the head. */
  ghost predicate Lined(sources: seq<string>, edges: Graph, paths: Paths, queue: seq<string>) {
    && (forall k {:trigger queue[k]} :: 0 <= k < |queue| ==> queue[k] in paths && paths[queue[k]] != [])
    && (forall i, j :: 0 <= i < j < |queue| && |paths[queue[i]]| == |paths[queue[j]]| ==>
          Precedes(sources, edges, paths[queue[i]], paths[queue[j]]))
    && (queue != [] ==> forall f {:trigger paths[f]} :: f in paths && |paths[f]| == |paths[queue[0]]| + 1 ==>
          Precedes(sources, edges, paths[f][..|paths[f]| - 1], paths[queue[0]]))
  }

  ghost predicate NoLater(sources: seq<string>, edges: Graph, p: seq<string>, q: seq<string>) {
    p == q || Precedes(sources, edges, p, q)
  }

  /** No node taken from the queue gives a neighbour an equally short path before the one it has. */
  ghost predicate Firsts(sources: seq<string>, edges: Graph, paths: Paths, queue: seq<string>) {
    forall f, n :: f in paths && f !in queue && n in Next(edges, f) && n in paths && |paths[n]| == |paths[f]| + 1 ==>
      NoLater(sources, edges, paths[n], paths[f] + [n])
  }

  /** A shortest path from some source to each feature any source leads to: of those as short, the first,
    * with the sources in order and each node's neighbours in edges order. */
  method ShortestPaths(sources: seq<string>, edges: Graph) returns (paths: Paths)
    ensures forall f :: f in paths <==> exists p :: PathTo(sources, edges, p, f)
    ensures forall f {:trigger paths[f]} :: f in paths ==> PathTo(sources, edges, paths[f], f)
    ensures forall f, p :: f in paths && PathTo(sources, edges, p, f) ==> |paths[f]| <= |p|
    ensures forall f, p :: f in paths && PathTo(sources, edges, p, f) && |paths[f]| == |p| ==>
      NoLater(sources, edges, paths[f], p)
  {
    var queue;
    paths, queue := Start(sources, edges);
    hide PathTo, Universe, Explored, Ordered, Lined, Firsts, NoLater;
    while |queue| > 0
      invariant Sound(sources, edges, paths) && Ordered(paths, queue) && Explored(edges, paths, queue)
      invariant Lined(sources, edges, paths, queue) && Firsts(sources, edges, paths, queue)
      decreases Universe(sources, edges) - paths.Keys, |queue|
    {
      paths, queue := Explore(sources, edges, paths, queue);
    }
    forall f, p | PathTo(sources, edges, p, f)
      ensures f in paths && |paths[f]| <= |p| && (|paths[f]| == |p| ==> NoLater(sources, edges, paths[f], p))
    {
      PathEnds(sources, edges, p, f);
      NoShorter(sources, edges, paths, p, |p| - 1);
      assert p[..|p|] == p;
    }
  }

  lemma PathEnds(sources: seq<string>, edges: Graph, p: seq<string>, f: string)
    requires PathTo(sources, edges, p, f)
    ensures IsPath(edges, p) && p != [] && p[0] in sources && p[|p| - 1] == f
  {}

  /** Every source, once, with the path that is the source itself. */
  method Start(sources: seq<string>, edges: Graph) returns (paths: Paths, queue: seq<string>)
    ensures Sound(sources, edges, paths) && Ordered(paths, queue) && Explored(edges, paths, queue)
    ensures Lined(sources, edges, paths, queue) && Firsts(sources, edges, paths, queue)
  {
    hide Place, Sound, Ordered, Explored, Lined, Firsts;
    paths, queue := map[], [];
    for i := 0 to |sources|
      invariant Started(sources, i, paths, queue)
      invariant forall s :: s in sources[..i] ==> s in paths
    {
      assert sources[..i + 1] == sources[..i] + [sources[i]];
      if sources[i] in paths {
        LaterSource(sources, i, paths, queue);
        continue;
      }
      NewSource(sources, i, paths, queue);
      paths := paths[sources[i] := [sources[i]]];
      queue := queue + [sources[i]];
    }
    assert sources[..|sources|] == sources;
    StartsRight(sources, edges, paths, queue);
  }

  /** The sources before the i-th are queued, each at its first place. */
  ghost predicate Started(sources: seq<string>, i: nat, paths: Paths, queue: seq<string>) {
    && (forall f {:trigger paths[f]} :: f in paths ==> paths[f] == [f] && f in sources && f in queue)
    && (forall k {:trigger queue[k]} :: 0 <= k < |queue| ==> queue[k] in paths && Place(sources, queue[k]) < i)
    && (forall j, k :: 0 <= j < k < |queue| ==> Place(sources, queue[j]) < Place(sources, queue[k]))
  }

  lemma LaterSource(sources: seq<string>, i: nat, paths: Paths, queue: seq<string>)
    requires Started(sources, i, paths, queue)
    ensures Started(sources, i + 1, paths, queue)
  {
    hide Place;
  }

  lemma NewSource(sources: seq<string>, i: nat, paths: Paths, queue: seq<string>)
    requires i < |sources| && sources[i] !in paths && Started(sources, i, paths, queue)
    requires forall s :: s in sources[..i] ==> s in paths
    ensures Started(sources, i + 1, paths[sources[i] := [sources[i]]], queue + [sources[i]])
  {
    var x := sources[i];
    forall j | 0 <= j < i
      ensures sources[j] != x
    {
      assert sources[..i][j] == sources[j];
    }
    assert Place(sources, x) == i;
    hide Place;
  }

  lemma StartsRight(sources: seq<string>, edges: Graph, paths: Paths, queue: seq<string>)
    requires Started(sources, |sources|, paths, queue) && forall s :: s in sources ==> s in paths
    ensures Sound(sources, edges, paths) && Ordered(paths, queue) && Explored(edges, paths, queue)
    ensures Lined(sources, edges, paths, queue) && Firsts(sources, edges, paths, queue)
  {
    forall f {:trigger paths[f]} | f in paths
      ensures PathTo(sources, edges, paths[f], f) && f in Universe(sources, edges)
    {
      assert paths[f] == [f];
    }
    hide Place, PathTo, Universe, NoLater;
    StartsLined(sources, edges, paths, queue);
  }

  lemma StartsLined(sources: seq<string>, edges: Graph, paths: Paths, queue: seq<string>)
    requires Started(sources, |sources|, paths, queue)
    ensures Lined(sources, edges, paths, queue) && Ordered(paths, queue)
  {
    hide Place;
    assert forall k {:trigger queue[k]} :: 0 <= k < |queue| ==> queue[k] in paths && paths[queue[k]] == [queue[k]];
    forall i, j | 0 <= i < j < |queue| && |paths[queue[i]]| == |paths[queue[j]]|
      ensures Precedes(sources, edges, paths[queue[i]], paths[queue[j]])
    {
      assert Place(sources, queue[i]) < Place(sources, queue[j]);
    }
    hide Precedes;
  }

  /** The neighbours of the queue's head not reached before are reached by one step more. */
  method Visit(edges: Graph, before: Paths, waiting: seq<string>)
    returns (paths: Paths, queue: seq<string>, ghost added: seq<string>)
    requires waiting != [] && waiting[0] in before && Adds(before, waiting, before, [])
    ensures Adds(before, waiting, paths, added) && queue == waiting[1..] + added
    ensures forall k {:trigger added[k]} :: 0 <= k < |added| ==> added[k] in Next(edges, waiting[0])
    ensures forall n :: n in Next(edges, waiting[0]) ==> n in paths
    ensures forall j, k :: 0 <= j < k < |added| ==>
      Place(Next(edges, waiting[0]), added[j]) < Place(Next(edges, waiting[0]), added[k])
  {
    hide Adds;
    var node := waiting[0];
    paths, queue, added := before, waiting[1..], [];
    var next := Next(edges, node);
    for i := 0 to |next|
      invariant Adds(before, waiting, paths, added) && queue == waiting[1..] + added && node in paths
      invariant forall k {:trigger added[k]} :: 0 <= k < |added| ==> added[k] in next
      invariant forall j {:trigger next[j]} :: 0 <= j < i ==> next[j] in paths
      invariant forall k {:trigger added[k]} :: 0 <= k < |added| ==> Place(next, added[k]) < i
      invariant forall j, k :: 0 <= j < k < |added| ==> Place(next, added[j]) < Place(next, added[k])
    {
      var n := next[i];
      if n in paths { continue; }
      assert Place(next, n) == i;
      AddsMore(before, waiting, paths, added, n);
      paths := paths[n := paths[node] + [n]];
      queue, added := queue + [n], added + [n];
    }
  }

  /** The head of the queue is taken, and its neighbours not reached before join. */
  method Explore(sources: seq<string>, edges: Graph, before: Paths, waiting: seq<string>)
    returns (paths: Paths, queue: seq<string>)
    requires Sound(sources, edges, before) && Ordered(before, waiting) && Explored(edges, before, waiting)
    requires waiting != []
    requires Lined(sources, edges, before, waiting) && Firsts(sources, edges, before, waiting)
    ensures Sound(sources, edges, paths) && Ordered(paths, queue) && Explored(edges, paths, queue)
    ensures Lined(sources, edges, paths, queue) && Firsts(sources, edges, paths, queue)
    ensures Universe(sources, edges) - paths.Keys <= Universe(sources, edges) - before.Keys
    ensures |queue| < |waiting| || Universe(sources, edges) - paths.Keys != Universe(sources, edges) - before.Keys
  {
    NodeKnown(before, waiting);
    EndsRight(sources, edges, before);
    hide Universe, PathTo, Sound, Explored, Ordered, Lined, Firsts, Adds, Next, Place;
    ghost var added;
    paths, queue, added := Visit(edges, before, waiting);
    StillSound(sources, edges, before, waiting, paths, added);
    StillOrdered(before, waiting, paths, added);
    StillExplored(edges, before, waiting, paths, added);
    StillLined(sources, edges, before, waiting, paths, added);
    StillFirsts(sources, edges, before, waiting, paths, added);
    Progress(sources, edges, before, waiting, paths, added);
  }

  lemma AddsMore(before: Paths, waiting: seq<string>, paths: Paths, added: seq<string>, n: string)
    requires Adds(before, waiting, paths, added) && n !in paths
    ensures waiting[0] in paths && Adds(before, waiting, paths[n := paths[waiting[0]] + [n]], added + [n])
  {}

  lemma EndsRight(sources: seq<string>, edges: Graph, paths: Paths)
    requires Sound(sources, edges, paths)
    ensures forall f {:trigger paths[f]} :: f in paths ==> paths[f] != [] && paths[f][|paths[f]| - 1] == f
  {
    forall f {:trigger paths[f]} | f in paths
      ensures paths[f] != [] && paths[f][|paths[f]| - 1] == f
    {
      assert PathTo(sources, edges, paths[f], f);
    }
  }

  lemma NodeKnown(before: Paths, waiting: seq<string>)
    requires Ordered(before, waiting) && waiting != []
    ensures waiting[0] in before && Adds(before, waiting, before, [])
  {}

  /** paths adds to before the nodes of added, one step from the head of the queue. */
  ghost predicate Adds(before: Paths, waiting: seq<string>, paths: Paths, added: seq<string>) {
    && waiting != [] && waiting[0] in before && before.Keys <= paths.Keys
    && (forall f {:trigger paths[f]} :: f in before ==> paths[f] == before[f])
    && (forall f {:trigger paths[f]} :: f in paths && f !in before ==>
         paths[f] == before[waiting[0]] + [f] && f in added)
    && (forall k {:trigger added[k]} :: 0 <= k < |added| ==> added[k] in paths && added[k] !in before)
  }

  lemma StillSound(sources: seq<string>, edges: Graph, before: Paths, waiting: seq<string>, paths: Paths,
                   added: seq<string>)
    requires Sound(sources, edges, before) && Adds(before, waiting, paths, added)
    requires forall k {:trigger added[k]} :: 0 <= k < |added| ==> added[k] in Next(edges, waiting[0])
    ensures Sound(sources, edges, paths)
  {
    forall f {:trigger paths[f]} | f in paths
      ensures PathTo(sources, edges, paths[f], f) && f in Universe(sources, edges)
    {
      if f !in before {
        PathMore(sources, edges, before[waiting[0]], waiting[0], f);
      }
    }
    hide PathTo, Universe;
  }

  lemma StillOrdered(before: Paths, waiting: seq<string>, paths: Paths, added: seq<string>)
    requires Ordered(before, waiting) && Adds(before, waiting, paths, added)
    ensures Ordered(paths, waiting[1..] + added)
  {
    var queue, d := waiting[1..] + added, |before[waiting[0]]|;
    forall k {:trigger queue[k]} | 0 <= k < |queue|
      ensures queue[k] in paths && d <= |paths[queue[k]]| <= d + 1
      ensures k >= |waiting| - 1 ==> |paths[queue[k]]| == d + 1
    {
      if k < |waiting| - 1 { assert queue[k] == waiting[k + 1]; }
        else { assert queue[k] == added[k - (|waiting| - 1)]; }
    }
    forall i, j | 0 <= i < j < |queue|
      ensures |paths[queue[i]]| <= |paths[queue[j]]|
    {
      if j < |waiting| - 1 { assert queue[i] == waiting[i + 1] && queue[j] == waiting[j + 1]; }
    }
  }

  lemma StillExplored(edges: Graph, before: Paths, waiting: seq<string>, paths: Paths, added: seq<string>)
    requires waiting != [] && Ordered(before, waiting) && Explored(edges, before, waiting)
    requires Adds(before, waiting, paths, added)
    requires forall n :: n in Next(edges, waiting[0]) ==> n in paths
    ensures Explored(edges, paths, waiting[1..] + added)
  {
    hide Ordered, Adds, Next;
    var queue := waiting[1..] + added;
    forall f, n | f in paths && f !in queue && n in Next(edges, f)
      ensures n in paths && |paths[n]| <= |paths[f]| + 1
    {
      TakenBefore(before, waiting, paths, added, f);
      if f == waiting[0] {
        HeadExplored(before, waiting, paths, added, n);
      } else {
        assert n in before && |before[n]| <= |before[f]| + 1;
        KeptPath(before, waiting, paths, added, n);
      }
    }
  }

  lemma StillLined(sources: seq<string>, edges: Graph, before: Paths, waiting: seq<string>, paths: Paths,
                   added: seq<string>)
    requires Ordered(before, waiting) && Lined(sources, edges, before, waiting) && Adds(before, waiting, paths, added)
    requires forall j, k :: 0 <= j < k < |added| ==>
      Place(Next(edges, waiting[0]), added[j]) < Place(Next(edges, waiting[0]), added[k])
    requires before[waiting[0]] != [] && before[waiting[0]][|before[waiting[0]]| - 1] == waiting[0]
    ensures Lined(sources, edges, paths, waiting[1..] + added)
  {
    var queue := waiting[1..] + added;
    forall k {:trigger queue[k]} | 0 <= k < |queue|
      ensures queue[k] in paths && paths[queue[k]] != []
    {
      InQueue(before, waiting, paths, added, k);
    }
    hide Precedes, Place, Next, Adds, Ordered;
    forall i, j | 0 <= i < j < |queue| && |paths[queue[i]]| == |paths[queue[j]]|
      ensures Precedes(sources, edges, paths[queue[i]], paths[queue[j]])
    {
      InLine(sources, edges, before, waiting, paths, added, i, j);
    }
    if queue != [] {
      forall f {:trigger paths[f]} | f in paths && |paths[f]| == |paths[queue[0]]| + 1
        ensures Precedes(sources, edges, paths[f][..|paths[f]| - 1], paths[queue[0]])
      {
        FrontsBefore(sources, edges, before, waiting, paths, added, f);
      }
    }
  }

  lemma InQueue(before: Paths, waiting: seq<string>, paths: Paths, added: seq<string>, k: nat)
    requires Adds(before, waiting, paths, added) && k < |waiting| - 1 + |added|
    requires forall j {:trigger waiting[j]} :: 0 <= j < |waiting| ==> waiting[j] in before
    ensures (waiting[1..] + added)[k] == if k < |waiting| - 1 then waiting[k + 1] else added[k - (|waiting| - 1)]
    ensures (waiting[1..] + added)[k] in paths
    ensures k < |waiting| - 1 ==> paths[(waiting[1..] + added)[k]] == before[waiting[k + 1]]
    ensures k >= |waiting| - 1 ==> paths[(waiting[1..] + added)[k]] == before[waiting[0]] + [(waiting[1..] + added)[k]]
  {}

  lemma InLine(sources: seq<string>, edges: Graph, before: Paths, waiting: seq<string>, paths: Paths,
               added: seq<string>, i: nat, j: nat)
    requires Ordered(before, waiting) && Lined(sources, edges, before, waiting) && Adds(before, waiting, paths, added)
    requires forall j, k :: 0 <= j < k < |added| ==>
      Place(Next(edges, waiting[0]), added[j]) < Place(Next(edges, waiting[0]), added[k])
    requires before[waiting[0]] != [] && before[waiting[0]][|before[waiting[0]]| - 1] == waiting[0]
    requires i < j < |waiting[1..] + added| && (waiting[1..] + added)[i] in paths && (waiting[1..] + added)[j] in paths
    requires |paths[(waiting[1..] + added)[i]]| == |paths[(waiting[1..] + added)[j]]|
    ensures Precedes(sources, edges, paths[(waiting[1..] + added)[i]], paths[(waiting[1..] + added)[j]])
  {
    var queue, h := waiting[1..] + added, waiting[0];
    InQueue(before, waiting, paths, added, i);
    InQueue(before, waiting, paths, added, j);
    hide Precedes, Place, Next, Adds, Ordered;
    if j < |waiting| - 1 {
      assert Precedes(sources, edges, before[waiting[i + 1]], before[waiting[j + 1]]);
    } else if i < |waiting| - 1 {
      var p := before[waiting[i + 1]];
      assert p == p[..|p| - 1] + [p[|p| - 1]];
      PrecedesLonger(sources, edges, p[..|p| - 1], before[h], p[|p| - 1], queue[j]);
    } else {
      PrecedesLonger(sources, edges, before[h], before[h], queue[i], queue[j]);
    }
  }

  lemma FrontsBefore(sources: seq<string>, edges: Graph, before: Paths, waiting: seq<string>, paths: Paths,
                     added: seq<string>, f: string)
    requires Ordered(before, waiting) && Lined(sources, edges, before, waiting) && Adds(before, waiting, paths, added)
    requires f in paths && waiting[1..] + added != [] && (waiting[1..] + added)[0] in paths
    requires |paths[f]| == |paths[(waiting[1..] + added)[0]]| + 1
    ensures Precedes(sources, edges, paths[f][..|paths[f]| - 1], paths[(waiting[1..] + added)[0]])
  {
    hide Precedes;
    var h, first := waiting[0], (waiting[1..] + added)[0];
    assert |paths[f]| <= |before[h]| + 1;
    assert |waiting| > 1 && first == waiting[1];
    assert Precedes(sources, edges, before[waiting[0]], before[waiting[1]]);
    if f in before {
      PrecedesTrans(sources, edges, paths[f][..|paths[f]| - 1], before[h], before[first]);
    } else {
      assert paths[f][..|paths[f]| - 1] == before[h];
    }
  }

  lemma StillFirsts(sources: seq<string>, edges: Graph, before: Paths, waiting: seq<string>, paths: Paths,
                    added: seq<string>)
    requires Lined(sources, edges, before, waiting) && Firsts(sources, edges, before, waiting)
    requires Adds(before, waiting, paths, added)
    requires forall n :: n in Next(edges, waiting[0]) ==> n in paths
    requires Explored(edges, before, waiting)
    requires forall f {:trigger before[f]} :: f in before ==> before[f] != [] && before[f][|before[f]| - 1] == f
    ensures Firsts(sources, edges, paths, waiting[1..] + added)
  {
    var queue, h := waiting[1..] + added, waiting[0];
    hide Adds, Next, Precedes, Place;
    forall f, n | f in paths && f !in queue && n in Next(edges, f) && n in paths && |paths[n]| == |paths[f]| + 1
      ensures NoLater(sources, edges, paths[n], paths[f] + [n])
    {
      TakenBefore(before, waiting, paths, added, f);
      if n in before {
        KeptPath(before, waiting, paths, added, n);
        if f == h {
          var p := before[n];
          assert p == p[..|p| - 1] + [n];
          PrecedesLonger(sources, edges, p[..|p| - 1], before[h], n, n);
        }
      } else {
        AddedPath(before, waiting, paths, added, n);
        assert f == h;
      }
    }
  }

  lemma AddedPath(before: Paths, waiting: seq<string>, paths: Paths, added: seq<string>, n: string)
    requires Adds(before, waiting, paths, added) && n in paths && n !in before
    ensures paths[n] == before[waiting[0]] + [n]
  {}

  /** A node not in the new queue was reached before, and was not waiting unless it was the head. */
  lemma TakenBefore(before: Paths, waiting: seq<string>, paths: Paths, added: seq<string>, f: string)
    requires Adds(before, waiting, paths, added) && f in paths && f !in waiting[1..] + added
    ensures f in before && paths[f] == before[f] && (f == waiting[0] || f !in waiting)
  {
    assert f !in added && f !in waiting[1..];
    assert waiting == [waiting[0]] + waiting[1..];
  }

  lemma KeptPath(before: Paths, waiting: seq<string>, paths: Paths, added: seq<string>, n: string)
    requires Adds(before, waiting, paths, added) && n in before
    ensures n in paths && paths[n] == before[n]
  {}

  lemma HeadExplored(before: Paths, waiting: seq<string>, paths: Paths, added: seq<string>, n: string)
    requires Ordered(before, waiting) && Adds(before, waiting, paths, added) && n in paths
    ensures |paths[n]| <= |paths[waiting[0]]| + 1
  {}

  lemma Progress(sources: seq<string>, edges: Graph, before: Paths, waiting: seq<string>, paths: Paths,
                 added: seq<string>)
    requires Sound(sources, edges, paths) && Adds(before, waiting, paths, added)
    ensures Universe(sources, edges) - paths.Keys <= Universe(sources, edges) - before.Keys
    ensures added == [] || Universe(sources, edges) - paths.Keys != Universe(sources, edges) - before.Keys
  {
    hide Universe, PathTo;
    if added != [] {
      var n := added[0];
      assert PathTo(sources, edges, paths[n], n);
      assert n in Universe(sources, edges) - before.Keys;
    }
  }

  /** Once every node reached is explored, no path beats the one found. */
  lemma {:induction false} NoShorter(sources: seq<string>, edges: Graph, paths: Paths, p: seq<string>, k: nat)
    requires Sound(sources, edges, paths) && Explored(edges, paths, []) && Firsts(sources, edges, paths, [])
    requires IsPath(edges, p) && p[0] in sources && k < |p|
    ensures p[k] in paths && |paths[p[k]]| <= k + 1
    ensures |paths[p[k]]| == k + 1 ==> NoLater(sources, edges, paths[p[k]], p[..k + 1])
  {
    hide PathTo, Universe, Precedes;
    if k > 0 {
      var f, n := p[k - 1], p[k];
      NoShorter(sources, edges, paths, p, k - 1);
      assert Follows(edges, p, k - 1);
      assert p[..k + 1] == p[..k] + [n];
      if |paths[n]| == k + 1 {
        assert NoLater(sources, edges, paths[n], paths[f] + [n]);
        Longer(sources, edges, paths[n], paths[f], p[..k], n);
      }
    } else {
      SourceItself(sources, edges, paths, p);
    }
  }

  lemma SourceItself(sources: seq<string>, edges: Graph, paths: Paths, p: seq<string>)
    requires Sound(sources, edges, paths) && p != [] && p[0] in sources
    ensures p[0] in paths && paths[p[0]] == p[..1]
  {
    assert PathTo(sources, edges, paths[p[0]], p[0]);
  }

  lemma Longer(sources: seq<string>, edges: Graph, found: seq<string>, p: seq<string>, q: seq<string>, n: string)
    requires p != [] && NoLater(sources, edges, found, p + [n]) && NoLater(sources, edges, p, q)
    ensures NoLater(sources, edges, found, q + [n])
  {
    hide Precedes;
    if p != q {
      PrecedesLonger(sources, edges, p, q, n, n);
      if found != p + [n] { PrecedesTrans(sources, edges, found, p + [n], q + [n]); }
    }
  }
}
