/** articles/mentions.go: following a removed cluster to the one that holds its members. */
module Mentions {
  import opened Reach
  import opened Reconcile
  import opened Clusters
  import opened History

  /** The merge that retired id. */
  ghost function Into(merges: seq<MergeRow>, id: int): int
    requires Retired(merges, id)
  {
    var i :| 0 <= i < |merges| && merges[i].from == id; merges[i].to
  }

  lemma IntoIs(merges: seq<MergeRow>, m: MergeRow)
    requires LogSound(merges) && m in merges
    ensures Retired(merges, m.from) && Into(merges, m.from) == m.to
  {
    var i :| 0 <= i < |merges| && merges[i] == m;
    assert merges[i].from == m.from;
  }

  lemma IntoLess(merges: seq<MergeRow>, id: int)
    requires LogSound(merges) && Retired(merges, id)
    ensures 0 < Into(merges, id) < id
  {
    var i :| 0 <= i < |merges| && merges[i].from == id;
    IntoIs(merges, merges[i]);
  }

  /** How many merges lead on from id. */
  ghost function Depth(merges: seq<MergeRow>, id: int): nat
    requires LogSound(merges)
    decreases if id < 0 then 0 else id
  {
    if !Retired(merges, id) then 0
    else
      IntoLess(merges, id);
      1 + Depth(merges, Into(merges, id))
  }

  /** The id k merges on from id. */
  ghost function After(merges: seq<MergeRow>, id: int, k: nat): int
    requires LogSound(merges) && k <= Depth(merges, id)
  {
    if k == 0 then id else After(merges, Into(merges, id), k - 1)
  }

  lemma {:induction false} AfterNext(merges: seq<MergeRow>, id: int, k: nat)
    requires LogSound(merges) && k < Depth(merges, id)
    ensures Retired(merges, After(merges, id, k))
    ensures After(merges, id, k + 1) == Into(merges, After(merges, id, k))
    decreases k
  {
    if k > 0 { AfterNext(merges, Into(merges, id), k - 1); }
  }

  lemma {:induction false} AfterLast(merges: seq<MergeRow>, id: int)
    requires LogSound(merges)
    ensures !Retired(merges, After(merges, id, Depth(merges, id)))
    decreases Depth(merges, id)
  {
    if Retired(merges, id) { AfterLast(merges, Into(merges, id)); }
  }

  lemma {:induction false} AfterFalls(merges: seq<MergeRow>, id: int, j: nat, k: nat)
    requires LogSound(merges) && j < k <= Depth(merges, id)
    ensures After(merges, id, k) < After(merges, id, j)
    decreases k - j
  {
    AfterNext(merges, id, k - 1);
    IntoLess(merges, After(merges, id, k - 1));
    if j < k - 1 { AfterFalls(merges, id, j, k - 1); }
  }

  /** In sound tables the chain from any id ever created ends in a live cluster. */
  lemma {:induction false} ChainEndsLive(db: Db, id: int)
    requires Sound(db) && id in db.created
    ensures After(db.merges, id, Depth(db.merges, id)) in db.clusters
    decreases if id < 0 then 0 else id
  {
    SoundLog(db);
    hide Sound, LogSound, Retired;
    if Retired(db.merges, id) {
      IntoCreated(db, id);
      IntoLess(db.merges, id);
      ChainEndsLive(db, Into(db.merges, id));
      NextFirst(db.merges, id);
    } else {
      Unretired(db, id);
    }
  }

  lemma SoundLog(db: Db)
    requires Sound(db)
    ensures LogSound(db.merges)
  {}

  lemma IntoCreated(db: Db, id: int)
    requires Sound(db) && Retired(db.merges, id)
    ensures Into(db.merges, id) in db.created
  {
    var i :| 0 <= i < |db.merges| && db.merges[i].from == id;
    IntoIs(db.merges, db.merges[i]);
    assert db.merges[i] in db.merges;
  }

  lemma NextFirst(merges: seq<MergeRow>, id: int)
    requires LogSound(merges) && Retired(merges, id)
    ensures Depth(merges, id) == 1 + Depth(merges, Into(merges, id))
    ensures After(merges, id, Depth(merges, id)) == After(merges, Into(merges, id), Depth(merges, Into(merges, id)))
  {
    hide LogSound, Retired;
  }

  lemma Unretired(db: Db, id: int)
    requires Sound(db) && LogSound(db.merges) && id in db.created && !Retired(db.merges, id)
    ensures Depth(db.merges, id) == 0 && After(db.merges, id, 0) == id && id in db.clusters
  {}

  const HOPS := 32

  /** The merge rows out of the given clusters, latest first. */
  function ListClusterMergesFrom(merges: seq<MergeRow>, ids: seq<int>): (rows: seq<MergeRow>)
    ensures forall m :: m in rows <==> m in merges && m.from in ids
  {
    if merges == [] then []
    else
      var last := merges[|merges| - 1];
      (if last.from in ids then [last] else []) + ListClusterMergesFrom(merges[..|merges| - 1], ids)
  }

  /** next holds true merges only. */
  ghost predicate True(merges: seq<MergeRow>, next: map<int, int>)
  {
    forall x {:trigger next[x]} :: x in next ==> Retired(merges, x) && next[x] == Into(merges, x)
  }

  /** Wherever a known merge leads is known, still to look up, or not retired. */
  ghost predicate Open(merges: seq<MergeRow>, next: map<int, int>, frontier: seq<int>) {
    forall x {:trigger next[x]} :: x in next ==> next[x] in next || next[x] in frontier || !Retired(merges, next[x])
  }

  /** The merges out of `frontier` join next; the clusters they lead to are looked up next. */
  method Hop(merges: seq<MergeRow>, before: map<int, int>, frontier: seq<int>)
    returns (next: map<int, int>, after: seq<int>)
    requires LogSound(merges) && True(merges, before) && Open(merges, before, frontier)
    ensures True(merges, next) && Open(merges, next, after)
    ensures forall x :: x in next <==> x in before || (x in frontier && Retired(merges, x))
    ensures forall x :: x in after ==> exists y :: y in frontier && Retired(merges, y) && x == Into(merges, y)
  {
    hide Retired, True, Open, LogSound, Hopped, ListClusterMergesFrom;
    var rows := ListClusterMergesFrom(merges, frontier);
    next, after := before, [];
    HopStarts(merges, before, frontier, rows);
    for i := 0 to |rows|
      invariant Hopped(merges, before, frontier, rows, i, next, after)
    {
      var r := rows[i];
      assert r in rows;
      HopNext(merges, before, frontier, rows, i, next, after);
      if r.from in next { continue; }
      next := next[r.from := r.to];
      if r.to !in next { after := after + [r.to]; }
    }
    HopEnds(merges, before, frontier, next, after);
  }

  /** Some merge that leads to x starts in the frontier. */
  ghost predicate LedTo(merges: seq<MergeRow>, frontier: seq<int>, x: int) {
    exists y :: y in frontier && Retired(merges, y) && x == Into(merges, y)
  }

  /** One of the first i rows is out of x. */
  ghost predicate OutOf(rows: seq<MergeRow>, i: nat, x: int)
    requires i <= |rows|
  {
    exists j :: 0 <= j < i && rows[j].from == x
  }

  ghost predicate Hopped(merges: seq<MergeRow>, before: map<int, int>, frontier: seq<int>, rows: seq<MergeRow>, i: nat,
                         next: map<int, int>, after: seq<int>)
    requires i <= |rows|
  {
    && True(merges, next)
    && (forall x :: x in next <==> x in before || OutOf(rows, i, x))
    && (forall x {:trigger next[x]} :: x in next ==>
         (x in before && next[x] == before[x]) || next[x] in next || next[x] in after)
    && (forall x :: x in after ==> LedTo(merges, frontier, x))
  }

  lemma HopStarts(merges: seq<MergeRow>, before: map<int, int>, frontier: seq<int>, rows: seq<MergeRow>)
    requires True(merges, before)
    ensures Hopped(merges, before, frontier, rows, 0, before, [])
  {
    hide True, LedTo;
  }

  lemma HopNext(merges: seq<MergeRow>, before: map<int, int>, frontier: seq<int>, rows: seq<MergeRow>, i: nat,
                next: map<int, int>, after: seq<int>)
    requires LogSound(merges) && i < |rows| && rows[i] in merges && rows[i].from in frontier
    requires Hopped(merges, before, frontier, rows, i, next, after)
    ensures var r, more := rows[i], next[rows[i].from := rows[i].to];
            if r.from in next then Hopped(merges, before, frontier, rows, i + 1, next, after)
            else Hopped(merges, before, frontier, rows, i + 1, more, if r.to !in more then after + [r.to] else after)
  {
    var r := rows[i];
    IntoIs(merges, r);
    assert LedTo(merges, frontier, r.to);
    hide LogSound, Retired, LedTo;
    forall x
      ensures OutOf(rows, i + 1, x) <==> OutOf(rows, i, x) || x == r.from
    {}
    hide OutOf;
  }

  lemma HopEnds(merges: seq<MergeRow>, before: map<int, int>, frontier: seq<int>, next: map<int, int>, after: seq<int>)
    requires Open(merges, before, frontier)
    requires var rows := ListClusterMergesFrom(merges, frontier);
      Hopped(merges, before, frontier, rows, |rows|, next, after)
    ensures True(merges, next) && Open(merges, next, after)
    ensures forall x :: x in next <==> x in before || (x in frontier && Retired(merges, x))
    ensures forall x :: x in after ==> exists y :: y in frontier && Retired(merges, y) && x == Into(merges, y)
  {
    var rows := ListClusterMergesFrom(merges, frontier);
    forall x
      ensures x in next <==> x in before || (x in frontier && Retired(merges, x))
    {
      RowFor(merges, frontier, x);
      assert Retired(rows, x) <==> OutOf(rows, |rows|, x);
    }
    hide ListClusterMergesFrom, Retired, OutOf;
  }

  lemma RowFor(merges: seq<MergeRow>, frontier: seq<int>, x: int)
    ensures Retired(ListClusterMergesFrom(merges, frontier), x) <==> x in frontier && Retired(merges, x)
  {
    var rows := ListClusterMergesFrom(merges, frontier);
    if Retired(rows, x) {
      var j :| 0 <= j < |rows| && rows[j].from == x;
      assert rows[j] in rows;
      var k :| 0 <= k < |merges| && merges[k] == rows[j];
      assert Retired(merges, x);
      assert x in frontier;
    }
    if x in frontier && Retired(merges, x) {
      var k :| 0 <= k < |merges| && merges[k].from == x;
      assert merges[k] in rows;
      var j :| 0 <= j < |rows| && rows[j] == merges[k];
    }
  }

  /** The first h merges on from id are known. */
  ghost predicate Knows(merges: seq<MergeRow>, next: map<int, int>, id: int, h: nat)
    requires LogSound(merges)
  {
    forall k: nat {:trigger After(merges, id, k)} :: k < h && k < Depth(merges, id) ==> After(merges, id, k) in next
  }

  /** One more hop and one more merge of every chain is known. */
  lemma KnowsMore(merges: seq<MergeRow>, before: map<int, int>, next: map<int, int>, frontier: seq<int>, id: int,
                  h: nat)
    requires LogSound(merges) && True(merges, before) && Open(merges, before, frontier) && Knows(merges, before, id, h)
    requires id in before || id in frontier || !Retired(merges, id)
    requires forall x :: x in next <==> x in before || (x in frontier && Retired(merges, x))
    ensures Knows(merges, next, id, h + 1)
    ensures id in next || !Retired(merges, id)
  {
    hide LogSound, Retired, After, Depth;
    forall k: nat {:trigger After(merges, id, k)} | k < h + 1 && k < Depth(merges, id)
      ensures After(merges, id, k) in next
    {
      AfterNext(merges, id, k);
      if k == h > 0 {
        AfterNext(merges, id, h - 1);
        assert After(merges, id, h - 1) in before;
      } else if k == h {
        NoneYet(merges, id);
      }
    }
    if 0 < Depth(merges, id) {
      NoneYet(merges, id);
    } else {
      NoneLeft(merges, id);
    }
  }

  lemma NoneYet(merges: seq<MergeRow>, id: int)
    requires LogSound(merges)
    ensures After(merges, id, 0) == id
  {}

  lemma NoneLeft(merges: seq<MergeRow>, id: int)
    requires LogSound(merges) && Depth(merges, id) == 0
    ensures !Retired(merges, id)
  {}

  /** With nothing left to look up, every chain is known to its end. */
  lemma {:induction false} KnowsAll(merges: seq<MergeRow>, next: map<int, int>, id: int, h: nat)
    requires LogSound(merges) && True(merges, next) && Open(merges, next, []) && (id in next || !Retired(merges, id))
    ensures Knows(merges, next, id, h)
  {
    hide Retired, LogSound;
    if h > 0 {
      KnowsAll(merges, next, id, h - 1);
      if h - 1 < Depth(merges, id) {
        AfterNext(merges, id, h - 1);
        if h > 1 {
          AfterNext(merges, id, h - 2);
          assert After(merges, id, h - 2) in next;
        }
      }
    }
  }

  /** x is one of the first h clusters some merge leads out of, on the chain from one of ids. */
  ghost predicate Near(merges: seq<MergeRow>, ids: seq<int>, x: int, h: nat)
    requires LogSound(merges)
  {
    exists y, k: nat :: y in ids && OnChain(merges, y, k, x) && k < h && k < Depth(merges, y)
  }

  ghost predicate OnChain(merges: seq<MergeRow>, y: int, k: nat, x: int)
    requires LogSound(merges)
  {
    k <= Depth(merges, y) && After(merges, y, k) == x
  }

  /** Only merges near ids are known after h hops, and the frontier is h merges on from them. */
  ghost predicate OnlyChains(merges: seq<MergeRow>, known: set<int>, frontier: seq<int>, ids: seq<int>, h: nat)
    requires LogSound(merges)
  {
    && (forall x :: x in known ==> Near(merges, ids, x, h))
    && (forall x :: x in frontier ==> exists y :: y in ids && OnChain(merges, y, h, x))
  }

  lemma OnlyChainsMore(merges: seq<MergeRow>, before: map<int, int>, next: map<int, int>, frontier: seq<int>,
                       after: seq<int>, ids: seq<int>, h: nat)
    requires LogSound(merges) && OnlyChains(merges, before.Keys, frontier, ids, h)
    requires forall x :: x in next <==> x in before || (x in frontier && Retired(merges, x))
    requires forall x :: x in after ==> exists y :: y in frontier && Retired(merges, y) && x == Into(merges, y)
    ensures OnlyChains(merges, next.Keys, after, ids, h + 1)
  {
    hide LogSound, Retired;
    forall x | x in next
      ensures Near(merges, ids, x, h + 1)
    {
      if x in before {
        var y, k: nat :| y in ids && OnChain(merges, y, k, x) && k < h && k < Depth(merges, y);
      } else {
        var y :| y in ids && OnChain(merges, y, h, x);
        AfterLast(merges, y);
      }
    }
    forall x | x in after
      ensures exists y :: y in ids && OnChain(merges, y, h + 1, x)
    {
      var w :| w in frontier && Retired(merges, w) && x == Into(merges, w);
      var y :| y in ids && OnChain(merges, y, h, w);
      AfterLast(merges, y);
      AfterNext(merges, y, h);
      assert OnChain(merges, y, h + 1, x);
    }
  }

  /** How many merges on from id its search ends: at the end of a chain of at most 32 merges; 32 on
      in a longer one, or one more when the merge there is near another of the ids. */
  ghost function Followed(merges: seq<MergeRow>, ids: seq<int>, id: int): (steps: nat)
    requires LogSound(merges)
    ensures steps <= Depth(merges, id)
  {
    if Depth(merges, id) <= HOPS then Depth(merges, id)
    else if Near(merges, ids, After(merges, id, HOPS), HOPS) then HOPS + 1
    else HOPS
  }

  /** The chain from id is short enough to be followed to its live end. */
  ghost predicate Reachable(merges: seq<MergeRow>, ids: seq<int>, id: int)
    requires LogSound(merges)
  {
    || Depth(merges, id) <= 32
    || (Depth(merges, id) == 33 && Near(merges, ids, After(merges, id, 32), 32))
  }

  /** Some merge of the log retired a into b. */
  ghost predicate MergedInto(merges: seq<MergeRow>, a: int, b: int) {
    exists m :: m in merges && m.from == a && m.to == b
  }

  /** w follows merges of the log, from one id to the next. */
  ghost predicate Leads(merges: seq<MergeRow>, w: seq<int>) {
    w != [] && forall i, j :: 0 <= i && j == i + 1 < |w| ==> MergedInto(merges, w[i], w[j])
  }

  /** w leads all the way, to an id that no merge retired. */
  ghost predicate LeadsOut(merges: seq<MergeRow>, w: seq<int>) {
    Leads(merges, w) && forall m :: m in merges ==> m.from != w[|w| - 1]
  }

  /** Some merges lead to x from one of the ids, fewer than 32 of them. */
  ghost predicate LedSoon(merges: seq<MergeRow>, ids: seq<int>, x: int) {
    exists v :: Leads(merges, v) && v[0] in ids && |v| - 1 < 32 && v[|v| - 1] == x
  }

  /** Where the search ends, merge by merge: it ends where the merges from id do, if and only if they are at
    * most 32, or 33 of which the last is found within 32 rounds from another of the ids. */
  ghost predicate EndsRight(merges: seq<MergeRow>, ids: seq<int>, id: int, found: int) {
    forall w :: LeadsOut(merges, w) && w[0] == id ==>
      (found == w[|w| - 1] <==> |w| - 1 <= 32 || (|w| - 1 == 33 && LedSoon(merges, ids, w[32])))
  }

  lemma {:induction false} LeadsAfter(merges: seq<MergeRow>, w: seq<int>)
    requires LogSound(merges) && Leads(merges, w)
    ensures |w| - 1 <= Depth(merges, w[0]) && After(merges, w[0], |w| - 1) == w[|w| - 1]
    ensures Depth(merges, w[0]) == |w| - 1 + Depth(merges, w[|w| - 1])
  {
    if |w| > 1 {
      var rest, one := w[1..], 1;
      assert MergedInto(merges, w[0], w[one]);
      var m :| m in merges && m.from == w[0] && m.to == w[1];
      IntoIs(merges, m);
      forall i, j | 0 <= i && j == i + 1 < |rest|
        ensures MergedInto(merges, rest[i], rest[j])
      {
        var a, b := i + 1, j + 1;
        assert rest[i] == w[a] && rest[j] == w[b];
      }
      LeadsAfter(merges, rest);
    }
  }

  /** The merges from id, k of them. */
  lemma {:induction false} LeadsFrom(merges: seq<MergeRow>, id: int, k: nat) returns (w: seq<int>)
    requires LogSound(merges) && k <= Depth(merges, id)
    ensures Leads(merges, w) && w[0] == id && |w| == k + 1 && w[k] == After(merges, id, k)
  {
    if k == 0 {
      w := [id];
    } else {
      var rest := LeadsFrom(merges, Into(merges, id), k - 1);
      w := [id] + rest;
      var n :| 0 <= n < |merges| && merges[n].from == id;
      IntoIs(merges, merges[n]);
      assert merges[n] in merges;
      forall i, j | 0 <= i && j == i + 1 < |w|
        ensures MergedInto(merges, w[i], w[j])
      {
        if i == 0 {
          assert merges[n].from == w[0] && merges[n].to == w[1];
        } else {
          var a, b := i - 1, j - 1;
          assert w[i] == rest[a] && w[j] == rest[b];
        }
      }
    }
  }

  lemma SoonIsNear(merges: seq<MergeRow>, ids: seq<int>, x: int)
    requires LogSound(merges) && Retired(merges, x)
    ensures Near(merges, ids, x, 32) <==> LedSoon(merges, ids, x)
  {
    hide LogSound, MergedInto;
    if Near(merges, ids, x, 32) {
      var y, k: nat :| y in ids && OnChain(merges, y, k, x) && k < 32 && k < Depth(merges, y);
      var w := LeadsFrom(merges, y, k);
      assert w[|w| - 1] == x;
    }
    if v :| Leads(merges, v) && v[0] in ids && |v| - 1 < 32 && v[|v| - 1] == x {
      LeadsAfter(merges, v);
      assert OnChain(merges, v[0], |v| - 1, x);
    }
  }

  lemma SearchEnds(merges: seq<MergeRow>, ids: seq<int>, id: int)
    requires LogSound(merges)
    ensures EndsRight(merges, ids, id, After(merges, id, Followed(merges, ids, id)))
  {
    var found := After(merges, id, Followed(merges, ids, id));
    hide LogSound, Followed, LedSoon, MergedInto;
    forall w | LeadsOut(merges, w) && w[0] == id
      ensures found == w[|w| - 1] <==> |w| - 1 <= 32 || (|w| - 1 == 33 && LedSoon(merges, ids, w[32]))
    {
      EndsAlong(merges, ids, id, w);
    }
  }

  lemma EndsAlong(merges: seq<MergeRow>, ids: seq<int>, id: int, w: seq<int>)
    requires LogSound(merges) && LeadsOut(merges, w) && w[0] == id
    ensures var found := After(merges, id, Followed(merges, ids, id));
      found == w[|w| - 1] <==> |w| - 1 <= 32 || (|w| - 1 == 33 && LedSoon(merges, ids, w[32]))
  {
    var n := |w| - 1;
    LeadsAfter(merges, w);
    EndNotRetired(merges, w);
    hide LogSound, LeadsOut, LedSoon, Near, Retired;
    assert Depth(merges, id) == n;
    if n > 32 {
      AfterNext(merges, id, 32);
      SoonIsNear(merges, ids, After(merges, id, 32));
      AfterFalls(merges, id, 32, n);
      if n > 33 { AfterFalls(merges, id, 33, n); }
      StepOf(merges, w, 32);
    }
  }

  lemma EndNotRetired(merges: seq<MergeRow>, w: seq<int>)
    requires LogSound(merges) && LeadsOut(merges, w)
    ensures !Retired(merges, w[|w| - 1]) && Depth(merges, w[|w| - 1]) == 0
  {}

  lemma StepOf(merges: seq<MergeRow>, w: seq<int>, k: nat)
    requires LogSound(merges) && Leads(merges, w) && k < |w|
    ensures k <= Depth(merges, w[0]) && After(merges, w[0], k) == w[k]
  {
    var v := w[..k + 1];
    forall i, j | 0 <= i && j == i + 1 < |v|
      ensures MergedInto(merges, v[i], v[j])
    {
      assert v[i] == w[i] && v[j] == w[j];
    }
    LeadsAfter(merges, v);
  }

  lemma FollowedLive(merges: seq<MergeRow>, ids: seq<int>, id: int)
    requires LogSound(merges)
    ensures !Retired(merges, After(merges, id, Followed(merges, ids, id))) <==> Reachable(merges, ids, id)
  {
    hide LogSound, Retired, Near;
    var steps := Followed(merges, ids, id);
    if steps < Depth(merges, id) { AfterNext(merges, id, steps); } else { AfterLast(merges, id); }
  }

  /** Follows at's known merges, at most 32 of them. */
  method Walk(merges: seq<MergeRow>, next: map<int, int>, id: int) returns (at: int, ghost steps: nat)
    requires LogSound(merges) && True(merges, next) && id in next
    ensures 1 <= steps <= HOPS + 1 && steps <= Depth(merges, id) && at == After(merges, id, steps)
    ensures at in next ==> steps == HOPS + 1
    ensures steps == HOPS + 1 ==> After(merges, id, HOPS) in next
  {
    at, steps := next[id], 1;
    AfterNext(merges, id, 0);
    for hop := 0 to HOPS
      invariant steps == hop + 1 && steps <= Depth(merges, id) && at == After(merges, id, steps)
      invariant After(merges, id, hop) in next
    {
      if at !in next { break; }
      if steps == Depth(merges, id) { AfterLast(merges, id); }
      AfterNext(merges, id, steps);
      at, steps := next[at], steps + 1;
    }
  }

  /** Each removed cluster's destination. It is the live cluster its chain ends in if and only if the
      chain is at most 32 merges long, or one longer and another of the ids leads into it in time. */
  method FollowMerges(merges: seq<MergeRow>, ids: seq<int>) returns (out: map<int, int>)
    requires LogSound(merges)
    ensures forall id :: id in out <==> id in ids && Retired(merges, id)
    ensures forall id {:trigger out[id]} :: id in out ==> out[id] == After(merges, id, Followed(merges, ids, id))
    ensures forall id {:trigger out[id]} :: id in out ==> (!Retired(merges, out[id]) <==> Reachable(merges, ids, id))
    ensures forall id {:trigger out[id]} :: id in out ==> EndsRight(merges, ids, id, out[id])
  {
    hide EndsRight, Retired, LogSound, Near, OnlyChains, Reachable, Followed, Knows, True, Open, After, Depth;
    var next: map<int, int> := map[];
    var frontier := ids;
    var hop := 0;
    NoHops(merges, ids, next);
    while hop < HOPS && |frontier| > 0
      invariant 0 <= hop <= HOPS && True(merges, next) && Open(merges, next, frontier)
      invariant forall id :: id in ids ==>
        Knows(merges, next, id, hop) && (id in next || id in frontier || !Retired(merges, id))
      invariant hop > 0 ==> forall id :: id in ids ==> id in next || !Retired(merges, id)
      invariant OnlyChains(merges, next.Keys, frontier, ids, hop)
    {
      ghost var before, was := next, frontier;
      next, frontier := Hop(merges, next, frontier);
      forall id | id in ids
        ensures Knows(merges, next, id, hop + 1) && (id in next || !Retired(merges, id))
      {
        KnowsMore(merges, before, next, was, id, hop);
      }
      OnlyChainsMore(merges, before, next, was, frontier, ids, hop);
      hop := hop + 1;
    }
    forall id | id in ids
      ensures Knows(merges, next, id, HOPS) && (id in next || !Retired(merges, id))
    {
      if hop < HOPS { KnowsAll(merges, next, id, HOPS); }
    }
    NearIsKnown(merges, next, ids, frontier, hop);
    out := map[];
    for i := 0 to |ids|
      invariant forall id :: id in out <==> id in ids[..i] && Retired(merges, id)
      invariant forall id {:trigger out[id]} :: id in out ==> out[id] == After(merges, id, Followed(merges, ids, id))
    {
      var id := ids[i];
      if id !in next { continue; }
      ghost var steps;
      var at;
      at, steps := Walk(merges, next, id);
      WalkEnds(merges, next, ids, id, at, steps);
      out := out[id := at];
    }
    assert ids[..|ids|] == ids;
    forall id | id in out
      ensures !Retired(merges, out[id]) <==> Reachable(merges, ids, id)
      ensures EndsRight(merges, ids, id, out[id])
    {
      FollowedLive(merges, ids, id);
      SearchEnds(merges, ids, id);
    }
  }

  lemma NoHops(merges: seq<MergeRow>, ids: seq<int>, next: map<int, int>)
    requires LogSound(merges) && next == map[]
    ensures True(merges, next) && Open(merges, next, ids) && OnlyChains(merges, next.Keys, ids, ids, 0)
    ensures forall id :: id in ids ==> Knows(merges, next, id, 0)
  {
    forall x | x in ids
      ensures exists y :: y in ids && OnChain(merges, y, 0, x)
    {
      assert OnChain(merges, x, 0, x);
    }
  }

  /** The merges known at the end are exactly those near the ids. */
  lemma NearIsKnown(merges: seq<MergeRow>, next: map<int, int>, ids: seq<int>, frontier: seq<int>, hop: nat)
    requires LogSound(merges) && hop <= HOPS && OnlyChains(merges, next.Keys, frontier, ids, hop)
    requires forall id :: id in ids ==> Knows(merges, next, id, HOPS)
    ensures forall x :: x in next <==> Near(merges, ids, x, HOPS)
  {
    hide LogSound;
    forall x | x in next
      ensures Near(merges, ids, x, HOPS)
    {
      assert Near(merges, ids, x, hop);
      var y, k: nat :| y in ids && OnChain(merges, y, k, x) && k < hop && k < Depth(merges, y);
    }
    forall x | Near(merges, ids, x, HOPS)
      ensures x in next
    {
      var y, k: nat :| y in ids && OnChain(merges, y, k, x) && k < HOPS && k < Depth(merges, y);
      assert Knows(merges, next, y, HOPS);
    }
  }

  lemma WalkEnds(merges: seq<MergeRow>, next: map<int, int>, ids: seq<int>, id: int, at: int, steps: nat)
    requires LogSound(merges) && True(merges, next) && Knows(merges, next, id, HOPS) && id in next
    requires forall x :: x in next <==> Near(merges, ids, x, HOPS)
    requires 1 <= steps <= HOPS + 1 && steps <= Depth(merges, id) && at == After(merges, id, steps)
    requires at in next ==> steps == HOPS + 1
    requires steps == HOPS + 1 ==> After(merges, id, HOPS) in next
    ensures Retired(merges, id) && at == After(merges, id, Followed(merges, ids, id))
  {
    assert next[id] == Into(merges, id);
    hide LogSound, Retired, Near;
    AfterLast(merges, id);
    if steps < Depth(merges, id) { AfterNext(merges, id, steps); }
  }

  /** The chain from c ends at e. */
  ghost predicate EndsAt(merges: seq<MergeRow>, c: int, e: int) {
    LogSound(merges) && After(merges, c, Depth(merges, c)) == e
  }

  /** Whether a feature is in the cluster a retired one leads to, after any history whose last step rewrote
      that layer: if and only if that run's edges link it to the cluster's anchor. Merges say where a
      cluster went, not where each of its members is now. */
  lemma FollowedHolds(dbs: seq<Db>, i: nat, basis: Basis, modalities: map<string, string>, edges: seq<Edge>,
                      existing: Existing, c: int, e: int, x: string)
    requires IsHistory(dbs) && 0 < i < |dbs| && LayerRun(dbs[i - 1], dbs[i], basis, modalities, edges)
    requires c in dbs[i].created && EndsAt(dbs[i].merges, c, e) && Loaded(dbs[i], basis, existing)
    requires e in dbs[i].clusters ==> dbs[i].clusters[e].basis == basis
    requires (basis, x) in dbs[i].members
    ensures e in dbs[i].clusters && Anchored(existing, e)
    ensures dbs[i].members[(basis, x)] == e <==> Linked(Links(edges), Anchor(existing, e), x)
  {
    HistorySound(dbs, i);
    ChainEndsLive(dbs[i], c);
    LoadedNonEmpty(dbs[i], basis, existing, e);
    var a := Anchor(existing, e);
    assert a in existing[e].members;
    hide Sound, LayerRun, Linked;
    LayerMembersOf(dbs[i - 1], dbs[i], basis, modalities, edges, a, x);
  }
}
