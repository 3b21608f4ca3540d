/** cluster/decision.go and cluster/cluster.go together: the pairs the decision log confirms, and
    what matcher writes to that log can do to the REVIEWED layer. */
module ConfirmedPairs {
  import opened Reach
  import opened Order
  import opened Decision
  import opened Reconcile
  import opened Clusters
  import opened Options

  type Key = (string, string)

  /** One biometric_decisions row. */
  datatype LogRow = LogRow(featureA: string, featureB: string, modality: string, entry: Entry)

  function KeyOf(r: LogRow): Key {
    (r.featureA, r.featureB)
  }

  /** The chain of one pair, in log order. */
  function ChainOf(rows: seq<LogRow>, k: Key): Chain {
    if rows == [] then []
    else ChainOf(rows[..|rows| - 1], k) + if KeyOf(rows[|rows| - 1]) == k then [rows[|rows| - 1].entry] else []
  }

  /** The modality of a pair's first row. */
  function FirstModality(rows: seq<LogRow>, k: Key): string {
    if rows == [] then ""
    else if ChainOf(rows[..|rows| - 1], k) != [] then FirstModality(rows[..|rows| - 1], k)
    else if KeyOf(rows[|rows| - 1]) == k then rows[|rows| - 1].modality
    else ""
  }

  ghost predicate Confirmed(chain: Chain) {
    chain != [] && Derive(chain, Deciding(chain)).status == CONFIRMED
  }

  ghost predicate PairRight(rows: seq<LogRow>, p: ConfirmedPair) {
    var k := (p.featureA, p.featureB);
    Confirmed(ChainOf(rows, k)) && p.modality == FirstModality(rows, k) && (p.reviewed <==> Reviewed(ChainOf(rows, k)))
  }

  /** Where a pair first appears in the log. */
  function FirstRow(rows: seq<LogRow>, k: Key): (i: nat)
    ensures i <= |rows| && (i < |rows| ==> KeyOf(rows[i]) == k) && forall j :: 0 <= j < i ==> KeyOf(rows[j]) != k
  {
    if rows == [] then 0 else if KeyOf(rows[0]) == k then 0 else 1 + FirstRow(rows[1..], k)
  }

  /** Each pair once, in the order they first appear. */
  ghost predicate InLogOrder(rows: seq<LogRow>, order: seq<Key>) {
    && (forall i, j :: 0 <= i < j < |order| ==> FirstRow(rows, order[i]) < FirstRow(rows, order[j]))
    && (forall i {:trigger order[i]} :: 0 <= i < |order| ==> FirstRow(rows, order[i]) < |rows|)
  }

  /** The rows of the log by pair, and the pairs in the order they first appear. */
  method Group(rows: seq<LogRow>) returns (chains: map<Key, seq<LogRow>>, order: seq<Key>)
    ensures ChainsOf(rows, chains)
    ensures forall k :: k in order <==> k in chains
    ensures InLogOrder(rows, order)
  {
    hide ChainsOf, FirstRow;
    chains, order := map[], [];
    NoChains();
    assert rows[..0] == [];
    for i := 0 to |rows|
      invariant ChainsOf(rows[..i], chains)
      invariant forall k :: k in order <==> k in chains
      invariant forall j :: 0 <= j < i ==> KeyOf(rows[j]) in order
      invariant forall a, b :: 0 <= a < b < |order| ==> FirstRow(rows, order[a]) < FirstRow(rows, order[b])
      invariant forall a {:trigger order[a]} :: 0 <= a < |order| ==> FirstRow(rows, order[a]) < i
    {
      var r := rows[i];
      var k := KeyOf(r);
      assert rows[..i + 1] == rows[..i] + [r];
      ChainsMore(rows[..i], chains, r);
      if k !in chains {
        assert FirstRow(rows, k) == i;
        order := order + [k];
      }
      chains := chains[k := (if k in chains then chains[k] else []) + [r]];
    }
    assert rows[..|rows|] == rows;
  }

  /** chains holds each pair's rows, in order. */
  ghost predicate ChainsOf(rows: seq<LogRow>, chains: map<Key, seq<LogRow>>) {
    && (forall k :: k in chains <==> ChainOf(rows, k) != [])
    && (forall k {:trigger chains[k]} :: k in chains ==>
          EntriesOf(chains[k]) == ChainOf(rows, k) && chains[k] != [] &&
            chains[k][0].modality == FirstModality(rows, k))
  }

  lemma NoChains()
    ensures ChainsOf([], map[])
  {}

  lemma ChainsMore(rows: seq<LogRow>, chains: map<Key, seq<LogRow>>, r: LogRow)
    requires ChainsOf(rows, chains)
    ensures ChainsOf(rows + [r], chains[KeyOf(r) := (if KeyOf(r) in chains then chains[KeyOf(r)] else []) + [r]])
  {
    assert (rows + [r])[..|rows|] == rows;
    var list := if KeyOf(r) in chains then chains[KeyOf(r)] else [];
    assert EntriesOf(list + [r]) == EntriesOf(list) + [r.entry];
  }

  function EntriesOf(rows: seq<LogRow>): Chain {
    seq(|rows|, i requires 0 <= i < |rows| => rows[i].entry)
  }

  /** The pairs whose chain is CONFIRMED, each once and in log order, marked with whether people
    confirmed it. */
  method LoadConfirmedPairs(rows: seq<LogRow>) returns (pairs: seq<ConfirmedPair>)
    ensures forall p :: p in pairs ==> PairRight(rows, p)
    ensures forall k :: Confirmed(ChainOf(rows, k)) ==> exists p :: p in pairs && (p.featureA, p.featureB) == k
    ensures InLogOrder(rows, PairKeys(pairs))
    ensures forall p :: p in pairs ==> PairStated(rows, p)
    ensures forall a, b, picks :: RowsConfirm(rows, a, b, picks) ==>
      exists p :: p in pairs && p.featureA == a && p.featureB == b
  {
    var chains, order := Group(rows);
    hide PairStated, RowsConfirm, Confirmed, ChainOf, PairRight, InLogOrder, PairKeys;
    pairs := [];
    NoPairKeys(rows);
    for i := 0 to |order|
      invariant forall p :: p in pairs ==> PairRight(rows, p)
      invariant InLogOrder(rows, PairKeys(pairs)) && forall p :: p in pairs ==> (p.featureA, p.featureB) in order[..i]
      invariant forall j {:trigger order[j]} :: 0 <= j < i && Confirmed(ChainOf(rows, order[j])) ==>
        Listed(pairs, order[j])
    {
      var k := order[i];
      assert k in order && order[..i + 1] == order[..i] + [k];
      var pair := PairOf(rows, k, chains[k]);
      if pair.None? { continue; }
      NextInOrder(rows, order, i, pairs, pair.value);
      ListedMore(pairs, pair.value);
      pairs := pairs + [pair.value];
    }
    forall k | Confirmed(ChainOf(rows, k))
      ensures Listed(pairs, k)
    {
      ConfirmedNonEmpty(rows, k);
      var j :| 0 <= j < |order| && order[j] == k;
    }
    forall p | p in pairs ensures PairStated(rows, p) { PairStatedIs(rows, p); }
    forall a, b, picks | RowsConfirm(rows, a, b, picks)
      ensures exists p :: p in pairs && p.featureA == a && p.featureB == b
    {
      StatedConfirmed(rows, a, b, picks);
      assert Listed(pairs, (a, b));
    }
  }

  /** What one pair's rows make of it. */
  method PairOf(rows: seq<LogRow>, k: Key, list: seq<LogRow>) returns (pair: Option<ConfirmedPair>)
    requires list != [] && EntriesOf(list) == ChainOf(rows, k) && list[0].modality == FirstModality(rows, k)
    ensures pair.Some? <==> Confirmed(ChainOf(rows, k))
    ensures pair.Some? ==> PairRight(rows, pair.value) && (pair.value.featureA, pair.value.featureB) == k
  {
    hide Confirmed, Reviewed, ChainOf, FirstModality;
    var chain := EntriesOf(list);
    var round, status, settledBy, ok := DecidingRoundBy(chain);
    StatusConfirmed(chain, round, status, settledBy, ok);
    if !ok || status != CONFIRMED { return None; }
    var reviewed := IsReviewed(chain);
    pair := Some(ConfirmedPair(k.0, k.1, list[0].modality, reviewed));
    assert k == (k.0, k.1);
  }

  ghost predicate Listed(pairs: seq<ConfirmedPair>, k: Key) {
    exists p :: p in pairs && (p.featureA, p.featureB) == k
  }

  lemma ListedMore(pairs: seq<ConfirmedPair>, p: ConfirmedPair)
    ensures forall k :: Listed(pairs, k) ==> Listed(pairs + [p], k)
    ensures Listed(pairs + [p], (p.featureA, p.featureB))
  {
    var more := pairs + [p];
    assert more[|pairs|] in more;
    forall k | Listed(pairs, k)
      ensures Listed(more, k)
    {
      var q :| q in pairs && (q.featureA, q.featureB) == k;
      assert q in more;
    }
  }

  function PairKeys(pairs: seq<ConfirmedPair>): (ks: seq<Key>)
    ensures |ks| == |pairs|
  {
    seq(|pairs|, i requires 0 <= i < |pairs| => (pairs[i].featureA, pairs[i].featureB))
  }

  lemma NoPairKeys(rows: seq<LogRow>)
    ensures InLogOrder(rows, PairKeys([]))
  {}

  lemma NextInOrder(rows: seq<LogRow>, order: seq<Key>, i: nat, pairs: seq<ConfirmedPair>, p: ConfirmedPair)
    requires InLogOrder(rows, order) && i < |order| && (p.featureA, p.featureB) == order[i]
    requires InLogOrder(rows, PairKeys(pairs)) && forall q :: q in pairs ==> (q.featureA, q.featureB) in order[..i]
    ensures InLogOrder(rows, PairKeys(pairs + [p]))
  {
    hide FirstRow;
    assert PairKeys(pairs + [p]) == PairKeys(pairs) + [order[i]];
    forall j | 0 <= j < |pairs|
      ensures FirstRow(rows, PairKeys(pairs)[j]) < FirstRow(rows, order[i])
    {
      assert pairs[j] in pairs;
      var m :| 0 <= m < i && order[m] == PairKeys(pairs)[j];
    }
  }

  lemma StatusConfirmed(chain: Chain, round: int, status: EdgeStatus, settledBy: Option<Role>, ok: bool)
    requires ok <==> chain != []
    requires ok ==> IsDeciding(chain, round) && Derive(chain, round) == Outcome(status, settledBy)
    ensures Confirmed(chain) <==> ok && status == CONFIRMED
  {
    if ok { DecidingUnique(chain, round, Deciding(chain)); }
  }

  lemma ConfirmedNonEmpty(rows: seq<LogRow>, k: Key)
    ensures Confirmed(ChainOf(rows, k)) ==> ChainOf(rows, k) != []
  {}

  // -------------------------------------------------------------------- the same, row by row

  /** picks are the places of the rows of features a and b, in log order. */
  ghost predicate RowsOf(rows: seq<LogRow>, a: string, b: string, picks: seq<nat>) {
    && (forall i, j :: 0 <= i < j < |picks| ==> picks[i] < picks[j])
    && (forall i {:trigger picks[i]} :: 0 <= i < |picks| ==>
          picks[i] < |rows| && rows[picks[i]].featureA == a && rows[picks[i]].featureB == b)
    && (forall n {:trigger rows[n]} :: 0 <= n < |rows| && rows[n].featureA == a && rows[n].featureB == b ==> n in picks)
  }

  /** Their decisions, in log order. */
  ghost function EntriesAt(rows: seq<LogRow>, picks: seq<nat>): (chain: Chain)
    requires forall i {:trigger picks[i]} :: 0 <= i < |picks| ==> picks[i] < |rows|
    ensures |chain| == |picks| && forall i {:trigger chain[i]} :: 0 <= i < |picks| ==> chain[i] == rows[picks[i]].entry
  {
    seq(|picks|, i requires 0 <= i < |picks| => rows[picks[i]].entry)
  }

  /** The latest settled round of the chain, or the latest when none is, is confirmed. */
  ghost predicate ChainConfirmed(chain: Chain) {
    exists d, who :: LatestSettled(chain, d) && Ruled(chain, Some(d), Outcome(CONFIRMED, who))
  }

  /** The rows of a and b confirm the pair. */
  ghost predicate RowsConfirm(rows: seq<LogRow>, a: string, b: string, picks: seq<nat>) {
    RowsOf(rows, a, b, picks) && ChainConfirmed(EntriesAt(rows, picks))
  }

  /** The pair's rows confirm it; it has the modality of the first of them; and it is marked reviewed if and only
    * if people confirm in some round after which none is settled. */
  ghost predicate PairStated(rows: seq<LogRow>, p: ConfirmedPair) {
    exists picks :: PairFrom(rows, p, picks)
  }

  ghost predicate PairFrom(rows: seq<LogRow>, p: ConfirmedPair, picks: seq<nat>) {
    && RowsConfirm(rows, p.featureA, p.featureB, picks) && picks != [] && p.modality == rows[picks[0]].modality
    && (p.reviewed <==> PeopleConfirmLast(EntriesAt(rows, picks)))
  }

  lemma {:induction false} ChainAt(rows: seq<LogRow>, k: Key) returns (picks: seq<nat>)
    ensures RowsOf(rows, k.0, k.1, picks) && ChainOf(rows, k) == EntriesAt(rows, picks)
    ensures picks != [] ==> FirstModality(rows, k) == rows[picks[0]].modality
  {
    picks := [];
    if rows != [] {
      var n := |rows| - 1;
      picks := ChainAt(rows[..n], k);
      ChainStep(rows, k);
      hide ChainOf, FirstModality;
      if KeyOf(rows[n]) == k {
        MoreRows(rows, k, n, picks);
        assert FirstModality(rows, k) == rows[(picks + [n])[0]].modality by {
          if picks != [] { assert rows[..n][picks[0]] == rows[picks[0]]; }
        }
        picks := picks + [n];
      } else {
        SameRows(rows, k, n, picks);
      }
    }
  }

  lemma ChainStep(rows: seq<LogRow>, k: Key)
    requires rows != []
    ensures var rest, last := rows[..|rows| - 1], rows[|rows| - 1];
      && ChainOf(rows, k) == ChainOf(rest, k) + (if KeyOf(last) == k then [last.entry] else [])
      && (ChainOf(rest, k) != [] ==> FirstModality(rows, k) == FirstModality(rest, k))
      && (ChainOf(rest, k) == [] && KeyOf(last) == k ==> FirstModality(rows, k) == last.modality)
  {}

  lemma MoreRows(rows: seq<LogRow>, k: Key, n: nat, picks: seq<nat>)
    requires n == |rows| - 1 && KeyOf(rows[n]) == k && RowsOf(rows[..n], k.0, k.1, picks)
    ensures RowsOf(rows, k.0, k.1, picks + [n])
    ensures EntriesAt(rows, picks + [n]) == EntriesAt(rows[..n], picks) + [rows[n].entry]
  {
    var more := picks + [n];
    forall m {:trigger rows[m]} | 0 <= m < |rows| && rows[m].featureA == k.0 && rows[m].featureB == k.1
      ensures m in more
    {
      if m < n {
        assert rows[..n][m] == rows[m];
      } else {
        assert more[|picks|] == n;
      }
    }
    forall i {:trigger more[i]} | 0 <= i < |more|
      ensures more[i] < |rows| && rows[more[i]].featureA == k.0 && rows[more[i]].featureB == k.1
    {
      if i < |picks| { assert more[i] == picks[i] && rows[..n][picks[i]] == rows[picks[i]]; }
    }
  }

  lemma SameRows(rows: seq<LogRow>, k: Key, n: nat, picks: seq<nat>)
    requires n == |rows| - 1 && KeyOf(rows[n]) != k && RowsOf(rows[..n], k.0, k.1, picks)
    ensures RowsOf(rows, k.0, k.1, picks) && EntriesAt(rows, picks) == EntriesAt(rows[..n], picks)
    ensures picks != [] ==> rows[picks[0]] == rows[..n][picks[0]]
  {
    assert forall m :: 0 <= m < n ==> rows[m] == rows[..n][m];
    forall i {:trigger picks[i]} | 0 <= i < |picks| ensures picks[i] < n && rows[..n][picks[i]] == rows[picks[i]] {}
    forall m {:trigger rows[m]} | 0 <= m < |rows| && rows[m].featureA == k.0 && rows[m].featureB == k.1
      ensures m in picks
    {
      assert m < n by { assert KeyOf(rows[n]) == (rows[n].featureA, rows[n].featureB); }
      assert rows[..n][m] == rows[m];
    }
  }

  /** The rows of a pair are in one list of places. */
  lemma RowsOnce(rows: seq<LogRow>, a: string, b: string, p: seq<nat>, q: seq<nat>)
    requires RowsOf(rows, a, b, p) && RowsOf(rows, a, b, q)
    ensures p == q
  {
    forall n ensures n in p <==> n in q {
      if n in p { var i :| 0 <= i < |p| && p[i] == n; assert rows[n].featureA == a; }
      if n in q { var i :| 0 <= i < |q| && q[i] == n; assert rows[n].featureA == a; }
    }
    RisingOnce(p, q);
  }

  lemma {:induction false} RisingOnce(p: seq<nat>, q: seq<nat>)
    requires forall i, j :: 0 <= i < j < |p| ==> p[i] < p[j]
    requires forall i, j :: 0 <= i < j < |q| ==> q[i] < q[j]
    requires forall n :: n in p <==> n in q
    ensures p == q
  {
    if p != [] { assert p[0] in q; }
    if q != [] { assert q[0] in p; }
    if p != [] && q != [] {
      assert p[0] == q[0];
      forall n ensures n in p[1..] <==> n in q[1..] {
        assert n in p[1..] <==> n in p && n != p[0] by { assert p == [p[0]] + p[1..]; InRest(p, n); }
        assert n in q[1..] <==> n in q && n != q[0] by { assert q == [q[0]] + q[1..]; InRest(q, n); }
      }
      RisingOnce(p[1..], q[1..]);
      assert p == [p[0]] + p[1..] && q == [q[0]] + q[1..];
    }
  }

  lemma InRest(p: seq<nat>, n: nat)
    requires p != [] && forall i, j :: 0 <= i < j < |p| ==> p[i] < p[j]
    ensures n in p[1..] ==> n != p[0] && n in p
  {
    if n in p[1..] {
      var i :| 0 <= i < |p[1..]| && p[1..][i] == n;
      assert p[i + 1] == n;
    }
  }

  lemma ConfirmedIs(chain: Chain)
    ensures Confirmed(chain) <==> ChainConfirmed(chain)
  {
    hide Derive, Ruled, LatestSettled, IsDeciding;
    if chain != [] {
      var d := Deciding(chain);
      DecidingIs(chain, d);
      RoundRules(chain, d);
    }
    forall d, who | LatestSettled(chain, d) && Ruled(chain, Some(d), Outcome(CONFIRMED, who))
      ensures Confirmed(chain)
    {
      DecidingIs(chain, d);
      HasEntry(chain, d);
      DecidingUnique(chain, d, Deciding(chain));
      RoundRules(chain, d);
    }
  }

  lemma HasEntry(chain: Chain, d: int)
    requires IsDeciding(chain, d)
    ensures chain != []
  {}

  lemma PairStatedIs(rows: seq<LogRow>, p: ConfirmedPair)
    requires PairRight(rows, p)
    ensures PairStated(rows, p)
  {
    var k := (p.featureA, p.featureB);
    var picks := ChainAt(rows, k);
    hide Confirmed, Reviewed, ChainConfirmed, PeopleConfirmLast, ChainOf, FirstModality, RowsOf;
    ConfirmedIs(ChainOf(rows, k));
    ReviewedIs(ChainOf(rows, k));
    ConfirmedNonEmpty(rows, k);
    assert PairFrom(rows, p, picks);
  }

  /** A pair whose rows confirm it has its key confirmed. */
  lemma StatedConfirmed(rows: seq<LogRow>, a: string, b: string, picks: seq<nat>)
    requires RowsConfirm(rows, a, b, picks)
    ensures Confirmed(ChainOf(rows, (a, b)))
  {
    var mine := ChainAt(rows, (a, b));
    RowsOnce(rows, a, b, picks, mine);
    ConfirmedIs(ChainOf(rows, (a, b)));
  }

  // --------------------------------------------------------------------- what matchers may do

  /** The rows people wrote. */
  function HumanRows(rows: seq<LogRow>): seq<LogRow> {
    if rows == [] then []
    else HumanRows(rows[..|rows| - 1]) + if rows[|rows| - 1].entry.role.SYSTEM? then [] else [rows[|rows| - 1]]
  }

  lemma {:induction false} HumansOfChain(rows: seq<LogRow>, k: Key)
    ensures Humans(ChainOf(rows, k)) == ChainOf(HumanRows(rows), k)
  {
    if rows != [] {
      var rest, r := rows[..|rows| - 1], rows[|rows| - 1];
      HumansOfChain(rest, k);
      assert ChainOf(rest, k) + [] == ChainOf(rest, k) && HumanRows(rest) + [] == HumanRows(rest);
      assert (ChainOf(rest, k) + [r.entry])[..|ChainOf(rest, k)|] == ChainOf(rest, k);
      assert (HumanRows(rest) + [r])[..|HumanRows(rest)|] == HumanRows(rest);
      assert Humans(ChainOf(rest, k)) + [] == Humans(ChainOf(rest, k));
    }
  }

  lemma {:induction false} HumanRowsAgain(rows: seq<LogRow>)
    ensures HumanRows(HumanRows(rows)) == HumanRows(rows)
  {
    if rows != [] {
      var rest, r := rows[..|rows| - 1], rows[|rows| - 1];
      HumanRowsAgain(rest);
      assert HumanRows(rest) + [] == HumanRows(rest);
      assert (HumanRows(rest) + [r])[..|HumanRows(rest)|] == HumanRows(rest);
    }
  }

  /** What people wrote of pair k. */
  function HumanChain(rows: seq<LogRow>, k: Key): Chain {
    ChainOf(HumanRows(rows), k)
  }

  lemma HumanChainIs(rows: seq<LogRow>, k: Key)
    ensures HumanChain(rows, k) == Humans(ChainOf(rows, k)) && Humans(HumanChain(rows, k)) == HumanChain(rows, k)
  {
    HumansOfChain(rows, k);
    HumansOfChain(HumanRows(rows), k);
    HumanRowsAgain(rows);
  }

  /** Analysis ids come from a sequence. */
  ghost predicate Numbered(rows: seq<LogRow>) {
    forall k :: NoNegativeRound(HumanChain(rows, k))
  }

  /** Of each pair people confirmed, no later round holds a REVIEWER's decision alone. */
  ghost predicate NoneLoneAfter(rows: seq<LogRow>) {
    forall k :: !Reviewed(HumanChain(rows, k)) || NoLoneAfter(HumanChain(rows, k), Deciding(HumanChain(rows, k)))
  }

  ghost predicate SameReviewed(a: seq<LogRow>, b: seq<LogRow>) {
    forall k :: Reviewed(ChainOf(a, k)) <==> Reviewed(ChainOf(b, k))
  }

  /** Logs that differ only in SYSTEM rows agree on the reviewed pairs, all of them, if and only if no pair
      that people confirmed has a later lone REVIEWER. */
  lemma SameReviewedExactly(rows: seq<LogRow>)
    requires Numbered(rows)
    ensures (forall b :: HumanRows(b) == HumanRows(rows) ==> SameReviewed(rows, b)) <==> NoneLoneAfter(rows)
  {
    hide Reviewed, ChainOf, HumanRows, NoLoneAfter, NoNegativeRound;
    if NoneLoneAfter(rows) {
      forall b | HumanRows(b) == HumanRows(rows)
        ensures SameReviewed(rows, b)
      {
        UnmovedLogs(rows, b);
      }
    }
    if forall b :: HumanRows(b) == HumanRows(rows) ==> SameReviewed(rows, b) {
      forall k
        ensures !Reviewed(HumanChain(rows, k)) || NoLoneAfter(HumanChain(rows, k), Deciding(HumanChain(rows, k)))
      {
        HumanRowsAgain(rows);
        assert SameReviewed(rows, HumanRows(rows));
        MatcherAdds(rows, k);
      }
    }
  }

  lemma UnmovedLogs(a: seq<LogRow>, b: seq<LogRow>)
    requires HumanRows(a) == HumanRows(b) && Numbered(a) && NoneLoneAfter(a)
    ensures SameReviewed(a, b)
  {
    hide Reviewed, NoLoneAfter, NoNegativeRound, ChainOf, HumanRows, Humans;
    forall k
      ensures Reviewed(ChainOf(a, k)) <==> Reviewed(ChainOf(b, k))
    {
      HumanChainIs(a, k);
      HumanChainIs(b, k);
      UnmovedExactly(HumanChain(a, k));
    }
  }

  /** What the matcher's POSITIVE for pair k, added to what people wrote, makes of it. */
  lemma MatcherAdds(rows: seq<LogRow>, k: Key)
    requires Numbered(rows) && forall b :: HumanRows(b) == HumanRows(rows) ==> SameReviewed(rows, b)
    requires Reviewed(ChainOf(rows, k)) <==> Reviewed(HumanChain(rows, k))
    ensures !Reviewed(HumanChain(rows, k)) || NoLoneAfter(HumanChain(rows, k), Deciding(HumanChain(rows, k)))
  {
    hide Reviewed, NoLoneAfter, NoNegativeRound, ChainOf, HumanRows, Humans, LastOf, HumanChain;
    var h, e := HumanChain(rows, k), Entry(SYSTEM, POSITIVE, 0, "", NO_LEVEL);
    var b := WithMatcher(rows, k, e);
    SystemAdded(h, e);
    HumanChainIs(rows, k);
    assert SameReviewed(rows, b) && NoNegativeRound(h);
    ReviewedByPeople(h + [e]);
  }

  /** What people wrote, and one SYSTEM row for pair k after it. */
  lemma WithMatcher(rows: seq<LogRow>, k: Key, e: Entry) returns (b: seq<LogRow>)
    requires e.role.SYSTEM?
    ensures HumanRows(b) == HumanRows(rows) && ChainOf(b, k) == HumanChain(rows, k) + [e]
  {
    b := HumanRows(rows) + [LogRow(k.0, k.1, "FACIAL", e)];
    assert b[..|b| - 1] == HumanRows(rows) && KeyOf(b[|b| - 1]) == k;
    HumanRowsAgain(rows);
    assert HumanRows(b) == HumanRows(rows) + [];
  }

  lemma WellFormedStays(rows: seq<LogRow>)
    requires forall k :: WellFormed(ChainOf(rows, k))
    ensures Numbered(rows) && NoneLoneAfter(rows)
  {
    forall k
      ensures NoNegativeRound(HumanChain(rows, k)) && forall r :: !Lone(HumanChain(rows, k), r)
    {
      HumanChainIs(rows, k);
    }
    hide Reviewed;
  }

  /** The pairs listed for a log give the REVIEWED layer an edge for each reviewed pair and no other. */
  lemma ReviewedEdges(rows: seq<LogRow>, pairs: seq<ConfirmedPair>, k: Key)
    requires PairsOf(rows, pairs)
    ensures k in Links(EdgesOf(pairs, REVIEWED)) <==> Reviewed(ChainOf(rows, k))
  {
    hide Confirmed, Reviewed, ChainOf, FirstModality, EdgesOf;
    var edges := EdgesOf(pairs, REVIEWED);
    if k in Links(edges) {
      var e :| e in edges && (e.left, e.right) == k;
      EdgeOfPair(pairs, REVIEWED, e);
      var p :| p in pairs && p.reviewed && e == Edge(p.featureA, p.featureB, p.modality);
    }
    if Reviewed(ChainOf(rows, k)) {
      ReviewedConfirmed(ChainOf(rows, k));
      var p :| p in pairs && (p.featureA, p.featureB) == k;
      var e := Edge(p.featureA, p.featureB, p.modality);
      EdgeOfPair(pairs, REVIEWED, e);
      assert (e.left, e.right) == k;
    }
  }

  /** Logs that agree on the reviewed pairs give the REVIEWED layer the same edges. */
  lemma SameReviewedEdges(a: seq<LogRow>, b: seq<LogRow>, pa: seq<ConfirmedPair>, pb: seq<ConfirmedPair>)
    requires SameReviewed(a, b) && PairsOf(a, pa) && PairsOf(b, pb)
    ensures Links(EdgesOf(pa, REVIEWED)) == Links(EdgesOf(pb, REVIEWED))
    ensures forall x :: Mentioned(EdgesOf(pa, REVIEWED), x) <==> Mentioned(EdgesOf(pb, REVIEWED), x)
  {
    hide Reviewed, ChainOf, EdgesOf, PairsOf;
    var ea, eb := EdgesOf(pa, REVIEWED), EdgesOf(pb, REVIEWED);
    forall k
      ensures k in Links(ea) <==> k in Links(eb)
    {
      ReviewedEdges(a, pa, k);
      ReviewedEdges(b, pb, k);
    }
    forall x
      ensures Mentioned(ea, x) <==> Mentioned(eb, x)
    {
      MentionedByLinks(ea, eb, x);
      MentionedByLinks(eb, ea, x);
    }
  }

  lemma MentionedByLinks(ea: seq<Edge>, eb: seq<Edge>, x: string)
    requires Links(ea) <= Links(eb)
    ensures Mentioned(ea, x) ==> Mentioned(eb, x)
  {
    if Mentioned(ea, x) {
      var e :| e in ea && (e.left == x || e.right == x);
      assert (e.left, e.right) in Links(ea);
      var f :| f in eb && (f.left, f.right) == (e.left, e.right);
    }
  }

  /** Whatever the order of the pairs listed for each, the two logs give the REVIEWED layer the same edges. */
  ghost predicate SameEdges(a: seq<LogRow>, b: seq<LogRow>) {
    forall pa, pb :: PairsOf(a, pa) && PairsOf(b, pb) ==>
      Links(EdgesOf(pa, REVIEWED)) == Links(EdgesOf(pb, REVIEWED))
  }

  lemma SameEdgesIff(a: seq<LogRow>, b: seq<LogRow>)
    ensures SameEdges(a, b) <==> SameReviewed(a, b)
  {
    hide PairsOf, EdgesOf, Links, SameReviewed;
    if SameReviewed(a, b) {
      forall pa, pb | PairsOf(a, pa) && PairsOf(b, pb)
        ensures Links(EdgesOf(pa, REVIEWED)) == Links(EdgesOf(pb, REVIEWED))
      {
        SameReviewedEdges(a, b, pa, pb);
      }
    } else {
      var pa := SomePairs(a);
      var pb := SomePairs(b);
      DifferentEdges(a, b, pa, pb);
    }
  }

  /** The REVIEWED layer has the same edges whatever SYSTEM rows a matcher adds, removes or changes, if and
      only if no pair that people confirmed has a later lone REVIEWER. */
  lemma ReviewedEdgesExactly(rows: seq<LogRow>)
    requires Numbered(rows)
    ensures (forall b :: HumanRows(b) == HumanRows(rows) ==> SameEdges(rows, b)) <==> NoneLoneAfter(rows)
  {
    SameReviewedExactly(rows);
    hide HumanRows, SameEdges, NoneLoneAfter, SameReviewed, Numbered;
    forall b
      ensures SameEdges(rows, b) <==> SameReviewed(rows, b)
    {
      SameEdgesIff(rows, b);
    }
  }

  lemma DifferentEdges(a: seq<LogRow>, b: seq<LogRow>, pa: seq<ConfirmedPair>, pb: seq<ConfirmedPair>)
    requires !SameReviewed(a, b) && PairsOf(a, pa) && PairsOf(b, pb)
    ensures Links(EdgesOf(pa, REVIEWED)) != Links(EdgesOf(pb, REVIEWED))
  {
    hide Reviewed, ChainOf, EdgesOf, PairsOf, Links;
    var k: Key :| !(Reviewed(ChainOf(a, k)) <==> Reviewed(ChainOf(b, k)));
    ReviewedEdges(a, pa, k);
    ReviewedEdges(b, pb, k);
  }

  /** Every log has its confirmed pairs. */
  lemma {:induction false} SomePairs(rows: seq<LogRow>) returns (pairs: seq<ConfirmedPair>)
    ensures PairsOf(rows, pairs)
  {
    hide Confirmed, Reviewed, ChainOf, FirstModality;
    pairs := [];
    for i := 0 to |rows|
      invariant forall p :: p in pairs ==> PairRight(rows, p)
      invariant forall j {:trigger rows[j]} :: 0 <= j < i && Confirmed(ChainOf(rows, KeyOf(rows[j]))) ==>
        Listed(pairs, KeyOf(rows[j]))
    {
      var k := KeyOf(rows[i]);
      if Confirmed(ChainOf(rows, k)) {
        var p := ConfirmedPair(k.0, k.1, FirstModality(rows, k), Reviewed(ChainOf(rows, k)));
        assert k == (k.0, k.1);
        ListedMore(pairs, p);
        pairs := pairs + [p];
      }
    }
    forall k | Confirmed(ChainOf(rows, k))
      ensures Listed(pairs, k)
    {
      ConfirmedNonEmpty(rows, k);
      ChainHasRow(rows, k);
      var j :| 0 <= j < |rows| && KeyOf(rows[j]) == k;
    }
  }

  lemma {:induction false} ChainHasRow(rows: seq<LogRow>, k: Key)
    requires ChainOf(rows, k) != []
    ensures exists j :: 0 <= j < |rows| && KeyOf(rows[j]) == k
  {
    var n := |rows| - 1;
    if KeyOf(rows[n]) != k {
      ChainHasRow(rows[..n], k);
      var j :| 0 <= j < n && KeyOf(rows[..n][j]) == k;
      assert KeyOf(rows[j]) == k;
    }
  }

  lemma ReviewedConfirmed(chain: Chain)
    ensures Reviewed(chain) ==> Confirmed(chain)
  {}

  ghost predicate PairsOf(rows: seq<LogRow>, pairs: seq<ConfirmedPair>) {
    && (forall p :: p in pairs ==> PairRight(rows, p))
    && (forall k :: Confirmed(ChainOf(rows, k)) ==> exists p :: p in pairs && (p.featureA, p.featureB) == k)
  }

  /** Then the REVIEWED layer's plan keeps, merges and creates the same groups too. */
  lemma MachineCannotRegroup(a: seq<LogRow>, b: seq<LogRow>, pa: seq<ConfirmedPair>, pb: seq<ConfirmedPair>,
                             modalities: map<string, string>, existing: Existing, ma: map<string, string>, planA: Plan,
                             mb: map<string, string>, planB: Plan)
    requires HumanRows(a) == HumanRows(b) && Numbered(a) && NoneLoneAfter(a) && Disjoint(existing)
    requires PairsOf(a, pa) && PairsOf(b, pb)
    requires PlanFor(modalities, EdgesOf(pa, REVIEWED), existing, ma, planA)
    requires PlanFor(modalities, EdgesOf(pb, REVIEWED), existing, mb, planB)
    ensures planA.kept == planB.kept && planA.merges == planB.merges
    ensures forall c :: c in planA.newClusters ==> exists d :: d in planB.newClusters && d.evidence == c.evidence
    ensures forall d :: d in planB.newClusters ==> exists c :: c in planA.newClusters && c.evidence == d.evidence
  {
    hide PlanFor, PairsOf, SameReviewed, Numbered, NoneLoneAfter, HumanRows, EdgesOf;
    UnmovedLogs(a, b);
    SameReviewedEdges(a, b, pa, pb);
    SameGroups(modalities, EdgesOf(pa, REVIEWED), EdgesOf(pb, REVIEWED), existing, ma, planA, mb, planB);
  }

  lemma SameGroups(modalities: map<string, string>, ea: seq<Edge>, eb: seq<Edge>, existing: Existing,
                   ma: map<string, string>, planA: Plan, mb: map<string, string>, planB: Plan)
    requires Links(ea) == Links(eb) && forall x :: Mentioned(ea, x) <==> Mentioned(eb, x)
    requires PlanFor(modalities, ea, existing, ma, planA) && PlanFor(modalities, eb, existing, mb, planB)
    ensures planA.kept == planB.kept && planA.merges == planB.merges
    ensures forall c :: c in planA.newClusters ==> exists d :: d in planB.newClusters && d.evidence == c.evidence
    ensures forall d :: d in planB.newClusters ==> exists c :: c in planA.newClusters && c.evidence == d.evidence
  {
    var E := Links(ea);
    assert ma.Keys == mb.Keys by { SameNodes(modalities, ea, eb, existing, ma, planA, mb, planB); }
    assert KeptRight(E, ma.Keys, existing, planA.kept) && KeptRight(E, ma.Keys, existing, planB.kept);
    assert NewRight(E, ma, existing, planA.newClusters) && NewRight(E, mb, existing, planB.newClusters);
    assert MergesRight(E, existing, planA.merges) && MergesRight(E, existing, planB.merges);
    hide PlanFor, KeptRight, NewRight, MergesRight, Links;
    SameKeptGroups(E, ma.Keys, existing, planA.kept, planB.kept);
    SameMergeLists(E, existing, planA.merges, planB.merges);
    SameNewGroups(E, existing, ma, planA.newClusters, mb, planB.newClusters);
    SameNewGroups(E, existing, mb, planB.newClusters, ma, planA.newClusters);
  }

  lemma SameNodes(modalities: map<string, string>, ea: seq<Edge>, eb: seq<Edge>, existing: Existing,
                  ma: map<string, string>, planA: Plan, mb: map<string, string>, planB: Plan)
    requires forall x :: Mentioned(ea, x) <==> Mentioned(eb, x)
    requires PlanFor(modalities, ea, existing, ma, planA) && PlanFor(modalities, eb, existing, mb, planB)
    ensures ma.Keys == mb.Keys
  {
    hide ModalityRight, KeptRight, NewRight, MergesRight, Mentioned;
  }

  lemma SameKeptGroups(E: set<(string, string)>, nodes: set<string>, existing: Existing, a: map<int, seq<string>>,
                       b: map<int, seq<string>>)
    requires KeptRight(E, nodes, existing, a) && KeptRight(E, nodes, existing, b)
    ensures a == b
  {
    hide Linked, Keeper;
    forall id
      ensures id in a <==> id in b
      ensures id in a ==> a[id] == b[id]
    {
      assert id in a <==> id in b;
      if id in a { SortedUnique(a[id], b[id]); }
    }
  }

  lemma SameMergeLists(E: set<(string, string)>, existing: Existing, a: seq<Merge>, b: seq<Merge>)
    requires MergesRight(E, existing, a) && MergesRight(E, existing, b)
    ensures a == b
  {
    hide Keeper;
    SameMerges(a, b);
  }

  lemma SameNewGroups(E: set<(string, string)>, existing: Existing, ma: map<string, string>, a: seq<NewCluster>,
                      mb: map<string, string>, b: seq<NewCluster>)
    requires NewRight(E, ma, existing, a) && NewRight(E, mb, existing, b) && ma.Keys == mb.Keys
    ensures forall c :: c in a ==> exists d :: d in b && d.evidence == c.evidence
  {
    hide ComponentOf, Unclaimed, Linked, NewRight;
    forall c | c in a
      ensures exists d :: d in b && d.evidence == c.evidence
    {
      CreatedRight(E, ma, existing, a, c);
      var x := c.evidence[0];
      assert x in mb.Keys;
      var d := CreatedWith(E, mb, existing, b, x);
      SameComponent(E, ma.Keys, x, c.evidence, d.evidence[0], d.evidence);
    }
  }
}
