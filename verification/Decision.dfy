/** cluster/decision.go: what a pair's chain of decisions comes to. */
module Decision {
  import opened Options
  import opened Order

  datatype Role = SYSTEM | VERIFICATOR | REVIEWER | INCONSISTENCE
  datatype Call = POSITIVE | NEGATIVE | INCONCLUSIVE

  /** UNSET is the empty status. */
  datatype EdgeStatus = UNSET | PENDING_REVIEW | CONFIRMED | DISPUTED | REJECTED

  /** The laudo scale, weakest support for a common source last; NO_LEVEL is the empty level. */
  datatype Conclusion =
    STRONG_SUPPORT_COMMON | SUPPORT_COMMON | NEUTRAL | SUPPORT_DIFFERENT | STRONG_SUPPORT_DIFFERENT | NO_LEVEL

  datatype Entry = Entry(role: Role, call: Call, analysis: int, analysisType: string, conclusion: Conclusion)

  /** A round's status and who settled it. */
  datatype Outcome = Outcome(status: EdgeStatus, settledBy: Option<Role>)

  type Chain = seq<Entry>

  function RoundOf(e: Entry): int {
    if e.role.SYSTEM? then 0 else e.analysis
  }

  /** A SYSTEM decision counts in every round, a human one in its own. */
  predicate Counts(e: Entry, round: int) {
    e.role.SYSTEM? || e.analysis == round
  }

  function RoundChain(chain: Chain, round: int): Chain {
    if chain == [] then []
    else
      var last := chain[|chain| - 1];
      RoundChain(chain[..|chain| - 1], round) + if Counts(last, round) then [last] else []
  }

  /** The last entry of a role. */
  function LastOf(chain: Chain, role: Role): Option<Entry> {
    if chain == [] then None
    else if chain[|chain| - 1].role == role then Some(chain[|chain| - 1])
    else LastOf(chain[..|chain| - 1], role)
  }

  function CallOutcome(c: Call, inconclusive: EdgeStatus): EdgeStatus {
    match c
    case POSITIVE => CONFIRMED
    case NEGATIVE => REJECTED
    case INCONCLUSIVE => inconclusive
  }

  /** One round's outcome from the last entry of each role. */
  function OutcomeOf(system: Option<Entry>, verificator: Option<Entry>, reviewer: Option<Entry>,
                     inconsistence: Option<Entry>): Outcome {
    if inconsistence.Some? then Outcome(CallOutcome(inconsistence.value.call, DISPUTED), Some(INCONSISTENCE))
    else if verificator.Some? && reviewer.Some? then
      if verificator.value.call == reviewer.value.call && verificator.value.conclusion == reviewer.value.conclusion
      then Outcome(CallOutcome(verificator.value.call, PENDING_REVIEW), Some(REVIEWER))
      else Outcome(DISPUTED, Some(REVIEWER))
    else if verificator.Some? then Outcome(PENDING_REVIEW, Some(VERIFICATOR))
    else if system.Some? then Outcome(CallOutcome(system.value.call, PENDING_REVIEW), Some(SYSTEM))
    else Outcome(UNSET, None)
  }

  function DeriveBy(roundChain: Chain): Outcome {
    OutcomeOf(LastOf(roundChain, SYSTEM), LastOf(roundChain, VERIFICATOR), LastOf(roundChain, REVIEWER),
      LastOf(roundChain, INCONSISTENCE))
  }

  /** The outcome of one round of a chain. */
  function Derive(chain: Chain, round: int): Outcome {
    DeriveBy(RoundChain(chain, round))
  }

  predicate IsSettled(s: EdgeStatus) {
    s.CONFIRMED? || s.REJECTED?
  }

  predicate HasRound(chain: Chain, round: int) {
    exists e :: e in chain && RoundOf(e) == round
  }

  predicate SettledRound(chain: Chain, round: int) {
    HasRound(chain, round) && IsSettled(Derive(chain, round).status)
  }

  /** The deciding round: the latest settled one, or the latest when none is settled. */
  ghost predicate IsDeciding(chain: Chain, round: int) {
    && HasRound(chain, round)
    && if exists r :: SettledRound(chain, r)
       then SettledRound(chain, round) && forall r :: SettledRound(chain, r) ==> r <= round
       else forall r :: HasRound(chain, r) ==> r <= round
  }

  lemma DecidingUnique(chain: Chain, a: int, b: int)
    requires IsDeciding(chain, a) && IsDeciding(chain, b)
    ensures a == b
  {
    if r :| SettledRound(chain, r) {
      assert SettledRound(chain, a) && SettledRound(chain, b);
    }
  }

  // --------------------------------------------------------------- the rules, entry by entry

  /** The k-th entry is of the role and, if a round is given, counts in it: SYSTEM entries count in all. */
  predicate At(chain: Chain, round: Option<int>, role: Role, k: int) {
    && 0 <= k < |chain| && chain[k].role == role
    && (role == SYSTEM || round == None || round == Some(chain[k].analysis))
  }

  ghost predicate LastAt(chain: Chain, round: Option<int>, role: Role, k: int) {
    At(chain, round, role, k) && forall j :: k < j < |chain| ==> !At(chain, round, role, j)
  }

  ghost predicate NoneAt(chain: Chain, round: Option<int>, role: Role) {
    forall k :: !At(chain, round, role, k)
  }

  /** One decision's outcome: POSITIVE confirms, NEGATIVE rejects, INCONCLUSIVE leaves `open`. */
  predicate Follows(c: Call, status: EdgeStatus, open: EdgeStatus) {
    && (c == POSITIVE ==> status == CONFIRMED) && (c == NEGATIVE ==> status == REJECTED)
    && (c == INCONCLUSIVE ==> status == open)
  }

  /** What a VERIFICATOR and a REVIEWER settle: they agree in call and level, or dispute. */
  predicate Agree(v: Entry, r: Entry, status: EdgeStatus) {
    && (status == CONFIRMED <==> v.call == POSITIVE && r.call == POSITIVE && v.conclusion == r.conclusion)
    && (status == REJECTED <==> v.call == NEGATIVE && r.call == NEGATIVE && v.conclusion == r.conclusion)
    && (status == PENDING_REVIEW <==> v.call == INCONCLUSIVE && r.call == INCONCLUSIVE && v.conclusion == r.conclusion)
    && (status == DISPUTED <==> v.call != r.call || v.conclusion != r.conclusion)
  }

  /** o is what the rules make of a round, or of a whole chain: the last INCONSISTENCE decides; without one
    * the last VERIFICATOR and REVIEWER do, agreeing or not; a VERIFICATOR alone is pending; and without a
    * VERIFICATOR the last SYSTEM decision decides. */
  ghost predicate Ruled(chain: Chain, round: Option<int>, o: Outcome) {
    && (forall i :: LastAt(chain, round, INCONSISTENCE, i) ==>
          o.settledBy == Some(INCONSISTENCE) && Follows(chain[i].call, o.status, DISPUTED))
    && (NoneAt(chain, round, INCONSISTENCE) ==>
          && (forall v, r :: LastAt(chain, round, VERIFICATOR, v) && LastAt(chain, round, REVIEWER, r) ==>
                o.settledBy == Some(REVIEWER) && Agree(chain[v], chain[r], o.status))
          && (NoneAt(chain, round, REVIEWER) && !NoneAt(chain, round, VERIFICATOR) ==>
                o.settledBy == Some(VERIFICATOR) && o.status == PENDING_REVIEW)
          && (NoneAt(chain, round, VERIFICATOR) ==>
                && (forall s :: LastAt(chain, round, SYSTEM, s) ==>
                      o.settledBy == Some(SYSTEM) && Follows(chain[s].call, o.status, PENDING_REVIEW))
                && (NoneAt(chain, round, SYSTEM) ==> o.settledBy == None && o.status == UNSET)))
  }

  /** Among the entries of a role there is a last one, or there is none. */
  lemma {:induction false} LastOrNone(chain: Chain, round: Option<int>, role: Role) returns (k: int)
    ensures LastAt(chain, round, role, k) || (k == -1 && NoneAt(chain, round, role))
  {
    k := |chain| - 1;
    while k >= 0 && !At(chain, round, role, k)
      invariant -1 <= k < |chain| && forall j :: k < j < |chain| ==> !At(chain, round, role, j)
    {
      k := k - 1;
    }
  }

  lemma LastAtUnique(chain: Chain, round: Option<int>, role: Role, k: int)
    requires LastAt(chain, round, role, k)
    ensures !NoneAt(chain, round, role) && forall j :: LastAt(chain, round, role, j) ==> j == k
  {}

  /** The rules name one outcome. */
  lemma RuledOnce(chain: Chain, round: Option<int>, o: Outcome, p: Outcome)
    requires Ruled(chain, round, o) && Ruled(chain, round, p)
    ensures o == p
  {
    var i := LastOrNone(chain, round, INCONSISTENCE);
    var v := LastOrNone(chain, round, VERIFICATOR);
    var r := LastOrNone(chain, round, REVIEWER);
    var s := LastOrNone(chain, round, SYSTEM);
    hide LastAt, At;
    if v >= 0 { LastAtUnique(chain, round, VERIFICATOR, v); }
  }

  /** The entry at k, when there is one. */
  function EntryAt(chain: Chain, k: int): Option<Entry> {
    if 0 <= k < |chain| then Some(chain[k]) else None
  }

  /** Outcomes computed from the last entries are what the rules say. */
  lemma LastsRule(chain: Chain, round: Option<int>, i: int, v: int, r: int, s: int)
    requires LastAt(chain, round, INCONSISTENCE, i) || (i == -1 && NoneAt(chain, round, INCONSISTENCE))
    requires LastAt(chain, round, VERIFICATOR, v) || (v == -1 && NoneAt(chain, round, VERIFICATOR))
    requires LastAt(chain, round, REVIEWER, r) || (r == -1 && NoneAt(chain, round, REVIEWER))
    requires LastAt(chain, round, SYSTEM, s) || (s == -1 && NoneAt(chain, round, SYSTEM))
    ensures Ruled(chain, round,
      OutcomeOf(EntryAt(chain, s), EntryAt(chain, v), EntryAt(chain, r), EntryAt(chain, i)))
  {
    hide LastAt, NoneAt, At;
    LastsInRange(chain, round);
    if i >= 0 {
      LastAtUnique(chain, round, INCONSISTENCE, i);
    } else if v >= 0 {
      LastAtUnique(chain, round, VERIFICATOR, v);
      if r >= 0 { LastAtUnique(chain, round, REVIEWER, r); }
    } else if s >= 0 {
      LastAtUnique(chain, round, SYSTEM, s);
    }
    NoLastThere(chain, round);
  }

  lemma NoLastThere(chain: Chain, round: Option<int>)
    ensures forall role, k :: NoneAt(chain, round, role) ==> !LastAt(chain, round, role, k)
  {}

  lemma LastsInRange(chain: Chain, round: Option<int>)
    ensures forall role, k :: LastAt(chain, round, role, k) ==> 0 <= k < |chain|
  {}

  lemma {:induction false} LastOfAt(chain: Chain, role: Role) returns (k: int)
    ensures LastAt(chain, None, role, k) || (k == -1 && NoneAt(chain, None, role))
    ensures LastOf(chain, role) == EntryAt(chain, k)
  {
    k := -1;
    if chain != [] {
      var n := |chain| - 1;
      if chain[n].role == role {
        k := n;
      } else {
        k := LastOfAt(chain[..n], role);
        LastAtMore(chain, None, role, k);
      }
    }
  }

  /** A further entry that is not of the role in the round changes nothing. */
  lemma LastAtMore(chain: Chain, round: Option<int>, role: Role, k: int)
    requires chain != [] && !At(chain, round, role, |chain| - 1)
    ensures LastAt(chain[..|chain| - 1], round, role, k) ==> LastAt(chain, round, role, k)
    ensures NoneAt(chain[..|chain| - 1], round, role) ==> NoneAt(chain, round, role)
  {
    forall j | 0 <= j < |chain| - 1
      ensures At(chain, round, role, j) <==> At(chain[..|chain| - 1], round, role, j)
    {}
  }

  lemma {:induction false} LastInRoundAt(chain: Chain, round: int, role: Role) returns (k: int)
    ensures LastAt(chain, Some(round), role, k) || (k == -1 && NoneAt(chain, Some(round), role))
    ensures LastOf(RoundChain(chain, round), role) == EntryAt(chain, k)
  {
    k := -1;
    if chain != [] {
      var n := |chain| - 1;
      var rest, e := chain[..n], chain[n];
      RoundChainMore(chain, round);
      LastOfMore(RoundChain(rest, round), e, role);
      if At(chain, Some(round), role, n) {
        k := n;
      } else {
        k := LastInRoundAt(rest, round, role);
        LastAtMore(chain, Some(round), role, k);
      }
    }
  }

  /** A round's outcome is what the rules say of its entries. */
  lemma RoundRules(chain: Chain, round: int)
    ensures Ruled(chain, Some(round), Derive(chain, round))
    ensures forall o :: Ruled(chain, Some(round), o) <==> o == Derive(chain, round)
  {
    var i := LastInRoundAt(chain, round, INCONSISTENCE);
    var v := LastInRoundAt(chain, round, VERIFICATOR);
    var r := LastInRoundAt(chain, round, REVIEWER);
    var s := LastInRoundAt(chain, round, SYSTEM);
    LastsRule(chain, Some(round), i, v, r, s);
    hide Ruled, OutcomeOf;
    forall o | Ruled(chain, Some(round), o)
      ensures o == Derive(chain, round)
    {
      RuledOnce(chain, Some(round), o, Derive(chain, round));
    }
  }

  lemma ChainRules(chain: Chain)
    ensures Ruled(chain, None, DeriveBy(chain))
  {
    var i := LastOfAt(chain, INCONSISTENCE);
    var v := LastOfAt(chain, VERIFICATOR);
    var r := LastOfAt(chain, REVIEWER);
    var s := LastOfAt(chain, SYSTEM);
    LastsRule(chain, None, i, v, r, s);
  }

  /** The chain has an entry of the round; the SYSTEM's is round 0. */
  ghost predicate InRound(chain: Chain, round: int) {
    exists k :: 0 <= k < |chain| && round == if chain[k].role == SYSTEM then 0 else chain[k].analysis
  }

  /** The rules confirm or reject in the round. */
  ghost predicate Settles(chain: Chain, round: int) {
    InRound(chain, round) && exists o :: Ruled(chain, Some(round), o) && (o.status == CONFIRMED || o.status == REJECTED)
  }

  /** The latest round the rules settle, or the latest when they settle none. */
  ghost predicate LatestSettled(chain: Chain, round: int) {
    && InRound(chain, round)
    && if exists r :: Settles(chain, r)
       then Settles(chain, round) && forall r :: Settles(chain, r) ==> r <= round
       else forall r :: InRound(chain, r) ==> r <= round
  }

  /** The round's last INCONSISTENCE is POSITIVE, or it has none and the last VERIFICATOR and REVIEWER are
    * both POSITIVE at one level. */
  ghost predicate PeopleConfirm(chain: Chain, round: int) {
    var q := Some(round);
    || (exists i :: LastAt(chain, q, INCONSISTENCE, i) && chain[i].call == POSITIVE)
    || (NoneAt(chain, q, INCONSISTENCE) && exists v, r ::
          LastAt(chain, q, VERIFICATOR, v) && LastAt(chain, q, REVIEWER, r) &&
          chain[v].call == POSITIVE && chain[r].call == POSITIVE && chain[v].conclusion == chain[r].conclusion)
  }

  /** People confirm in some round, and no later one is settled. */
  ghost predicate PeopleConfirmLast(chain: Chain) {
    exists q :: PeopleConfirm(chain, q) && forall r :: Settles(chain, r) ==> r <= q
  }

  lemma RoundsAre(chain: Chain, round: int)
    ensures HasRound(chain, round) <==> InRound(chain, round)
    ensures SettledRound(chain, round) <==> Settles(chain, round)
  {
    if HasRound(chain, round) {
      var e :| e in chain && RoundOf(e) == round;
      var k :| 0 <= k < |chain| && chain[k] == e;
    }
    if k :| 0 <= k < |chain| && round == if chain[k].role == SYSTEM then 0 else chain[k].analysis {
      assert chain[k] in chain && RoundOf(chain[k]) == round;
    }
    RoundRules(chain, round);
    hide Ruled, Derive;
  }

  lemma DecidingIs(chain: Chain, round: int)
    ensures IsDeciding(chain, round) <==> LatestSettled(chain, round)
  {
    hide HasRound, SettledRound, InRound, Settles;
    forall r
      ensures HasRound(chain, r) <==> InRound(chain, r)
      ensures SettledRound(chain, r) <==> Settles(chain, r)
    {
      RoundsAre(chain, r);
    }
  }

  /** A round the rules confirm other than by SYSTEM is one people confirm in. */
  lemma PeopleConfirmIs(chain: Chain, round: int)
    ensures PeopleConfirm(chain, round) <==>
      Derive(chain, round).status == CONFIRMED && Derive(chain, round).settledBy != Some(SYSTEM)
    ensures PeopleConfirm(chain, round) ==> InRound(chain, round)
  {
    RoundRules(chain, round);
    var q, o := Some(round), Derive(chain, round);
    var i := LastOrNone(chain, q, INCONSISTENCE);
    var v := LastOrNone(chain, q, VERIFICATOR);
    var r := LastOrNone(chain, q, REVIEWER);
    var s := LastOrNone(chain, q, SYSTEM);
    hide Derive;
    assert Ruled(chain, q, o);
    if i >= 0 {
      LastAtUnique(chain, q, INCONSISTENCE, i);
    } else if v >= 0 {
      LastAtUnique(chain, q, VERIFICATOR, v);
      if r >= 0 { LastAtUnique(chain, q, REVIEWER, r); }
    } else if s >= 0 {
      LastAtUnique(chain, q, SYSTEM, s);
    }
  }

  // ------------------------------------------------------------------------------- the loops

  method DeriveRoundBy(chain: Chain) returns (o: Outcome)
    ensures o == DeriveBy(chain) && Ruled(chain, None, o)
  {
    ChainRules(chain);
    hide Ruled;
    var system, verificator, reviewer, inconsistence: Option<Entry> := None, None, None, None;
    for i := 0 to |chain|
      invariant system == LastOf(chain[..i], SYSTEM) && verificator == LastOf(chain[..i], VERIFICATOR)
      invariant reviewer == LastOf(chain[..i], REVIEWER) && inconsistence == LastOf(chain[..i], INCONSISTENCE)
    {
      assert chain[..i + 1][..i] == chain[..i];
      match chain[i].role
      case SYSTEM => system := Some(chain[i]);
      case VERIFICATOR => verificator := Some(chain[i]);
      case REVIEWER => reviewer := Some(chain[i]);
      case INCONSISTENCE => inconsistence := Some(chain[i]);
    }
    assert chain[..|chain|] == chain;
    if inconsistence.Some? {
      return Outcome(CallOutcome(inconsistence.value.call, DISPUTED), Some(INCONSISTENCE));
    }
    if verificator.Some? && reviewer.Some? {
      if verificator.value.call == reviewer.value.call && verificator.value.conclusion == reviewer.value.conclusion {
        return Outcome(CallOutcome(verificator.value.call, PENDING_REVIEW), Some(REVIEWER));
      }
      return Outcome(DISPUTED, Some(REVIEWER));
    }
    if verificator.Some? { return Outcome(PENDING_REVIEW, Some(VERIFICATOR)); }
    if system.Some? { return Outcome(CallOutcome(system.value.call, PENDING_REVIEW), Some(SYSTEM)); }
    return Outcome(UNSET, None);
  }

  method SelectRound(chain: Chain, round: int) returns (roundChain: Chain)
    ensures roundChain == RoundChain(chain, round)
  {
    roundChain := [];
    for i := 0 to |chain|
      invariant roundChain == RoundChain(chain[..i], round)
    {
      assert chain[..i + 1][..i] == chain[..i];
      if Counts(chain[i], round) { roundChain := roundChain + [chain[i]]; }
    }
    assert chain[..|chain|] == chain;
  }

  /** The rounds of a chain, in order. */
  method RoundsOf(chain: Chain) returns (rounds: seq<int>)
    ensures Ascending(rounds) && forall r :: r in rounds <==> HasRound(chain, r)
  {
    var seen: set<int> := {};
    rounds := [];
    for i := 0 to |chain|
      invariant forall r :: r in seen <==> r in rounds
      invariant forall r :: r in rounds <==> HasRound(chain[..i], r)
    {
      var r := RoundOf(chain[i]);
      assert chain[..i + 1] == chain[..i] + [chain[i]];
      if r !in seen {
        seen := seen + {r};
        rounds := rounds + [r];
      }
    }
    assert chain[..|chain|] == chain;
    SortAscending(rounds);
    rounds := SortInts(rounds);
  }

  /** The deciding round, its status and who settled it; ok is false only for an empty chain. */
  method DecidingRoundBy(chain: Chain) returns (round: int, status: EdgeStatus, settledBy: Option<Role>, ok: bool)
    ensures ok <==> chain != []
    ensures ok ==> IsDeciding(chain, round) && Derive(chain, round) == Outcome(status, settledBy)
    ensures ok ==> LatestSettled(chain, round) && Ruled(chain, Some(round), Outcome(status, settledBy))
    ensures !ok ==> round == 0 && status == UNSET && settledBy == None
  {
    hide Derive, HasRound, Ruled, LatestSettled, IsDeciding;
    var rounds := RoundsOf(chain);
    round, status, ok := 0, UNSET, false;
    var settled := false;
    for i := 0 to |rounds|
      invariant ok <==> i > 0
      invariant ok ==> round in rounds[..i] && status == Derive(chain, round).status
      invariant settled <==> ok && IsSettled(status)
      invariant settled ==> forall j :: 0 <= j < i && IsSettled(Derive(chain, rounds[j]).status) ==> rounds[j] <= round
      invariant !settled ==> forall j ::
        0 <= j < i ==> rounds[j] <= round && !IsSettled(Derive(chain, rounds[j]).status)
      invariant !ok ==> round == 0 && status == UNSET
    {
      var roundChain := SelectRound(chain, rounds[i]);
      var o := DeriveRoundBy(roundChain);
      assert o == Derive(chain, rounds[i]) by { DeriveIs(chain, rounds[i]); }
      var isSettled := IsSettled(o.status);
      if isSettled || !settled {
        round, status, ok := rounds[i], o.status, true;
        settled := settled || isSettled;
      }
    }
    settledBy := None;
    RoundsExhausted(chain, rounds);
    if ok {
      assert rounds[..|rounds|] == rounds;
      var roundChain := SelectRound(chain, round);
      var o := DeriveRoundBy(roundChain);
      DeriveIs(chain, round);
      settledBy := o.settledBy;
      DecidingFrom(chain, rounds, round, settled);
      DecidingIs(chain, round);
      RoundRules(chain, round);
    }
  }

  lemma DeriveIs(chain: Chain, round: int)
    ensures Derive(chain, round) == DeriveBy(RoundChain(chain, round))
  {}

  lemma RoundsExhausted(chain: Chain, rounds: seq<int>)
    requires forall r :: r in rounds <==> HasRound(chain, r)
    ensures rounds == [] <==> chain == []
  {
    if chain != [] { assert chain[0] in chain && HasRound(chain, RoundOf(chain[0])); }
    if rounds != [] { assert rounds[0] in rounds && HasRound(chain, rounds[0]); }
  }

  lemma DecidingFrom(chain: Chain, rounds: seq<int>, round: int, settled: bool)
    requires forall r :: r in rounds <==> HasRound(chain, r)
    requires round in rounds && (settled <==> IsSettled(Derive(chain, round).status))
    requires settled ==> forall j ::
      0 <= j < |rounds| && IsSettled(Derive(chain, rounds[j]).status) ==> rounds[j] <= round
    requires !settled ==> forall j ::
      0 <= j < |rounds| ==> rounds[j] <= round && !IsSettled(Derive(chain, rounds[j]).status)
    ensures IsDeciding(chain, round)
  {
    hide Derive, HasRound;
    forall r | SettledRound(chain, r)
      ensures settled && r <= round
    {
      var j :| 0 <= j < |rounds| && rounds[j] == r;
    }
    forall r | HasRound(chain, r)
      ensures !settled ==> r <= round
    {
      var j :| 0 <= j < |rounds| && rounds[j] == r;
    }
    assert HasRound(chain, round);
    assert settled ==> SettledRound(chain, round);
  }

  // ------------------------------------------------------------- confirmed by people, or not

  lemma {:induction false} SomeDeciding(chain: Chain) returns (round: int)
    requires chain != []
    ensures IsDeciding(chain, round)
  {
    var last := RoundOf(chain[0]);
    assert chain[0] in chain && HasRound(chain, last);
    if r :| SettledRound(chain, r) {
      round := Latest(chain, r, true);
    } else {
      round := Latest(chain, last, false);
    }
  }

  /** The latest round, or settled round, from some one on: a chain has finitely many. */
  lemma Latest(chain: Chain, start: int, settled: bool) returns (round: int)
    requires HasRound(chain, start) && (settled ==> SettledRound(chain, start))
    ensures HasRound(chain, round) && (settled ==> SettledRound(chain, round))
    ensures forall r :: HasRound(chain, r) && (settled ==> SettledRound(chain, r)) ==> r <= round
  {
    hide Derive;
    round := start;
    for i := 0 to |chain|
      invariant HasRound(chain, round) && (settled ==> SettledRound(chain, round))
      invariant forall j :: 0 <= j < i && (settled ==> SettledRound(chain, RoundOf(chain[j]))) ==>
        RoundOf(chain[j]) <= round
    {
      var r := RoundOf(chain[i]);
      assert chain[i] in chain && HasRound(chain, r);
      if r > round && (settled ==> SettledRound(chain, r)) { round := r; }
    }
    forall r | HasRound(chain, r) && (settled ==> SettledRound(chain, r))
      ensures r <= round
    {
      var e :| e in chain && RoundOf(e) == r;
      var j :| 0 <= j < |chain| && chain[j] == e;
    }
  }

  lemma DecidingExists(chain: Chain)
    requires chain != []
    ensures exists round :: IsDeciding(chain, round)
  {
    var round := SomeDeciding(chain);
  }

  ghost function Deciding(chain: Chain): (round: int)
    requires chain != []
    ensures IsDeciding(chain, round)
  {
    DecidingExists(chain);
    var round :| IsDeciding(chain, round);
    round
  }

  /** CONFIRMED by people: by an agreeing VERIFICATOR and REVIEWER, or by an INCONSISTENCE. */
  ghost predicate Reviewed(chain: Chain) {
    chain != [] &&
    var o := Derive(chain, Deciding(chain));
    o.status == CONFIRMED && o.settledBy != Some(SYSTEM)
  }

  /** A pair is reviewed exactly when people confirm in some round and no later one is settled. */
  lemma ReviewedIs(chain: Chain)
    ensures Reviewed(chain) <==> PeopleConfirmLast(chain)
    ensures Reviewed(chain) ==> PeopleConfirm(chain, Deciding(chain))
  {
    hide Derive, PeopleConfirm, HasRound, InRound;
    forall r
      ensures SettledRound(chain, r) <==> Settles(chain, r)
      ensures PeopleConfirm(chain, r) <==>
        Derive(chain, r).status == CONFIRMED && Derive(chain, r).settledBy != Some(SYSTEM)
      ensures PeopleConfirm(chain, r) ==> HasRound(chain, r)
    {
      RoundsAre(chain, r);
      PeopleConfirmIs(chain, r);
    }
    hide Settles;
    if q :| PeopleConfirm(chain, q) && forall r :: Settles(chain, r) ==> r <= q {
      assert SettledRound(chain, q) && IsDeciding(chain, q);
      SomeEntry(chain, q);
      DecidingUnique(chain, q, Deciding(chain));
    }
    if Reviewed(chain) { assert SettledRound(chain, Deciding(chain)); }
  }

  lemma SomeEntry(chain: Chain, round: int)
    requires HasRound(chain, round)
    ensures chain != []
  {}

  method IsReviewed(chain: Chain) returns (reviewed: bool)
    ensures (reviewed <==> Reviewed(chain)) && (reviewed <==> PeopleConfirmLast(chain))
  {
    ReviewedIs(chain);
    hide PeopleConfirmLast, LatestSettled, Ruled;
    var round, status, settledBy, ok := DecidingRoundBy(chain);
    if ok { DecidingUnique(chain, round, Deciding(chain)); }
    reviewed := ok && status == CONFIRMED && settledBy != Some(SYSTEM);
  }

  // ------------------------------------------------------ what machine decisions can change

  /** The decisions people made. */
  function Humans(chain: Chain): Chain {
    if chain == [] then []
    else Humans(chain[..|chain| - 1]) + if chain[|chain| - 1].role.SYSTEM? then [] else [chain[|chain| - 1]]
  }

  /** The last entry of a role that people made in a round. */
  function LastIn(humans: Chain, round: int, role: Role): Option<Entry> {
    if humans == [] then None
    else
      var e := humans[|humans| - 1];
      if e.analysis == round && e.role == role then Some(e) else LastIn(humans[..|humans| - 1], round, role)
  }

  lemma LastOfMore(chain: Chain, e: Entry, role: Role)
    ensures LastOf(chain + [e], role) == if e.role == role then Some(e) else LastOf(chain, role)
  {
    assert (chain + [e])[..|chain|] == chain;
  }

  lemma LastInMore(humans: Chain, e: Entry, round: int, role: Role)
    ensures LastIn(humans + [e], round, role) ==
            if e.analysis == round && e.role == role then Some(e) else LastIn(humans, round, role)
  {
    assert (humans + [e])[..|humans|] == humans;
  }

  lemma {:induction false} LastInRound(chain: Chain, round: int, role: Role)
    requires role != SYSTEM
    ensures LastOf(RoundChain(chain, round), role) == LastIn(Humans(chain), round, role)
  {
    hide RoundChain, Humans, LastOf, LastIn, Counts;
    NoEntries(round, role);
    if chain != [] {
      var rest, e := chain[..|chain| - 1], chain[|chain| - 1];
      LastInRound(rest, round, role);
      RoundChainMore(chain, round);
      HumansStep(chain);
      LastOfMore(RoundChain(rest, round), e, role);
      LastInMore(Humans(rest), e, round, role);
      CountsHuman(e, round);
    }
  }

  lemma NoEntries(round: int, role: Role)
    ensures RoundChain([], round) == [] && Humans([]) == [] && LastOf([], role) == None
    ensures LastIn([], round, role) == None
  {}

  lemma RoundChainMore(chain: Chain, round: int)
    requires chain != []
    ensures Counts(chain[|chain| - 1], round) ==>
      RoundChain(chain, round) == RoundChain(chain[..|chain| - 1], round) + [chain[|chain| - 1]]
    ensures !Counts(chain[|chain| - 1], round) ==> RoundChain(chain, round) == RoundChain(chain[..|chain| - 1], round)
  {
    hide Counts;
  }

  lemma HumansStep(chain: Chain)
    requires chain != []
    ensures chain[|chain| - 1].role.SYSTEM? ==> Humans(chain) == Humans(chain[..|chain| - 1])
    ensures !chain[|chain| - 1].role.SYSTEM? ==> Humans(chain) == Humans(chain[..|chain| - 1]) + [chain[|chain| - 1]]
  {}

  lemma CountsHuman(e: Entry, round: int)
    ensures Counts(e, round) <==> e.role == SYSTEM || e.analysis == round
  {}

  lemma {:induction false} SystemInRound(chain: Chain, round: int)
    ensures LastOf(RoundChain(chain, round), SYSTEM) == LastOf(chain, SYSTEM)
  {
    hide RoundChain, LastOf, Counts;
    NoEntries(round, SYSTEM);
    if chain != [] {
      var rest, e := chain[..|chain| - 1], chain[|chain| - 1];
      SystemInRound(rest, round);
      RoundChainMore(chain, round);
      LastOfMore(RoundChain(rest, round), e, SYSTEM);
      LastOfMore(rest, e, SYSTEM);
      assert rest + [e] == chain;
      CountsHuman(e, round);
    }
  }

  lemma DeriveFromHumans(chain: Chain, round: int)
    ensures var h := Humans(chain);
      Derive(chain, round) == OutcomeOf(LastOf(chain, SYSTEM), LastIn(h, round, VERIFICATOR),
        LastIn(h, round, REVIEWER), LastIn(h, round, INCONSISTENCE))
  {
    SystemInRound(chain, round);
    LastInRound(chain, round, VERIFICATOR);
    LastInRound(chain, round, REVIEWER);
    LastInRound(chain, round, INCONSISTENCE);
  }

  lemma {:induction false} InHumans(chain: Chain, e: Entry)
    ensures e in Humans(chain) <==> e in chain && !e.role.SYSTEM?
  {
    if chain != [] {
      InHumans(chain[..|chain| - 1], e);
      assert chain == chain[..|chain| - 1] + [chain[|chain| - 1]];
    }
  }

  lemma {:induction false} SystemIn(chain: Chain)
    ensures LastOf(chain, SYSTEM).Some? <==> exists e :: e in chain && e.role.SYSTEM?
  {
    if chain != [] {
      var rest, last := chain[..|chain| - 1], chain[|chain| - 1];
      SystemIn(rest);
      assert chain == rest + [last];
      assert forall e :: e in chain <==> e in rest || e == last;
    }
  }

  lemma {:induction false} LastInSome(humans: Chain, round: int, role: Role)
    ensures LastIn(humans, round, role).Some? <==> exists e :: e in humans && e.analysis == round && e.role == role
  {
    if humans != [] {
      var rest, last := humans[..|humans| - 1], humans[|humans| - 1];
      LastInSome(rest, round, role);
      assert humans == rest + [last];
      assert forall e :: e in humans <==> e in rest || e == last;
    }
  }

  lemma {:induction false} HumansAgain(chain: Chain)
    ensures Humans(Humans(chain)) == Humans(chain) && LastOf(Humans(chain), SYSTEM) == None
  {
    if chain != [] {
      var rest, e := chain[..|chain| - 1], chain[|chain| - 1];
      HumansAgain(rest);
      assert Humans(rest) + [] == Humans(rest);
      assert (Humans(rest) + [e])[..|Humans(rest)|] == Humans(rest);
    }
  }

  lemma RoundsOfHumans(chain: Chain, round: int)
    ensures HasRound(chain, round) <==> HasRound(Humans(chain), round) || (round == 0 && LastOf(chain, SYSTEM).Some?)
  {
    SystemIn(chain);
    if HasRound(chain, round) {
      var e :| e in chain && RoundOf(e) == round;
      InHumans(chain, e);
    }
    if HasRound(Humans(chain), round) {
      var e :| e in Humans(chain) && RoundOf(e) == round;
      InHumans(chain, e);
    }
    if LastOf(chain, SYSTEM).Some? {
      var e :| e in chain && e.role.SYSTEM?;
      assert RoundOf(e) == 0;
    }
  }

  /** A round whose outcome people fix. */
  predicate ByPeople(humans: Chain, round: int) {
    LastIn(humans, round, VERIFICATOR).Some? || LastIn(humans, round, INCONSISTENCE).Some?
  }

  /** A round with a REVIEWER's decision and neither of the two it should follow or precede. */
  predicate Lone(humans: Chain, round: int) {
    LastIn(humans, round, REVIEWER).Some? && !ByPeople(humans, round)
  }

  ghost predicate NoLoneAfter(humans: Chain, round: int) {
    forall q :: Lone(humans, q) ==> q <= round
  }

  /** The SYSTEM decision settles on its own. */
  predicate SystemSettles(chain: Chain) {
    LastOf(chain, SYSTEM).Some? && !LastOf(chain, SYSTEM).value.call.INCONCLUSIVE?
  }

  ghost predicate NoNegativeRound(humans: Chain) {
    forall e :: e in humans ==> e.analysis >= 0
  }

  lemma RoundKinds(chain: Chain, round: int)
    ensures var h := Humans(chain);
      && (ByPeople(h, round) ==>
           && HasRound(h, round) && Derive(chain, round) == Derive(h, round)
           && Derive(h, round).settledBy != Some(SYSTEM))
      && (!ByPeople(h, round) ==>
            !IsSettled(Derive(h, round).status) && (IsSettled(Derive(chain, round).status) <==> SystemSettles(chain)))
      && (!ByPeople(h, round) && Derive(chain, round).status == CONFIRMED ==>
           Derive(chain, round).settledBy == Some(SYSTEM))
      && (HasRound(h, round) ==> ByPeople(h, round) || Lone(h, round))
      && (Lone(h, round) ==> HasRound(h, round))
  {
    var h := Humans(chain);
    hide Derive, LastIn, Humans, LastOf, HasRound;
    DeriveFromHumans(chain, round);
    HumansAgain(chain);
    DeriveFromHumans(h, round);
    RoundHasRole(chain, round);
  }

  /** A round is one that some person decided in. */
  lemma RoundHasRole(chain: Chain, round: int)
    ensures var h := Humans(chain); HasRound(h, round) <==> ByPeople(h, round) || Lone(h, round)
  {
    var h := Humans(chain);
    LastInSome(h, round, VERIFICATOR);
    LastInSome(h, round, REVIEWER);
    LastInSome(h, round, INCONSISTENCE);
    hide LastIn, Humans;
    if HasRound(h, round) {
      var e :| e in h && RoundOf(e) == round;
      InHumans(chain, e);
    }
    if role: Role :| role != SYSTEM && LastIn(h, round, role).Some? {
      LastInSome(h, round, role);
      var e :| e in h && e.analysis == round && e.role == role;
      assert RoundOf(e) == round;
    }
  }

  /** Whatever SYSTEM entries a chain holds and wherever: it is reviewed exactly when the human
      entries alone are and no lone REVIEWER of a later round lets the SYSTEM decision settle that round. */
  lemma ReviewedByPeople(chain: Chain)
    requires NoNegativeRound(Humans(chain))
    ensures var h := Humans(chain);
      Reviewed(chain) <==> Reviewed(h) && (!SystemSettles(chain) || NoLoneAfter(h, Deciding(h)))
    ensures Reviewed(chain) ==> Humans(chain) != [] && Deciding(chain) == Deciding(Humans(chain))
  {
    var h := Humans(chain);
    forall r
      ensures SettledRound(h, r) <==> ByPeople(h, r) && SettledRound(chain, r)
      ensures SettledRound(chain, r) ==> ByPeople(h, r) || (SystemSettles(chain) && (Lone(h, r) || r == 0))
      ensures Lone(h, r) && SystemSettles(chain) ==> SettledRound(chain, r)
    {
      RoundKinds(chain, r);
      RoundsOfHumans(chain, r);
    }
    if Reviewed(chain) { ReviewedThen(chain); }
    if Reviewed(h) && (!SystemSettles(chain) || NoLoneAfter(h, Deciding(h))) { ReviewedStill(chain); }
  }

  lemma ReviewedThen(chain: Chain)
    requires Reviewed(chain)
    requires forall r :: SettledRound(Humans(chain), r) <==> ByPeople(Humans(chain), r) && SettledRound(chain, r)
    requires forall r :: Lone(Humans(chain), r) && SystemSettles(chain) ==> SettledRound(chain, r)
    ensures Humans(chain) != [] && Reviewed(Humans(chain)) && Deciding(chain) == Deciding(Humans(chain))
    ensures !SystemSettles(chain) || NoLoneAfter(Humans(chain), Deciding(chain))
  {
    var h, d := Humans(chain), Deciding(chain);
    RoundKinds(chain, d);
    hide Derive;
    assert SettledRound(chain, d);
    assert SettledRound(h, d);
    DecidingUnique(h, d, Deciding(h));
  }

  lemma ReviewedStill(chain: Chain)
    requires Reviewed(Humans(chain)) && NoNegativeRound(Humans(chain))
    requires !SystemSettles(chain) || NoLoneAfter(Humans(chain), Deciding(Humans(chain)))
    requires forall r :: SettledRound(Humans(chain), r) <==> ByPeople(Humans(chain), r) && SettledRound(chain, r)
    requires forall r :: SettledRound(chain, r) ==>
      ByPeople(Humans(chain), r) || (SystemSettles(chain) && (Lone(Humans(chain), r) || r == 0))
    ensures Reviewed(chain) && Deciding(chain) == Deciding(Humans(chain))
  {
    var h := Humans(chain);
    var d := Deciding(h);
    RoundKinds(chain, d);
    hide Derive;
    assert SettledRound(h, d);
    assert SettledRound(chain, d);
    var e :| e in h && RoundOf(e) == d;
    InHumans(chain, e);
    assert d >= 0;
    DecidingUnique(chain, d, Deciding(chain));
  }

  /** Chains with the same human entries are reviewed alike, wherever their SYSTEM entries are. */
  ghost predicate UnmovedBySystem(humans: Chain) {
    forall chain: Chain :: Humans(chain) == humans ==> (Reviewed(chain) <==> Reviewed(humans))
  }

  /** The exact condition: SYSTEM entries can change whether a pair is reviewed when, and only when,
      people have confirmed it and a later round holds a REVIEWER's decision alone. */
  lemma UnmovedExactly(humans: Chain)
    requires Humans(humans) == humans && NoNegativeRound(humans)
    ensures UnmovedBySystem(humans) <==> !Reviewed(humans) || NoLoneAfter(humans, Deciding(humans))
  {
    hide Derive, Lone, Humans;
    forall chain | Humans(chain) == humans
      ensures Reviewed(chain) <==> Reviewed(humans) && (!SystemSettles(chain) || NoLoneAfter(humans, Deciding(humans)))
    {
      ReviewedByPeople(chain);
    }
    var e := Entry(SYSTEM, POSITIVE, 0, "", NO_LEVEL);
    SystemAdded(humans, e);
    assert Humans(humans + [e]) == humans;
  }

  lemma SystemAdded(chain: Chain, e: Entry)
    requires e.role.SYSTEM?
    ensures Humans(chain + [e]) == Humans(chain) && LastOf(chain + [e], SYSTEM) == Some(e)
  {
    assert (chain + [e])[..|chain|] == chain;
    assert Humans(chain) + [] == Humans(chain);
  }

  /** Every round with a REVIEWER's decision has a VERIFICATOR's or an INCONSISTENCE too. */
  ghost predicate WellFormed(chain: Chain) {
    NoNegativeRound(Humans(chain)) && forall r :: !Lone(Humans(chain), r)
  }

  /** Adding, removing or changing SYSTEM entries of a well-formed chain never changes whether it is
      reviewed, nor by which round. */
  lemma MachineCannotReview(a: Chain, b: Chain)
    requires Humans(a) == Humans(b) && WellFormed(a)
    ensures Reviewed(a) <==> Reviewed(b)
    ensures Reviewed(a) ==> Deciding(a) == Deciding(b)
  {
    ReviewedByPeople(a);
    ReviewedByPeople(b);
  }

  /** People confirm in round 3; round 5 holds a REVIEWER's decision alone. */
  function LoneReviewer(): Chain {
    [Entry(VERIFICATOR, POSITIVE, 3, "", NO_LEVEL), Entry(REVIEWER, POSITIVE, 3, "", NO_LEVEL),
      Entry(REVIEWER, POSITIVE, 5, "", NO_LEVEL)]
  }

  lemma LoneReviewerHumans()
    ensures Humans(LoneReviewer()) == LoneReviewer() && LastOf(LoneReviewer(), SYSTEM) == None
  {
    var h := LoneReviewer();
    assert h == [h[0], h[1], h[2]] && h[..2] == [h[0], h[1]] && h[..2][..1] == [h[0]] && [h[0]][..0] == [];
    assert Humans([h[0]]) == [h[0]] && LastOf([h[0]], SYSTEM) == None;
    assert Humans(h[..2]) == h[..2] && LastOf(h[..2], SYSTEM) == None;
  }

  function LoneReviewerLast(round: int, role: Role): Option<Entry> {
    if round == 5 && role == REVIEWER then Some(LoneReviewer()[2])
    else if round == 3 && role == REVIEWER then Some(LoneReviewer()[1])
    else if round == 3 && role == VERIFICATOR then Some(LoneReviewer()[0])
    else None
  }

  lemma LoneReviewerLasts(round: int, role: Role)
    ensures LastIn(LoneReviewer(), round, role) == LoneReviewerLast(round, role)
  {
    var h := LoneReviewer();
    LastInMore([], h[0], round, role);
    LastInMore([h[0]], h[1], round, role);
    LastInMore([h[0], h[1]], h[2], round, role);
    assert h == [h[0], h[1]] + [h[2]] && [h[0], h[1]] == [h[0]] + [h[1]] && [h[0]] == [] + [h[0]];
  }

  lemma LoneReviewerRounds()
    ensures var h := LoneReviewer();
      Humans(h) == h && Lone(h, 5) && Derive(h, 3) == Outcome(CONFIRMED, Some(REVIEWER)) &&
        Derive(h, 5) == Outcome(UNSET, None)
  {
    var h := LoneReviewer();
    LoneReviewerHumans();
    hide Humans, LastIn, LastOf;
    forall round: int, role: Role {:trigger LastIn(h, round, role)}
      ensures LastIn(h, round, role) == LoneReviewerLast(round, role)
    {
      LoneReviewerLasts(round, role);
    }
    DeriveFromHumans(h, 3);
    DeriveFromHumans(h, 5);
  }

  /** The lone round matters: a matcher's POSITIVE settles round 5, and the people's confirmation
      in round 3 stops counting. */
  lemma LoneReviewerExample()
    ensures Reviewed(LoneReviewer()) && !Reviewed(LoneReviewer() + [Entry(SYSTEM, POSITIVE, 0, "", NO_LEVEL)])
  {
    var h := LoneReviewer();
    LoneReviewerDecided();
    hide LoneReviewer, Reviewed, Lone, Humans, Deciding;
    var e := Entry(SYSTEM, POSITIVE, 0, "", NO_LEVEL);
    SystemAdded(h, e);
    ReviewedByPeople(h + [e]);
  }

  lemma LoneReviewerDecided()
    ensures var h := LoneReviewer();
            Humans(h) == h && Reviewed(h) && Deciding(h) == 3 && NoNegativeRound(h) && Lone(h, 5)
  {
    var h := LoneReviewer();
    LoneReviewerRounds();
    LoneReviewerHas();
    hide Derive, Humans, LastOf, Lone, LoneReviewer, NoNegativeRound, HasRound;
    assert SettledRound(h, 3) && !SettledRound(h, 5);
    assert IsDeciding(h, 3);
    DecidingUnique(h, 3, Deciding(h));
  }

  lemma LoneReviewerHas()
    ensures var h := LoneReviewer();
      h != [] && NoNegativeRound(h) && forall round :: HasRound(h, round) <==> round == 3 || round == 5
  {
    var h := LoneReviewer();
    LoneReviewerHumans();
    assert h[0] in h && h[2] in h && forall e :: e in h ==> e.role != SYSTEM && (e.analysis == 3 || e.analysis == 5);
    assert RoundOf(h[0]) == 3 && RoundOf(h[2]) == 5;
    hide Humans, LastOf, LoneReviewer;
  }

  /** The same conditions over the entries: a round is lone when it has a REVIEWER's entry and no VERIFICATOR's
    * or INCONSISTENCE; the SYSTEM settles when its last entry is POSITIVE or NEGATIVE. */
  lemma LoneExactly(chain: Chain, round: int)
    ensures Lone(Humans(chain), round) <==>
      && (exists e :: e in chain && e.role == REVIEWER && e.analysis == round)
      && forall e :: e in chain && e.analysis == round ==> e.role != VERIFICATOR && e.role != INCONSISTENCE
    ensures SystemSettles(chain) <==> exists k ::
      && 0 <= k < |chain| && chain[k].role == SYSTEM && chain[k].call != INCONCLUSIVE
      && forall j :: k < j < |chain| ==> chain[j].role != SYSTEM
  {
    var h := Humans(chain);
    LastInSome(h, round, VERIFICATOR);
    LastInSome(h, round, REVIEWER);
    LastInSome(h, round, INCONSISTENCE);
    var s := LastOfAt(chain, SYSTEM);
    hide LastIn, Humans, LastOf;
    forall e
      ensures e in h <==> e in chain && !e.role.SYSTEM?
    {
      InHumans(chain, e);
    }
    assert forall k :: At(chain, None, SYSTEM, k) <==> 0 <= k < |chain| && chain[k].role == SYSTEM;
    if s >= 0 {
      LastAtUnique(chain, None, SYSTEM, s);
    }
  }

  // ------------------------------------------------------------------------ rounds added later

  lemma {:induction false} OtherRounds(chain: Chain, more: Chain, round: int)
    requires forall e :: e in more ==> !Counts(e, round)
    ensures RoundChain(chain + more, round) == RoundChain(chain, round)
  {
    if more == [] {
      assert chain + more == chain;
    } else {
      var rest, e := more[..|more| - 1], more[|more| - 1];
      OtherRounds(chain, rest, round);
      assert (chain + more)[..|chain + more| - 1] == chain + rest;
      assert RoundChain(chain + rest, round) + [] == RoundChain(chain + rest, round);
    }
  }

  /** New rounds that end pending, disputed or inconclusive leave a settled pair as it was. */
  lemma UnsettledRoundsIgnored(chain: Chain, more: Chain)
    requires chain != [] && IsSettled(Derive(chain, Deciding(chain)).status)
    requires forall e :: e in more ==> !e.role.SYSTEM? && !HasRound(chain, e.analysis)
    requires forall e :: e in more ==> !IsSettled(Derive(chain + more, e.analysis).status)
    ensures Deciding(chain + more) == Deciding(chain)
    ensures Derive(chain + more, Deciding(chain)) == Derive(chain, Deciding(chain))
  {
    var d, all := Deciding(chain), chain + more;
    forall r | HasRound(chain, r)
      ensures Derive(all, r) == Derive(chain, r) && HasRound(all, r)
    {
      OtherRounds(chain, more, r);
      var e :| e in chain && RoundOf(e) == r;
      assert e in all;
    }
    hide Derive;
    forall r | SettledRound(all, r)
      ensures SettledRound(chain, r)
    {
      var e :| e in all && RoundOf(e) == r;
      assert e !in more;
    }
    assert SettledRound(all, d);
    DecidingUnique(all, d, Deciding(all));
  }

  // ------------------------------------------------------------------------- reviewed links

  datatype LinkBasis = LEAD | LAUDO

  datatype LaterLaudo = NO_LATER | LATER_DISPUTED | LATER_INCONCLUSIVE | LATER_PENDING

  datatype Link = Link(basis: LinkBasis, conclusion: Conclusion, identified: bool, laterLaudo: LaterLaudo)

  predicate IsComparison(analysisType: string) {
    analysisType == "FACIAL_COMPARISON" || analysisType == "FINGERPRINT_COMPARISON"
  }

  /** A level's place from the strongest exclusion up; -1 for no level. */
  function Rank(c: Conclusion): int {
    match c
    case STRONG_SUPPORT_COMMON => 4
    case SUPPORT_COMMON => 3
    case NEUTRAL => 2
    case SUPPORT_DIFFERENT => 1
    case STRONG_SUPPORT_DIFFERENT => 0
    case NO_LEVEL => -1
  }

  function ConclusionCall(c: Conclusion): Call {
    match c
    case STRONG_SUPPORT_COMMON => POSITIVE
    case SUPPORT_COMMON => POSITIVE
    case SUPPORT_DIFFERENT => NEGATIVE
    case STRONG_SUPPORT_DIFFERENT => NEGATIVE
    case _ => INCONCLUSIVE
  }

  predicate AtLeast(c: Conclusion, minimum: Conclusion) {
    ConclusionCall(c).POSITIVE? && Rank(c) >= Rank(minimum)
  }

  predicate IsHuman(e: Entry, round: int) {
    !e.role.SYSTEM? && e.analysis == round
  }

  predicate HumanRound(chain: Chain, round: int) {
    exists e :: e in chain && IsHuman(e, round)
  }

  /** The analysis type of a round, from the last human entry made in it. */
  function TypeIn(chain: Chain, round: int): string {
    if chain == [] then ""
    else if IsHuman(chain[|chain| - 1], round) then chain[|chain| - 1].analysisType
    else TypeIn(chain[..|chain| - 1], round)
  }

  function FirstInconsistence(chain: Chain, round: int): Option<Entry> {
    if chain == [] then None
    else
      var rest, e := chain[..|chain| - 1], chain[|chain| - 1];
      if FirstInconsistence(rest, round).Some? then FirstInconsistence(rest, round)
      else if e.role.INCONSISTENCE? && e.analysis == round then Some(e) else None
  }

  /** The first INCONSISTENCE's level of a round, or else the last REVIEWER's. */
  function LevelIn(chain: Chain, round: int): Conclusion {
    if FirstInconsistence(chain, round).Some? then FirstInconsistence(chain, round).value.conclusion
    else if LastIn(chain, round, REVIEWER).Some? then LastIn(chain, round, REVIEWER).value.conclusion
    else NO_LEVEL
  }

  /** The outcome of a round's human entries alone. */
  function PeopleOutcome(chain: Chain, round: int): Outcome {
    OutcomeOf(None, LastIn(chain, round, VERIFICATOR), LastIn(chain, round, REVIEWER),
      LastIn(chain, round, INCONSISTENCE))
  }

  function LaterLabel(o: Outcome): LaterLaudo {
    if o.status.DISPUTED? then LATER_DISPUTED
    else if o.status.PENDING_REVIEW? && o.settledBy == Some(REVIEWER) then LATER_INCONCLUSIVE
    else LATER_PENDING
  }

  predicate LaterComparison(chain: Chain, round: int, q: int) {
    q > round && HumanRound(chain, q) && IsComparison(TypeIn(chain, q))
  }

  /** The latest comparison after the round, when there is one, says what is shown beside the link. */
  ghost predicate LaterRight(chain: Chain, round: int, later: LaterLaudo) {
    if exists q :: LaterComparison(chain, round, q) then
      exists q :: LaterComparison(chain, round, q) && later == LaterLabel(PeopleOutcome(chain, q))
        && forall r :: LaterComparison(chain, round, r) ==> r <= q
    else later == NO_LATER
  }

  ghost predicate LinkRight(chain: Chain, minimum: Conclusion, link: Link)
    requires chain != []
  {
    var d := Deciding(chain);
    && LaterRight(chain, d, link.laterLaudo)
    && if TypeIn(chain, d) == "FACIAL_COMPARISON" then
         link.basis == LAUDO && link.conclusion == LevelIn(chain, d) &&
           link.identified == AtLeast(link.conclusion, minimum)
       else if TypeIn(chain, d) == "FINGERPRINT_COMPARISON" then
         link.basis == LAUDO && link.conclusion == NO_LEVEL && link.identified
       else link.basis == LEAD && link.conclusion == NO_LEVEL && link.identified
  }

  // ---------------------------------------------------------------- the link, entry by entry

  /** The k-th entry is a person's, made in the round. */
  predicate HumanAt(chain: Chain, round: int, k: int) {
    0 <= k < |chain| && chain[k].role != SYSTEM && chain[k].analysis == round
  }

  ghost predicate LastHumanAt(chain: Chain, round: int, k: int) {
    HumanAt(chain, round, k) && forall j :: k < j < |chain| ==> !HumanAt(chain, round, j)
  }

  ghost predicate FirstAt(chain: Chain, round: Option<int>, role: Role, k: int) {
    At(chain, round, role, k) && forall j :: 0 <= j < k ==> !At(chain, round, role, j)
  }

  /** The level is the round's first INCONSISTENCE's, without one its last REVIEWER's, and otherwise none. */
  ghost predicate Graded(chain: Chain, round: int, level: Conclusion) {
    var q := Some(round);
    && (forall i :: FirstAt(chain, q, INCONSISTENCE, i) ==> level == chain[i].conclusion)
    && (NoneAt(chain, q, INCONSISTENCE) ==>
          && (forall r :: LastAt(chain, q, REVIEWER, r) ==> level == chain[r].conclusion)
          && (NoneAt(chain, q, REVIEWER) ==> level == NO_LEVEL))
  }

  /** The level supports a common source, at the identification level or above. */
  predicate Identifies(level: Conclusion, minimum: Conclusion) {
    level == STRONG_SUPPORT_COMMON || (level == SUPPORT_COMMON && minimum != STRONG_SUPPORT_COMMON)
  }

  /** The last human entry of the round says it is a comparison. */
  ghost predicate ComparedIn(chain: Chain, round: int) {
    exists k :: LastHumanAt(chain, round, k) &&
      (chain[k].analysisType == "FACIAL_COMPARISON" || chain[k].analysisType == "FINGERPRINT_COMPARISON")
  }

  /** How the round's people left it: in dispute, both inconclusive, or otherwise open. */
  ghost predicate LeftAs(chain: Chain, round: int, later: LaterLaudo) {
    var q := Some(round);
    && later != NO_LATER
    && (later == LATER_DISPUTED <==>
          || (exists i :: LastAt(chain, q, INCONSISTENCE, i) && chain[i].call == INCONCLUSIVE)
          || (NoneAt(chain, q, INCONSISTENCE) && exists v, r ::
                LastAt(chain, q, VERIFICATOR, v) && LastAt(chain, q, REVIEWER, r) &&
                (chain[v].call != chain[r].call || chain[v].conclusion != chain[r].conclusion)))
    && (later == LATER_INCONCLUSIVE <==>
          NoneAt(chain, q, INCONSISTENCE) && exists v, r ::
            LastAt(chain, q, VERIFICATOR, v) && LastAt(chain, q, REVIEWER, r) &&
            chain[v].call == chain[r].call == INCONCLUSIVE && chain[v].conclusion == chain[r].conclusion)
  }

  /** What is shown beside a link: the latest comparison after the round, as its people left it. */
  ghost predicate LaterShown(chain: Chain, round: int, later: LaterLaudo) {
    && ((forall q :: q > round ==> !ComparedIn(chain, q)) ==> later == NO_LATER)
    && forall q :: q > round && ComparedIn(chain, q) && (forall r :: r > q ==> !ComparedIn(chain, r)) ==>
         LeftAs(chain, q, later)
  }

  /** The link of the deciding round, by the analysis type its last human entry gives. */
  ghost predicate LinkShown(chain: Chain, minimum: Conclusion, link: Link) {
    forall d :: LatestSettled(chain, d) ==>
      && LaterShown(chain, d, link.laterLaudo)
      && forall k :: LastHumanAt(chain, d, k) ==> LinkOfType(chain, d, chain[k].analysisType, minimum, link)
  }

  ghost predicate LinkOfType(chain: Chain, round: int, typ: string, minimum: Conclusion, link: Link) {
    && (typ == "FACIAL_COMPARISON" ==>
         && link.basis == LAUDO && Graded(chain, round, link.conclusion)
         && (link.identified <==> Identifies(link.conclusion, minimum)))
    && (typ == "FINGERPRINT_COMPARISON" ==> link.basis == LAUDO && link.conclusion == NO_LEVEL && link.identified)
    && (typ != "FACIAL_COMPARISON" && typ != "FINGERPRINT_COMPARISON" ==>
         link.basis == LEAD && link.conclusion == NO_LEVEL && link.identified)
  }

  /** A level is at or above the identification level exactly in these cases. */
  lemma AtLeastExactly(c: Conclusion, minimum: Conclusion)
    ensures AtLeast(c, minimum) <==>
      c == STRONG_SUPPORT_COMMON || (c == SUPPORT_COMMON && minimum != STRONG_SUPPORT_COMMON)
  {}

  lemma {:induction false} TypeAt(chain: Chain, round: int) returns (k: int)
    ensures LastHumanAt(chain, round, k) || (k == -1 && forall j :: !HumanAt(chain, round, j))
    ensures TypeIn(chain, round) == if k == -1 then "" else chain[k].analysisType
  {
    k := -1;
    if chain != [] {
      var n := |chain| - 1;
      if HumanAt(chain, round, n) {
        k := n;
      } else {
        k := TypeAt(chain[..n], round);
        forall j | 0 <= j < n ensures HumanAt(chain, round, j) <==> HumanAt(chain[..n], round, j) {}
      }
    }
  }

  lemma {:induction false} FirstInconsistenceAt(chain: Chain, round: int) returns (k: int)
    ensures FirstAt(chain, Some(round), INCONSISTENCE, k) || (k == -1 && NoneAt(chain, Some(round), INCONSISTENCE))
    ensures FirstInconsistence(chain, round) == EntryAt(chain, k)
  {
    k := -1;
    if chain != [] {
      var n := |chain| - 1;
      k := FirstInconsistenceAt(chain[..n], round);
      forall j | 0 <= j < n
        ensures At(chain, Some(round), INCONSISTENCE, j) <==> At(chain[..n], Some(round), INCONSISTENCE, j)
      {}
      if k == -1 && At(chain, Some(round), INCONSISTENCE, n) { k := n; }
    }
  }

  lemma {:induction false} LastInAt(chain: Chain, round: int, role: Role) returns (k: int)
    requires role != SYSTEM
    ensures LastAt(chain, Some(round), role, k) || (k == -1 && NoneAt(chain, Some(round), role))
    ensures LastIn(chain, round, role) == EntryAt(chain, k)
  {
    k := -1;
    if chain != [] {
      var n := |chain| - 1;
      if At(chain, Some(round), role, n) {
        k := n;
      } else {
        k := LastInAt(chain[..n], round, role);
        LastAtMore(chain, Some(round), role, k);
      }
    }
  }

  lemma LevelGraded(chain: Chain, round: int)
    ensures Graded(chain, round, LevelIn(chain, round))
  {
    var i := FirstInconsistenceAt(chain, round);
    var r := LastInAt(chain, round, REVIEWER);
    hide FirstInconsistence, LastIn;
    if r >= 0 { LastAtUnique(chain, Some(round), REVIEWER, r); }
  }

  lemma LaterLabelled(chain: Chain, round: int)
    ensures LeftAs(chain, round, LaterLabel(PeopleOutcome(chain, round)))
  {
    var q := Some(round);
    var i := LastInAt(chain, round, INCONSISTENCE);
    var v := LastInAt(chain, round, VERIFICATOR);
    var r := LastInAt(chain, round, REVIEWER);
    hide LastIn;
    if i >= 0 { LastAtUnique(chain, q, INCONSISTENCE, i); }
    if v >= 0 { LastAtUnique(chain, q, VERIFICATOR, v); }
    if r >= 0 { LastAtUnique(chain, q, REVIEWER, r); }
    LastsInRange(chain, q);
    hide LastAt, NoneAt;
  }

  lemma ComparedIs(chain: Chain, round: int)
    ensures ComparedIn(chain, round) <==> HumanRound(chain, round) && IsComparison(TypeIn(chain, round))
  {
    var k := TypeAt(chain, round);
    hide TypeIn;
    if HumanRound(chain, round) {
      var e :| e in chain && IsHuman(e, round);
      var j :| 0 <= j < |chain| && chain[j] == e;
      assert HumanAt(chain, round, j);
    }
    if ComparedIn(chain, round) {
      assert LastHumanAt(chain, round, k);
      assert chain[k] in chain && IsHuman(chain[k], round);
    }
  }

  lemma LaterIsShown(chain: Chain, round: int, later: LaterLaudo)
    requires LaterRight(chain, round, later)
    ensures LaterShown(chain, round, later)
  {
    hide HumanRound, IsComparison, TypeIn, ComparedIn, LeftAs, PeopleOutcome, LaterLabel;
    forall q
      ensures LaterComparison(chain, round, q) <==> q > round && ComparedIn(chain, q)
      ensures LeftAs(chain, q, LaterLabel(PeopleOutcome(chain, q)))
    {
      ComparedIs(chain, q);
      LaterLabelled(chain, q);
    }
    hide LaterComparison;
  }

  lemma LinkIsShown(chain: Chain, minimum: Conclusion, link: Link)
    requires chain != [] && LinkRight(chain, minimum, link)
    ensures LinkShown(chain, minimum, link)
  {
    hide TypeIn, LevelIn, LaterRight, LaterShown, Graded, IsDeciding, LatestSettled;
    forall d | LatestSettled(chain, d)
      ensures LaterShown(chain, d, link.laterLaudo)
      ensures forall k :: LastHumanAt(chain, d, k) ==> LinkOfType(chain, d, chain[k].analysisType, minimum, link)
    {
      DecidingIs(chain, d);
      DecidingUnique(chain, d, Deciding(chain));
      LaterIsShown(chain, d, link.laterLaudo);
      LevelGraded(chain, d);
      AtLeastExactly(link.conclusion, minimum);
      var t := TypeAt(chain, d);
    }
  }

  method RoundConclusion(chain: Chain, round: int) returns (level: Conclusion)
    ensures level == LevelIn(chain, round) && Graded(chain, round, level)
  {
    LevelGraded(chain, round);
    hide Graded;
    level := NO_LEVEL;
    for i := 0 to |chain|
      invariant FirstInconsistence(chain[..i], round) == None
      invariant level == LevelIn(chain[..i], round)
    {
      assert chain[..i + 1][..i] == chain[..i];
      if !IsHuman(chain[i], round) { continue; }
      if chain[i].role.INCONSISTENCE? {
        StillFirst(chain, round, i + 1);
        return chain[i].conclusion;
      }
      if chain[i].role.REVIEWER? { level := chain[i].conclusion; }
    }
    assert chain[..|chain|] == chain;
  }

  lemma {:induction false} StillFirst(chain: Chain, round: int, i: nat)
    requires i <= |chain| && FirstInconsistence(chain[..i], round).Some?
    ensures FirstInconsistence(chain, round) == FirstInconsistence(chain[..i], round)
  {
    if i < |chain| {
      assert chain[..|chain| - 1][..i] == chain[..i];
      StillFirst(chain[..|chain| - 1], round, i);
    } else {
      assert chain[..i] == chain;
    }
  }

  /** The human rounds with their analysis types. */
  method RoundTypes(chain: Chain) returns (types: map<int, string>)
    ensures forall r :: r in types <==> HumanRound(chain, r)
    ensures forall r {:trigger types[r]} :: r in types ==> types[r] == TypeIn(chain, r)
  {
    types := map[];
    for i := 0 to |chain|
      invariant forall r :: r in types <==> HumanRound(chain[..i], r)
      invariant forall r {:trigger types[r]} :: r in types ==> types[r] == TypeIn(chain[..i], r)
    {
      assert chain[..i + 1][..i] == chain[..i] && chain[..i + 1] == chain[..i] + [chain[i]];
      forall r ensures HumanRound(chain[..i + 1], r) <==> HumanRound(chain[..i], r) || IsHuman(chain[i], r) {
        assert chain[i] in chain[..i + 1] && forall e :: e in chain[..i] ==> e in chain[..i + 1];
      }
      if !chain[i].role.SYSTEM? {
        types := types[chain[i].analysis := chain[i].analysisType];
      }
    }
    assert chain[..|chain|] == chain;
  }

  method SelectHumans(chain: Chain, round: int) returns (roundChain: Chain)
    ensures DeriveBy(roundChain) == PeopleOutcome(chain, round)
  {
    roundChain := [];
    for i := 0 to |chain|
      invariant LastOf(roundChain, SYSTEM) == None
      invariant forall role | role != SYSTEM :: LastOf(roundChain, role) == LastIn(chain[..i], round, role)
    {
      assert chain[..i + 1] == chain[..i] + [chain[i]];
      forall role ensures LastIn(chain[..i + 1], round, role)
        == if chain[i].analysis == round && chain[i].role == role then Some(chain[i])
           else LastIn(chain[..i], round, role)
      {
        LastInMore(chain[..i], chain[i], round, role);
      }
      forall role
        ensures LastOf(roundChain + [chain[i]], role) ==
                if chain[i].role == role then Some(chain[i]) else LastOf(roundChain, role)
      {
        LastOfMore(roundChain, chain[i], role);
      }
      if IsHuman(chain[i], round) { roundChain := roundChain + [chain[i]]; }
    }
    assert chain[..|chain|] == chain;
  }

  lemma HasInt(s: set<int>)
    requires s != {}
    ensures exists i: int :: i in s
  {
    if forall i: int :: i !in s { assert false; }
  }

  /** A map's keys as a list, in no particular order. */
  method KeyList(types: map<int, string>) returns (keys: seq<int>)
    ensures forall r :: r in keys <==> r in types
  {
    keys := [];
    var todo := types.Keys;
    while todo != {}
      invariant todo <= types.Keys && forall r :: r in keys <==> r in types && r !in todo
    {
      HasInt(todo);
      var r :| r in todo;
      todo := todo - {r};
      keys := keys + [r];
    }
  }

  method LatestComparison(chain: Chain, round: int, types: map<int, string>) returns (laterLaudo: LaterLaudo)
    requires forall r :: r in types <==> HumanRound(chain, r)
    requires forall r {:trigger types[r]} :: r in types ==> types[r] == TypeIn(chain, r)
    ensures LaterRight(chain, round, laterLaudo)
  {
    hide HumanRound, TypeIn, IsComparison, PeopleOutcome;
    var later := KeyList(types);
    SortAscending(later);
    later := SortInts(later);
    laterLaudo := NO_LATER;
    ghost var latest: Option<int> := None;
    for i := 0 to |later|
      invariant latest.None? ==> laterLaudo == NO_LATER && forall j ::
        0 <= j < i ==> !LaterComparison(chain, round, later[j])
      invariant latest.Some? ==> latest.value in later[..i] && LaterComparison(chain, round, latest.value)
      invariant latest.Some? ==> laterLaudo == LaterLabel(PeopleOutcome(chain, latest.value))
      invariant latest.Some? ==> forall j ::
        0 <= j < i && LaterComparison(chain, round, later[j]) ==> later[j] <= latest.value
    {
      var r := later[i];
      assert r in later && types[r] == TypeIn(chain, r);
      if r <= round || !IsComparison(types[r]) { continue; }
      var roundChain := SelectHumans(chain, r);
      var o := DeriveRoundBy(roundChain);
      laterLaudo := LaterLabel(o);
      latest := Some(r);
    }
    forall r | LaterComparison(chain, round, r)
      ensures latest.Some? && r <= latest.value
    {
      var j :| 0 <= j < |later| && later[j] == r;
    }
  }

  /** How strong a reviewed pair is; ok is false for a pair that is not reviewed. */
  method ReviewedLink(chain: Chain, minimum: Conclusion) returns (link: Link, ok: bool)
    ensures ok <==> Reviewed(chain)
    ensures ok ==> LinkRight(chain, minimum, link) && LinkShown(chain, minimum, link)
    ensures ok <==> PeopleConfirmLast(chain)
  {
    ReviewedIs(chain);
    hide LinkShown, PeopleConfirmLast, LatestSettled, Ruled;
    var round, status, settledBy, found := DecidingRoundBy(chain);
    if found { DecidingUnique(chain, round, Deciding(chain)); }
    ok := found && status == CONFIRMED && settledBy != Some(SYSTEM);
    link := Link(LEAD, NO_LEVEL, true, NO_LATER);
    if !ok { return; }
    hide LaterRight, HumanRound, LevelIn, TypeIn, Derive;
    var types := RoundTypes(chain);
    NoType(chain, round);
    var typ := if round in types then types[round] else "";
    if typ == "FACIAL_COMPARISON" {
      var level := RoundConclusion(chain, round);
      link := Link(LAUDO, level, AtLeast(level, minimum), NO_LATER);
    } else if typ == "FINGERPRINT_COMPARISON" {
      link := Link(LAUDO, NO_LEVEL, true, NO_LATER);
    }
    var later := LatestComparison(chain, round, types);
    link := link.(laterLaudo := later);
    LinkIsShown(chain, minimum, link);
  }

  lemma {:induction false} NoType(chain: Chain, round: int)
    ensures !HumanRound(chain, round) ==> TypeIn(chain, round) == ""
  {
    if chain != [] {
      var rest := chain[..|chain| - 1];
      NoType(rest, round);
      assert chain[|chain| - 1] in chain && forall e :: e in rest ==> e in chain;
    }
  }

  lemma {:induction false} SameLast(chain: Chain, round: int, role: Role)
    requires role != SYSTEM
    ensures LastIn(chain, round, role) == LastIn(Humans(chain), round, role)
  {
    if chain != [] {
      var rest, e := chain[..|chain| - 1], chain[|chain| - 1];
      SameLast(rest, round, role);
      HumansStep(chain);
      LastInMore(Humans(rest), e, round, role);
    }
  }

  lemma {:induction false} SameType(chain: Chain, round: int)
    ensures TypeIn(chain, round) == TypeIn(Humans(chain), round)
  {
    if chain != [] {
      var rest, e := chain[..|chain| - 1], chain[|chain| - 1];
      SameType(rest, round);
      HumansStep(chain);
      assert (Humans(rest) + [e])[..|Humans(rest)|] == Humans(rest);
    }
  }

  lemma {:induction false} SameFirst(chain: Chain, round: int)
    ensures FirstInconsistence(chain, round) == FirstInconsistence(Humans(chain), round)
  {
    if chain == [] {
      assert Humans(chain) == [];
    } else {
      var rest, e := chain[..|chain| - 1], chain[|chain| - 1];
      SameFirst(rest, round);
      FirstStep(chain, round);
      HumansStep(chain);
      hide FirstInconsistence, Humans;
      FirstMore(Humans(rest), e, round);
    }
  }

  lemma FirstStep(chain: Chain, round: int)
    requires chain != []
    ensures var rest, e := chain[..|chain| - 1], chain[|chain| - 1];
      FirstInconsistence(chain, round) ==
        if FirstInconsistence(rest, round).Some? then FirstInconsistence(rest, round)
        else if e.role.INCONSISTENCE? && e.analysis == round then Some(e) else None
  {}

  lemma FirstMore(chain: Chain, e: Entry, round: int)
    ensures FirstInconsistence(chain + [e], round) ==
      if FirstInconsistence(chain, round).Some? then FirstInconsistence(chain, round)
      else if e.role.INCONSISTENCE? && e.analysis == round then Some(e) else None
  {
    assert (chain + [e])[..|chain|] == chain;
  }

  lemma SameHumanRound(chain: Chain, round: int)
    ensures HumanRound(chain, round) <==> HumanRound(Humans(chain), round)
  {
    if HumanRound(chain, round) {
      var e :| e in chain && IsHuman(e, round);
      InHumans(chain, e);
    }
    if HumanRound(Humans(chain), round) {
      var e :| e in Humans(chain) && IsHuman(e, round);
      InHumans(chain, e);
    }
  }

  lemma SameInHumans(chain: Chain, round: int)
    ensures var h := Humans(chain);
      && TypeIn(chain, round) == TypeIn(h, round) && LevelIn(chain, round) == LevelIn(h, round)
      && PeopleOutcome(chain, round) == PeopleOutcome(h, round) && (HumanRound(chain, round) <==> HumanRound(h, round))
  {
    hide Humans, TypeIn, FirstInconsistence, LastIn, HumanRound;
    SameType(chain, round);
    SameFirst(chain, round);
    SameHumanRound(chain, round);
    SameLast(chain, round, VERIFICATOR);
    SameLast(chain, round, REVIEWER);
    SameLast(chain, round, INCONSISTENCE);
  }

  lemma SameForHumans(a: Chain, b: Chain, round: int)
    requires Humans(a) == Humans(b)
    ensures TypeIn(a, round) == TypeIn(b, round) && LevelIn(a, round) == LevelIn(b, round)
    ensures HumanRound(a, round) <==> HumanRound(b, round)
    ensures PeopleOutcome(a, round) == PeopleOutcome(b, round)
  {
    SameInHumans(a, round);
    SameInHumans(b, round);
  }

  /** Nor do SYSTEM entries change how strong a reviewed link is. */
  lemma MachineCannotRelink(a: Chain, b: Chain, minimum: Conclusion, la: Link, lb: Link)
    requires Humans(a) == Humans(b) && WellFormed(a) && Reviewed(a) && Reviewed(b)
    requires LinkRight(a, minimum, la) && LinkRight(b, minimum, lb)
    ensures la == lb
  {
    MachineCannotReview(a, b);
    hide Derive, Humans, TypeIn, LevelIn, PeopleOutcome, HumanRound, LaterRight, WellFormed, Reviewed;
    var d := Deciding(a);
    forall q
      ensures TypeIn(a, q) == TypeIn(b, q) && LevelIn(a, q) == LevelIn(b, q)
      ensures LaterComparison(a, d, q) <==> LaterComparison(b, d, q)
      ensures PeopleOutcome(a, q) == PeopleOutcome(b, q)
    {
      SameForHumans(a, b, q);
    }
    SameLater(a, b, d, la.laterLaudo, lb.laterLaudo);
  }

  lemma SameLater(a: Chain, b: Chain, d: int, x: LaterLaudo, y: LaterLaudo)
    requires LaterRight(a, d, x) && LaterRight(b, d, y)
    requires forall q :: LaterComparison(a, d, q) <==> LaterComparison(b, d, q)
    requires forall q :: PeopleOutcome(a, q) == PeopleOutcome(b, q)
    ensures x == y
  {
    hide LaterComparison, PeopleOutcome;
    if q :| LaterComparison(a, d, q) {
      assert LaterComparison(b, d, q);
    }
  }
}
