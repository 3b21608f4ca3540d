/** biometricmatch/templates.go: which templates one run scores against which, and what it decides. */
module Pairing {
  import opened Order
  import opened Options

  /** A stored template; version counts how often extraction has replaced its content. */
  datatype Template = Template(id: int, version: nat, feature: int, unmatched: bool)

  datatype Feature = Feature(graphID: string, modality: string)

  datatype Outcome = POSITIVE | INCONCLUSIVE

  datatype Band = Band(review: real, confirm: real)

  /** A pair of graph features found in a run. */
  datatype Candidate = Candidate(a: string, b: string, modality: string, confidence: real, outcome: Outcome,
    threshold: real)

  /** The score of the candidate template at index cand against the probe at index probe. */
  datatype Scored = Scored(probe: nat, cand: nat, score: real)

  datatype Result = Failed(probe: int) | Done(candidates: seq<Candidate>, unmatched: seq<int>)

  /** A score for each of the candidate templates, or an error. */
  type MatchService = (Template, seq<Template>) -> Option<seq<real>>

  datatype Call = Call(probe: Template, candidates: seq<Template>)

  /** The matching service, with the calls made to it. */
  class TemplateMatcher {
    const answer: MatchService
    ghost var calls: seq<Call>

    constructor (answer: MatchService)
      ensures this.answer == answer && calls == []
    {
      this.answer := answer;
      calls := [];
    }

    method Match(probe: Template, candidates: seq<Template>) returns (reply: Option<seq<real>>)
      modifies this`calls
      ensures reply == answer(probe, candidates) && calls == old(calls) + [Call(probe, candidates)]
    {
      calls := calls + [Call(probe, candidates)];
      reply := answer(probe, candidates);
    }
  }

  const TEMPLATE_BATCH: nat := 2048

  predicate ValidBand(band: Band) { 0.0 < band.review <= band.confirm }

  /** The decision for a score no lower than band.review, and the cutoff it was taken against. */
  function Classify(band: Band, score: real): (c: (Outcome, real))
    ensures score >= band.review ==> score >= c.1
    ensures c.0 == POSITIVE <==> score >= band.confirm
  {
    if score >= band.confirm then (POSITIVE, band.confirm) else (INCONCLUSIVE, band.review)
  }

  function Key(a: string, b: string): string { a + "|" + b }

  predicate Plain(id: string) { '|' !in id }

  lemma KeyInjective(a: string, b: string, c: string, d: string)
    requires Plain(a) && Plain(c) && Key(a, b) == Key(c, d)
    ensures a == c && b == d
  {
    NotShorter(a, b, c, d);
    NotShorter(c, d, a, b);
    var k := Key(a, b);
    assert a == k[..|a|] && c == k[..|c|] && b == k[|a| + 1..] && d == k[|c| + 1..];
  }

  lemma NotShorter(a: string, b: string, c: string, d: string)
    requires Plain(c) && Key(a, b) == Key(c, d)
    ensures |a| >= |c|
  {
    var k := Key(a, b);
    assert k[|a|] == '|';
    assert forall n :: 0 <= n < |c| ==> k[n] == c[n] && c[n] in c;
  }

  // --------------------------------------------------------------------------- what is scored

  /** The indices scored against probe i: all others, except the unmatched ones before it. */
  function Gallery(all: seq<Template>, i: nat, n: nat): (g: seq<nat>)
    requires i < |all| && n <= |all|
  {
    if n == 0 then []
    else if n - 1 == i || (n - 1 < i && all[n - 1].unmatched) then Gallery(all, i, n - 1)
    else Gallery(all, i, n - 1) + [n - 1]
  }

  function WithProbe(i: nat, g: seq<nat>): (ps: seq<(nat, nat)>)
    ensures |ps| == |g| && forall k :: 0 <= k < |g| ==> ps[k] == (i, g[k])
  {
    seq(|g|, k requires 0 <= k < |g| => (i, g[k]))
  }

  predicate Probes(all: seq<Template>, features: map<int, Feature>, i: nat)
    requires i < |all|
  {
    all[i].unmatched && all[i].feature in features
  }

  /** Every (probe, candidate) comparison of the probes before n, in order. */
  function Comparisons(all: seq<Template>, features: map<int, Feature>, n: nat): seq<(nat, nat)>
    requires n <= |all|
  {
    if n == 0 then []
    else Comparisons(all, features, n - 1)
         + if Probes(all, features, n - 1) then WithProbe(n - 1, Gallery(all, n - 1, |all|)) else []
  }

  lemma {:induction false} GalleryHolds(all: seq<Template>, i: nat, n: nat, j: nat)
    requires i < |all| && n <= |all|
    ensures j in Gallery(all, i, n) <==> j < n && j != i && !(j < i && all[j].unmatched)
    ensures forall k {:trigger Gallery(all, i, n)[k]} :: 0 <= k < |Gallery(all, i, n)| ==> Gallery(all, i, n)[k] < n
    ensures NoRepeats(Gallery(all, i, n))
  {
    if n > 0 { GalleryHolds(all, i, n - 1, j); }
  }

  lemma {:induction false} ComparisonsHold(all: seq<Template>, features: map<int, Feature>, n: nat, i: nat, j: nat)
    requires n <= |all|
    ensures (i, j) in Comparisons(all, features, n) <==>
            i < n && Probes(all, features, i) && j < |all| && j != i && !(j < i && all[j].unmatched)
  {
    if n > 0 {
      ComparisonsHold(all, features, n - 1, i, j);
      if Probes(all, features, n - 1) {
        var g := Gallery(all, n - 1, |all|);
        GalleryHolds(all, n - 1, |all|, j);
        hide Gallery, Probes;
        WithProbeHolds(n - 1, g, i, j);
        assert Comparisons(all, features, n) == Comparisons(all, features, n - 1) + WithProbe(n - 1, g);
      }
    }
  }

  lemma WithProbeHolds(p: nat, g: seq<nat>, i: nat, j: nat)
    ensures (i, j) in WithProbe(p, g) <==> i == p && j in g
  {
    if j in g {
      var k: nat :| k < |g| && g[k] == j;
      assert WithProbe(p, g)[k] == (p, j);
    }
  }

  lemma {:induction false} ComparisonsDiffer(all: seq<Template>, features: map<int, Feature>, n: nat)
    requires n <= |all|
    ensures NoRepeats(Comparisons(all, features, n))
  {
    if n > 0 {
      ComparisonsDiffer(all, features, n - 1);
      var before := Comparisons(all, features, n - 1);
      GalleryHolds(all, n - 1, |all|, 0);
      forall k | 0 <= k < |before|
        ensures before[k].0 < n - 1
      {
        assert before[k] in before;
        ComparisonsHold(all, features, n - 1, before[k].0, before[k].1);
      }
    }
  }

  /** a comes before b when its probe does, or, of one probe, its candidate. */
  predicate Earlier(a: (nat, nat), b: (nat, nat)) {
    a.0 < b.0 || (a.0 == b.0 && a.1 < b.1)
  }

  /** The comparisons come by rising probes, and each probe's by rising candidates. */
  lemma {:induction false} ComparisonsRise(all: seq<Template>, features: map<int, Feature>, n: nat)
    requires n <= |all|
    ensures var ns := Comparisons(all, features, n);
      && (forall k {:trigger ns[k]} :: 0 <= k < |ns| ==> ns[k].0 < n)
      && forall k, l :: 0 <= k < l < |ns| ==> Earlier(ns[k], ns[l])
  {
    if n > 0 {
      ComparisonsRise(all, features, n - 1);
      if Probes(all, features, n - 1) {
        var g := Gallery(all, n - 1, |all|);
        GalleryRises(all, n - 1, |all|);
        assert Comparisons(all, features, n) == Comparisons(all, features, n - 1) + WithProbe(n - 1, g);
        RiseAdds(Comparisons(all, features, n - 1), g, n - 1);
      } else {
        assert Comparisons(all, features, n) == Comparisons(all, features, n - 1);
      }
    }
  }

  lemma RiseAdds(before: seq<(nat, nat)>, g: seq<nat>, n: nat)
    requires forall k {:trigger before[k]} :: 0 <= k < |before| ==> before[k].0 < n
    requires forall k, l :: 0 <= k < l < |before| ==> Earlier(before[k], before[l])
    requires forall k, l :: 0 <= k < l < |g| ==> g[k] < g[l]
    ensures var ns := before + WithProbe(n, g);
      && (forall k {:trigger ns[k]} :: 0 <= k < |ns| ==> ns[k].0 < n + 1)
      && forall k, l :: 0 <= k < l < |ns| ==> Earlier(ns[k], ns[l])
  {
    var more := WithProbe(n, g);
    assert forall k :: 0 <= k < |more| ==> more[k] == (n, g[k]);
  }

  lemma {:induction false} GalleryRises(all: seq<Template>, i: nat, n: nat)
    requires i < |all| && n <= |all|
    ensures forall k, l :: 0 <= k < l < |Gallery(all, i, n)| ==> Gallery(all, i, n)[k] < Gallery(all, i, n)[l]
    ensures forall k :: 0 <= k < |Gallery(all, i, n)| ==> Gallery(all, i, n)[k] < n
  {
    if n > 0 { GalleryRises(all, i, n - 1); }
  }

  /** No two templates are compared twice in a run, in one order or the other; two with known features
    * are compared exactly when one of them at least had not been matched. */
  lemma ComparedOnce(all: seq<Template>, features: map<int, Feature>, i: nat, j: nat)
    requires i < |all| && j < |all| && i != j
    ensures NoRepeats(Comparisons(all, features, |all|))
    ensures !((i, j) in Comparisons(all, features, |all|) && (j, i) in Comparisons(all, features, |all|))
    ensures (i, j) in Comparisons(all, features, |all|) ==> all[i].unmatched
    ensures all[i].feature in features && all[j].feature in features ==>
              ((i, j) in Comparisons(all, features, |all|) || (j, i) in Comparisons(all, features, |all|)
              <==> all[i].unmatched || all[j].unmatched)
  {
    ComparisonsDiffer(all, features, |all|);
    ComparisonsHold(all, features, |all|, i, j);
    ComparisonsHold(all, features, |all|, j, i);
    hide Comparisons;
  }

  // --------------------------------------------------------------------------- what is decided

  /** The candidate one score makes, if it reaches the band and joins two different graph features. */
  function Judged(all: seq<Template>, features: map<int, Feature>, band: Band, s: Scored): Option<Candidate>
    requires s.probe < |all| && s.cand < |all|
  {
    if s.score < band.review || all[s.probe].feature !in features || all[s.cand].feature !in features then None
    else
      var p, c := features[all[s.probe].feature], features[all[s.cand].feature];
      var (outcome, threshold) := Classify(band, s.score);
      if p.graphID == c.graphID then None
      else if Le(p.graphID, c.graphID) then
        Some(Candidate(p.graphID, c.graphID, p.modality, s.score, outcome, threshold))
      else
        Some(Candidate(c.graphID, p.graphID, p.modality, s.score, outcome, threshold))
  }

  function Keys(cs: seq<Candidate>): set<string> {
    set i | 0 <= i < |cs| :: Key(cs[i].a, cs[i].b)
  }

  /** What a score adds to the candidates found before it. */
  function Joined(existing: set<string>, before: seq<Candidate>, found: Option<Candidate>): seq<Candidate> {
    match found
    case None => before
    case Some(c) => if Key(c.a, c.b) in existing + Keys(before) then before else before + [c]
  }

  ghost predicate InRange(all: seq<Template>, log: seq<Scored>) {
    forall k :: 0 <= k < |log| ==> log[k].probe < |all| && log[k].cand < |all|
  }

  /** The candidates of the scores in order, each pair of graph features at its first time only. */
  ghost function Fresh(all: seq<Template>, features: map<int, Feature>, band: Band, existing: set<string>,
                       log: seq<Scored>): seq<Candidate>
    requires InRange(all, log)
  {
    if log == [] then [] else
      var before := Fresh(all, features, band, existing, log[..|log| - 1]);
      Joined(existing, before, Judged(all, features, band, log[|log| - 1]))
  }

  /** The index pairs of a log. */
  ghost function Indices(log: seq<Scored>): (ps: seq<(nat, nat)>)
    ensures |ps| == |log|
  {
    seq(|log|, k requires 0 <= k < |log| => (log[k].probe, log[k].cand))
  }

  // ------------------------------------------------------------------------- what the matcher says

  function BatchEnd(g: seq<nat>, start: nat): (end: nat)
    requires start <= |g|
    ensures start <= end <= |g| && (start < |g| ==> start < end)
  {
    if start + TEMPLATE_BATCH < |g| then start + TEMPLATE_BATCH else |g|
  }

  /** The templates of the batch of the gallery g from start. */
  function BatchFrom(all: seq<Template>, g: seq<nat>, start: nat): seq<Template>
    requires start <= |g| && forall k {:trigger g[k]} :: 0 <= k < |g| ==> g[k] < |all|
  {
    seq(BatchEnd(g, start) - start, k requires 0 <= k < BatchEnd(g, start) - start => all[g[start + k]])
  }

  /** The matcher's answer for that batch. */
  function Reply(all: seq<Template>, matcher: MatchService, i: nat, g: seq<nat>, start: nat): Option<seq<real>>
    requires i < |all| && start <= |g| && forall k {:trigger g[k]} :: 0 <= k < |g| ==> g[k] < |all|
  {
    matcher(all[i], BatchFrom(all, g, start))
  }

  /** The calls a probe makes for its gallery from start on. */
  ghost function ProbeCalls(all: seq<Template>, i: nat, g: seq<nat>, start: nat): seq<Call>
    requires i < |all| && start <= |g| && forall k {:trigger g[k]} :: 0 <= k < |g| ==> g[k] < |all|
    decreases |g| - start
  {
    if start == |g| then []
    else [Call(all[i], BatchFrom(all, g, start))] + ProbeCalls(all, i, g, BatchEnd(g, start))
  }

  /** The calls the probes before n make, in order. */
  ghost function RunCalls(all: seq<Template>, features: map<int, Feature>, n: nat): seq<Call>
    requires n <= |all|
  {
    if n == 0 then []
    else if !Probes(all, features, n - 1) then RunCalls(all, features, n - 1)
    else
      GalleryHolds(all, n - 1, |all|, 0);
      RunCalls(all, features, n - 1) + ProbeCalls(all, n - 1, Gallery(all, n - 1, |all|), 0)
  }

  /** What one call compares: its probe with each candidate. */
  ghost function PairsOf(c: Call): (ps: seq<(Template, Template)>)
    ensures |ps| == |c.candidates| && forall k :: 0 <= k < |ps| ==> ps[k] == (c.probe, c.candidates[k])
  {
    seq(|c.candidates|, k requires 0 <= k < |c.candidates| => (c.probe, c.candidates[k]))
  }

  /** Every comparison the calls ask for, in order. */
  ghost function Pairs(calls: seq<Call>): seq<(Template, Template)> {
    if calls == [] then [] else PairsOf(calls[0]) + Pairs(calls[1..])
  }

  lemma PairsFirst(c: Call, rest: seq<Call>)
    ensures Pairs([c] + rest) == PairsOf(c) + Pairs(rest)
  {
    hide PairsOf;
    var calls := [c] + rest;
    assert calls[0] == c && calls[1..] == rest;
  }

  lemma {:induction false} PairsAdd(a: seq<Call>, b: seq<Call>)
    ensures Pairs(a + b) == Pairs(a) + Pairs(b)
  {
    if a == [] {
      assert a + b == b;
    } else {
      PairsAdd(a[1..], b);
      PairsFirst(a[0], a[1..]);
      PairsFirst(a[0], a[1..] + b);
      assert [a[0]] + a[1..] == a;
      assert [a[0]] + (a[1..] + b) == a + b;
      Regroup(PairsOf(a[0]), Pairs(a[1..]), Pairs(b));
    }
  }

  lemma Regroup<T>(a: seq<T>, b: seq<T>, c: seq<T>)
    ensures a + (b + c) == a + b + c
  {}

  ghost predicate IndicesOf(all: seq<Template>, ps: seq<(nat, nat)>) {
    forall k :: 0 <= k < |ps| ==> ps[k].0 < |all| && ps[k].1 < |all|
  }

  ghost function TemplatesOf(all: seq<Template>, ps: seq<(nat, nat)>): (ts: seq<(Template, Template)>)
    requires IndicesOf(all, ps)
    ensures |ts| == |ps| && forall k :: 0 <= k < |ps| ==> ts[k] == (all[ps[k].0], all[ps[k].1])
  {
    seq(|ps|, k requires 0 <= k < |ps| => (all[ps[k].0], all[ps[k].1]))
  }

  lemma {:induction false} ProbeCallsCompare(all: seq<Template>, i: nat, g: seq<nat>, start: nat)
    requires i < |all| && start <= |g| && forall k {:trigger g[k]} :: 0 <= k < |g| ==> g[k] < |all|
    ensures IndicesOf(all, WithProbe(i, g[start..]))
    ensures Pairs(ProbeCalls(all, i, g, start)) == TemplatesOf(all, WithProbe(i, g[start..]))
    ensures forall c :: c in ProbeCalls(all, i, g, start) ==> 0 < |c.candidates| <= 2048 && c.probe == all[i]
    ensures forall k {:trigger ProbeCalls(all, i, g, start)[k]} :: 0 <= k < |ProbeCalls(all, i, g, start)| - 1 ==>
      |ProbeCalls(all, i, g, start)[k].candidates| == 2048
    decreases |g| - start
  {
    if start < |g| {
      var end := BatchEnd(g, start);
      ProbeCallsCompare(all, i, g, end);
      var c, rest := Call(all[i], BatchFrom(all, g, start)), ProbeCalls(all, i, g, end);
      assert ProbeCalls(all, i, g, start) == [c] + rest;
      hide ProbeCalls;
      assert ([c] + rest)[1..] == rest;
      assert PairsOf(c) == TemplatesOf(all, WithProbe(i, g[start..end]));
      assert WithProbe(i, g[start..]) == WithProbe(i, g[start..end]) + WithProbe(i, g[end..]);
    }
  }

  lemma TemplatesAdd(all: seq<Template>, a: seq<(nat, nat)>, b: seq<(nat, nat)>)
    requires IndicesOf(all, a) && IndicesOf(all, b)
    ensures IndicesOf(all, a + b) && TemplatesOf(all, a + b) == TemplatesOf(all, a) + TemplatesOf(all, b)
  {}

  /** Whatever the batches, the matcher is asked for the run's comparisons, in order, and for nothing else. */
  lemma {:induction false} RunCallsCompare(all: seq<Template>, features: map<int, Feature>, n: nat)
    requires n <= |all|
    ensures IndicesOf(all, Comparisons(all, features, n))
    ensures Pairs(RunCalls(all, features, n)) == TemplatesOf(all, Comparisons(all, features, n))
    ensures forall c :: c in RunCalls(all, features, n) ==> 0 < |c.candidates| <= 2048
  {
    if n > 0 {
      RunCallsCompare(all, features, n - 1);
      if Probes(all, features, n - 1) {
        var g := Gallery(all, n - 1, |all|);
        GalleryHolds(all, n - 1, |all|, 0);
        ProbeCallsCompare(all, n - 1, g, 0);
        hide Gallery, ProbeCalls, Probes, WithProbe, Pairs, TemplatesOf, IndicesOf;
        assert g[0..] == g;
        PairsAdd(RunCalls(all, features, n - 1), ProbeCalls(all, n - 1, g, 0));
        TemplatesAdd(all, Comparisons(all, features, n - 1), WithProbe(n - 1, g));
      }
    }
  }

  /** A call that another one for the same probe follows has as many candidates as a call may have. */
  ghost predicate FullBatches(calls: seq<Call>) {
    forall k, l :: 0 <= k && l == k + 1 < |calls| && calls[k].probe.id == calls[l].probe.id ==>
      |calls[k].candidates| == 2048
  }

  lemma {:induction false} RunCallsFull(all: seq<Template>, features: map<int, Feature>, n: nat)
    requires n <= |all| && forall i, j :: 0 <= i < j < |all| ==> all[i].id < all[j].id
    ensures FullBatches(RunCalls(all, features, n))
    ensures forall c :: c in RunCalls(all, features, n) ==> exists i :: 0 <= i < n && c.probe == all[i]
  {
    if n > 0 {
      RunCallsFull(all, features, n - 1);
      if Probes(all, features, n - 1) {
        var g := Gallery(all, n - 1, |all|);
        GalleryHolds(all, n - 1, |all|, 0);
        ProbeCallsCompare(all, n - 1, g, 0);
        hide Gallery, ProbeCalls, Probes, Pairs;
        var before, more := RunCalls(all, features, n - 1), ProbeCalls(all, n - 1, g, 0);
        assert RunCalls(all, features, n) == before + more;
        hide RunCalls;
        if before != [] { assert before[|before| - 1] in before; }
        forall k | 0 <= k < |more| ensures more[k].probe == all[n - 1] { assert more[k] in more; }
        FullAdds(before, more);
        forall c | c in before + more
          ensures exists i :: 0 <= i < n && c.probe == all[i]
        {}
      }
    }
  }

  lemma FullAdds(before: seq<Call>, more: seq<Call>)
    requires FullBatches(before) && forall k {:trigger more[k]} :: 0 <= k < |more| - 1 ==> |more[k].candidates| == 2048
    requires before != [] && more != [] ==> before[|before| - 1].probe.id != more[0].probe.id
    ensures FullBatches(before + more)
  {
    var calls := before + more;
    forall k, l | 0 <= k && l == k + 1 < |calls| && calls[k].probe.id == calls[l].probe.id
      ensures |calls[k].candidates| == 2048
    {
      if k >= |before| { assert calls[k] == more[k - |before|]; }
    }
  }

  lemma {:induction false} RunCallsGrow(all: seq<Template>, features: map<int, Feature>, m: nat, n: nat)
    requires m <= n <= |all|
    ensures RunCalls(all, features, m) <= RunCalls(all, features, n)
  {
    hide ProbeCalls, Gallery, Probes;
    if m < n { RunCallsGrow(all, features, m, n - 1); }
  }

  /** One score for each candidate of the batch. */
  predicate Answers(reply: Option<seq<real>>, g: seq<nat>, start: nat)
    requires start <= |g|
  {
    reply.Some? && |reply.value| == BatchEnd(g, start) - start
  }

  ghost function BatchLog(i: nat, batch: seq<nat>, scores: seq<real>): (log: seq<Scored>)
    requires |scores| == |batch|
    ensures |log| == |batch| && forall k :: 0 <= k < |batch| ==> log[k] == Scored(i, batch[k], scores[k])
  {
    seq(|batch|, k requires 0 <= k < |batch| => Scored(i, batch[k], scores[k]))
  }

  /** The scores of probe i against its gallery from start on, batch after batch; None when the matcher
    * fails or answers with a wrong number of scores. */
  ghost function ProbeLog(all: seq<Template>, matcher: MatchService, i: nat, g: seq<nat>, start: nat)
    : Option<seq<Scored>>
    requires i < |all| && start <= |g| && forall k {:trigger g[k]} :: 0 <= k < |g| ==> g[k] < |all|
    decreases |g| - start
  {
    if start == |g| then Some([])
    else if !Answers(Reply(all, matcher, i, g, start), g, start) then None
    else Chain(Some(BatchLog(i, g[start..BatchEnd(g, start)], Reply(all, matcher, i, g, start).value)),
               ProbeLog(all, matcher, i, g, BatchEnd(g, start)))
  }

  ghost function Chain(a: Option<seq<Scored>>, b: Option<seq<Scored>>): Option<seq<Scored>> {
    if a.Some? && b.Some? then Some(a.value + b.value) else None
  }

  /** The scores of the probes before n, in order. */
  ghost function RunLog(all: seq<Template>, features: map<int, Feature>, matcher: MatchService, n: nat)
    : Option<seq<Scored>>
    requires n <= |all|
  {
    if n == 0 then Some([])
    else if !Probes(all, features, n - 1) then RunLog(all, features, matcher, n - 1)
    else
      GalleryHolds(all, n - 1, |all|, 0);
      Chain(RunLog(all, features, matcher, n - 1), ProbeLog(all, matcher, n - 1, Gallery(all, n - 1, |all|), 0))
  }

  lemma {:induction false} ProbeLogCompares(all: seq<Template>, matcher: MatchService, i: nat, g: seq<nat>, start: nat)
    requires i < |all| && start <= |g| && forall k {:trigger g[k]} :: 0 <= k < |g| ==> g[k] < |all|
    requires ProbeLog(all, matcher, i, g, start).Some?
    ensures var log := ProbeLog(all, matcher, i, g, start).value;
            InRange(all, log) && Indices(log) == WithProbe(i, g[start..])
    decreases |g| - start
  {
    if start < |g| {
      var end := BatchEnd(g, start);
      ProbeLogCompares(all, matcher, i, g, end);
      hide Reply, Answers;
      var first, rest := BatchLog(i, g[start..end], Reply(all, matcher, i, g, start).value),
        ProbeLog(all, matcher, i, g, end).value;
      LogsAdd(all, first, rest);
      assert Indices(first) == WithProbe(i, g[start..end]);
      assert WithProbe(i, g[start..]) == WithProbe(i, g[start..end]) + WithProbe(i, g[end..]);
    }
  }

  /** Whatever the batches, a run's scores are those of its comparisons. */
  lemma {:induction false} RunLogCompares(all: seq<Template>, features: map<int, Feature>, matcher: MatchService,
                                          n: nat)
    requires n <= |all| && RunLog(all, features, matcher, n).Some?
    ensures var log := RunLog(all, features, matcher, n).value;
            InRange(all, log) && Indices(log) == Comparisons(all, features, n)
  {
    if n > 0 {
      RunLogCompares(all, features, matcher, n - 1);
      if Probes(all, features, n - 1) {
        var g := Gallery(all, n - 1, |all|);
        GalleryHolds(all, n - 1, |all|, 0);
        ProbeLogCompares(all, matcher, n - 1, g, 0);
        hide Gallery, ProbeLog, Probes, Indices, InRange, WithProbe;
        assert g[0..] == g;
        LogsAdd(all, RunLog(all, features, matcher, n - 1).value, ProbeLog(all, matcher, n - 1, g, 0).value);
      }
    }
  }

  lemma LogsAdd(all: seq<Template>, a: seq<Scored>, b: seq<Scored>)
    requires InRange(all, a) && InRange(all, b)
    ensures InRange(all, a + b) && Indices(a + b) == Indices(a) + Indices(b)
  {}

  /** Each candidate is what some score made; every score that makes one has its pair of graph features
    * decided; no pair comes twice or again, and the smaller id is first. */
  lemma {:induction false} FreshExactly(all: seq<Template>, features: map<int, Feature>, band: Band,
                                        existing: set<string>, log: seq<Scored>)
    requires InRange(all, log)
    ensures var cs := Fresh(all, features, band, existing, log);
            && (forall c :: c in cs ==> MadeBy(all, features, band, log, c))
            && (forall k :: 0 <= k < |log| ==> Decided(all, features, band, existing, cs, log[k]))
            && NoKeyTwice(cs, existing)
  {
    if log != [] {
      var rest, s := log[..|log| - 1], log[|log| - 1];
      FreshExactly(all, features, band, existing, rest);
      hide Judged, Key;
      var before, cs := Fresh(all, features, band, existing, rest), Fresh(all, features, band, existing, log);
      assert before <= cs;
      forall c | c in cs
        ensures MadeBy(all, features, band, log, c)
      {
        if c in before {
          assert MadeBy(all, features, band, rest, c);
          var k: nat :| k < |rest| && Judged(all, features, band, rest[k]) == Some(c);
          assert log[k] == rest[k];
        }
      }
      assert Keys(before) <= Keys(cs) by { KeysGrow(before, cs); }
      forall k | 0 <= k < |log|
        ensures Decided(all, features, band, existing, cs, log[k])
      {
        if k < |rest| {
          assert log[k] == rest[k] && Decided(all, features, band, existing, before, rest[k]);
        } else if Judged(all, features, band, s).Some? {
          var c := Judged(all, features, band, s).value;
          if Key(c.a, c.b) !in existing + Keys(before) { assert cs[|cs| - 1] == c; }
        }
      }
      NoneTwice(before, cs, existing);
    }
  }

  lemma KeysGrow(before: seq<Candidate>, cs: seq<Candidate>)
    requires before <= cs
    ensures Keys(before) <= Keys(cs)
  {
    forall i | 0 <= i < |before|
      ensures Key(before[i].a, before[i].b) in Keys(cs)
    {
      assert before[i] == cs[i];
    }
  }

  lemma NoneTwice(before: seq<Candidate>, cs: seq<Candidate>, existing: set<string>)
    requires NoKeyTwice(before, existing)
    requires cs == before || (exists c :: cs == before + [c] && Key(c.a, c.b) !in existing + Keys(before))
    ensures NoKeyTwice(cs, existing)
  {
    hide Key;
    if cs != before {
      var c :| cs == before + [c] && Key(c.a, c.b) !in existing + Keys(before);
      forall i | 0 <= i < |before|
        ensures Key(before[i].a, before[i].b) in Keys(before)
      {}
    }
  }

  ghost predicate MadeBy(all: seq<Template>, features: map<int, Feature>, band: Band, log: seq<Scored>, c: Candidate)
    requires InRange(all, log)
  {
    exists k: nat :: k < |log| && Judged(all, features, band, log[k]) == Some(c)
  }

  ghost predicate Decided(all: seq<Template>, features: map<int, Feature>, band: Band, existing: set<string>,
                          cs: seq<Candidate>, s: Scored)
    requires s.probe < |all| && s.cand < |all|
  {
    match Judged(all, features, band, s)
    case None => true
    case Some(c) => Key(c.a, c.b) in existing + Keys(cs)
  }

  ghost predicate NoKeyTwice(cs: seq<Candidate>, existing: set<string>) {
    && (forall i :: 0 <= i < |cs| ==> Key(cs[i].a, cs[i].b) !in existing)
    && (forall i, j :: 0 <= i < j < |cs| ==> Key(cs[i].a, cs[i].b) != Key(cs[j].a, cs[j].b))
  }

  // ------------------------------------------------------------- scores as the matcher gave them

  /** The matcher's score of a candidate template against a probe. */
  datatype Score = Score(probe: Template, cand: Template, value: real)

  /** One call's scores, one for each candidate, in order. */
  ghost function CallScores(answer: MatchService, c: Call): (ss: seq<Score>)
    requires Answered(answer, c)
    ensures |ss| == |c.candidates|
    ensures forall k {:trigger ss[k]} :: 0 <= k < |ss| ==>
      ss[k] == Score(c.probe, c.candidates[k], answer(c.probe, c.candidates).value[k])
  {
    seq(|c.candidates|, k requires 0 <= k < |c.candidates| =>
      Score(c.probe, c.candidates[k], answer(c.probe, c.candidates).value[k]))
  }

  /** The scores of some calls, in order. */
  ghost function Scores(answer: MatchService, calls: seq<Call>): seq<Score>
    requires forall c :: c in calls ==> Answered(answer, c)
  {
    if calls == [] then [] else CallScores(answer, calls[0]) + Scores(answer, calls[1..])
  }

  /** The scores of a log, with the templates for their indices. */
  ghost function Named(all: seq<Template>, log: seq<Scored>): (ss: seq<Score>)
    requires InRange(all, log)
    ensures |ss| == |log|
    ensures forall k {:trigger ss[k]} :: 0 <= k < |ss| ==>
      ss[k] == Score(all[log[k].probe], all[log[k].cand], log[k].score)
  {
    seq(|log|, k requires 0 <= k < |log| => Score(all[log[k].probe], all[log[k].cand], log[k].score))
  }

  lemma ScoresFirst(answer: MatchService, c: Call, rest: seq<Call>)
    requires Answered(answer, c) && forall d :: d in rest ==> Answered(answer, d)
    ensures (forall d :: d in [c] + rest ==> Answered(answer, d))
    ensures Scores(answer, [c] + rest) == CallScores(answer, c) + Scores(answer, rest)
  {
    hide CallScores, Answered;
    var calls := [c] + rest;
    assert calls[0] == c && calls[1..] == rest;
  }

  lemma {:induction false} ScoresAdd(answer: MatchService, a: seq<Call>, b: seq<Call>)
    requires (forall c :: c in a ==> Answered(answer, c)) && forall c :: c in b ==> Answered(answer, c)
    ensures (forall c :: c in a + b ==> Answered(answer, c))
    ensures Scores(answer, a + b) == Scores(answer, a) + Scores(answer, b)
  {
    hide CallScores, Answered;
    if a == [] {
      assert a + b == b;
    } else {
      ScoresAdd(answer, a[1..], b);
      ScoresFirst(answer, a[0], a[1..]);
      ScoresFirst(answer, a[0], a[1..] + b);
      assert [a[0]] + a[1..] == a;
      assert [a[0]] + (a[1..] + b) == a + b;
      Regroup(CallScores(answer, a[0]), Scores(answer, a[1..]), Scores(answer, b));
    }
  }

  lemma NamedAdd(all: seq<Template>, a: seq<Scored>, b: seq<Scored>)
    requires InRange(all, a) && InRange(all, b)
    ensures InRange(all, a + b) && Named(all, a + b) == Named(all, a) + Named(all, b)
  {}

  lemma {:induction false} ProbeScores(all: seq<Template>, answer: MatchService, i: nat, g: seq<nat>, start: nat)
    requires i < |all| && start <= |g| && forall k {:trigger g[k]} :: 0 <= k < |g| ==> g[k] < |all|
    requires ProbeLog(all, answer, i, g, start).Some?
    ensures forall c :: c in ProbeCalls(all, i, g, start) ==> Answered(answer, c)
    ensures InRange(all, ProbeLog(all, answer, i, g, start).value)
    ensures Scores(answer, ProbeCalls(all, i, g, start)) == Named(all, ProbeLog(all, answer, i, g, start).value)
    decreases |g| - start
  {
    ProbeLogCompares(all, answer, i, g, start);
    if start < |g| {
      var end := BatchEnd(g, start);
      ProbeLogCompares(all, answer, i, g, end);
      ProbeScores(all, answer, i, g, end);
      var c, rest := Call(all[i], BatchFrom(all, g, start)), ProbeCalls(all, i, g, end);
      var reply, more := Reply(all, answer, i, g, start), ProbeLog(all, answer, i, g, end).value;
      assert ProbeCalls(all, i, g, start) == [c] + rest;
      var first := BatchLog(i, g[start..end], reply.value);
      assert ProbeLog(all, answer, i, g, start) == Some(first + more);
      AnsweredIs(answer, all, i, g, start);
      hide ProbeCalls, ProbeLog, Scores;
      ScoresFirst(answer, c, rest);
      BatchScores(all, answer, i, g, start);
      NamedAdd(all, first, more);
    }
  }

  lemma BatchScores(all: seq<Template>, answer: MatchService, i: nat, g: seq<nat>, start: nat)
    requires i < |all| && start < |g| && forall k {:trigger g[k]} :: 0 <= k < |g| ==> g[k] < |all|
    requires Answers(Reply(all, answer, i, g, start), g, start)
    ensures var log := BatchLog(i, g[start..BatchEnd(g, start)], Reply(all, answer, i, g, start).value);
      var c := Call(all[i], BatchFrom(all, g, start));
      InRange(all, log) && Answered(answer, c) && CallScores(answer, c) == Named(all, log)
  {
    AnsweredIs(answer, all, i, g, start);
    BatchInRange(all, g, start, BatchEnd(g, start));
  }

  /** A run's scores are what the matcher answered to its calls. */
  lemma {:induction false} RunScores(all: seq<Template>, features: map<int, Feature>, answer: MatchService, n: nat)
    requires n <= |all| && RunLog(all, features, answer, n).Some?
    ensures forall c :: c in RunCalls(all, features, n) ==> Answered(answer, c)
    ensures InRange(all, RunLog(all, features, answer, n).value)
    ensures Scores(answer, RunCalls(all, features, n)) == Named(all, RunLog(all, features, answer, n).value)
  {
    RunLogCompares(all, features, answer, n);
    if n > 0 {
      RunScores(all, features, answer, n - 1);
      RunLogCompares(all, features, answer, n - 1);
      if Probes(all, features, n - 1) {
        var g := Gallery(all, n - 1, |all|);
        GalleryHolds(all, n - 1, |all|, 0);
        ProbeScores(all, answer, n - 1, g, 0);
        hide Gallery, ProbeCalls, Probes, ProbeLog, Scores, Named, Answered, InRange;
        ScoresAdd(answer, RunCalls(all, features, n - 1), ProbeCalls(all, n - 1, g, 0));
        NamedAdd(all, RunLog(all, features, answer, n - 1).value, ProbeLog(all, answer, n - 1, g, 0).value);
      }
    }
  }

  /** The score reaches the band, between two known features of different graph ids. */
  ghost predicate Reaches(features: map<int, Feature>, band: Band, s: Score) {
    && s.value >= band.review && s.probe.feature in features && s.cand.feature in features
    && features[s.probe.feature].graphID != features[s.cand.feature].graphID
  }

  /** The score is of the graph features a and b, in either order. */
  ghost predicate About(features: map<int, Feature>, s: Score, a: string, b: string) {
    && s.probe.feature in features && s.cand.feature in features
    && {features[s.probe.feature].graphID, features[s.cand.feature].graphID} == {a, b}
  }

  /** The candidate says what the score says, about its features in byte order. */
  ghost predicate Says(features: map<int, Feature>, band: Band, s: Score, c: Candidate) {
    && Reaches(features, band, s) && About(features, s, c.a, c.b) && Before(c.a, c.b)
    && c.modality == features[s.probe.feature].modality && c.confidence == s.value
    && (s.value >= band.confirm ==> c.outcome == POSITIVE && c.threshold == band.confirm)
    && (s.value < band.confirm ==> c.outcome == INCONCLUSIVE && c.threshold == band.review)
  }

  lemma JudgedSays(all: seq<Template>, features: map<int, Feature>, band: Band, s: Scored)
    requires s.probe < |all| && s.cand < |all|
    ensures var j, named := Judged(all, features, band, s), Score(all[s.probe], all[s.cand], s.score);
      (j.Some? <==> Reaches(features, band, named)) && (j.Some? ==> Says(features, band, named, j.value))
  {
    hide Le, Before;
    if all[s.probe].feature in features && all[s.cand].feature in features {
      var a, b := features[all[s.probe].feature].graphID, features[all[s.cand].feature].graphID;
      LeTotal(a, b);
      LeIsByteOrder(a, b);
      LeIsByteOrder(b, a);
    }
  }

  /** The candidates of a log come from these of its scores, in order, each the first about its pair. */
  ghost predicate Picks(features: map<int, Feature>, band: Band, ss: seq<Score>, cs: seq<Candidate>, picks: seq<nat>) {
    && |picks| == |cs|
    && (forall i, j :: 0 <= i < j < |picks| ==> picks[i] < picks[j])
    && forall i {:trigger picks[i]} :: 0 <= i < |picks| ==> Picked(features, band, ss, cs[i], picks[i])
  }

  ghost predicate Picked(features: map<int, Feature>, band: Band, ss: seq<Score>, c: Candidate, t: nat) {
    t < |ss| && Says(features, band, ss[t], c) && FirstAbout(features, band, ss, t, c)
  }

  ghost predicate FirstAbout(features: map<int, Feature>, band: Band, ss: seq<Score>, t: nat, c: Candidate) {
    forall u {:trigger ss[u]} :: 0 <= u < t && u < |ss| && Reaches(features, band, ss[u]) ==>
      !About(features, ss[u], c.a, c.b)
  }

  lemma {:induction false} FreshPicks(all: seq<Template>, features: map<int, Feature>, band: Band,
                                      existing: set<string>, log: seq<Scored>) returns (picks: seq<nat>)
    requires InRange(all, log)
    ensures Picks(features, band, Named(all, log), Fresh(all, features, band, existing, log), picks)
  {
    picks := [];
    if log != [] {
      var n := |log| - 1;
      var rest := log[..n];
      picks := FreshPicks(all, features, band, existing, rest);
      var before, cs := Fresh(all, features, band, existing, rest), Fresh(all, features, band, existing, log);
      var ss, tt := Named(all, log), Named(all, rest);
      assert tt == ss[..n];
      hide Judged, Key, Fresh, Named, Says, Reaches, About;
      JudgedSays(all, features, band, log[n]);
      if cs != before {
        var c := Judged(all, features, band, log[n]).value;
        NewlyDecided(all, features, band, existing, log);
        PicksMore(features, band, ss, n, before, picks, c);
        picks := picks + [n];
      } else {
        PicksSame(features, band, ss, n, before, picks);
      }
    }
  }

  lemma PicksSame(features: map<int, Feature>, band: Band, ss: seq<Score>, n: nat, cs: seq<Candidate>, picks: seq<nat>)
    requires n < |ss| && Picks(features, band, ss[..n], cs, picks)
    ensures Picks(features, band, ss, cs, picks)
  {
    hide Says, Reaches, About;
    forall i {:trigger picks[i]} | 0 <= i < |picks|
      ensures Picked(features, band, ss, cs[i], picks[i])
    {
      assert Picked(features, band, ss[..n], cs[i], picks[i]);
      assert ss[..n][picks[i]] == ss[picks[i]];
      forall u {:trigger ss[u]} | 0 <= u < picks[i] && Reaches(features, band, ss[u])
        ensures !About(features, ss[u], cs[i].a, cs[i].b)
      {
        assert ss[..n][u] == ss[u];
      }
    }
  }

  lemma PicksMore(features: map<int, Feature>, band: Band, ss: seq<Score>, n: nat, cs: seq<Candidate>, picks: seq<nat>,
                  c: Candidate)
    requires n < |ss| && Picks(features, band, ss[..n], cs, picks)
    requires Says(features, band, ss[n], c) && FirstAbout(features, band, ss, n, c)
    ensures Picks(features, band, ss, cs + [c], picks + [n])
  {
    hide Says, FirstAbout;
    PicksSame(features, band, ss, n, cs, picks);
  }

  /** What makes a new candidate is the first score about its pair. */
  lemma NewlyDecided(all: seq<Template>, features: map<int, Feature>, band: Band, existing: set<string>,
                     log: seq<Scored>)
    requires InRange(all, log) && log != []
    requires Fresh(all, features, band, existing, log) != Fresh(all, features, band, existing, log[..|log| - 1])
    ensures var j := Judged(all, features, band, log[|log| - 1]);
      && j.Some? && FirstAbout(features, band, Named(all, log), |log| - 1, j.value)
      && Fresh(all, features, band, existing, log) ==
           Fresh(all, features, band, existing, log[..|log| - 1]) + [j.value]
  {
    var n := |log| - 1;
    var rest, ss := log[..n], Named(all, log);
    var before, c := Fresh(all, features, band, existing, rest), Judged(all, features, band, log[n]).value;
    FreshExactly(all, features, band, existing, rest);
    hide Judged, Key, Fresh, Says;
    JudgedSays(all, features, band, log[n]);
    assert Says(features, band, ss[n], c);
    forall u {:trigger ss[u]} | 0 <= u < n && Reaches(features, band, ss[u])
      ensures !About(features, ss[u], c.a, c.b)
    {
      assert rest[u] == log[u];
      JudgedSays(all, features, band, log[u]);
      assert Decided(all, features, band, existing, before, rest[u]);
      var d := Judged(all, features, band, log[u]).value;
      if About(features, ss[u], c.a, c.b) {
        SaysSame(features, band, ss[u], d, ss[n], c);
      }
    }
  }

  /** Two scores about one pair of graph features say it of the same ids in the same order. */
  lemma SaysSame(features: map<int, Feature>, band: Band, s: Score, c: Candidate, t: Score, d: Candidate)
    requires Says(features, band, s, c) && Says(features, band, t, d) && About(features, s, d.a, d.b)
    ensures c.a == d.a && c.b == d.b
  {
    LeIsByteOrder(c.a, c.b);
    LeIsByteOrder(d.a, d.b);
    hide Before, Le;
    assert c.a in {c.a, c.b} && c.b in {c.a, c.b} && d.a in {d.a, d.b} && d.b in {d.a, d.b};
    assert {c.a, c.b} == {d.a, d.b};
    if c.a != d.a {
      assert c.a == d.b && c.b == d.a;
      if Le(c.a, c.b) && Le(c.b, c.a) { LeAntisym(c.a, c.b); }
    }
  }

  /** The candidates of one run over the stored templates, which are ordered by id. The matcher is called
    * for the run's batches, each once and in order, up to the first it does not answer. */
  method ComputeTemplateCandidates(all: seq<Template>, features: map<int, Feature>, existing: set<string>, band: Band,
                                   matcher: TemplateMatcher) returns (r: Result)
    modifies matcher`calls
    ensures r.Done? <==> RunLog(all, features, matcher.answer, |all|).Some?
    ensures r.Done? ==> matcher.calls == old(matcher.calls) + RunCalls(all, features, |all|)
    ensures r.Failed? ==> matcher.calls <= old(matcher.calls) + RunCalls(all, features, |all|)
    ensures r.Failed? ==> FirstUnanswered(matcher.answer, old(matcher.calls), matcher.calls, r.probe)
    ensures r.Done? ==> InRange(all, RunLog(all, features, matcher.answer, |all|).value)
    ensures r.Done? ==>
      r.candidates == Fresh(all, features, band, existing, RunLog(all, features, matcher.answer, |all|).value)
    ensures r.Done? ==> forall x :: x in r.unmatched <==> exists t :: t in all && t.unmatched && t.id == x
    ensures r.Failed? ==> exists t :: t in all && t.unmatched && t.id == r.probe
  {
    hide Fresh, Judged, Gallery, Indices, WithProbe, Keys, ProbeLog, ProbeCalls, RunLog, RunCalls, Answered, SoFar;
    var unmatched := [];
    for i := 0 to |all|
      invariant forall x :: x in unmatched <==> exists t :: t in all[..i] && t.unmatched && t.id == x
    {
      assert all[..i + 1] == all[..i] + [all[i]];
      if all[i].unmatched { unmatched := unmatched + [all[i].id]; }
    }
    assert all[..|all|] == all;
    var seen, candidates := {}, [];
    ghost var log: seq<Scored> := [];
    ghost var before := matcher.calls;
    NothingYet(all, features, band, existing, matcher.answer);
    assert before + [] == before;
    for i := 0 to |all|
      invariant SoFar(all, features, band, existing, log, candidates, seen)
      invariant RunLog(all, features, matcher.answer, i) == Some(log)
      invariant matcher.calls == before + RunCalls(all, features, i)
      invariant AllAnswered(matcher.answer, before, matcher.calls, |matcher.calls|)
    {
      NextProbe(all, features, matcher.answer, i);
      RunCallsGrow(all, features, i + 1, |all|);
      if all[i].unmatched && all[i].feature in features {
        var ok;
        ghost var was := matcher.calls;
        ok, candidates, seen, log := ScoreProbe(all, features, existing, band, matcher, i, candidates, seen, log);
        MoreAnswered(matcher.answer, before, was, matcher.calls, |matcher.calls| - if ok then 0 else 1);
        assert was + ProbeCalls(all, i, Gallery(all, i, |all|), 0) == before + RunCalls(all, features, i + 1);
        if !ok {
          StaysNone(all, features, matcher.answer, i + 1, |all|);
          assert all[i] in all;
          return Failed(all[i].id);
        }
      }
    }
    SoFarIs(all, features, band, existing, log, candidates, seen);
    r := Done(candidates, unmatched);
  }

  predicate Answered(answer: MatchService, c: Call) {
    answer(c.probe, c.candidates).Some? && |answer(c.probe, c.candidates).value| == |c.candidates|
  }

  /** The calls after `before` up to the n-th were answered. */
  ghost predicate AllAnswered(answer: MatchService, before: seq<Call>, calls: seq<Call>, n: nat)
    requires n <= |calls|
  {
    forall k {:trigger calls[k]} :: |before| <= k < n ==> Answered(answer, calls[k])
  }

  /** The last call was not answered, about this probe; the others since `before` were. */
  ghost predicate FirstUnanswered(answer: MatchService, before: seq<Call>, calls: seq<Call>, probe: int) {
    && before < calls && calls[|calls| - 1].probe.id == probe && !Answered(answer, calls[|calls| - 1])
    && AllAnswered(answer, before, calls, |calls| - 1)
  }

  lemma MoreAnswered(answer: MatchService, before: seq<Call>, was: seq<Call>, calls: seq<Call>, n: nat)
    requires before <= was <= calls && |was| <= n <= |calls|
    requires AllAnswered(answer, before, was, |was|) && AllAnswered(answer, was, calls, n)
    ensures AllAnswered(answer, before, calls, n)
  {
    hide Answered;
    forall k {:trigger calls[k]} | |before| <= k < n
      ensures Answered(answer, calls[k])
    {
      if k < |was| { assert was[k] == calls[k]; }
    }
  }

  lemma SoFarIs(all: seq<Template>, features: map<int, Feature>, band: Band, existing: set<string>, log: seq<Scored>,
                candidates: seq<Candidate>, seen: set<string>)
    requires SoFar(all, features, band, existing, log, candidates, seen)
    ensures InRange(all, log) && candidates == Fresh(all, features, band, existing, log)
  {}

  ghost predicate SoFar(all: seq<Template>, features: map<int, Feature>, band: Band, existing: set<string>,
                        log: seq<Scored>, candidates: seq<Candidate>, seen: set<string>)
  {
    && InRange(all, log)
    && candidates == Fresh(all, features, band, existing, log)
    && seen == Keys(candidates)
  }

  /** One probe against its gallery, TEMPLATE_BATCH candidates a call. */
  method ScoreProbe(all: seq<Template>, features: map<int, Feature>, existing: set<string>, band: Band,
                    matcher: TemplateMatcher, i: nat, candidates0: seq<Candidate>, seen0: set<string>,
                    ghost done: seq<Scored>)
    returns (ok: bool, candidates: seq<Candidate>, seen: set<string>, ghost log: seq<Scored>)
    requires i < |all| && all[i].feature in features && SoFar(all, features, band, existing, done, candidates0, seen0)
    modifies matcher`calls
    ensures forall k {:trigger Gallery(all, i, |all|)[k]} :: 0 <= k < |Gallery(all, i, |all|)| ==>
      Gallery(all, i, |all|)[k] < |all|
    ensures ok <==> ProbeLog(all, matcher.answer, i, Gallery(all, i, |all|), 0).Some?
    ensures ok ==> SoFar(all, features, band, existing, log, candidates, seen)
    ensures ok ==> log == done + ProbeLog(all, matcher.answer, i, Gallery(all, i, |all|), 0).value
    ensures ok ==> matcher.calls == old(matcher.calls) + ProbeCalls(all, i, Gallery(all, i, |all|), 0)
    ensures ok ==> AllAnswered(matcher.answer, old(matcher.calls), matcher.calls, |matcher.calls|)
    ensures !ok ==> matcher.calls <= old(matcher.calls) + ProbeCalls(all, i, Gallery(all, i, |all|), 0)
    ensures !ok ==> FirstUnanswered(matcher.answer, old(matcher.calls), matcher.calls, all[i].id)
  {
    hide SoFar, Gallery, NoRepeats, ProbeLog, ProbeCalls, Reply, BatchLog;
    ok, candidates, seen, log := true, candidates0, seen0, done;
    GalleryHolds(all, i, |all|, 0);
    var gallery := BuildGallery(all, i);
    assert done + [] == done;
    var start := 0;
    ghost var before := matcher.calls;
    ghost var mine: seq<Scored> := [];
    ghost var whole := ProbeLog(all, matcher.answer, i, gallery, 0);
    FromNothing(whole);
    while start < |gallery|
      invariant start <= |gallery|
      invariant SoFar(all, features, band, existing, log, candidates, seen)
      invariant log == done + mine && whole == Chain(Some(mine), ProbeLog(all, matcher.answer, i, gallery, start))
      invariant before <= matcher.calls && AllAnswered(matcher.answer, before, matcher.calls, |matcher.calls|)
      invariant matcher.calls + ProbeCalls(all, i, gallery, start) == before + ProbeCalls(all, i, gallery, 0)
      decreases |gallery| - start
    {
      var end := BatchEnd(gallery, start);
      ghost var was := matcher.calls;
      NextCall(all, i, gallery, start, was);
      var reply := matcher.Match(all[i], BatchFrom(all, gallery, start));
      ProbeStep(all, matcher.answer, i, gallery, start, mine);
      assert reply == Reply(all, matcher.answer, i, gallery, start)
        by { ReplyIs(all, matcher.answer, i, gallery, start); }
      AnsweredIs(matcher.answer, all, i, gallery, start);
      if !Answers(reply, gallery, start) { return false, candidates, seen, log; }
      ghost var more := BatchLog(i, gallery[start..end], reply.value);
      BatchInRange(all, gallery, start, end);
      candidates, seen, log := ScoreBatch(all, features, existing, band, i, gallery[start..end], reply.value,
        candidates, seen, log);
      assert done + mine + more == done + (mine + more);
      mine := mine + more;
      start := end;
    }
    ProbeStep(all, matcher.answer, i, gallery, start, mine);
    NextCall(all, i, gallery, start, matcher.calls);
  }

  lemma BatchInRange(all: seq<Template>, g: seq<nat>, start: nat, end: nat)
    requires start <= end <= |g| && forall k {:trigger g[k]} :: 0 <= k < |g| ==> g[k] < |all|
    ensures forall k {:trigger g[start..end][k]} :: 0 <= k < end - start ==> g[start..end][k] < |all|
  {
    forall k {:trigger g[start..end][k]} | 0 <= k < end - start
      ensures g[start..end][k] < |all|
    {
      assert g[start..end][k] == g[start + k];
    }
  }

  lemma NextCall(all: seq<Template>, i: nat, g: seq<nat>, start: nat, calls: seq<Call>)
    requires i < |all| && start <= |g| && forall k {:trigger g[k]} :: 0 <= k < |g| ==> g[k] < |all|
    ensures start == |g| ==> calls + ProbeCalls(all, i, g, start) == calls
    ensures start < |g| ==> calls + ProbeCalls(all, i, g, start) ==
                            calls + [Call(all[i], BatchFrom(all, g, start))] + ProbeCalls(all, i, g, BatchEnd(g, start))
  {
    hide BatchFrom;
    if start < |g| {
      var rest := ProbeCalls(all, i, g, BatchEnd(g, start));
      var c := Call(all[i], BatchFrom(all, g, start));
      assert ProbeCalls(all, i, g, start) == [c] + rest;
      assert calls + ([c] + rest) == calls + [c] + rest;
    }
  }

  lemma ReplyIs(all: seq<Template>, matcher: MatchService, i: nat, g: seq<nat>, start: nat)
    requires i < |all| && start <= |g| && forall k {:trigger g[k]} :: 0 <= k < |g| ==> g[k] < |all|
    ensures Reply(all, matcher, i, g, start) == matcher(all[i], BatchFrom(all, g, start))
  {}

  lemma AnsweredIs(answer: MatchService, all: seq<Template>, i: nat, g: seq<nat>, start: nat)
    requires i < |all| && start <= |g| && forall k {:trigger g[k]} :: 0 <= k < |g| ==> g[k] < |all|
    ensures Answered(answer, Call(all[i], BatchFrom(all, g, start))) <==>
      Answers(Reply(all, answer, i, g, start), g, start)
  {}

  lemma FromNothing(whole: Option<seq<Scored>>)
    ensures whole == Chain(Some([]), whole)
  {
    if whole.Some? { assert [] + whole.value == whole.value; }
  }

  lemma ProbeStep(all: seq<Template>, matcher: MatchService, i: nat, g: seq<nat>, start: nat, mine: seq<Scored>)
    requires i < |all| && start <= |g| && forall k {:trigger g[k]} :: 0 <= k < |g| ==> g[k] < |all|
    ensures var reply, rest := Reply(all, matcher, i, g, start), Chain(Some(mine), ProbeLog(all, matcher, i, g, start));
            && (start == |g| ==> rest == Some(mine))
            && (start < |g| && !Answers(reply, g, start) ==> rest.None?)
            && (start < |g| && Answers(reply, g, start) ==>
                  rest == Chain(Some(mine + BatchLog(i, g[start..BatchEnd(g, start)], reply.value)),
                                ProbeLog(all, matcher, i, g, BatchEnd(g, start))))
  {
    hide Reply, BatchLog;
    if start == |g| {
      assert mine + [] == mine;
    } else if Answers(Reply(all, matcher, i, g, start), g, start) {
      var more, rest := BatchLog(i, g[start..BatchEnd(g, start)], Reply(all, matcher, i, g, start).value),
        ProbeLog(all, matcher, i, g, BatchEnd(g, start));
      if rest.Some? { assert mine + (more + rest.value) == mine + more + rest.value; }
    }
  }

  /** A failed probe fails the run. */
  lemma {:induction false} StaysNone(all: seq<Template>, features: map<int, Feature>, matcher: MatchService, m: nat,
                                     n: nat)
    requires m <= n <= |all| && RunLog(all, features, matcher, m).None?
    ensures RunLog(all, features, matcher, n).None?
  {
    hide ProbeLog, Gallery;
    if m < n { StaysNone(all, features, matcher, m, n - 1); }
  }

  /** The scores of one batch, one after the other. */
  method ScoreBatch(all: seq<Template>, features: map<int, Feature>, existing: set<string>, band: Band, i: nat,
                    batch: seq<nat>, scores: seq<real>, candidates0: seq<Candidate>, seen0: set<string>,
                    ghost done: seq<Scored>)
    returns (candidates: seq<Candidate>, seen: set<string>, ghost log: seq<Scored>)
    requires i < |all| && all[i].feature in features && |scores| == |batch|
    requires forall k {:trigger batch[k]} :: 0 <= k < |batch| ==> batch[k] < |all|
    requires SoFar(all, features, band, existing, done, candidates0, seen0)
    ensures SoFar(all, features, band, existing, log, candidates, seen)
    ensures log == done + BatchLog(i, batch, scores)
  {
    hide Fresh, Judged, Key, Keys, InRange;
    candidates, seen, log := candidates0, seen0, done;
    ghost var all0 := BatchLog(i, batch, scores);
    assert done + all0[..0] == done;
    for k := 0 to |scores|
      invariant SoFar(all, features, band, existing, log, candidates, seen)
      invariant log == done + all0[..k]
    {
      var s := Scored(i, batch[k], scores[k]);
      NextCandidate(all, features, band, existing, log, s);
      candidates, seen := Consider(all, features, band, existing, candidates, seen, s);
      assert all0[..k + 1] == all0[..k] + [s];
      log := log + [s];
    }
    assert all0[..|batch|] == all0;
  }

  method BuildGallery(all: seq<Template>, i: nat) returns (gallery: seq<nat>)
    requires i < |all|
    ensures gallery == Gallery(all, i, |all|)
  {
    gallery := [];
    for j := 0 to |all|
      invariant gallery == Gallery(all, i, j)
    {
      if j == i || (j < i && all[j].unmatched) { continue; }
      gallery := gallery + [j];
    }
  }

  /** What the innermost loop does with one score. */
  method Consider(all: seq<Template>, features: map<int, Feature>, band: Band, existing: set<string>,
                  before: seq<Candidate>, seen: set<string>, s: Scored) returns (candidates: seq<Candidate>,
                  after: set<string>)
    requires s.probe < |all| && s.cand < |all| && all[s.probe].feature in features && seen == Keys(before)
    ensures candidates == Joined(existing, before, Judged(all, features, band, s))
    ensures after == Keys(candidates)
  {
    if s.score < band.review || all[s.cand].feature !in features { return before, seen; }
    var info := features[all[s.probe].feature];
    var a, b := info.graphID, features[all[s.cand].feature].graphID;
    if a == b { return before, seen; }
    LeTotal(a, b);
    if !Le(a, b) { a, b := b, a; }
    var key := Key(a, b);
    if key in existing || key in seen { return before, seen; }
    var (decision, cutoff) := Classify(band, s.score);
    var c := Candidate(a, b, info.modality, s.score, decision, cutoff);
    KeysPlus(before, c);
    return before + [c], seen + {key};
  }

  lemma KeysPlus(before: seq<Candidate>, c: Candidate)
    ensures Keys(before + [c]) == Keys(before) + {Key(c.a, c.b)}
  {
    hide Key;
    var cs := before + [c];
    assert cs[|before|] == c;
    forall i | 0 <= i < |before|
      ensures Key(before[i].a, before[i].b) in Keys(cs)
    {
      assert cs[i] == before[i];
    }
  }

  lemma NothingYet(all: seq<Template>, features: map<int, Feature>, band: Band, existing: set<string>,
                   matcher: MatchService)
    ensures SoFar(all, features, band, existing, [], [], {})
    ensures RunLog(all, features, matcher, 0) == Some([]) && RunCalls(all, features, 0) == []
  {}

  lemma NextProbe(all: seq<Template>, features: map<int, Feature>, matcher: MatchService, i: nat)
    requires i < |all|
    ensures forall k {:trigger Gallery(all, i, |all|)[k]} :: 0 <= k < |Gallery(all, i, |all|)| ==>
      Gallery(all, i, |all|)[k] < |all|
    ensures RunLog(all, features, matcher, i + 1) ==
            if Probes(all, features, i)
              then Chain(RunLog(all, features, matcher, i), ProbeLog(all, matcher, i, Gallery(all, i, |all|), 0))
              else RunLog(all, features, matcher, i)
    ensures RunCalls(all, features, i + 1) ==
            RunCalls(all, features, i) +
            if Probes(all, features, i) then ProbeCalls(all, i, Gallery(all, i, |all|), 0) else []
  {
    GalleryHolds(all, i, |all|, 0);
    hide Gallery, ProbeLog, ProbeCalls;
  }

  lemma NextCandidate(all: seq<Template>, features: map<int, Feature>, band: Band, existing: set<string>,
                      log: seq<Scored>, s: Scored)
    requires InRange(all, log) && s.probe < |all| && s.cand < |all|
    ensures InRange(all, log + [s])
    ensures var before := Fresh(all, features, band, existing, log);
            Fresh(all, features, band, existing, log + [s]) ==
              Joined(existing, before, Judged(all, features, band, s))
  {
    hide Judged, Key;
    assert (log + [s])[..|log|] == log;
  }
}
