/** biometricmatch/templates.go and match.go: runs over the stored templates, one after another. */
module Templates {
  import opened Order
  import opened Pairing
  import opened Options

  /** What wrote a SYSTEM row, and the threshold version it was decided under, "" for the built-in one. */
  datatype Origin = Origin(source: string, version: string)

  datatype Row = System(candidate: Candidate, origin: Origin) | Human(a: string, b: string)

  /** One content of one template. */
  type Side = (int, nat)

  function SideOf(t: Template): Side { (t.id, t.version) }

  ghost predicate Ordered(ts: seq<Template>) {
    forall i, j :: 0 <= i < j < |ts| ==> ts[i].id < ts[j].id
  }

  ghost predicate PlainFeatures(features: map<int, Feature>) {
    forall f :: f in features ==> Plain(features[f].graphID)
  }

  /** The table's constraints: smaller id first, one SYSTEM row a pair and threshold version. */
  ghost predicate RowsSound(rows: seq<Row>) {
    && (forall i :: 0 <= i < |rows| && rows[i].System? ==> InOrder(rows[i].candidate))
    && (forall i, j :: 0 <= i < j < |rows| && rows[i].System? && rows[j].System? ==>
          !(SamePair(rows[i].candidate, rows[j].candidate) && rows[i].origin.version == rows[j].origin.version))
  }

  /** The rows of `after` beyond those of `before` are about pairs without a SYSTEM row until then, of any
    * version, and about different ones. */
  ghost predicate NewPairs(before: seq<Row>, after: seq<Row>) {
    && before <= after
    && forall i, j :: 0 <= i < j < |after| && |before| <= j && after[i].System? && after[j].System? ==>
         !SamePair(after[i].candidate, after[j].candidate)
  }

  /** One SYSTEM row a pair, which is more than the table asks for. */
  ghost predicate OneEach(rows: seq<Row>) {
    forall i, j :: 0 <= i < j < |rows| && rows[i].System? && rows[j].System? ==>
      !SamePair(rows[i].candidate, rows[j].candidate)
  }

  /** While only such runs write SYSTEM rows there is one a pair. Where another matcher has written several
    * versions of a pair, a run adds none. */
  lemma OneEachStays(before: seq<Row>, after: seq<Row>)
    requires NewPairs(before, after)
    ensures OneEach(before) ==> OneEach(after)
    ensures forall c: Candidate, j ::
      |before| <= j < |after| && after[j].System? && HasRow(before, c.a, c.b) ==> !SamePair(c, after[j].candidate)
  {
    forall c: Candidate, j | |before| <= j < |after| && after[j].System? && HasRow(before, c.a, c.b)
      ensures !SamePair(c, after[j].candidate)
    {
      var i :| 0 <= i < |before| && before[i].System? && before[i].candidate.a == c.a && before[i].candidate.b == c.b;
      assert after[i] == before[i];
    }
    if OneEach(before) {
      forall i, j | 0 <= i < j < |after| && after[i].System? && after[j].System?
        ensures !SamePair(after[i].candidate, after[j].candidate)
      {
        if j < |before| { assert after[i] == before[i] && after[j] == before[j]; }
      }
    }
  }

  ghost predicate InOrder(c: Candidate) {
    Plain(c.a) && Plain(c.b) && Before(c.a, c.b)
  }

  predicate SamePair(c: Candidate, d: Candidate) { c.a == d.a && c.b == d.b }

  /** Every comparison was of contents the templates have or had, the smaller id first, and no content
    * still to be matched was in one. */
  ghost predicate ScoredSound(ts: seq<Template>, scored: set<(Side, Side)>) {
    && (forall p :: p in scored ==> p.0.0 < p.1.0 && Known(ts, p.0) && Known(ts, p.1))
    && (forall i, p :: 0 <= i < |ts| && ts[i].unmatched && p in scored ==> p.0 != SideOf(ts[i]) && p.1 != SideOf(ts[i]))
  }

  /** Every two matched templates with known features were compared in their present contents. */
  ghost predicate Complete(ts: seq<Template>, features: map<int, Feature>, scored: set<(Side, Side)>) {
    forall i, j {:trigger Featured(ts, features, i, j)} ::
      0 <= i < j < |ts| && !ts[i].unmatched && !ts[j].unmatched && Featured(ts, features, i, j) ==>
        (SideOf(ts[i]), SideOf(ts[j])) in scored
  }

  /** side is a present or past content of a stored template. */
  ghost predicate Known(ts: seq<Template>, side: Side) {
    exists i :: 0 <= i < |ts| && ts[i].id == side.0 && side.1 <= ts[i].version
  }

  ghost predicate Featured(ts: seq<Template>, features: map<int, Feature>, i: nat, j: nat)
    requires i < |ts| && j < |ts|
  {
    ts[i].feature in features && ts[j].feature in features
  }

  /** The pair of contents a comparison is about. */
  function Sides(c: (Template, Template)): (Side, Side) {
    if c.0.id < c.1.id then (SideOf(c.0), SideOf(c.1)) else (SideOf(c.1), SideOf(c.0))
  }

  ghost function Contents(cs: seq<(Template, Template)>): set<(Side, Side)> {
    set k | 0 <= k < |cs| :: Sides(cs[k])
  }

  /** What a run over ts compares. */
  ghost function Compared(ts: seq<Template>, features: map<int, Feature>): (cs: seq<(Template, Template)>)
    ensures |cs| == |Comparisons(ts, features, |ts|)|
    ensures forall k {:trigger cs[k]} :: 0 <= k < |cs| ==>
              var c := Comparisons(ts, features, |ts|)[k];
              c.0 < |ts| && c.1 < |ts| && c.0 != c.1 && cs[k] == (ts[c.0], ts[c.1]) && cs[k].0.unmatched
  {
    RunCallsCompare(ts, features, |ts|);
    ComparisonsInRange(ts, features);
    TemplatesOf(ts, Comparisons(ts, features, |ts|))
  }

  lemma ComparisonsInRange(ts: seq<Template>, features: map<int, Feature>)
    ensures forall k {:trigger Comparisons(ts, features, |ts|)[k]} :: 0 <= k < |Comparisons(ts, features, |ts|)| ==>
              var c := Comparisons(ts, features, |ts|)[k]; c.0 < |ts| && c.1 < |ts| && c.0 != c.1 && ts[c.0].unmatched
  {
    var cs := Comparisons(ts, features, |ts|);
    forall k | 0 <= k < |cs|
      ensures cs[k].0 < |ts| && cs[k].1 < |ts| && cs[k].0 != cs[k].1 && ts[cs[k].0].unmatched
    {
      assert cs[k] in cs;
      ComparisonsHold(ts, features, |ts|, cs[k].0, cs[k].1);
    }
  }

  /** The matcher's calls of a run ask for exactly that. */
  lemma CallsCompare(ts: seq<Template>, features: map<int, Feature>)
    ensures Pairs(RunCalls(ts, features, |ts|)) == Compared(ts, features)
  {
    RunCallsCompare(ts, features, |ts|);
  }

  /** No pair of contents is compared twice in a run, or had been compared in an earlier one. */
  lemma ComparedAfresh(ts: seq<Template>, features: map<int, Feature>, scored: set<(Side, Side)>)
    requires Ordered(ts) && ScoredSound(ts, scored)
    ensures var cs := Compared(ts, features); |Contents(cs)| == |cs| && Contents(cs) !! scored
  {
    hide Comparisons, Compared;
    var ns, cs := Comparisons(ts, features, |ts|), Compared(ts, features);
    ComparisonsInRange(ts, features);
    forall j, k | 0 <= j < k < |cs|
      ensures Sides(cs[j]) != Sides(cs[k])
    {
      ComparedOnce(ts, features, ns[j].0, ns[j].1);
      assert ns[j] in ns && ns[k] in ns && ns[j] != ns[k];
      assert (ns[k].0, ns[k].1) == ns[k] && (ns[j].0, ns[j].1) == ns[j];
      assert cs[j] == (ts[ns[j].0], ts[ns[j].1]) && cs[k] == (ts[ns[k].0], ts[ns[k].1]);
    }
    AllDistinct(cs);
  }

  lemma {:induction false} AllDistinct(cs: seq<(Template, Template)>)
    requires forall j, k :: 0 <= j < k < |cs| ==> Sides(cs[j]) != Sides(cs[k])
    ensures |Contents(cs)| == |cs|
  {
    hide Sides;
    if cs == [] {
      assert Contents(cs) == {};
    } else {
      var n := |cs| - 1;
      AllDistinct(cs[..n]);
      assert Contents(cs) == Contents(cs[..n]) + {Sides(cs[n])} by {
        assert forall k :: 0 <= k < n ==> cs[..n][k] == cs[k];
      }
      assert Sides(cs[n]) !in Contents(cs[..n]);
    }
  }

  // ------------------------------------------------------------- what happens while a run scores

  /** Extraction stores a new template, or replaces the content of the one at an index. */
  datatype Extraction = Added(id: int, feature: int) | Replaced(at: nat)

  /** New ids are above all others; what does not apply changes nothing. */
  predicate Applies(ts: seq<Template>, e: Extraction) {
    match e
    case Added(id, _) => forall t :: t in ts ==> t.id < id
    case Replaced(at) => at < |ts|
  }

  function Extracted(ts: seq<Template>, e: Extraction): seq<Template> {
    if !Applies(ts, e) then ts
    else match e
      case Added(id, feature) => ts + [Template(id, 0, feature, true)]
      case Replaced(at) => ts[at := ts[at].(version := ts[at].version + 1, unmatched := true)]
  }

  function AllExtracted(ts: seq<Template>, es: seq<Extraction>): seq<Template> {
    if es == [] then ts else Extracted(AllExtracted(ts, es[..|es| - 1]), es[|es| - 1])
  }

  /** What the templates read may have become: each is as it was or replaced since, and new ones follow. */
  ghost predicate Evolved(read: seq<Template>, now: seq<Template>) {
    && |read| <= |now|
    && (forall i {:trigger now[i]} :: 0 <= i < |read| ==> now[i] == read[i] || Renewed(read[i], now[i]))
    && (forall i {:trigger now[i]} :: |read| <= i < |now| ==> now[i].unmatched)
  }

  ghost predicate Renewed(t: Template, u: Template) {
    u.id == t.id && u.feature == t.feature && t.version < u.version && u.unmatched
  }

  lemma {:induction false} ExtractedEvolves(ts: seq<Template>, es: seq<Extraction>)
    requires Ordered(ts)
    ensures Ordered(AllExtracted(ts, es)) && Evolved(ts, AllExtracted(ts, es))
  {
    if es != [] { ExtractedEvolves(ts, es[..|es| - 1]); }
  }

  /** The templates after those considered in what was read are marked matched, by id. */
  function Marked(read: seq<Template>, now: seq<Template>): (r: seq<Template>)
    requires |read| <= |now|
    ensures |r| == |now|
    ensures forall i {:trigger r[i]} :: 0 <= i < |now| ==>
      r[i] == if i < |read| && read[i].unmatched then now[i].(unmatched := false) else now[i]
  {
    seq(|now|, i requires 0 <= i < |now| => if i < |read| && read[i].unmatched then now[i].(unmatched := false)
      else now[i])
  }

  /** A considered template was replaced after it was read, and another one is matched: the two count as
    * compared though the present content of the first never was. */
  ghost predicate Missed(read: seq<Template>, now: seq<Template>, features: map<int, Feature>)
    requires |read| <= |now|
  {
    exists i, j :: MissedAt(read, now, features, i, j)
  }

  ghost predicate MissedAt(read: seq<Template>, now: seq<Template>, features: map<int, Feature>, i: nat, j: nat)
    requires |read| <= |now|
  {
    && i < |read| && j < |read| && i != j && Featured(read, features, i, j)
    && read[i].unmatched && now[i] != read[i] && (read[j].unmatched || !now[j].unmatched)
  }

  /** Whatever extraction did meanwhile, a recorded run compares no content twice. */
  lemma ScoredStaysSound(read: seq<Template>, now: seq<Template>, features: map<int, Feature>,
                         scored: set<(Side, Side)>)
    requires Ordered(read) && Ordered(now) && Evolved(read, now) && ScoredSound(read, scored)
    ensures ScoredSound(Marked(read, now), scored + Contents(Compared(read, features)))
  {
    hide Compared;
    var after, all := Marked(read, now), scored + Contents(Compared(read, features));
    forall p | p in all
      ensures p.0.0 < p.1.0 && Known(read, p.0) && Known(read, p.1)
    {
      if p !in scored { ContentsKnown(read, features, p); }
    }
    forall p | p in all
      ensures Known(after, p.0) && Known(after, p.1)
    {
      MoreKnown(read, after, p.0);
      MoreKnown(read, after, p.1);
    }
    forall i, p | 0 <= i < |after| && after[i].unmatched && p in all
      ensures p.0 != SideOf(after[i]) && p.1 != SideOf(after[i])
    {
      NewSide(read, now, i, p.0);
      NewSide(read, now, i, p.1);
    }
  }

  lemma ContentsKnown(ts: seq<Template>, features: map<int, Feature>, p: (Side, Side))
    requires Ordered(ts) && p in Contents(Compared(ts, features))
    ensures p.0.0 < p.1.0 && Known(ts, p.0) && Known(ts, p.1)
  {
    hide Compared, Comparisons;
    var cs := Compared(ts, features);
    var k :| 0 <= k < |cs| && p == Sides(cs[k]);
    var c := Comparisons(ts, features, |ts|)[k];
    assert cs[k] == (ts[c.0], ts[c.1]);
    assert c.0 < c.1 ==> ts[c.0].id < ts[c.1].id;
    assert c.1 < c.0 ==> ts[c.1].id < ts[c.0].id;
  }

  /** A template that is unmatched after the marking has a content that was not there to be read. */
  lemma NewSide(read: seq<Template>, now: seq<Template>, i: nat, side: Side)
    requires Ordered(read) && Ordered(now) && Evolved(read, now) && i < |now| && Known(read, side)
    requires Marked(read, now)[i].unmatched && (i < |read| && now[i] == read[i] ==> !read[i].unmatched)
    ensures side != SideOf(Marked(read, now)[i])
  {
    if i < |read| {
      OldVersions(read, side, i);
    } else {
      var k :| 0 <= k < |read| && read[k].id == side.0 && side.1 <= read[k].version;
      assert now[k].id == read[k].id && now[k].id < now[i].id;
    }
  }

  /** After a run every two matched templates with known features have been compared in their present
    * contents, if and only if none was missed in this way. */
  lemma CompleteExactly(read: seq<Template>, now: seq<Template>, features: map<int, Feature>, scored: set<(Side, Side)>)
    requires Ordered(read) && Evolved(read, now) && ScoredSound(read, scored) && Complete(read, features, scored)
    ensures Complete(Marked(read, now), features, scored + Contents(Compared(read, features))) <==>
      !Missed(read, now, features)
  {
    hide Compared, ScoredSound;
    var after, all := Marked(read, now), scored + Contents(Compared(read, features));
    forall i: nat, j: nat | MissedAt(read, now, features, i, j)
      ensures !Complete(after, features, all)
    {
      NotScored(read, features, scored, i, SideOf(after[i]), SideOf(after[j]));
      assert Featured(after, features, i, j) && Featured(after, features, j, i);
    }
    if !Missed(read, now, features) {
      forall i, j {:trigger Featured(after, features, i, j)} | 0 <= i < j < |after| && !after[i].unmatched &&
        !after[j].unmatched && Featured(after, features, i, j)
        ensures (SideOf(after[i]), SideOf(after[j])) in all
      {
        assert Featured(read, features, i, j);
        assert !MissedAt(read, now, features, i, j) && !MissedAt(read, now, features, j, i);
        assert now[i] == read[i] && now[j] == read[j];
        RunCompares(read, features, scored, i, j);
      }
    }
  }

  /** A content newer than the one read is in no comparison. */
  lemma NotScored(read: seq<Template>, features: map<int, Feature>, scored: set<(Side, Side)>, i: nat, a: Side, b: Side)
    requires Ordered(read) && ScoredSound(read, scored) && i < |read| && a.0 == read[i].id && a.1 > read[i].version
    ensures (a, b) !in scored + Contents(Compared(read, features))
    ensures (b, a) !in scored + Contents(Compared(read, features))
  {
    hide Compared;
    var all := scored + Contents(Compared(read, features));
    forall p | p in all
      ensures p.0 != a && p.1 != a
    {
      if p !in scored { ContentsKnown(read, features, p); }
      OldVersions(read, p.0, i);
      OldVersions(read, p.1, i);
    }
  }

  lemma RunCompares(ts: seq<Template>, features: map<int, Feature>, scored: set<(Side, Side)>, i: nat, j: nat)
    requires Ordered(ts) && Complete(ts, features, scored) && i < j < |ts| && Featured(ts, features, i, j)
    ensures (SideOf(ts[i]), SideOf(ts[j])) in scored + Contents(Compared(ts, features))
  {
    hide Comparisons, Compared;
    ComparedOnce(ts, features, i, j);
    var ns := Comparisons(ts, features, |ts|);
    if (i, j) in ns {
      Included(ts, features, i, j);
    } else if (j, i) in ns {
      Included(ts, features, j, i);
    }
  }

  lemma Included(ts: seq<Template>, features: map<int, Feature>, i: nat, j: nat)
    requires i < |ts| && j < |ts| && (i, j) in Comparisons(ts, features, |ts|)
    ensures Sides((ts[i], ts[j])) in Contents(Compared(ts, features))
  {
    hide Comparisons, Compared;
    var ns, cs := Comparisons(ts, features, |ts|), Compared(ts, features);
    var k :| 0 <= k < |ns| && ns[k] == (i, j);
    assert cs[k] == (ts[i], ts[j]);
  }

  /** New templates, and new contents of templates matched before, do no harm. */
  lemma {:induction false} ArrivalsHarmless(ts: seq<Template>, es: seq<Extraction>, features: map<int, Feature>)
    requires Ordered(ts)
    requires forall e :: e in es && e.Replaced? && e.at < |ts| ==> !ts[e.at].unmatched
    ensures Evolved(ts, AllExtracted(ts, es)) && !Missed(ts, AllExtracted(ts, es), features)
    ensures forall i :: 0 <= i < |ts| && ts[i].unmatched ==> AllExtracted(ts, es)[i] == ts[i]
  {
    ExtractedEvolves(ts, es);
    if es != [] {
      ArrivalsHarmless(ts, es[..|es| - 1], features);
      assert es[|es| - 1] in es;
    }
  }

  /** Two templates arrive, and the first is extracted again while the matcher compares them: both end
    * matched, and the content the first now has was never compared with the second. */
  lemma MissedExample()
    ensures var features := map[7 := Feature("A", "FINGERPRINT"), 8 := Feature("B", "FINGERPRINT")];
            var read := [Template(1, 0, 7, true), Template(2, 0, 8, true)];
            var now := AllExtracted(read, [Replaced(0)]);
            && Ordered(read) && ScoredSound(read, {}) && Complete(read, features, {}) && Evolved(read, now)
            && (forall t :: t in Marked(read, now) ==> !t.unmatched)
            && !Complete(Marked(read, now), features, Contents(Compared(read, features)))
  {
    hide Compared;
    var features := map[7 := Feature("A", "FINGERPRINT"), 8 := Feature("B", "FINGERPRINT")];
    var read := [Template(1, 0, 7, true), Template(2, 0, 8, true)];
    assert AllExtracted(read, []) == read && [Replaced(0)][..0] == [];
    var now := AllExtracted(read, [Replaced(0)]);
    assert now == [Template(1, 1, 7, true), Template(2, 0, 8, true)];
    CompleteExactly(read, now, features, {});
    assert MissedAt(read, now, features, 0, 1);
    assert {} + Contents(Compared(read, features)) == Contents(Compared(read, features));
  }

  // --------------------------------------------------------------------------------- the rows

  function SystemKeys(rows: seq<Row>): set<string> {
    set i | 0 <= i < |rows| && rows[i].System? :: Key(rows[i].candidate.a, rows[i].candidate.b)
  }

  function RowsFor(cs: seq<Candidate>, origin: Origin): (rows: seq<Row>)
    ensures |rows| == |cs| && forall i :: 0 <= i < |cs| ==> rows[i] == System(cs[i], origin)
  {
    seq(|cs|, i requires 0 <= i < |cs| => System(cs[i], origin))
  }

  /** The pair a, b has its SYSTEM row. */
  ghost predicate HasRow(rows: seq<Row>, a: string, b: string) {
    exists i :: 0 <= i < |rows| && rows[i].System? && rows[i].candidate.a == a && rows[i].candidate.b == b
  }

  lemma JudgedInOrder(ts: seq<Template>, features: map<int, Feature>, band: Band, s: Scored)
    requires PlainFeatures(features) && s.probe < |ts| && s.cand < |ts| && Judged(ts, features, band, s).Some?
    ensures InOrder(Judged(ts, features, band, s).value)
  {
    JudgedSays(ts, features, band, s);
  }

  lemma CandidatesInOrder(ts: seq<Template>, features: map<int, Feature>, band: Band, existing: set<string>,
                          log: seq<Scored>)
    requires PlainFeatures(features) && InRange(ts, log)
    ensures forall c :: c in Fresh(ts, features, band, existing, log) ==> InOrder(c)
  {
    FreshExactly(ts, features, band, existing, log);
    hide Fresh, InOrder, Judged;
    forall c | c in Fresh(ts, features, band, existing, log)
      ensures InOrder(c)
    {
      var k: nat :| k < |log| && Judged(ts, features, band, log[k]) == Some(c);
      JudgedInOrder(ts, features, band, log[k]);
    }
  }

  /** The new rows break no constraint of the table, and are about pairs that had none. */
  lemma RowsStaySound(rows: seq<Row>, cs: seq<Candidate>, origin: Origin)
    requires RowsSound(rows) && NoKeyTwice(cs, SystemKeys(rows)) && forall c :: c in cs ==> InOrder(c)
    ensures RowsSound(rows + RowsFor(cs, origin)) && NewPairs(rows, rows + RowsFor(cs, origin))
  {
    hide InOrder, Key;
    var after := rows + RowsFor(cs, origin);
    forall i | 0 <= i < |after| && after[i].System?
      ensures InOrder(after[i].candidate)
    {
      if i >= |rows| { assert after[i].candidate == cs[i - |rows|]; }
    }
    forall i, j | 0 <= i < j < |after| && after[i].System? && after[j].System?
      ensures j >= |rows| ==> !SamePair(after[i].candidate, after[j].candidate)
      ensures SamePair(after[i].candidate, after[j].candidate) ==> after[i].origin.version != after[j].origin.version
    {
      if j < |rows| {
        assert after[i] == rows[i] && after[j] == rows[j];
      } else {
        assert after[j].candidate == cs[j - |rows|];
        if i >= |rows| {
          assert after[i].candidate == cs[i - |rows|];
        } else {
          assert Key(rows[i].candidate.a, rows[i].candidate.b) in SystemKeys(rows);
        }
      }
    }
  }

  /** A pair whose key is taken has its row. */
  lemma KeyTaken(rows: seq<Row>, c: Candidate)
    requires RowsSound(rows) && InOrder(c) && Key(c.a, c.b) in SystemKeys(rows)
    ensures HasRow(rows, c.a, c.b)
  {
    hide Key;
    var i :| 0 <= i < |rows| && rows[i].System? && Key(rows[i].candidate.a, rows[i].candidate.b) == Key(c.a, c.b);
    KeyInjective(rows[i].candidate.a, rows[i].candidate.b, c.a, c.b);
  }

  /** Every score that reaches the band, between two different features, leaves the pair with a row. */
  lemma ScoredDecided(ts: seq<Template>, features: map<int, Feature>, band: Band, rows: seq<Row>, log: seq<Scored>,
                      origin: Origin, k: nat)
    requires PlainFeatures(features) && InRange(ts, log) && RowsSound(rows) && k < |log|
    requires Judged(ts, features, band, log[k]).Some?
    ensures var c := Judged(ts, features, band, log[k]).value;
            HasRow(rows + RowsFor(Fresh(ts, features, band, SystemKeys(rows), log), origin), c.a, c.b)
  {
    FreshExactly(ts, features, band, SystemKeys(rows), log);
    CandidatesInOrder(ts, features, band, SystemKeys(rows), log);
    JudgedInOrder(ts, features, band, log[k]);
    hide Fresh, Judged, Key, InOrder;
    var cs := Fresh(ts, features, band, SystemKeys(rows), log);
    RowsStaySound(rows, cs, origin);
    var after := rows + RowsFor(cs, origin);
    var c := Judged(ts, features, band, log[k]).value;
    assert Decided(ts, features, band, SystemKeys(rows), cs, log[k]);
    assert Key(c.a, c.b) in SystemKeys(after) by {
      if Key(c.a, c.b) in Keys(cs) {
        var i :| 0 <= i < |cs| && Key(cs[i].a, cs[i].b) == Key(c.a, c.b);
        assert after[|rows| + i] == System(cs[i], origin);
      } else {
        var i :| 0 <= i < |rows| && rows[i].System? && Key(rows[i].candidate.a, rows[i].candidate.b) == Key(c.a, c.b);
        assert after[i] == rows[i];
      }
    }
    KeyTaken(after, c);
  }

  lemma InsertSound(ts: seq<Template>, scored: set<(Side, Side)>, t: Template)
    requires ScoredSound(ts, scored) && t.unmatched && forall u :: u in ts ==> u.id < t.id
    ensures ScoredSound(ts + [t], scored)
  {
    hide SideOf;
    var us := ts + [t];
    forall p | p in scored
      ensures p.0.0 < p.1.0 && Known(us, p.0) && Known(us, p.1) && p.0.0 != t.id && p.1.0 != t.id
    {
      MoreKnown(ts, us, p.0);
      MoreKnown(ts, us, p.1);
    }
    forall i, p | 0 <= i < |us| && us[i].unmatched && p in scored
      ensures p.0 != SideOf(us[i]) && p.1 != SideOf(us[i])
    {
      if i < |ts| { assert us[i] == ts[i]; } else { assert SideOf(t).0 == t.id by { SideNamed(t); } }
    }
  }

  lemma SideNamed(t: Template)
    ensures SideOf(t).0 == t.id
  {}

  lemma ReplaceSound(ts: seq<Template>, scored: set<(Side, Side)>, at: nat)
    requires Ordered(ts) && ScoredSound(ts, scored) && at < |ts|
    ensures ScoredSound(Extracted(ts, Replaced(at)), scored)
  {
    var us := Extracted(ts, Replaced(at));
    forall p | p in scored
      ensures p.0.0 < p.1.0 && Known(us, p.0) && Known(us, p.1)
    {
      MoreKnown(ts, us, p.0);
      MoreKnown(ts, us, p.1);
    }
    forall i, p | 0 <= i < |us| && us[i].unmatched && p in scored
      ensures p.0 != SideOf(us[i]) && p.1 != SideOf(us[i])
    {
      if i == at {
        OldVersions(ts, p.0, at);
        OldVersions(ts, p.1, at);
      }
    }
  }

  /** Extraction never leaves a pair of matched templates uncompared. */
  lemma StaysComplete(ts: seq<Template>, features: map<int, Feature>, scored: set<(Side, Side)>, e: Extraction)
    requires Complete(ts, features, scored)
    ensures Complete(Extracted(ts, e), features, scored)
  {
    var us := Extracted(ts, e);
    forall i, j {:trigger Featured(us, features, i, j)} | 0 <= i < j < |us| && !us[i].unmatched && !us[j].unmatched &&
      Featured(us, features, i, j)
      ensures (SideOf(us[i]), SideOf(us[j])) in scored
    {
      assert us[i] == ts[i] && us[j] == ts[j] && Featured(ts, features, i, j);
    }
  }

  // --------------------------------------------------------------------------------- the store

  class Store {
    var templates: seq<Template>
    var rows: seq<Row>
    const features: map<int, Feature>
    ghost var scored: set<(Side, Side)>

    ghost predicate Valid()
      reads this
    {
      Ordered(templates) && PlainFeatures(features) && RowsSound(rows) && ScoredSound(templates, scored)
    }

    constructor (features: map<int, Feature>)
      requires PlainFeatures(features)
      ensures Valid() && Complete(templates, features, scored)
      ensures templates == [] && rows == [] && this.features == features && scored == {}
    {
      templates, rows, scored := [], [], {};
      this.features := features;
    }

    /** Extraction stores a feature's first template, with an id never used before. */
    method Insert(id: int, feature: int)
      requires Valid() && forall t :: t in templates ==> t.id < id
      modifies this`templates
      ensures Valid() && templates == old(templates) + [Template(id, 0, feature, true)]
    {
      hide ScoredSound, RowsSound, PlainFeatures;
      InsertSound(templates, scored, Template(id, 0, feature, true));
      templates := templates + [Template(id, 0, feature, true)];
    }

    /** Extraction replaces a template's content, which then goes through matching again. */
    method Replace(at: nat)
      requires Valid() && at < |templates|
      modifies this`templates
      ensures Valid()
      ensures templates == old(templates)[at := old(templates)[at].(version := old(templates)[at].version + 1,
        unmatched := true)]
    {
      hide ScoredSound, RowsSound, PlainFeatures;
      ReplaceSound(templates, scored, at);
      var t := templates[at];
      templates := templates[at := t.(version := t.version + 1, unmatched := true)];
    }

    /** What extraction does while a run is under way. */
    method ExtractAll(es: seq<Extraction>)
      requires Valid()
      modifies this`templates
      ensures Valid() && templates == AllExtracted(old(templates), es)
      ensures old(Complete(templates, features, scored)) ==> Complete(templates, features, scored)
    {
      hide ScoredSound, RowsSound, PlainFeatures, Complete, Ordered;
      for i := 0 to |es|
        invariant Valid() && templates == AllExtracted(old(templates), es[..i])
        invariant old(Complete(templates, features, scored)) ==> Complete(templates, features, scored)
      {
        assert es[..i + 1][..i] == es[..i];
        if old(Complete(templates, features, scored)) { StaysComplete(templates, features, scored, es[i]); }
        match es[i]
        case Added(id, feature) =>
          if forall t :: t in templates ==> t.id < id { Insert(id, feature); }
        case Replaced(at) =>
          if at < |templates| { Replace(at); }
      }
      assert es[..|es|] == es;
    }

    /** RunTemplatesBand. Templates are read and scored, and only then is anything written; meanwhile,
      * extraction may store and replace templates in any way. */
    method Run(band: Band, matcher: TemplateMatcher, meanwhile: seq<Extraction>, origin: Origin) returns (ok: bool)
      requires Valid()
      modifies this, matcher`calls
      ensures Valid()
      ensures ok <==> ValidBand(band) && RunLog(old(templates), features, matcher.answer, |old(templates)|).Some?
      ensures !ok ==> rows == old(rows) && scored == old(scored)
      ensures !ok ==> templates == if ValidBand(band) then AllExtracted(old(templates), meanwhile) else old(templates)
      ensures ok ==> Evolved(old(templates), AllExtracted(old(templates), meanwhile))
      ensures ok ==> templates == Marked(old(templates), AllExtracted(old(templates), meanwhile))
      ensures old(matcher.calls) <= matcher.calls
      ensures ok ==>
        Compares(old(templates), features, Pairs(matcher.calls[|old(matcher.calls)|..]), old(scored), scored)
      ensures ok ==> Decides(old(templates), features, band,
        RunLog(old(templates), features, matcher.answer, |old(templates)|).value, old(rows), rows, origin)
      ensures ok <==>
        && 0.0 < band.review <= band.confirm
        && AllAnswered(matcher.answer, old(matcher.calls), matcher.calls, |matcher.calls|)
      ensures ok ==> AsksRight(old(templates), features, Pairs(matcher.calls[|old(matcher.calls)|..]))
      ensures ok ==> FullBatches(matcher.calls[|old(matcher.calls)|..])
      ensures ok ==> forall c :: c in matcher.calls[|old(matcher.calls)|..] ==> 0 < |c.candidates| <= 2048
      ensures ok ==> forall c :: c in matcher.calls[|old(matcher.calls)|..] ==> Answered(matcher.answer, c)
      ensures ok ==> RowsFromScores(features, band,
        Scores(matcher.answer, matcher.calls[|old(matcher.calls)|..]), old(rows), rows, origin)
      ensures ok && old(Complete(templates, features, scored)) ==>
                (Complete(templates, features, scored) <==>
                  !Missed(old(templates), AllExtracted(old(templates), meanwhile), features))
    {
      hide Fresh, Comparisons, Compared, Judged, Ordered, PlainFeatures, RowsSound, ScoredSound, Complete, Indices,
        RunLog, RunCalls, Pairs, Evolved, Missed, Marked, AllExtracted, Answered, Scores, Named, RowsFromScores,
        AsksRight, FullBatches;
      if !ValidBand(band) { return false; }
      var existing := ExistingSystemPairs(rows);
      ghost var read, before, calls, was := templates, scored, matcher.calls, rows;
      var r := ComputeTemplateCandidates(templates, features, existing, band, matcher);
      ExtractAll(meanwhile);
      if r.Failed? { return false; }
      ghost var log := RunLog(read, features, matcher.answer, |read|).value;
      assert matcher.calls[|calls|..] == RunCalls(read, features, |read|);
      CallsCompare(read, features);
      ComparedAfresh(read, features, before);
      ExtractedEvolves(read, meanwhile);
      ghost var now := templates;
      ScoredStaysSound(read, now, features, before);
      scored := scored + Contents(Pairs(matcher.calls[|calls|..]));
      RecordDecisions(r.candidates, origin, r.unmatched);
      MarksConsidered(read, now, r.unmatched, templates);
      if old(Complete(templates, features, scored)) { CompleteExactly(read, now, features, before); }
      RunDecides(read, features, band, matcher.answer, was, rows, origin);
      RunScores(read, features, matcher.answer, |read|);
      RowsAreFromScores(read, features, band, log, was, rows, origin);
      ComparesRight(read, features);
      CallsFull(read, features);
      MarkedOrdered(read, now);
      ok := true;
    }

    /** recordDecisions: the SYSTEM rows, then each considered id marked matched. */
    method RecordDecisions(candidates: seq<Candidate>, origin: Origin, considered: seq<int>)
      modifies this`rows, this`templates
      ensures rows == old(rows) + RowsFor(candidates, origin)
      ensures |templates| == |old(templates)|
      ensures forall k :: 0 <= k < |templates| ==> templates[k] == MarkedIf(old(templates)[k], considered)
    {
      for i := 0 to |candidates|
        invariant rows == old(rows) + RowsFor(candidates, origin)[..i]
        invariant templates == old(templates)
      {
        rows := rows + [System(candidates[i], origin)];
      }
      assert RowsFor(candidates, origin)[..|candidates|] == RowsFor(candidates, origin);
      for i := 0 to |considered|
        invariant rows == old(rows) + RowsFor(candidates, origin)
        invariant |templates| == |old(templates)|
        invariant forall k :: 0 <= k < |templates| ==> templates[k] == MarkedIf(old(templates)[k], considered[..i])
      {
        MarkMatched(considered[i]);
        assert considered[..i + 1] == considered[..i] + [considered[i]];
      }
      assert considered[..|considered|] == considered;
    }

    method MarkMatched(id: int)
      modifies this`templates
      ensures |templates| == |old(templates)|
      ensures forall k :: 0 <= k < |templates| ==> templates[k] == MarkedIf(old(templates)[k], [id])
    {
      templates := seq(|templates|, k requires 0 <= k < |templates| reads this => MarkedIf(templates[k], [id]));
    }
  }

  function MarkedIf(t: Template, ids: seq<int>): Template {
    if t.id in ids then t.(unmatched := false) else t
  }

  /** Marking the considered ids marks the templates they were read from. */
  lemma MarksConsidered(read: seq<Template>, now: seq<Template>, considered: seq<int>, after: seq<Template>)
    requires Ordered(now) && Evolved(read, now) && |after| == |now|
    requires forall x :: x in considered <==> exists t :: t in read && t.unmatched && t.id == x
    requires forall k :: 0 <= k < |now| ==> after[k] == MarkedIf(now[k], considered)
    ensures after == Marked(read, now)
  {
    forall k | 0 <= k < |now|
      ensures now[k].id in considered <==> k < |read| && read[k].unmatched
    {
      if now[k].id in considered {
        var t :| t in read && t.unmatched && t.id == now[k].id;
        var i :| 0 <= i < |read| && read[i] == t;
        assert now[i].id == t.id;
      }
      if k < |read| && read[k].unmatched {
        assert read[k] in read && read[k].id == now[k].id;
      }
    }
  }

  lemma MarkedOrdered(read: seq<Template>, now: seq<Template>)
    requires |read| <= |now| && Ordered(now)
    ensures Ordered(Marked(read, now))
  {}

  /** The rows a run writes, and what they leave decided. */
  lemma RunDecides(ts: seq<Template>, features: map<int, Feature>, band: Band, answer: MatchService, before: seq<Row>,
                   after: seq<Row>, origin: Origin)
    requires PlainFeatures(features) && RowsSound(before) && RunLog(ts, features, answer, |ts|).Some?
    requires var log := RunLog(ts, features, answer, |ts|).value;
             InRange(ts, log) && after == before + RowsFor(Fresh(ts, features, band, SystemKeys(before), log), origin)
    ensures RowsSound(after)
    ensures Decides(ts, features, band, RunLog(ts, features, answer, |ts|).value, before, after, origin)
  {
    hide Fresh, Judged, PlainFeatures, RowsSound, Indices, RunLog, NoKeyTwice, Decided, MadeBy, Comparisons;
    var log := RunLog(ts, features, answer, |ts|).value;
    RunLogCompares(ts, features, answer, |ts|);
    FreshExactly(ts, features, band, SystemKeys(before), log);
    CandidatesInOrder(ts, features, band, SystemKeys(before), log);
    RowsStaySound(before, Fresh(ts, features, band, SystemKeys(before), log), origin);
    forall k | 0 <= k < |log|
      ensures RowIfJudged(ts, features, band, after, log[k])
    {
      if Judged(ts, features, band, log[k]).Some? {
        ScoredDecided(ts, features, band, before, log, origin, k);
      }
    }
  }

  /** The matcher was asked for the run's comparisons, each a pair of contents never compared before. */
  ghost predicate Compares(ts: seq<Template>, features: map<int, Feature>, asked: seq<(Template, Template)>,
                           before: set<(Side, Side)>, after: set<(Side, Side)>)
  {
    && asked == Compared(ts, features)
    && |Contents(asked)| == |asked| && Contents(asked) !! before && after == before + Contents(asked)
  }

  /** The new rows are those the log makes, and every score that makes one leaves its pair with a row. */
  ghost predicate Decides(ts: seq<Template>, features: map<int, Feature>, band: Band, log: seq<Scored>,
                          before: seq<Row>, after: seq<Row>, origin: Origin)
  {
    && InRange(ts, log) && Indices(log) == Comparisons(ts, features, |ts|)
    && after == before + RowsFor(Fresh(ts, features, band, SystemKeys(before), log), origin) && NewPairs(before, after)
    && forall k :: 0 <= k < |log| ==> RowIfJudged(ts, features, band, after, log[k])
  }

  // ------------------------------------------------- the same in terms of calls and scores alone

  /** The comparisons asked for: each template that is unmatched and of a known feature with every other one
    * but the unmatched before it, by rising ids of the one and then of the other. */
  ghost predicate AsksRight(ts: seq<Template>, features: map<int, Feature>, asked: seq<(Template, Template)>) {
    && (forall t, u :: (t, u) in asked <==>
          t in ts && u in ts && t.unmatched && t.feature in features && t.id != u.id && !(u.id < t.id && u.unmatched))
    && forall k, l :: 0 <= k < l < |asked| ==> Rises(asked[k], asked[l])
  }

  ghost predicate Rises(a: (Template, Template), b: (Template, Template)) {
    a.0.id < b.0.id || (a.0.id == b.0.id && a.1.id < b.1.id)
  }

  /** Every score at the band or above, between known features of different graph ids, leaves their pair a
    * SYSTEM row; the new rows come from such scores, in their order, each from the first about its pair. */
  ghost predicate RowsFromScores(features: map<int, Feature>, band: Band, ss: seq<Score>, before: seq<Row>,
                                 after: seq<Row>, origin: Origin) {
    && before <= after
    && (forall t {:trigger ss[t]} :: 0 <= t < |ss| && Reaches(features, band, ss[t]) ==>
          RowAbout(features, ss[t], after))
    && exists picks :: RowsPicked(features, band, ss, after[|before|..], origin, picks)
  }

  ghost predicate RowAbout(features: map<int, Feature>, s: Score, rows: seq<Row>) {
    exists i :: 0 <= i < |rows| && rows[i].System? && About(features, s, rows[i].candidate.a, rows[i].candidate.b)
  }

  ghost predicate RowsPicked(features: map<int, Feature>, band: Band, ss: seq<Score>, rows: seq<Row>, origin: Origin,
                             picks: seq<nat>) {
    && |picks| == |rows|
    && (forall i, j :: 0 <= i < j < |picks| ==> picks[i] < picks[j])
    && forall i {:trigger picks[i]} :: 0 <= i < |picks| ==> RowPicked(features, band, ss, rows[i], origin, picks[i])
  }

  ghost predicate RowPicked(features: map<int, Feature>, band: Band, ss: seq<Score>, r: Row, origin: Origin, t: nat) {
    r.System? && r.origin == origin && Picked(features, band, ss, r.candidate, t)
  }

  lemma ComparesRight(ts: seq<Template>, features: map<int, Feature>)
    requires Ordered(ts)
    ensures AsksRight(ts, features, Compared(ts, features))
  {
    hide Compared;
    var cs := Compared(ts, features);
    forall t, u
      ensures (t, u) in cs <==>
        t in ts && u in ts && t.unmatched && t.feature in features && t.id != u.id && !(u.id < t.id && u.unmatched)
    {
      AskedExactly(ts, features, t, u);
    }
    forall k, l | 0 <= k < l < |cs|
      ensures Rises(cs[k], cs[l])
    {
      AskedRise(ts, features, k, l);
    }
  }

  lemma CallsFull(ts: seq<Template>, features: map<int, Feature>)
    requires Ordered(ts)
    ensures FullBatches(RunCalls(ts, features, |ts|))
    ensures forall c :: c in RunCalls(ts, features, |ts|) ==> 0 < |c.candidates| <= 2048
  {
    RunCallsFull(ts, features, |ts|);
    RunCallsCompare(ts, features, |ts|);
  }

  lemma AskedRise(ts: seq<Template>, features: map<int, Feature>, k: nat, l: nat)
    requires Ordered(ts) && k < l < |Compared(ts, features)|
    ensures Rises(Compared(ts, features)[k], Compared(ts, features)[l])
  {
    ComparisonsInRange(ts, features);
    ComparisonsRise(ts, features, |ts|);
    assert Earlier(Comparisons(ts, features, |ts|)[k], Comparisons(ts, features, |ts|)[l]);
    var ns, cs := Comparisons(ts, features, |ts|), Compared(ts, features);
    assert cs[k] == (ts[ns[k].0], ts[ns[k].1]) && cs[l] == (ts[ns[l].0], ts[ns[l].1]);
  }

  lemma AskedExactly(ts: seq<Template>, features: map<int, Feature>, t: Template, u: Template)
    requires Ordered(ts)
    ensures (t, u) in Compared(ts, features) <==>
      t in ts && u in ts && t.unmatched && t.feature in features && t.id != u.id && !(u.id < t.id && u.unmatched)
  {
    hide Comparisons, Compared;
    var ns, cs := Comparisons(ts, features, |ts|), Compared(ts, features);
    if (t, u) in cs {
      var k :| 0 <= k < |cs| && cs[k] == (t, u);
      var i, j := ns[k].0, ns[k].1;
      assert (i, j) == ns[k] && ns[k] in ns;
      ComparisonsHold(ts, features, |ts|, i, j);
    }
    if t in ts && u in ts && t.unmatched && t.feature in features && t.id != u.id && !(u.id < t.id && u.unmatched) {
      var i: nat :| i < |ts| && ts[i] == t;
      var j: nat :| j < |ts| && ts[j] == u;
      ComparisonsHold(ts, features, |ts|, i, j);
      var k :| 0 <= k < |ns| && ns[k] == (i, j);
      assert cs[k] == (ts[i], ts[j]);
    }
  }

  /** The rows a run writes, from the scores the matcher gave it. */
  lemma RowsAreFromScores(ts: seq<Template>, features: map<int, Feature>, band: Band, log: seq<Scored>,
                          before: seq<Row>, after: seq<Row>, origin: Origin)
    requires InRange(ts, log)
    requires after == before + RowsFor(Fresh(ts, features, band, SystemKeys(before), log), origin)
    requires forall k :: 0 <= k < |log| ==> RowIfJudged(ts, features, band, after, log[k])
    ensures RowsFromScores(features, band, Named(ts, log), before, after, origin)
  {
    hide Fresh, Judged, Picked, Reaches, SystemKeys;
    var ss, cs := Named(ts, log), Fresh(ts, features, band, SystemKeys(before), log);
    forall t {:trigger ss[t]} | 0 <= t < |ss| && Reaches(features, band, ss[t])
      ensures RowAbout(features, ss[t], after)
    {
      JudgedSays(ts, features, band, log[t]);
      assert RowIfJudged(ts, features, band, after, log[t]);
      var c := Judged(ts, features, band, log[t]).value;
      assert HasRow(after, c.a, c.b);
    }
    var picks := FreshPicks(ts, features, band, SystemKeys(before), log);
    assert after[|before|..] == RowsFor(cs, origin);
    assert RowsPicked(features, band, ss, RowsFor(cs, origin), origin, picks);
  }

  ghost predicate RowIfJudged(ts: seq<Template>, features: map<int, Feature>, band: Band, rows: seq<Row>, s: Scored) {
    s.probe < |ts| && s.cand < |ts| &&
      match Judged(ts, features, band, s) { case None => true case Some(c) => HasRow(rows, c.a, c.b) }
  }

  /** existingSystemPairs. */
  method ExistingSystemPairs(rows: seq<Row>) returns (keys: set<string>)
    ensures keys == SystemKeys(rows)
  {
    hide Key;
    keys := {};
    for i := 0 to |rows|
      invariant keys == SystemKeys(rows[..i])
    {
      ghost var before, after := rows[..i], rows[..i + 1];
      assert after == before + [rows[i]];
      if rows[i].System? {
        keys := keys + {Key(rows[i].candidate.a, rows[i].candidate.b)};
        assert after[i] == rows[i];
      }
      forall k | 0 <= k < i && rows[k].System?
        ensures Key(rows[k].candidate.a, rows[k].candidate.b) in SystemKeys(after)
      {
        assert after[k] == rows[k];
      }
    }
    assert rows[..|rows|] == rows;
  }

  lemma MoreKnown(ts: seq<Template>, us: seq<Template>, side: Side)
    requires Known(ts, side) && |ts| <= |us|
    requires forall i :: 0 <= i < |ts| ==> us[i].id == ts[i].id && ts[i].version <= us[i].version
    ensures Known(us, side)
  {
    var i :| 0 <= i < |ts| && ts[i].id == side.0 && side.1 <= ts[i].version;
    assert us[i].id == side.0;
  }

  lemma OldVersions(ts: seq<Template>, side: Side, at: nat)
    requires Ordered(ts) && Known(ts, side) && at < |ts|
    ensures side.0 == ts[at].id ==> side.1 <= ts[at].version
  {
    var i :| 0 <= i < |ts| && ts[i].id == side.0 && side.1 <= ts[i].version;
    assert i < at ==> ts[i].id < ts[at].id;
    assert at < i ==> ts[at].id < ts[i].id;
  }
}
