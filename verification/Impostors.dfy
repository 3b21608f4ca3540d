/** bulk/calibrate.go and bulk/identity.go: counting the comparisons between different people. */
module Impostors {
  import opened Options

  /** A matched face: the document it came from and its identity key, if its record has one. */
  datatype Label = Label(document: int, key: Option<string>)

  datatype Relation = SAME | DIFFERENT | UNKNOWN

  /** The text before the first ':', as split_part(key, ':', 1). */
  function Kind(key: string): string {
    if key == [] || key[0] == ':' then [] else [key[0]] + Kind(key[1..])
  }

  /** The key goes on after kind with a colon, its first, or ends there. */
  predicate KindIs(key: string, kind: string) {
    kind <= key && ':' !in kind && (|kind| < |key| ==> key[|kind|] == ':')
  }

  /** A key's kind is the text before its first colon. */
  lemma {:induction false} KindExactly(key: string)
    ensures forall kind :: KindIs(key, kind) <==> kind == Kind(key)
  {
    KindBefore(key);
    forall kind | KindIs(key, kind)
      ensures kind == Kind(key)
    {
      NoLonger(key, kind, Kind(key));
      NoLonger(key, Kind(key), kind);
      assert kind == key[..|kind|] && Kind(key) == key[..|Kind(key)|];
    }
  }

  /** What goes past the first colon holds one. */
  lemma NoLonger(key: string, kind: string, other: string)
    requires KindIs(key, kind) && other <= key && ':' !in other
    ensures |other| <= |kind|
  {
    assert forall i :: 0 <= i < |other| ==> other[i] == key[i] && other[i] in other;
  }

  lemma {:induction false} KindBefore(key: string)
    ensures KindIs(key, Kind(key))
  {
    if key != [] && key[0] != ':' {
      KindBefore(key[1..]);
      assert key == [key[0]] + key[1..];
    }
  }

  lemma KindExample()
    ensures Kind("fiscal:123") == "fiscal"
  {
    KindExactly("fiscal:123");
    assert KindIs("fiscal:123", "fiscal") by { assert "fiscal:123"[..6] == "fiscal"; }
  }

  function Relate(x: Label, y: Label): Relation {
    if x.document == y.document || (x.key.Some? && x.key == y.key) then SAME
    else if x.key.Some? && y.key.Some? && Kind(x.key.value) == Kind(y.key.value) then DIFFERENT
    else UNKNOWN
  }

  /** The two are of one document, or have one key. */
  predicate Together(x: Label, y: Label) {
    x.document == y.document || (x.key.Some? && y.key.Some? && x.key.value == y.key.value)
  }

  /** The two have different keys that begin alike up to the colon, and different documents. */
  ghost predicate ToldApart(x: Label, y: Label) {
    && x.document != y.document && x.key.Some? && y.key.Some? && x.key.value != y.key.value
    && exists kind :: KindIs(x.key.value, kind) && KindIs(y.key.value, kind)
  }

  /** SAME, DIFFERENT and UNKNOWN, field by field. */
  lemma RelateExactly(x: Label, y: Label)
    ensures Relate(x, y) == SAME <==> Together(x, y)
    ensures Relate(x, y) == DIFFERENT <==> ToldApart(x, y)
    ensures Relate(x, y) == UNKNOWN <==> !Together(x, y) && !ToldApart(x, y)
  {
    if x.key.Some? && y.key.Some? {
      KindExactly(x.key.value);
      KindExactly(y.key.value);
      hide Kind, KindIs;
      assert KindIs(x.key.value, Kind(x.key.value)) && KindIs(y.key.value, Kind(y.key.value));
    }
  }

  // ------------------------------------------------------------------------ grouping and summing

  /** The rows of one group; rows whose value is null are in none. */
  ghost function Rows<K>(xs: seq<Option<K>>, k: K): set<int> {
    set i | 0 <= i < |xs| && xs[i] == Some(k)
  }

  /** COUNT(*) AS n and n * (n - 1) / 2 for one group. */
  ghost function GroupTerm<K>(xs: seq<Option<K>>, k: K): int {
    |Rows(xs, k)| * (|Rows(xs, k)| - 1) / 2
  }

  ghost function Pick<K(!new)>(groups: set<K>): (k: K)
    requires groups != {}
    ensures k in groups
  {
    var k :| k in groups; k
  }

  ghost function SumTerms<K(!new)>(groups: set<K>, xs: seq<Option<K>>): int {
    if groups == {} then 0 else var k := Pick(groups); GroupTerm(xs, k) + SumTerms(groups - {k}, xs)
  }

  ghost function Groups<K>(xs: seq<Option<K>>): set<K> {
    set i | 0 <= i < |xs| && xs[i].Some? :: xs[i].value
  }

  /** SELECT SUM(n * (n - 1) / 2) FROM (SELECT COUNT(*) AS n ... GROUP BY the column). */
  ghost function GroupSum<K(!new)>(xs: seq<Option<K>>): int {
    SumTerms(Groups(xs), xs)
  }

  /** The pairs of rows with the same, non-null, value. */
  ghost function EqualPairs<K>(xs: seq<Option<K>>): set<(int, int)> {
    set i, j | 0 <= i < j < |xs| && xs[i].Some? && xs[i] == xs[j] :: (i, j)
  }

  ghost function PairsIn(s: set<int>): set<(int, int)> {
    set i, j | i in s && j in s && i < j :: (i, j)
  }

  ghost function Ending(s: set<int>, top: int): set<(int, int)> {
    set i | i in s :: (i, top)
  }

  lemma {:induction false} PairsInSize(s: set<int>)
    ensures |PairsIn(s)| == |s| * (|s| - 1) / 2
    decreases |s|
  {
    if s == {} {
      assert PairsIn(s) == {};
    } else {
      var top := Largest(s);
      var rest := s - {top};
      PairsInSize(rest);
      With(rest, top);
      OneMoreRow(s, top);
      Triangular(|rest|);
      hide PairsIn;
    }
  }

  lemma OneMoreRow(s: set<int>, top: int)
    requires top in s && forall i :: i in s ==> i <= top
    ensures |PairsIn(s)| == |PairsIn(s - {top})| + |Ending(s - {top}, top)|
  {
    var rest, added := PairsIn(s - {top}), Ending(s - {top}, top);
    assert PairsIn(s) == rest + added;
    assert rest !! added;
  }

  lemma Triangular(n: nat)
    ensures n * (n - 1) / 2 + n == (n + 1) * n / 2
  {
    assert n * (n - 1) + 2 * n == (n + 1) * n;
  }

  lemma {:induction false} Largest(s: set<int>) returns (top: int)
    requires s != {}
    ensures top in s && forall i :: i in s ==> i <= top
    decreases |s|
  {
    top := Pick(s);
    var rest := s - {top};
    assert s == rest + {top};
    if rest != {} {
      var other := Largest(rest);
      top := if other > top then other else top;
    }
  }

  lemma {:induction false} With(s: set<int>, top: int)
    ensures |Ending(s, top)| == |s|
    decreases |s|
  {
    var pairs := Ending(s, top);
    if s == {} {
      assert pairs == {};
    } else {
      var e := Pick(s);
      With(s - {e}, top);
      var fewer := Ending(s - {e}, top);
      assert (e, top) !in fewer && pairs == fewer + {(e, top)};
    }
  }

  /** The equal pairs whose value is one of groups. */
  ghost function PairsAmong<K(!new)>(groups: set<K>, xs: seq<Option<K>>): set<(int, int)> {
    set p | p in EqualPairs(xs) && xs[p.0].value in groups
  }

  lemma {:induction false} SumIsPairs<K(!new)>(groups: set<K>, xs: seq<Option<K>>)
    ensures SumTerms(groups, xs) == |PairsAmong(groups, xs)|
    decreases |groups|
  {
    if groups == {} {
      assert PairsAmong(groups, xs) == {};
    } else {
      var k := Pick(groups);
      SumIsPairs(groups - {k}, xs);
      PairsInSize(Rows(xs, k));
      OneMoreGroup(groups, k, xs);
    }
  }

  lemma OneMoreGroup<K(!new)>(groups: set<K>, k: K, xs: seq<Option<K>>)
    requires k in groups
    ensures |PairsAmong(groups, xs)| == |PairsAmong(groups - {k}, xs)| + |PairsIn(Rows(xs, k))|
  {
    var rest, mine := PairsAmong(groups - {k}, xs), PairsIn(Rows(xs, k));
    forall p | p in PairsAmong(groups, xs)
      ensures p in rest + mine
    {
      if xs[p.0] == Some(k) { assert p.0 in Rows(xs, k) && p.1 in Rows(xs, k); }
    }
    assert forall p :: p in mine ==> p.0 in Rows(xs, k);
    assert rest !! mine;
    assert PairsAmong(groups, xs) == rest + mine;
  }

  /** Grouping by a column counts exactly the pairs of rows that agree on it. */
  lemma GroupSumIsPairs<K(!new)>(xs: seq<Option<K>>)
    ensures GroupSum(xs) == |EqualPairs(xs)|
  {
    SumIsPairs(Groups(xs), xs);
    forall p | p in EqualPairs(xs)
      ensures xs[p.0].value in Groups(xs)
    {}
    assert PairsAmong(Groups(xs), xs) == EqualPairs(xs);
  }

  // --------------------------------------------------------------------------------- the formula

  function Column<K>(lab: seq<Label>, f: Label -> Option<K>): (xs: seq<Option<K>>)
    ensures |xs| == |lab| && forall i :: 0 <= i < |lab| ==> xs[i] == f(lab[i])
  {
    seq(|lab|, i requires 0 <= i < |lab| => f(lab[i]))
  }

  function KeyColumn(l: Label): Option<string> { l.key }

  function KindColumn(l: Label): Option<string> {
    if l.key.Some? then Some(Kind(l.key.value)) else None
  }

  function DocumentKindColumn(l: Label): Option<(int, string)> {
    if l.key.Some? then Some((l.document, Kind(l.key.value))) else None
  }

  function DocumentKeyColumn(l: Label): Option<(int, string)> {
    if l.key.Some? then Some((l.document, l.key.value)) else None
  }

  /** All pairs with keys of one kind, less those sharing a key, less those sharing a document and a
    * kind, plus those sharing a document and a key. */
  ghost function ImpostorComparisons(lab: seq<Label>): int {
    GroupSum(Column(lab, KindColumn)) - GroupSum(Column(lab, KeyColumn))
    - GroupSum(Column(lab, DocumentKindColumn)) + GroupSum(Column(lab, DocumentKeyColumn))
  }

  ghost function DifferentPairs(lab: seq<Label>): set<(int, int)> {
    set i, j | 0 <= i < j < |lab| && Relate(lab[i], lab[j]) == DIFFERENT :: (i, j)
  }

  /** The four-term formula is the number of pairs of faces classified DIFFERENT. */
  lemma FormulaCountsDifferent(lab: seq<Label>)
    ensures ImpostorComparisons(lab) == |DifferentPairs(lab)|
    ensures forall i, j :: (i, j) in DifferentPairs(lab) <==> 0 <= i < j < |lab| && ToldApart(lab[i], lab[j])
  {
    forall i, j
      ensures (i, j) in DifferentPairs(lab) <==> 0 <= i < j < |lab| && ToldApart(lab[i], lab[j])
    {
      if 0 <= i < j < |lab| { RelateExactly(lab[i], lab[j]); }
    }
    hide GroupSum, Kind, ToldApart;
    var byKind, byKey := Column(lab, KindColumn), Column(lab, KeyColumn);
    var byDocumentKind, byDocumentKey := Column(lab, DocumentKindColumn), Column(lab, DocumentKeyColumn);
    GroupSumIsPairs(byKind);
    GroupSumIsPairs(byKey);
    GroupSumIsPairs(byDocumentKind);
    GroupSumIsPairs(byDocumentKey);
    var a, b, c, d := EqualPairs(byKind), EqualPairs(byKey), EqualPairs(byDocumentKind), EqualPairs(byDocumentKey);
    PairsCompared(lab);
    Inclusion(a, b, c);
  }

  /** A pair differs when it agrees on the kind but on neither the key nor the document. */
  lemma PairsCompared(lab: seq<Label>)
    ensures var a, b := EqualPairs(Column(lab, KindColumn)), EqualPairs(Column(lab, KeyColumn));
            var c, d := EqualPairs(Column(lab, DocumentKindColumn)), EqualPairs(Column(lab, DocumentKeyColumn));
            b <= a && c <= a && b * c == d && DifferentPairs(lab) == a - (b + c)
  {
    hide Kind;
  }

  lemma Inclusion(a: set<(int, int)>, b: set<(int, int)>, c: set<(int, int)>)
    requires b <= a && c <= a
    ensures |a - (b + c)| == |a| - |b| - |c| + |b * c|
  {
    assert a == (a - (b + c)) + (b + c);
    assert |b + c| == |b| + |c| - |b * c|;
  }

  // -------------------------------------------------------------------------- keys shared by many

  /** How many labels carry key k. */
  ghost function KeySize(labels: seq<Label>, k: string): nat {
    |Rows(Column(labels, KeyColumn), k)|
  }

  /** lab: the labels, with a key more than maxGroup of them share set aside. */
  ghost function Lab(labels: seq<Label>, maxGroup: int): (lab: seq<Label>)
    ensures |lab| == |labels|
  {
    var most := if maxGroup <= 0 then 100 else maxGroup;
    seq(|labels|, i requires 0 <= i < |labels| =>
      if labels[i].key.Some? && KeySize(labels, labels[i].key.value) > most then labels[i].(key := None) else labels[i])
  }

  /** A label's key is set aside exactly when more of them carry it than the limit, 100 when none is given;
    * its document stays. */
  lemma SetAsideExactly(labels: seq<Label>, maxGroup: int, i: int)
    requires 0 <= i < |labels|
    ensures Lab(labels, maxGroup)[i].document == labels[i].document
    ensures var most := if maxGroup <= 0 then 100 else maxGroup;
      var many := labels[i].key.Some? && |set j | 0 <= j < |labels| && labels[j].key == labels[i].key| > most;
      Lab(labels, maxGroup)[i].key == if many then None else labels[i].key
  {
    if labels[i].key.Some? {
      var k := labels[i].key.value;
      assert Rows(Column(labels, KeyColumn), k) == set j | 0 <= j < |labels| && labels[j].key == labels[i].key;
    }
  }

  /** No comparison counted as an impostor's uses a key that was set aside. */
  lemma CountedKeysAreSmall(labels: seq<Label>, maxGroup: int, i: int, j: int)
    requires (i, j) in DifferentPairs(Lab(labels, maxGroup))
    ensures 0 <= i < j < |labels| && Relate(labels[i], labels[j]) == DIFFERENT
    ensures var most := if maxGroup <= 0 then 100 else maxGroup;
            KeySize(labels, labels[i].key.value) <= most && KeySize(labels, labels[j].key.value) <= most
  {
    hide Kind, KeySize;
  }

  // -------------------------------------------------------------------------- cumulative counts

  function Sum(h: seq<int>): int {
    if h == [] then 0 else h[0] + Sum(h[1..])
  }

  function Clamp(bin: int, top: int): int {
    if bin < 0 then 0 else if bin > top then top else bin
  }

  /** The count of the rows whose bin, clamped, is i or more. */
  function RowsAbove(rows: seq<(int, int)>, top: int, i: int): int {
    if rows == [] then 0
    else (if Clamp(rows[|rows| - 1].0, top) >= i then rows[|rows| - 1].1 else 0) + RowsAbove(rows[..|rows| - 1], top, i)
  }

  /** The count of the rows whose bin, as given, is i or more. */
  function CountFrom(rows: seq<(int, int)>, i: int): int {
    if rows == [] then 0
    else CountFrom(rows[..|rows| - 1], i) + if rows[|rows| - 1].0 >= i then rows[|rows| - 1].1 else 0
  }

  /** The count of all rows. */
  function Total(rows: seq<(int, int)>): int {
    if rows == [] then 0 else Total(rows[..|rows| - 1]) + rows[|rows| - 1].1
  }

  lemma {:induction false} ClampedExactly(rows: seq<(int, int)>, top: nat, i: int)
    requires 0 <= i <= top
    ensures RowsAbove(rows, top, i) == if i == 0 then Total(rows) else CountFrom(rows, i)
  {
    if rows != [] { ClampedExactly(rows[..|rows| - 1], top, i); }
  }

  /** histogram: each row's count goes to its bin, clamped to the first or last. */
  method Histogram(rows: seq<(int, int)>, scoreBins: nat) returns (out: array<int>)
    ensures fresh(out) && out.Length == scoreBins + 1
    ensures forall i :: 0 <= i <= scoreBins + 1 ==> Sum(out[i..]) == RowsAbove(rows, scoreBins, i)
    ensures forall i :: 0 < i <= scoreBins ==> Sum(out[i..]) == CountFrom(rows, i)
    ensures Sum(out[0..]) == Total(rows)
  {
    forall i | 0 <= i <= scoreBins
      ensures RowsAbove(rows, scoreBins, i) == if i == 0 then Total(rows) else CountFrom(rows, i)
    {
      ClampedExactly(rows, scoreBins, i);
    }
    hide Total, CountFrom;
    out := new int[scoreBins + 1](_ => 0);
    forall i | 0 <= i <= scoreBins + 1
      ensures Sum(out[i..]) == 0
    {
      AllZero(out[i..]);
    }
    for r := 0 to |rows|
      invariant forall i :: 0 <= i <= scoreBins + 1 ==> Sum(out[i..]) == RowsAbove(rows[..r], scoreBins, i)
    {
      var bin := Clamp(rows[r].0, scoreBins);
      ghost var before := out[..];
      label Before:
      out[bin] := out[bin] + rows[r].1;
      assert rows[..r + 1][..r] == rows[..r];
      assert out[..] == before[bin := before[bin] + rows[r].1];
      forall i | 0 <= i <= scoreBins + 1
        ensures Sum(out[i..]) == RowsAbove(rows[..r + 1], scoreBins, i)
      {
        assert before[i..] == old@Before(out[i..]) && out[i..] == out[..][i..];
        RaisedFrom(before, bin, rows[r].1, i);
      }
    }
    assert rows[..|rows|] == rows;
  }

  lemma {:induction false} AllZero(h: seq<int>)
    requires forall i :: 0 <= i < |h| ==> h[i] == 0
    ensures Sum(h) == 0
  {
    if h != [] { AllZero(h[1..]); }
  }

  lemma {:induction false} Raised(h: seq<int>, i: nat, more: int)
    requires i < |h|
    ensures Sum(h[i := h[i] + more]) == Sum(h) + more
  {
    if i > 0 {
      Raised(h[1..], i - 1, more);
      assert h[i := h[i] + more][1..] == h[1..][i - 1 := h[i] + more];
    } else {
      assert h[0 := h[0] + more][1..] == h[1..];
    }
  }

  lemma RaisedFrom(h: seq<int>, bin: nat, more: int, i: nat)
    requires bin < |h| && i <= |h|
    ensures Sum(h[bin := h[bin] + more][i..]) == Sum(h[i..]) + if bin >= i then more else 0
  {
    if i <= bin {
      Raised(h[i..], bin - i, more);
      assert h[bin := h[bin] + more][i..] == h[i..][bin - i := h[bin] + more];
    } else {
      assert h[bin := h[bin] + more][i..] == h[i..];
    }
  }

  /** above: the counts at or above each bin, added up from the last bin down. */
  method Above(h: array<int>) returns (out: array<int>)
    ensures fresh(out) && out.Length == h.Length + 1
    ensures forall i :: 0 <= i <= h.Length ==> out[i] == Sum(h[i..])
  {
    out := new int[h.Length + 1](_ => 0);
    var i := h.Length;
    assert h[h.Length..] == [];
    while i > 0
      invariant 0 <= i <= h.Length
      invariant forall k :: i <= k <= h.Length ==> out[k] == Sum(h[k..])
    {
      i := i - 1;
      assert h[i..][1..] == h[i + 1..];
      out[i] := out[i + 1] + h[i];
    }
  }
}
