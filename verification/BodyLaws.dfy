/** What articles/body.go promises of a canonical body. */
module BodyLaws {
  import opened MentionKeys
  import opened Body
  import Order
  import opened Options

  // -------------------------------------------------------------------------------- the grammar

  function Rank(kind: string): nat {
    if kind == "bold" then 0 else if kind == "italic" then 1 else 2
  }

  predicate MarkFine(web: Links, m: Mark) {
    || ((m.kind == "bold" || m.kind == "italic") && m.attrs == map[])
    || (m.kind == "link" && m.attrs == map["href" := Str(Text(m.attrs, "href"))] && LinkOk(web, Text(m.attrs, "href")))
  }

  /** Known marks with nothing but their own attribute, in the one order, none twice. */
  predicate MarksFine(web: Links, ms: seq<Mark>) {
    && (forall i :: 0 <= i < |ms| ==> MarkFine(web, ms[i]))
    && (forall i, j :: 0 <= i < j < |ms| ==> Rank(ms[i].kind) < Rank(ms[j].kind))
  }

  predicate MentionFine(attrs: Attrs) {
    var kind, ref, shown := Text(attrs, "kind"), Text(attrs, "ref"), Text(attrs, "label");
    && attrs == MentionAttrs(kind, ref, shown)
    && ParseKey(kind, ref) == Some((kind, ref))
    && shown != "" && Trimmed(shown) && |shown| <= MAX_LABEL && '\0' !in shown
  }

  predicate LeafFine(web: Links, t: Node) {
    && t.content == []
    && (t.kind == "text" || NoText(t))
    && match t.kind {
         case "text" => t.attrs == map[] && t.text != "" && '\0' !in t.text && MarksFine(web, t.marks)
         case "hardBreak" => t.attrs == map[]
         case "mention" => MentionFine(t.attrs)
         case _ => false
       }
  }

  predicate BlockFine(web: Links, t: Node)
    decreases t, 1
  {
    NoText(t) && match t.kind {
      case "paragraph" => t.attrs == map[] && forall i :: 0 <= i < |t.content| ==> LeafFine(web, t.content[i])
      case "heading" =>
        && (t.attrs == map["level" := Num(2)] || t.attrs == map["level" := Num(3)])
        && forall i :: 0 <= i < |t.content| ==> LeafFine(web, t.content[i])
      case "bulletList" => t.attrs == map[] && t.content != [] && ItemsFine(web, t.content)
      case "orderedList" => StartFine(t.attrs) && t.content != [] && ItemsFine(web, t.content)
      case "blockquote" => ContainerFine(web, t, Quote, true)
      case _ => false
    }
  }

  /** A list starts at 1, unless it says another number it may start at. */
  predicate StartFine(attrs: Attrs) {
    attrs == map[] || (var start := Whole(attrs, "start");
      start.Some? && start.value != 1 && 0 <= start.value <= 1_000_000 && attrs == map["start" := Num(start.value)])
  }

  predicate ItemsFine(web: Links, ts: seq<Node>)
    decreases ts, 0
  {
    forall i :: 0 <= i < |ts| ==> ts[i].kind == "listItem" && ContainerFine(web, ts[i], Item, true)
  }

  predicate BlocksFine(web: Links, ts: seq<Node>, place: Place)
    decreases ts, 0
  {
    forall i :: 0 <= i < |ts| ==> ts[i].kind in Allowed(place) && BlockFine(web, ts[i])
  }

  predicate ContainerFine(web: Links, t: Node, place: Place, nonEmpty: bool)
    decreases t, 0
  {
    NoText(t) && t.attrs == map[] && (nonEmpty ==> t.content != []) && BlocksFine(web, t.content, place)
  }

  /** The article grammar, with its limits. */
  predicate Article(web: Links, t: Node) {
    t.kind == "doc" && ContainerFine(web, t, Top, false) && Height(t) <= MAX_DEPTH && Size(t) <= MAX_NODES
  }

  // ------------------------------------------------------------------------------ marks and leaves

  lemma CleanMarkFine(web: Links, m: Mark)
    requires CleanMark(web, m).Some?
    ensures MarkFine(web, CleanMark(web, m).value) && CleanMark(web, m).value.kind == m.kind
  {}

  lemma {:induction false} OfKindFine(web: Links, ms: seq<Mark>, kind: string)
    requires AllClean(web, ms) && NoKindTwice(ms)
    ensures |OfKind(web, ms, kind)| <= 1
    ensures forall i :: 0 <= i < |OfKind(web, ms, kind)| ==>
      OfKind(web, ms, kind)[i].kind == kind && MarkFine(web, OfKind(web, ms, kind)[i])
  {
    hide CleanMark, MarkFine;
    OfKindOne(web, ms, kind);
    if i :| 0 <= i < |ms| && ms[i].kind == kind { CleanMarkFine(web, ms[i]); }
  }

  lemma MarksComeFine(web: Links, ms: seq<Mark>)
    requires CleanMarks(web, ms).Some?
    ensures MarksFine(web, CleanMarks(web, ms).value)
  {
    OfKindFine(web, ms, "bold");
    OfKindFine(web, ms, "italic");
    OfKindFine(web, ms, "link");
    hide OfKind, MarkFine;
  }

  lemma FineMarkStays(web: Links, m: Mark)
    requires MarkFine(web, m)
    ensures CleanMark(web, m) == Some(m) && (m.kind == "bold" || m.kind == "italic" || m.kind == "link")
  {}

  lemma FineMarksStay(web: Links, ms: seq<Mark>)
    requires MarksFine(web, ms)
    ensures CleanMarks(web, ms) == Some(ms)
  {
    hide OfKind, CleanMark, MarkFine;
    forall i | 0 <= i < |ms|
      ensures CleanMark(web, ms[i]) == Some(ms[i])
      ensures (ms[i].kind == "bold" || ms[i].kind == "italic" || ms[i].kind == "link")
    {
      FineMarkStays(web, ms[i]);
    }
    OfKindOne(web, ms, "bold");
    OfKindOne(web, ms, "italic");
    OfKindOne(web, ms, "link");
    var b, i, l := OfKind(web, ms, "bold"), OfKind(web, ms, "italic"), OfKind(web, ms, "link");
    FewRanks(web, ms);
    FineInOrder(ms, b, i, l);
  }

  lemma FewRanks(web: Links, ms: seq<Mark>)
    requires MarksFine(web, ms)
    ensures |ms| <= 3
  {
    hide MarkFine;
    assert |ms| > 3 ==> Rank(ms[0].kind) < Rank(ms[1].kind) < Rank(ms[2].kind) < Rank(ms[3].kind);
  }

  /** Marks in the one order are those of each kind, one kind after another. */
  lemma FineInOrder(ms: seq<Mark>, b: seq<Mark>, i: seq<Mark>, l: seq<Mark>)
    requires |ms| <= 3 && forall j, k :: 0 <= j < k < |ms| ==> Rank(ms[j].kind) < Rank(ms[k].kind)
    requires forall k :: 0 <= k < |ms| ==> ms[k].kind == "bold" || ms[k].kind == "italic" || ms[k].kind == "link"
    requires Only(ms, b, "bold") && Only(ms, i, "italic") && Only(ms, l, "link")
    ensures b + i + l == ms
  {
    if |ms| == 0 {
    } else if |ms| == 1 {
      assert ms == [ms[0]];
    } else if |ms| == 2 {
      assert ms == [ms[0], ms[1]] && Rank(ms[0].kind) < Rank(ms[1].kind);
    } else {
      assert ms == [ms[0], ms[1], ms[2]] && Rank(ms[0].kind) < Rank(ms[1].kind) < Rank(ms[2].kind);
    }
  }

  /** part is the mark of this kind, or nothing when there is none. */
  ghost predicate Only(ms: seq<Mark>, part: seq<Mark>, kind: string) {
    && ((forall k :: 0 <= k < |ms| ==> ms[k].kind != kind) ==> part == [])
    && (forall k :: 0 <= k < |ms| && ms[k].kind == kind ==> part == [ms[k]])
  }

  lemma MentionComesFine(attrs: Attrs)
    requires MentionOf(attrs).Some?
    ensures MentionFine(MentionOf(attrs).value)
  {
    hide ParseKey, TrimSpace;
    ParsedAgain(Text(attrs, "kind"), Text(attrs, "ref"));
  }

  lemma FineMentionStays(attrs: Attrs)
    requires MentionFine(attrs)
    ensures MentionOf(attrs) == Some(attrs)
  {
    hide ParseKey;
  }

  lemma LeafComesFine(web: Links, n: Node, depth: nat)
    requires CleanLeaf(web, n, depth).Some?
    ensures LeafFine(web, CleanLeaf(web, n, depth).value) && depth <= MAX_DEPTH
    ensures Height(CleanLeaf(web, n, depth).value) == 0
  {
    hide CleanMarks, MarksFine, MentionOf, MentionFine;
    if n.kind == "text" { MarksComeFine(web, n.marks); }
    if n.kind == "mention" { MentionComesFine(n.attrs); }
  }

  lemma FineLeafStays(web: Links, t: Node, depth: nat)
    requires LeafFine(web, t) && depth <= MAX_DEPTH
    ensures CleanLeaf(web, t, depth) == Some(t)
  {
    hide CleanMarks, MarksFine, MentionOf, MentionFine;
    if t.kind == "text" { FineMarksStay(web, t.marks); }
    if t.kind == "mention" { FineMentionStays(t.attrs); }
  }

  // --------------------------------------------------------------- every result is in the grammar

  lemma {:induction false} LeavesComeFine(web: Links, ns: seq<Node>, depth: nat)
    requires depth <= MAX_DEPTH && CleanLeaves(web, ns, depth + 1).Some?
    ensures var ts := CleanLeaves(web, ns, depth + 1).value;
            (forall i :: 0 <= i < |ts| ==> LeafFine(web, ts[i])) && depth + Heights(ts) <= MAX_DEPTH
  {
    hide CleanLeaf, LeafFine;
    if ns != [] {
      LeafComesFine(web, ns[0], depth + 1);
      LeavesComeFine(web, ns[1..], depth);
      var t, rest := CleanLeaf(web, ns[0], depth + 1).value, CleanLeaves(web, ns[1..], depth + 1).value;
      assert ([t] + rest)[1..] == rest;
    }
  }

  lemma {:induction false} BlockComesFine(web: Links, n: Node, depth: nat)
    requires CleanBlock(web, n, depth).Some?
    ensures var t := CleanBlock(web, n, depth).value;
            BlockFine(web, t) && t.kind == n.kind && depth + Height(t) <= MAX_DEPTH
    decreases n, 1
  {
    hide CleanContainer, ContainerFine, CleanItems, ItemsFine, CleanLeaves, LeafFine;
    if n.kind == "paragraph" || n.kind == "heading" {
      LeavesComeFine(web, n.content, depth);
    } else if n.kind == "blockquote" {
      ContainerComesFine(web, n, Quote, depth, true);
      QuoteNoText(web, n, depth);
    } else {
      ItemsComeFine(web, n.content, depth);
    }
  }

  lemma QuoteNoText(web: Links, n: Node, depth: nat)
    requires CleanContainer(web, n, Quote, depth, true).Some?
    ensures NoText(CleanContainer(web, n, Quote, depth, true).value)
  {
    hide CleanBlocks;
  }

  lemma {:induction false} ContainerComesFine(web: Links, n: Node, place: Place, depth: nat, nonEmpty: bool)
    requires CleanContainer(web, n, place, depth, nonEmpty).Some?
    ensures var t := CleanContainer(web, n, place, depth, nonEmpty).value;
            ContainerFine(web, t, place, nonEmpty) && t.kind == n.kind && depth + Height(t) <= MAX_DEPTH
    decreases n, 0
  {
    hide CleanBlocks, BlocksFine;
    BlocksComeFine(web, n.content, place, depth);
  }

  lemma {:induction false} BlocksComeFine(web: Links, ns: seq<Node>, place: Place, depth: nat)
    requires depth <= MAX_DEPTH && CleanBlocks(web, ns, place, depth + 1).Some?
    ensures var ts := CleanBlocks(web, ns, place, depth + 1).value;
            BlocksFine(web, ts, place) && |ts| == |ns| && depth + Heights(ts) <= MAX_DEPTH
    decreases ns, 0
  {
    hide CleanBlock, BlockFine;
    if ns != [] {
      BlockComesFine(web, ns[0], depth + 1);
      BlocksComeFine(web, ns[1..], place, depth);
      var t, rest := CleanBlock(web, ns[0], depth + 1).value, CleanBlocks(web, ns[1..], place, depth + 1).value;
      assert ([t] + rest)[1..] == rest;
    }
  }

  lemma {:induction false} ItemsComeFine(web: Links, ns: seq<Node>, depth: nat)
    requires depth <= MAX_DEPTH && CleanItems(web, ns, depth + 1).Some?
    ensures var ts := CleanItems(web, ns, depth + 1).value;
            ItemsFine(web, ts) && |ts| == |ns| && depth + Heights(ts) <= MAX_DEPTH
    decreases ns, 0
  {
    hide CleanContainer, ContainerFine;
    if ns != [] {
      ContainerComesFine(web, ns[0], Item, depth + 1, true);
      ItemsComeFine(web, ns[1..], depth);
      var t, rest := CleanContainer(web, ns[0], Item, depth + 1, true).value, CleanItems(web, ns[1..], depth + 1).value;
      assert ([t] + rest)[1..] == rest;
    }
  }

  // ------------------------------------------------------------ the grammar's trees are unchanged

  lemma {:induction false} FineLeavesStay(web: Links, ts: seq<Node>, depth: nat)
    requires (forall i :: 0 <= i < |ts| ==> LeafFine(web, ts[i])) && depth + Heights(ts) <= MAX_DEPTH
    ensures CleanLeaves(web, ts, depth + 1) == Some(ts)
  {
    hide CleanLeaf, LeafFine;
    if ts != [] {
      FineLeafStays(web, ts[0], depth + 1);
      FineLeavesStay(web, ts[1..], depth);
      assert [ts[0]] + ts[1..] == ts;
    }
  }

  lemma {:induction false} FineBlockStays(web: Links, t: Node, depth: nat)
    requires BlockFine(web, t) && depth + Height(t) <= MAX_DEPTH
    ensures CleanBlock(web, t, depth) == Some(t)
    decreases t, 1
  {
    hide CleanContainer, ContainerFine, CleanItems, ItemsFine, CleanLeaves, LeafFine;
    if t.kind == "paragraph" || t.kind == "heading" {
      FineLeavesStay(web, t.content, depth);
    } else if t.kind == "blockquote" {
      FineContainerStays(web, t, Quote, depth, true);
    } else {
      FineItemsStay(web, t.content, depth);
    }
  }

  lemma {:induction false} FineContainerStays(web: Links, t: Node, place: Place, depth: nat, nonEmpty: bool)
    requires ContainerFine(web, t, place, nonEmpty) && depth + Height(t) <= MAX_DEPTH
    ensures CleanContainer(web, t, place, depth, nonEmpty) == Some(t)
    decreases t, 0
  {
    hide CleanBlocks, BlocksFine;
    FineBlocksStay(web, t.content, place, depth);
  }

  lemma {:induction false} FineBlocksStay(web: Links, ts: seq<Node>, place: Place, depth: nat)
    requires BlocksFine(web, ts, place) && depth + Heights(ts) <= MAX_DEPTH
    ensures CleanBlocks(web, ts, place, depth + 1) == Some(ts)
    decreases ts, 0
  {
    hide CleanBlock, BlockFine;
    if ts != [] {
      FineBlockStays(web, ts[0], depth + 1);
      FineBlocksStay(web, ts[1..], place, depth);
      assert [ts[0]] + ts[1..] == ts;
    }
  }

  lemma {:induction false} FineItemsStay(web: Links, ts: seq<Node>, depth: nat)
    requires ItemsFine(web, ts) && depth + Heights(ts) <= MAX_DEPTH
    ensures CleanItems(web, ts, depth + 1) == Some(ts)
    decreases ts, 0
  {
    hide CleanContainer, ContainerFine;
    if ts != [] {
      FineContainerStays(web, ts[0], Item, depth + 1, true);
      FineItemsStay(web, ts[1..], depth);
      assert [ts[0]] + ts[1..] == ts;
    }
  }

  /** The articles are exactly the results, and the trees the normaliser leaves as they are. */
  lemma CanonicalExactly(web: Links, t: Node)
    ensures Article(web, t) <==> Canonical(web, t) == Some(t)
    ensures Article(web, t) <==> exists doc :: Canonical(web, doc) == Some(t)
  {
    hide CleanContainer, ContainerFine;
    if Article(web, t) { FineContainerStays(web, t, Top, 0, false); }
    forall doc | Canonical(web, doc) == Some(t)
      ensures Article(web, t)
    {
      ContainerComesFine(web, doc, Top, 0, false);
    }
  }

  /** Normalising again changes nothing. */
  lemma NormalisedAgain(web: Links, doc: Node)
    requires Canonical(web, doc).Some?
    ensures Canonical(web, Canonical(web, doc).value) == Canonical(web, doc)
  {
    hide Canonical, Article;
    CanonicalExactly(web, Canonical(web, doc).value);
  }

  // ------------------------------------------------- what the result does not depend on

  /** The attributes the schema knows of each kind of node. */
  function KnownOf(kind: string): set<string> {
    if kind == "heading" then {"level"}
    else if kind == "orderedList" then {"start"}
    else if kind == "mention" then {"kind", "ref", "label"}
    else {}
  }

  function Restrict(attrs: Attrs, keys: set<string>): Attrs {
    map k | k in attrs && k in keys :: attrs[k]
  }

  function PlainMark(m: Mark): Mark {
    Mark(m.kind, Restrict(m.attrs, if m.kind == "link" then {"href"} else {}))
  }

  function PlainMarks(ms: seq<Mark>): (r: seq<Mark>)
    ensures |r| == |ms| && forall i :: 0 <= i < |ms| ==> r[i] == PlainMark(ms[i])
  {
    seq(|ms|, i requires 0 <= i < |ms| => PlainMark(ms[i]))
  }

  /** The nodes differ at most in attributes the schema does not know and in the order of the marks. */
  ghost predicate SameNode(n: Node, m: Node)
    decreases n
  {
    && n.kind == m.kind && n.text == m.text
    && Restrict(n.attrs, KnownOf(n.kind)) == Restrict(m.attrs, KnownOf(n.kind))
    && multiset(PlainMarks(n.marks)) == multiset(PlainMarks(m.marks))
    && SameNodes(n.content, m.content)
  }

  ghost predicate SameNodes(ns: seq<Node>, ms: seq<Node>)
    decreases ns
  {
    |ns| == |ms| && (ns == [] || (SameNode(ns[0], ms[0]) && SameNodes(ns[1..], ms[1..])))
  }

  lemma SameRead(a: Attrs, b: Attrs, keys: set<string>, key: string)
    requires Restrict(a, keys) == Restrict(b, keys) && key in keys
    ensures Text(a, key) == Text(b, key) && Whole(a, key) == Whole(b, key)
  {
    assert key in Restrict(a, keys) <==> key in a;
    assert key in Restrict(b, keys) <==> key in b;
    if key in a { assert Restrict(a, keys)[key] == a[key] && Restrict(b, keys)[key] == b[key]; }
  }

  lemma SameMark(web: Links, m: Mark, n: Mark)
    requires PlainMark(m) == PlainMark(n)
    ensures m.kind == n.kind && CleanMark(web, m) == CleanMark(web, n)
  {
    if m.kind == "link" { SameRead(m.attrs, n.attrs, {"href"}, "href"); }
  }

  /** Each mark of ms is, up to unknown attributes, one of ns. */
  lemma Counterpart(ms: seq<Mark>, ns: seq<Mark>, i: nat) returns (j: nat)
    requires multiset(PlainMarks(ms)) == multiset(PlainMarks(ns)) && i < |ms|
    ensures j < |ns| && PlainMark(ms[i]) == PlainMark(ns[j])
  {
    hide PlainMark;
    assert PlainMarks(ms)[i] in multiset(PlainMarks(ns));
    j :| j < |ns| && PlainMarks(ns)[j] == PlainMarks(ms)[i];
  }

  lemma SameAllClean(web: Links, ms: seq<Mark>, ns: seq<Mark>)
    requires multiset(PlainMarks(ms)) == multiset(PlainMarks(ns)) && AllClean(web, ms)
    ensures AllClean(web, ns)
  {
    hide CleanMark, PlainMark;
    forall i | 0 <= i < |ns|
      ensures CleanMark(web, ns[i]).Some?
    {
      var j := Counterpart(ns, ms, i);
      SameMark(web, ns[i], ms[j]);
    }
  }

  lemma SameNoKindTwice(ms: seq<Mark>, ns: seq<Mark>)
    requires multiset(PlainMarks(ms)) == multiset(PlainMarks(ns)) && NoKindTwice(ms)
    ensures NoKindTwice(ns)
  {
    hide PlainMark;
    var ps, qs := PlainMarks(ms), PlainMarks(ns);
    forall i, j | 0 <= i < j < |ps|
      ensures ps[i] != ps[j]
    {
      PlainKind(ms[i]);
      PlainKind(ms[j]);
    }
    Order.NoRepeatsMultiset(ps);
    forall x | x in qs
      ensures multiset(qs)[x] == 1
    {
      assert x in multiset(qs);
      assert x in ps;
    }
    Order.NoRepeatsMultiset(qs);
    forall i, j | 0 <= i < j < |ns|
      ensures ns[i].kind != ns[j].kind
    {
      var k := Counterpart(ns, ms, i);
      var l := Counterpart(ns, ms, j);
      PlainKind(ns[i]);
      PlainKind(ns[j]);
      PlainKind(ms[k]);
      PlainKind(ms[l]);
      assert qs[i] != qs[j];
      assert ps[k] == qs[i] && ps[l] == qs[j];
    }
  }

  lemma PlainKind(m: Mark)
    ensures PlainMark(m).kind == m.kind
  {}

  lemma SameOfKind(web: Links, ms: seq<Mark>, ns: seq<Mark>, kind: string)
    requires multiset(PlainMarks(ms)) == multiset(PlainMarks(ns))
    requires AllClean(web, ms) && NoKindTwice(ms) && AllClean(web, ns) && NoKindTwice(ns)
    ensures OfKind(web, ms, kind) == OfKind(web, ns, kind)
  {
    hide CleanMark, PlainMark, OfKind;
    OfKindOne(web, ms, kind);
    OfKindOne(web, ns, kind);
    if i :| 0 <= i < |ms| && ms[i].kind == kind {
      var j := Counterpart(ms, ns, i);
      SameMark(web, ms[i], ns[j]);
    } else if i :| 0 <= i < |ns| && ns[i].kind == kind {
      var j := Counterpart(ns, ms, i);
      SameMark(web, ns[i], ms[j]);
    }
  }

  /** Neither the order of the marks nor their unknown attributes matter. */
  lemma SameMarks(web: Links, ms: seq<Mark>, ns: seq<Mark>)
    requires multiset(PlainMarks(ms)) == multiset(PlainMarks(ns))
    ensures CleanMarks(web, ms) == CleanMarks(web, ns)
  {
    hide CleanMark, PlainMark, OfKind, AllClean, NoKindTwice;
    if AllClean(web, ms) { SameAllClean(web, ms, ns); }
    if AllClean(web, ns) { SameAllClean(web, ns, ms); }
    if NoKindTwice(ms) { SameNoKindTwice(ms, ns); }
    if NoKindTwice(ns) { SameNoKindTwice(ns, ms); }
    if AllClean(web, ms) && NoKindTwice(ms) {
      SameOfKind(web, ms, ns, "bold");
      SameOfKind(web, ms, ns, "italic");
      SameOfKind(web, ms, ns, "link");
    }
  }

  lemma SameShape(n: Node, m: Node)
    requires SameNode(n, m)
    ensures n.kind == m.kind && NoText(n) == NoText(m) && |n.content| == |m.content| && SameNodes(n.content, m.content)
    ensures BlockAttrs(n) == BlockAttrs(m)
  {
    assert |PlainMarks(n.marks)| == |multiset(PlainMarks(n.marks))| == |multiset(PlainMarks(m.marks))| ==
      |PlainMarks(m.marks)|;
    if n.kind == "heading" { SameRead(n.attrs, m.attrs, KnownOf(n.kind), "level"); }
    if n.kind == "orderedList" { SameRead(n.attrs, m.attrs, KnownOf(n.kind), "start"); }
    hide Restrict, PlainMarks;
  }

  lemma SameLeaf(web: Links, n: Node, m: Node, depth: nat)
    requires SameNode(n, m)
    ensures CleanLeaf(web, n, depth) == CleanLeaf(web, m, depth)
  {
    hide CleanMarks, BlockAttrs, ParseKey, TrimSpace, Restrict;
    SameShape(n, m);
    SameMarks(web, n.marks, m.marks);
    if n.kind == "mention" {
      SameRead(n.attrs, m.attrs, KnownOf(n.kind), "kind");
      SameRead(n.attrs, m.attrs, KnownOf(n.kind), "ref");
      SameRead(n.attrs, m.attrs, KnownOf(n.kind), "label");
    }
    hide SameNode, SameNodes;
  }

  lemma {:induction false} SameLeaves(web: Links, ns: seq<Node>, ms: seq<Node>, depth: nat)
    requires SameNodes(ns, ms)
    ensures CleanLeaves(web, ns, depth) == CleanLeaves(web, ms, depth)
  {
    hide CleanLeaf, SameNode;
    if ns != [] {
      SameLeaf(web, ns[0], ms[0], depth);
      SameLeaves(web, ns[1..], ms[1..], depth);
    }
  }

  lemma {:induction false} SameBlock(web: Links, n: Node, m: Node, depth: nat)
    requires SameNode(n, m)
    ensures CleanBlock(web, n, depth) == CleanBlock(web, m, depth)
    decreases n, 1
  {
    SameShape(n, m);
    hide CleanContainer, CleanItems, CleanLeaves, SameNode, SameNodes, BlockAttrs, NoText;
    if n.kind == "paragraph" || n.kind == "heading" {
      SameLeaves(web, n.content, m.content, depth + 1);
    } else if n.kind == "blockquote" {
      SameContainer(web, n, m, Quote, depth, true);
    } else {
      SameItems(web, n.content, m.content, depth + 1);
    }
  }

  lemma {:induction false} SameContainer(web: Links, n: Node, m: Node, place: Place, depth: nat, nonEmpty: bool)
    requires SameNode(n, m)
    ensures CleanContainer(web, n, place, depth, nonEmpty) == CleanContainer(web, m, place, depth, nonEmpty)
    decreases n, 0
  {
    SameShape(n, m);
    hide CleanBlocks, SameNode, SameNodes, BlockAttrs, NoText;
    SameBlocks(web, n.content, m.content, place, depth + 1);
  }

  lemma {:induction false} SameBlocks(web: Links, ns: seq<Node>, ms: seq<Node>, place: Place, depth: nat)
    requires SameNodes(ns, ms)
    ensures CleanBlocks(web, ns, place, depth) == CleanBlocks(web, ms, place, depth)
    decreases ns, 0
  {
    hide CleanBlock, SameNode, BlockAttrs, NoText;
    if ns != [] {
      SameShape(ns[0], ms[0]);
      SameBlock(web, ns[0], ms[0], depth);
      SameBlocks(web, ns[1..], ms[1..], place, depth);
    }
  }

  lemma {:induction false} SameItems(web: Links, ns: seq<Node>, ms: seq<Node>, depth: nat)
    requires SameNodes(ns, ms)
    ensures CleanItems(web, ns, depth) == CleanItems(web, ms, depth)
    decreases ns, 0
  {
    hide CleanContainer, SameNode, BlockAttrs, NoText;
    if ns != [] {
      SameShape(ns[0], ms[0]);
      SameContainer(web, ns[0], ms[0], Item, depth, true);
      SameItems(web, ns[1..], ms[1..], depth);
    }
  }

  /** Bodies that differ only in mark order or in unknown attributes have the same canonical form. */
  lemma SameCanonical(web: Links, a: Node, b: Node)
    requires SameNode(a, b)
    ensures Canonical(web, a) == Canonical(web, b)
  {
    SameShape(a, b);
    SameContainer(web, a, b, Top, 0, false);
    hide CleanContainer, SameNode;
  }
}
