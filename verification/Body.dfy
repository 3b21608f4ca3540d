/** articles/body.go: checking an article's body and bringing it to its canonical form. */
module Body {
  import opened MentionKeys
  import Order
  import opened Options

  const MAX_DEPTH: nat := 16
  const MAX_NODES: nat := 50_000
  const MAX_LABEL: nat := 300
  const MAX_HREF: nat := 2000

  /** Go's int, as strconv.Atoi reads it. */
  type GoInt = n: int | -0x8000_0000_0000_0000 <= n < 0x8000_0000_0000_0000

  /** An attribute's value: a whole number, a string, or anything else, such as a number with a fraction
    * or beyond the range of int, which is read as no number at all. */
  datatype Value = Num(n: GoInt) | Str(s: string) | Other

  type Attrs = map<string, Value>

  datatype Mark = Mark(kind: string, attrs: Attrs)

  datatype Node = Node(kind: string, attrs: Attrs, content: seq<Node>, text: string, marks: seq<Mark>)

  /** What holds blocks: the document, a list item or a quote. */
  datatype Place = Top | Item | Quote

  function Allowed(place: Place): set<string> {
    match place
    case Top => {"paragraph", "heading", "bulletList", "orderedList", "blockquote"}
    case Item => {"paragraph", "bulletList", "orderedList", "blockquote"}
    case Quote => {"paragraph", "bulletList", "orderedList"}
  }

  const INLINE: set<string> := {"text", "hardBreak", "mention"}

  /** Whether a string is a link the schema takes; parsing URLs is not modelled. */
  type Links = string -> bool

  function Text(attrs: Attrs, key: string): string {
    if key in attrs && attrs[key].Str? then attrs[key].s else ""
  }

  function Whole(attrs: Attrs, key: string): Option<int> {
    if key in attrs && attrs[key].Num? then Some(attrs[key].n) else None
  }

  predicate NoText(n: Node) { n.text == "" && n.marks == [] }

  predicate LinkOk(web: Links, href: string) {
    href != "" && Bytes(href) <= MAX_HREF && web(href)
  }

  // ------------------------------------------------------------------------------------ marks

  function CleanMark(web: Links, m: Mark): Option<Mark> {
    if m.kind == "bold" || m.kind == "italic" then Some(Mark(m.kind, map[]))
    else if m.kind == "link" && LinkOk(web, Text(m.attrs, "href")) then
      Some(Mark("link", map["href" := Str(Text(m.attrs, "href"))]))
    else None
  }

  predicate NoKindTwice(ms: seq<Mark>) {
    forall i, j :: 0 <= i < j < |ms| ==> ms[i].kind != ms[j].kind
  }

  predicate AllClean(web: Links, ms: seq<Mark>) {
    forall i :: 0 <= i < |ms| ==> CleanMark(web, ms[i]).Some?
  }

  /** The marks of one kind, cleaned. */
  function OfKind(web: Links, ms: seq<Mark>, kind: string): (r: seq<Mark>)
    requires AllClean(web, ms)
  {
    if ms == [] then [] else
      OfKind(web, ms[..|ms| - 1], kind)
      + if ms[|ms| - 1].kind == kind then [CleanMark(web, ms[|ms| - 1]).value] else []
  }

  /** Each mark cleaned, in the one order of their kinds. */
  function CleanMarks(web: Links, ms: seq<Mark>): Option<seq<Mark>> {
    if !AllClean(web, ms) || !NoKindTwice(ms) then None
    else Some(OfKind(web, ms, "bold") + OfKind(web, ms, "italic") + OfKind(web, ms, "link"))
  }

  // ------------------------------------------------------------------------------- the cleaning

  function CleanLeaf(web: Links, n: Node, depth: nat): Option<Node> {
    if n.kind !in INLINE || depth > MAX_DEPTH || n.content != [] then None
    else if n.kind == "text" then
      if n.text == "" || '\0' in n.text then None
      else TextNode(n.text, CleanMarks(web, n.marks))
    else if !NoText(n) then None
    else if n.kind == "hardBreak" then Some(Node("hardBreak", map[], [], "", []))
    else match MentionOf(n.attrs)
      case None => None
      case Some(attrs) => Some(Node("mention", attrs, [], "", []))
  }

  function TextNode(text: string, marks: Option<seq<Mark>>): Option<Node> {
    match marks
    case None => None
    case Some(ms) => Some(Node("text", map[], [], text, ms))
  }

  /** A mention's three attributes, its key parsed and its label trimmed or else the key's. */
  function MentionOf(attrs: Attrs): Option<Attrs> {
    match ParseKey(Text(attrs, "kind"), Text(attrs, "ref"))
    case None => None
    case Some(key) =>
      var shown := TrimSpace(Text(attrs, "label"));
      if |shown| > MAX_LABEL || '\0' in shown then None
      else Some(MentionAttrs(key.0, key.1, if shown == "" then key.1 else shown))
  }

  function MentionAttrs(kind: string, ref: string, shown: string): Attrs {
    map["kind" := Str(kind), "ref" := Str(ref), "label" := Str(shown)]
  }

  function CleanLeaves(web: Links, ns: seq<Node>, depth: nat): Option<seq<Node>> {
    if ns == [] then Some([]) else Prepend(CleanLeaf(web, ns[0], depth), CleanLeaves(web, ns[1..], depth))
  }

  function Prepend(first: Option<Node>, rest: Option<seq<Node>>): Option<seq<Node>> {
    if first.Some? && rest.Some? then Some([first.value] + rest.value) else None
  }

  function WithContent(kind: string, attrs: Attrs, content: Option<seq<Node>>): Option<Node> {
    match content
    case None => None
    case Some(cs) => Some(Node(kind, attrs, cs, "", []))
  }

  function CleanInline(web: Links, n: Node, attrs: Attrs, depth: nat): Option<Node> {
    if depth > MAX_DEPTH || !NoText(n) then None else WithContent(n.kind, attrs, CleanLeaves(web, n.content, depth + 1))
  }

  /** The attributes kept of a heading or an ordered list; none of the other blocks. */
  function BlockAttrs(n: Node): Option<Attrs> {
    if n.kind == "heading" then
      var level := Whole(n.attrs, "level");
      if level.Some? && 2 <= level.value <= 3 then Some(map["level" := Num(level.value)]) else None
    else if n.kind == "orderedList" then
      var start := Whole(n.attrs, "start");
      if start.None? || start.value == 1 then Some(map[])
      else if 0 <= start.value <= 1_000_000 then Some(map["start" := Num(start.value)])
      else None
    else Some(map[])
  }

  function CleanBlock(web: Links, n: Node, depth: nat): Option<Node>
    decreases n, 1
  {
    if BlockAttrs(n).None? then None
    else if n.kind == "paragraph" || n.kind == "heading" then CleanInline(web, n, BlockAttrs(n).value, depth)
    else if n.kind == "bulletList" || n.kind == "orderedList" then
      if depth > MAX_DEPTH || !NoText(n) || n.content == [] then None
      else WithContent(n.kind, BlockAttrs(n).value, CleanItems(web, n.content, depth + 1))
    else if n.kind == "blockquote" then CleanContainer(web, n, Quote, depth, true)
    else None
  }

  function CleanContainer(web: Links, n: Node, place: Place, depth: nat, nonEmpty: bool): Option<Node>
    decreases n, 0
  {
    if depth > MAX_DEPTH || !NoText(n) || (nonEmpty && n.content == []) then None
    else WithContent(n.kind, map[], CleanBlocks(web, n.content, place, depth + 1))
  }

  function CleanBlocks(web: Links, ns: seq<Node>, place: Place, depth: nat): Option<seq<Node>>
    decreases ns, 0
  {
    if ns == [] then Some([])
    else if ns[0].kind !in Allowed(place) then None
    else Prepend(CleanBlock(web, ns[0], depth), CleanBlocks(web, ns[1..], place, depth))
  }

  function CleanItems(web: Links, ns: seq<Node>, depth: nat): Option<seq<Node>>
    decreases ns, 0
  {
    if ns == [] then Some([])
    else if ns[0].kind != "listItem" then None
    else Prepend(CleanContainer(web, ns[0], Item, depth, true), CleanItems(web, ns[1..], depth))
  }

  function Size(n: Node): (k: nat)
    ensures k > 0
  {
    1 + Sizes(n.content)
  }

  function Sizes(ns: seq<Node>): nat {
    if ns == [] then 0 else Size(ns[0]) + Sizes(ns[1..])
  }

  function Height(n: Node): nat { Heights(n.content) }

  /** The levels below a node with these children. */
  function Heights(ns: seq<Node>): nat {
    if ns == [] then 0 else
      var h, rest := 1 + Height(ns[0]), Heights(ns[1..]);
      if h > rest then h else rest
  }

  /** ParseBody's result: the document in its canonical form, when the schema and the limits allow it. */
  function Canonical(web: Links, doc: Node): Option<Node> {
    if doc.kind != "doc" then None
    else match CleanContainer(web, doc, Top, 0, false)
      case None => None
      case Some(t) => if Size(t) > MAX_NODES then None else Some(t)
  }

  // ------------------------------------- what is taken, and what the result says, written out

  /** The attribute is the string s; one that is missing or no string reads as empty. */
  predicate Reads(attrs: Attrs, key: string, s: string) {
    if key in attrs && attrs[key].Str? then attrs[key] == Str(s) else s == ""
  }

  /** Bold, italic, or a link to an address of at most 2000 bytes. */
  ghost predicate TakesMark(web: Links, m: Mark) {
    || m.kind == "bold" || m.kind == "italic"
    || (m.kind == "link" && exists h :: Reads(m.attrs, "href", h) && h != "" && |Utf8(h)| <= 2000 && web(h))
  }

  ghost predicate TakesText(web: Links, n: Node) {
    && n.text != "" && '\0' !in n.text
    && (forall i :: 0 <= i < |n.marks| ==> TakesMark(web, n.marks[i]))
    && forall i, j :: 0 <= i < j < |n.marks| ==> n.marks[i].kind != n.marks[j].kind
  }

  /** What a mention's attributes say: its kind, its key, and its label without white space around it, or the key
    * when that leaves none. */
  ghost predicate MentionSays(attrs: Attrs, kind: string, ref: string, shown: string) {
    && Reads(attrs, "kind", kind)
    && (exists given :: Reads(attrs, "ref", given) && KeyStated(kind, given, ref))
    && exists given, t ::
         && Reads(attrs, "label", given) && TrimmedTo(given, t) && |t| <= 300 && '\0' !in t
         && shown == if t == "" then ref else t
  }

  ghost predicate TakesLeaf(web: Links, n: Node) {
    && n.content == []
    && (|| (n.kind == "text" && TakesText(web, n))
        || (n.kind == "hardBreak" && n.text == "" && n.marks == [])
        || (n.kind == "mention" && n.text == "" && n.marks == [] && exists k, r, l :: MentionSays(n.attrs, k, r, l)))
  }

  /** A list may start anywhere from 0 to 1,000,000, and at 1 if it does not say. */
  predicate StartsAt(attrs: Attrs, start: int) {
    if "start" in attrs && attrs["start"].Num? then start == attrs["start"].n else start == 1
  }

  ghost predicate TakesBlock(web: Links, n: Node)
    decreases n, 1
  {
    n.text == "" && n.marks == [] && match n.kind {
      case "paragraph" => TakesLeaves(web, n.content)
      case "heading" =>
        && "level" in n.attrs && (n.attrs["level"] == Num(2) || n.attrs["level"] == Num(3))
        && TakesLeaves(web, n.content)
      case "bulletList" => n.content != [] && TakesItems(web, n.content)
      case "orderedList" =>
        && (exists start :: StartsAt(n.attrs, start) && 0 <= start <= 1_000_000)
        && n.content != [] && TakesItems(web, n.content)
      case "blockquote" => n.content != [] && TakesBlocks(web, n.content, {"paragraph", "bulletList", "orderedList"})
      case _ => false
    }
  }

  ghost predicate TakesLeaves(web: Links, ns: seq<Node>) {
    forall i :: 0 <= i < |ns| ==> TakesLeaf(web, ns[i])
  }

  ghost predicate TakesItems(web: Links, ns: seq<Node>)
    decreases ns, 0
  {
    forall i :: 0 <= i < |ns| ==> TakesItem(web, ns[i])
  }

  ghost predicate TakesItem(web: Links, n: Node)
    decreases n, 0
  {
    n.kind == "listItem" && n.text == "" && n.marks == [] && n.content != [] &&
      TakesBlocks(web, n.content, {"paragraph", "bulletList", "orderedList", "blockquote"})
  }

  ghost predicate TakesBlocks(web: Links, ns: seq<Node>, kinds: set<string>)
    decreases ns, 0
  {
    forall i :: 0 <= i < |ns| ==> ns[i].kind in kinds && TakesBlock(web, ns[i])
  }

  /** A document of such blocks. */
  ghost predicate TakesDoc(web: Links, doc: Node) {
    doc.kind == "doc" && doc.text == "" && doc.marks == [] &&
      TakesBlocks(web, doc.content, {"paragraph", "heading", "bulletList", "orderedList", "blockquote"})
  }

  /** The way to a node: which child to take at each level. */
  ghost predicate IsPath(n: Node, path: seq<nat>)
    decreases path
  {
    path != [] ==> path[0] < |n.content| && IsPath(n.content[path[0]], path[1..])
  }

  /** All ways, once each. */
  ghost predicate ListsPaths(n: Node, paths: seq<seq<nat>>) {
    Order.NoRepeats(paths) && forall path :: path in paths <==> IsPath(n, path)
  }

  /** At most 16 levels below the top, and at most 50,000 nodes. */
  ghost predicate InLimits(n: Node) {
    && (forall path :: IsPath(n, path) ==> |path| <= 16)
    && exists paths :: ListsPaths(n, paths) && |paths| <= 50_000
  }

  /** The same marks, bold before italic before link, a link with its address and nothing else. */
  ghost predicate SameMarks(ms: seq<Mark>, rs: seq<Mark>) {
    && |rs| == |ms| && (set m | m in rs :: m.kind) == (set m | m in ms :: m.kind)
    && (forall i, j :: 0 <= i < |ms| && 0 <= j < |rs| && ms[i].kind == rs[j].kind ==> SameMark(ms[i], rs[j]))
    && forall i, j :: 0 <= i < j < |rs| ==> KindsRise(rs[i].kind, rs[j].kind)
  }

  predicate KindsRise(a: string, b: string) {
    (a == "bold" && b == "italic") || (a == "bold" && b == "link") || (a == "italic" && b == "link")
  }

  ghost predicate SameMark(m: Mark, r: Mark) {
    && r.kind == m.kind
    && if m.kind == "link" then exists h :: Reads(m.attrs, "href", h) && r.attrs == map["href" := Str(h)]
       else r.attrs == map[]
  }

  /** The attributes kept say what those given say. */
  ghost predicate SameAttrs(kind: string, given: Attrs, kept: Attrs) {
    && (kind == "heading" ==> "level" in given && kept == map["level" := given["level"]])
    && (kind == "orderedList" ==> exists start :: SameStart(given, kept, start))
    && (kind == "mention" ==> exists k, r, l ::
          MentionSays(given, k, r, l) && kept == map["kind" := Str(k), "ref" := Str(r), "label" := Str(l)])
    && (kind != "heading" && kind != "orderedList" && kind != "mention" ==> kept == map[])
  }

  /** Both lists start there, and it is kept only if it is not 1. */
  ghost predicate SameStart(given: Attrs, kept: Attrs, start: int) {
    StartsAt(given, start) && StartsAt(kept, start) && kept.Keys == if start == 1 then {} else {"start"}
  }

  /** t is the same tree as n, node by node: kinds, texts, marks, and what the attributes say. */
  ghost predicate SaysSame(n: Node, t: Node)
    decreases n
  {
    && t.kind == n.kind && t.text == n.text && SameMarks(n.marks, t.marks) && SameAttrs(n.kind, n.attrs, t.attrs)
    && |t.content| == |n.content| && forall i :: 0 <= i < |n.content| ==> SaysSame(n.content[i], t.content[i])
  }

  // ------------------------------------------------------------------------------ leaves

  lemma ReadsText(attrs: Attrs, key: string)
    ensures forall s :: Reads(attrs, key, s) <==> s == Text(attrs, key)
  {}

  lemma MarkTaken(web: Links, m: Mark)
    ensures TakesMark(web, m) <==> CleanMark(web, m).Some?
    ensures CleanMark(web, m).Some? ==> SameMark(m, CleanMark(web, m).value)
  {
    ReadsText(m.attrs, "href");
    BytesAreUtf8(Text(m.attrs, "href"));
    hide Reads, Text, Bytes, Utf8;
  }

  lemma MentionTaken(attrs: Attrs)
    ensures MentionOf(attrs).Some? <==> exists k, r, l :: MentionSays(attrs, k, r, l)
    ensures forall k, r, l :: MentionSays(attrs, k, r, l) <==> MentionOf(attrs) == Some(MentionAttrs(k, r, l))
  {
    ReadsText(attrs, "kind");
    ReadsText(attrs, "ref");
    ReadsText(attrs, "label");
    var kind, ref, given := Text(attrs, "kind"), Text(attrs, "ref"), Text(attrs, "label");
    TrimSpaceIs(given);
    hide Reads, Text, TrimSpace, TrimmedTo, ParseKey, KeyStated;
    ParseKeyExactly(kind, ref, "");
    forall k, r, l
      ensures MentionSays(attrs, k, r, l) <==> MentionOf(attrs) == Some(MentionAttrs(k, r, l))
    {
      ParseKeyExactly(kind, ref, r);
      MentionExactly(attrs, kind, ref, given, k, r, l);
    }
    if MentionOf(attrs).Some? {
      var key, t := ParseKey(kind, ref).value, TrimSpace(given);
      assert MentionSays(attrs, key.0, key.1, if t == "" then key.1 else t);
    }
  }

  lemma MentionExactly(attrs: Attrs, kind: string, ref: string, given: string, k: string, r: string, l: string)
    requires kind == Text(attrs, "kind") && ref == Text(attrs, "ref") && given == Text(attrs, "label")
    requires forall s :: Reads(attrs, "kind", s) <==> s == kind
    requires forall s :: Reads(attrs, "ref", s) <==> s == ref
    requires forall s :: Reads(attrs, "label", s) <==> s == given
    requires forall t :: TrimmedTo(given, t) <==> t == TrimSpace(given)
    requires ParseKey(kind, ref) == Some((kind, r)) <==> KeyStated(kind, ref, r)
    requires ParseKey(kind, ref).Some? ==> ParseKey(kind, ref).value.0 == kind
    ensures MentionSays(attrs, k, r, l) <==> MentionOf(attrs) == Some(MentionAttrs(k, r, l))
  {
    hide Reads, Text, TrimSpace, TrimmedTo, ParseKey, KeyStated, MentionAttrs;
    var t := TrimSpace(given);
    if k == kind && KeyStated(kind, ref, r) && |t| <= 300 && '\0' !in t && l == if t == "" then r else t {
      assert Reads(attrs, "ref", ref) && Reads(attrs, "label", given) && TrimmedTo(given, t);
      assert MentionSays(attrs, k, r, l);
    }
    if MentionOf(attrs).Some? {
      var key := ParseKey(kind, ref).value;
      SameMention(key.0, key.1, if t == "" then key.1 else t, k, r, l);
    }
  }

  lemma SameMention(k: string, r: string, l: string, k2: string, r2: string, l2: string)
    ensures MentionAttrs(k, r, l) == MentionAttrs(k2, r2, l2) ==> k == k2 && r == r2 && l == l2
  {
    var a, b := MentionAttrs(k, r, l), MentionAttrs(k2, r2, l2);
    assert a["kind"] == Str(k) && a["ref"] == Str(r) && a["label"] == Str(l);
    assert b["kind"] == Str(k2) && b["ref"] == Str(r2) && b["label"] == Str(l2);
  }

  // ------------------------------------------------------------------------------ sorting marks

  /** x goes after the marks whose kind is no later than its own. */
  function InsertMark(x: Mark, ms: seq<Mark>): seq<Mark> {
    if ms == [] || Order.Le(ms[|ms| - 1].kind, x.kind) then ms + [x]
    else InsertMark(x, ms[..|ms| - 1]) + [ms[|ms| - 1]]
  }

  function SortMarks(ms: seq<Mark>): seq<Mark> {
    if ms == [] then [] else InsertMark(ms[|ms| - 1], SortMarks(ms[..|ms| - 1]))
  }

  function Cleaned(web: Links, ms: seq<Mark>): (r: seq<Mark>)
    requires AllClean(web, ms)
    ensures |r| == |ms| && forall i :: 0 <= i < |ms| ==> r[i] == CleanMark(web, ms[i]).value
  {
    seq(|ms|, i requires 0 <= i < |ms| => CleanMark(web, ms[i]).value)
  }

  lemma {:induction false} InsertPast(x: Mark, a: seq<Mark>, b: seq<Mark>)
    requires forall i :: 0 <= i < |b| ==> !Order.Le(b[i].kind, x.kind)
    ensures InsertMark(x, a + b) == InsertMark(x, a) + b
    decreases |b|
  {
    if b == [] {
      assert a + b == a;
    } else {
      InsertPast(x, a, b[..|b| - 1]);
      assert (a + b)[..|a + b| - 1] == a + b[..|b| - 1];
      assert InsertMark(x, a) + b == InsertMark(x, a) + b[..|b| - 1] + [b[|b| - 1]];
    }
  }

  lemma OfKindIs(web: Links, ms: seq<Mark>, kind: string)
    requires AllClean(web, ms)
    ensures AllOf(OfKind(web, ms, kind), kind)
  {}

  lemma KindsInOrder()
    ensures Order.Le("bold", "bold") && Order.Le("bold", "italic") && Order.Le("bold", "link")
    ensures Order.Le("italic", "italic") && Order.Le("italic", "link") && Order.Le("link", "link")
    ensures !Order.Le("italic", "bold") && !Order.Le("link", "bold") && !Order.Le("link", "italic")
  {
    Order.LeTotal("bold", "bold");
    Order.LeTotal("italic", "italic");
    Order.LeTotal("link", "link");
  }

  /** Sorting the cleaned marks puts them in the one order. */
  lemma {:induction false} SortedByKind(web: Links, ms: seq<Mark>)
    requires AllClean(web, ms)
    ensures SortMarks(Cleaned(web, ms)) == OfKind(web, ms, "bold") + OfKind(web, ms, "italic") + OfKind(web, ms, "link")
  {
    if ms != [] {
      var front, m := ms[..|ms| - 1], CleanMark(web, ms[|ms| - 1]).value;
      SortedByKind(web, front);
      assert Cleaned(web, ms)[..|ms| - 1] == Cleaned(web, front);
      var b, i, l := OfKind(web, front, "bold"), OfKind(web, front, "italic"), OfKind(web, front, "link");
      OfKindIs(web, front, "bold");
      OfKindIs(web, front, "italic");
      OfKindIs(web, front, "link");
      assert CleanMark(web, ms[|ms| - 1]).Some?;
      assert m.kind == ms[|ms| - 1].kind && (m.kind == "bold" || m.kind == "italic" || m.kind == "link");
      hide CleanMark, Order.Le, AllClean, InsertMark, SortMarks, OfKind;
      Placed(m, b, i, l);
      OneMoreMark(web, ms, "bold");
      OneMoreMark(web, ms, "italic");
      OneMoreMark(web, ms, "link");
      LastSorted(Cleaned(web, ms));
      assert b + [] == b && i + [] == i && l + [] == l;
    }
  }

  lemma OneMoreMark(web: Links, ms: seq<Mark>, kind: string)
    requires ms != [] && AllClean(web, ms)
    ensures AllClean(web, ms[..|ms| - 1]) && CleanMark(web, ms[|ms| - 1]).Some?
    ensures OfKind(web, ms, kind) == OfKind(web, ms[..|ms| - 1], kind)
            + if ms[|ms| - 1].kind == kind then [CleanMark(web, ms[|ms| - 1]).value] else []
  {
    hide CleanMark;
  }

  lemma LastSorted(ms: seq<Mark>)
    requires ms != []
    ensures SortMarks(ms) == InsertMark(ms[|ms| - 1], SortMarks(ms[..|ms| - 1]))
  {
    hide InsertMark;
  }

  lemma Placed(m: Mark, b: seq<Mark>, i: seq<Mark>, l: seq<Mark>)
    requires m.kind == "bold" || m.kind == "italic" || m.kind == "link"
    requires AllOf(b, "bold") && AllOf(i, "italic") && AllOf(l, "link")
    ensures m.kind == "bold" ==> InsertMark(m, b + i + l) == b + [m] + i + l
    ensures m.kind == "italic" ==> InsertMark(m, b + i + l) == b + (i + [m]) + l
    ensures m.kind == "link" ==> InsertMark(m, b + i + l) == b + i + (l + [m])
  {
    hide Order.Le, InsertMark;
    if m.kind == "bold" {
      PlacedBold(m, b, i, l);
    } else if m.kind == "italic" {
      PlacedItalic(m, b, i, l);
    } else {
      PlacedLink(m, b, i, l);
    }
  }

  ghost predicate AllOf(ms: seq<Mark>, kind: string) {
    forall k :: 0 <= k < |ms| ==> ms[k].kind == kind
  }

  lemma PlacedBold(m: Mark, b: seq<Mark>, i: seq<Mark>, l: seq<Mark>)
    requires m.kind == "bold" && AllOf(b, "bold") && AllOf(i, "italic") && AllOf(l, "link")
    ensures InsertMark(m, b + i + l) == b + [m] + i + l
  {
    KindsInOrder();
    hide Order.Le, InsertMark;
    var rest := i + l;
    assert forall k :: 0 <= k < |rest| ==> !Order.Le(rest[k].kind, m.kind);
    PlacedFirst(m, b, rest);
    assert b + i + l == b + rest;
    assert b + [m] + rest == b + [m] + i + l;
  }

  lemma PlacedItalic(m: Mark, b: seq<Mark>, i: seq<Mark>, l: seq<Mark>)
    requires m.kind == "italic" && AllOf(b, "bold") && AllOf(i, "italic") && AllOf(l, "link")
    ensures InsertMark(m, b + i + l) == b + (i + [m]) + l
  {
    KindsInOrder();
    hide Order.Le, InsertMark;
    var first := b + i;
    if first != [] { assert first[|first| - 1].kind == if i == [] then "bold" else "italic"; }
    PlacedFirst(m, first, l);
    assert b + (i + [m]) + l == first + [m] + l;
  }

  lemma PlacedLink(m: Mark, b: seq<Mark>, i: seq<Mark>, l: seq<Mark>)
    requires m.kind == "link" && AllOf(b, "bold") && AllOf(i, "italic") && AllOf(l, "link")
    ensures InsertMark(m, b + i + l) == b + i + (l + [m])
  {
    KindsInOrder();
    hide Order.Le, InsertMark;
    var first := b + i + l;
    if first != [] {
      assert first[|first| - 1].kind == if l != [] then "link" else if i != [] then "italic" else "bold";
    }
    PlacedFirst(m, first, []);
    assert first + [] == first;
    assert b + i + (l + [m]) == first + [m] + [];
  }

  lemma PlacedFirst(m: Mark, a: seq<Mark>, b: seq<Mark>)
    requires a != [] ==> Order.Le(a[|a| - 1].kind, m.kind)
    requires forall k :: 0 <= k < |b| ==> !Order.Le(b[k].kind, m.kind)
    ensures InsertMark(m, a + b) == a + [m] + b
  {
    hide Order.Le;
    InsertPast(m, a, b);
  }

  lemma {:induction false} OfKindOne(web: Links, ms: seq<Mark>, kind: string)
    requires AllClean(web, ms) && NoKindTwice(ms)
    ensures (forall i :: 0 <= i < |ms| ==> ms[i].kind != kind) ==> OfKind(web, ms, kind) == []
    ensures forall i :: 0 <= i < |ms| && ms[i].kind == kind ==> OfKind(web, ms, kind) == [CleanMark(web, ms[i]).value]
  {
    hide CleanMark;
    if ms != [] { OfKindOne(web, ms[..|ms| - 1], kind); }
  }

  lemma {:induction false} InsertKeeps(x: Mark, ms: seq<Mark>)
    ensures multiset(InsertMark(x, ms)) == multiset(ms) + multiset{x}
  {
    hide Order.Le;
    if ms != [] {
      InsertKeeps(x, ms[..|ms| - 1]);
      assert ms == ms[..|ms| - 1] + [ms[|ms| - 1]];
    }
  }

  lemma {:induction false} SortPermutes(ms: seq<Mark>)
    ensures multiset(SortMarks(ms)) == multiset(ms)
  {
    if ms == [] {
      assert SortMarks(ms) == [];
    } else {
      var front, last := ms[..|ms| - 1], ms[|ms| - 1];
      SortPermutes(front);
      LastSorted(ms);
      hide SortMarks, InsertMark;
      InsertKeeps(last, SortMarks(front));
      assert ms == front + [last];
    }
  }

  lemma SortKeeps(ms: seq<Mark>)
    ensures |SortMarks(ms)| == |ms| && forall m :: m in SortMarks(ms) <==> m in ms
  {
    SortPermutes(ms);
    hide SortMarks;
    assert |SortMarks(ms)| == |multiset(SortMarks(ms))| == |multiset(ms)| == |ms|;
    forall m ensures m in SortMarks(ms) <==> m in ms {
      assert m in multiset(SortMarks(ms)) <==> m in multiset(ms);
    }
  }

  lemma AtMostOne(web: Links, ms: seq<Mark>, kind: string)
    requires AllClean(web, ms) && NoKindTwice(ms)
    ensures |OfKind(web, ms, kind)| <= 1 && AllOf(OfKind(web, ms, kind), kind)
  {
    OfKindOne(web, ms, kind);
    OfKindIs(web, ms, kind);
    hide OfKind, CleanMark;
    if i :| 0 <= i < |ms| && ms[i].kind == kind {
      assert OfKind(web, ms, kind) == [CleanMark(web, ms[i]).value];
    }
  }

  lemma OneOrder(b: seq<Mark>, i: seq<Mark>, l: seq<Mark>)
    requires |b| <= 1 && |i| <= 1 && |l| <= 1 && AllOf(b, "bold") && AllOf(i, "italic") && AllOf(l, "link")
    ensures var rs := b + i + l; forall x, y :: 0 <= x < y < |rs| ==> KindsRise(rs[x].kind, rs[y].kind)
  {
    var rs := b + i + l;
    forall x, y | 0 <= x < y < |rs|
      ensures KindsRise(rs[x].kind, rs[y].kind)
    {
      hide KindsRise;
      if x < |b| {
        assert rs[x] == b[x];
        if y < |b| + |i| { assert rs[y] == i[y - |b|]; } else { assert rs[y] == l[y - |b| - |i|]; }
        Bold("italic");
        Bold("link");
      } else {
        assert rs[x] == i[x - |b|] && rs[y] == l[y - |b| - |i|];
        Bold("link");
      }
    }
  }

  lemma Bold(kind: string)
    requires kind == "italic" || kind == "link"
    ensures KindsRise("bold", kind) && (kind == "link" ==> KindsRise("italic", kind))
  {}

  lemma MarksTaken(web: Links, ms: seq<Mark>)
    ensures CleanMarks(web, ms).Some? <==>
      && (forall i :: 0 <= i < |ms| ==> TakesMark(web, ms[i]))
      && forall i, j :: 0 <= i < j < |ms| ==> ms[i].kind != ms[j].kind
    ensures CleanMarks(web, ms).Some? ==> SameMarks(ms, CleanMarks(web, ms).value)
  {
    forall i | 0 <= i < |ms|
      ensures TakesMark(web, ms[i]) <==> CleanMark(web, ms[i]).Some?
    {
      MarkTaken(web, ms[i]);
    }
    hide TakesMark, CleanMark, OfKind;
    if AllClean(web, ms) && NoKindTwice(ms) { SameMarksKept(web, ms); }
  }

  lemma SameMarksKept(web: Links, ms: seq<Mark>)
    requires AllClean(web, ms) && NoKindTwice(ms)
    ensures SameMarks(ms, OfKind(web, ms, "bold") + OfKind(web, ms, "italic") + OfKind(web, ms, "link"))
  {
    var b, i, l := OfKind(web, ms, "bold"), OfKind(web, ms, "italic"), OfKind(web, ms, "link");
    var rs, cs := b + i + l, Cleaned(web, ms);
    SortedByKind(web, ms);
    SortKeeps(cs);
    AtMostOne(web, ms, "bold");
    AtMostOne(web, ms, "italic");
    AtMostOne(web, ms, "link");
    OneOrder(b, i, l);
    forall k | 0 <= k < |ms|
      ensures SameMark(ms[k], cs[k]) && cs[k].kind == ms[k].kind
    {
      assert CleanMark(web, ms[k]).Some?;
      MarkTaken(web, ms[k]);
    }
    hide CleanMark, OfKind, SortMarks, KindsRise, Cleaned, SameMark, AllClean;
    EachKept(ms, cs, rs);
  }

  lemma EachKept(ms: seq<Mark>, cs: seq<Mark>, rs: seq<Mark>)
    requires NoKindTwice(ms) && |cs| == |ms| == |rs| && forall m :: m in rs <==> m in cs
    requires forall k :: 0 <= k < |ms| ==> SameMark(ms[k], cs[k]) && cs[k].kind == ms[k].kind
    ensures (set m | m in rs :: m.kind) == (set m | m in ms :: m.kind)
    ensures forall i, j :: 0 <= i < |ms| && 0 <= j < |rs| && ms[i].kind == rs[j].kind ==> SameMark(ms[i], rs[j])
  {
    hide SameMark;
    forall j | 0 <= j < |rs|
      ensures exists k :: 0 <= k < |ms| && rs[j] == cs[k]
    {
      assert rs[j] in cs;
    }
    forall i | 0 <= i < |ms|
      ensures ms[i].kind in set m | m in rs :: m.kind
    {
      assert cs[i] in rs;
    }
  }

  // ---------------------------------------------------------------------- what is taken, and said

  lemma LeafTaken(web: Links, n: Node, depth: nat)
    ensures CleanLeaf(web, n, depth).Some? <==> TakesLeaf(web, n) && depth <= 16
    ensures CleanLeaf(web, n, depth).Some? ==> SaysSame(n, CleanLeaf(web, n, depth).value)
  {
    hide CleanMarks, MentionOf, MentionSays, SameMarks, TakesMark;
    NoMarks();
    if n.kind == "text" { MarksTaken(web, n.marks); }
    if n.kind == "mention" {
      MentionTaken(n.attrs);
      forall k, r, l ensures MentionAttrs(k, r, l) == map["kind" := Str(k), "ref" := Str(r), "label" := Str(l)] {}
    }
  }

  lemma NoMarks()
    ensures SameMarks([], [])
  {}

  lemma LeavesFirst(web: Links, ns: seq<Node>)
    requires ns != []
    ensures TakesLeaves(web, ns) <==> TakesLeaf(web, ns[0]) && TakesLeaves(web, ns[1..])
  {
    hide TakesLeaf;
    if TakesLeaves(web, ns[1..]) { assert forall i :: 0 < i < |ns| ==> ns[i] == ns[1..][i - 1]; }
  }

  lemma ItemsFirst(web: Links, ns: seq<Node>)
    requires ns != []
    ensures TakesItems(web, ns) <==> TakesItem(web, ns[0]) && TakesItems(web, ns[1..])
  {
    hide TakesItem;
    if TakesItems(web, ns[1..]) { assert forall i :: 0 < i < |ns| ==> ns[i] == ns[1..][i - 1]; }
  }

  lemma BlocksFirst(web: Links, ns: seq<Node>, kinds: set<string>)
    requires ns != []
    ensures TakesBlocks(web, ns, kinds) <==>
      ns[0].kind in kinds && TakesBlock(web, ns[0]) && TakesBlocks(web, ns[1..], kinds)
  {
    hide TakesBlock;
    if TakesBlocks(web, ns[1..], kinds) { assert forall i :: 0 < i < |ns| ==> ns[i] == ns[1..][i - 1]; }
  }

  /** The nodes of ts say what those of ns say, one by one. */
  ghost predicate AllSaySame(ns: seq<Node>, ts: seq<Node>) {
    |ts| == |ns| && forall i :: 0 <= i < |ns| ==> SaysSame(ns[i], ts[i])
  }

  lemma SaySameFirst(ns: seq<Node>, t: Node, rest: seq<Node>)
    requires ns != [] && SaysSame(ns[0], t) && AllSaySame(ns[1..], rest)
    ensures AllSaySame(ns, [t] + rest)
  {
    hide SaysSame;
    var ts := [t] + rest;
    forall i | 0 <= i < |ns|
      ensures SaysSame(ns[i], ts[i])
    {
      if i > 0 { assert ns[i] == ns[1..][i - 1] && ts[i] == rest[i - 1]; }
    }
  }

  lemma HeightsFirst(ns: seq<Node>, k: int)
    requires ns != []
    ensures Heights(ns) <= k <==> 1 + Height(ns[0]) <= k && Heights(ns[1..]) <= k
  {}

  lemma {:induction false} LeavesTaken(web: Links, ns: seq<Node>, depth: nat)
    requires depth <= 16
    ensures CleanLeaves(web, ns, depth + 1).Some? <==> TakesLeaves(web, ns) && Heights(ns) <= 16 - depth
    ensures CleanLeaves(web, ns, depth + 1).Some? ==> AllSaySame(ns, CleanLeaves(web, ns, depth + 1).value)
  {
    hide CleanLeaf, TakesLeaf, SaysSame;
    if ns != [] {
      LeafTaken(web, ns[0], depth + 1);
      LeavesTaken(web, ns[1..], depth);
      LeavesFirst(web, ns);
      HeightsFirst(ns, 16 - depth);
      if TakesLeaf(web, ns[0]) { LeafFlat(web, ns[0]); }
      if CleanLeaves(web, ns, depth + 1).Some? {
        SaySameFirst(ns, CleanLeaf(web, ns[0], depth + 1).value, CleanLeaves(web, ns[1..], depth + 1).value);
      }
    }
  }

  lemma LeafFlat(web: Links, n: Node)
    requires TakesLeaf(web, n)
    ensures Height(n) == 0
  {}

  lemma {:induction false} BlockTaken(web: Links, n: Node, depth: nat)
    ensures CleanBlock(web, n, depth).Some? <==> TakesBlock(web, n) && depth + Height(n) <= 16
    ensures CleanBlock(web, n, depth).Some? ==> SaysSame(n, CleanBlock(web, n, depth).value)
    decreases n, 1
  {
    NoMarks();
    StartTaken(n);
    hide CleanContainer, CleanItems, CleanLeaves, TakesLeaves, TakesItems, TakesBlocks, SameMarks, StartsAt, SameStart;
    if depth <= 16 {
      if n.kind == "paragraph" || n.kind == "heading" {
        LeavesTaken(web, n.content, depth);
      } else if n.kind == "bulletList" || n.kind == "orderedList" {
        ItemsTaken(web, n.content, depth);
      }
    }
    if n.kind == "blockquote" {
      ContainerTaken(web, n, Quote, depth, true);
      assert Allowed(Quote) == {"paragraph", "bulletList", "orderedList"};
    }
  }

  lemma StartTaken(n: Node)
    ensures n.kind == "orderedList" ==>
      && (BlockAttrs(n).Some? <==> exists start :: StartsAt(n.attrs, start) && 0 <= start <= 1_000_000)
      && (BlockAttrs(n).Some? ==> exists start :: SameStart(n.attrs, BlockAttrs(n).value, start))
  {
    var start := if "start" in n.attrs && n.attrs["start"].Num? then n.attrs["start"].n else 1;
    assert StartsAt(n.attrs, start);
    if n.kind == "orderedList" && BlockAttrs(n).Some? { assert SameStart(n.attrs, BlockAttrs(n).value, start); }
  }

  lemma {:induction false} ContainerTaken(web: Links, n: Node, place: Place, depth: nat, nonEmpty: bool)
    requires n.kind != "heading" && n.kind != "orderedList" && n.kind != "mention"
    ensures CleanContainer(web, n, place, depth, nonEmpty).Some? <==>
      && n.text == "" && n.marks == [] && (nonEmpty ==> n.content != [])
      && TakesBlocks(web, n.content, Allowed(place)) && depth + Height(n) <= 16
    ensures CleanContainer(web, n, place, depth, nonEmpty).Some? ==>
      SaysSame(n, CleanContainer(web, n, place, depth, nonEmpty).value)
    decreases n, 0
  {
    NoMarks();
    hide CleanBlocks, TakesBlocks, SameMarks, Allowed;
    if depth <= 16 { BlocksTaken(web, n.content, place, depth); }
  }

  lemma {:induction false} BlocksTaken(web: Links, ns: seq<Node>, place: Place, depth: nat)
    requires depth <= 16
    ensures CleanBlocks(web, ns, place, depth + 1).Some? <==>
      TakesBlocks(web, ns, Allowed(place)) && Heights(ns) <= 16 - depth
    ensures CleanBlocks(web, ns, place, depth + 1).Some? ==>
      AllSaySame(ns, CleanBlocks(web, ns, place, depth + 1).value)
    decreases ns, 0
  {
    hide CleanBlock, TakesBlock, SaysSame, Allowed;
    if ns != [] {
      BlockTaken(web, ns[0], depth + 1);
      BlocksTaken(web, ns[1..], place, depth);
      BlocksFirst(web, ns, Allowed(place));
      HeightsFirst(ns, 16 - depth);
      if CleanBlocks(web, ns, place, depth + 1).Some? {
        SaySameFirst(ns, CleanBlock(web, ns[0], depth + 1).value, CleanBlocks(web, ns[1..], place, depth + 1).value);
      }
    }
  }

  lemma {:induction false} ItemsTaken(web: Links, ns: seq<Node>, depth: nat)
    requires depth <= 16
    ensures CleanItems(web, ns, depth + 1).Some? <==> TakesItems(web, ns) && Heights(ns) <= 16 - depth
    ensures CleanItems(web, ns, depth + 1).Some? ==> AllSaySame(ns, CleanItems(web, ns, depth + 1).value)
    decreases ns, 0
  {
    hide CleanContainer, TakesBlocks, SaysSame;
    if ns != [] {
      if ns[0].kind == "listItem" { ContainerTaken(web, ns[0], Item, depth + 1, true); }
      assert Allowed(Item) == {"paragraph", "bulletList", "orderedList", "blockquote"};
      hide Allowed;
      ItemsTaken(web, ns[1..], depth);
      ItemsFirst(web, ns);
      HeightsFirst(ns, 16 - depth);
      if CleanItems(web, ns, depth + 1).Some? {
        SaySameFirst(ns, CleanContainer(web, ns[0], Item, depth + 1, true).value,
          CleanItems(web, ns[1..], depth + 1).value);
      }
    }
  }

  // ---------------------------------------------------------------------------- the limits

  lemma {:induction false} SameSize(n: Node, t: Node)
    requires SaysSame(n, t)
    ensures Size(t) == Size(n)
    decreases n, 1
  {
    hide SameMarks, SameAttrs;
    SameSizes(n.content, t.content);
  }

  lemma {:induction false} SameSizes(ns: seq<Node>, ts: seq<Node>)
    requires AllSaySame(ns, ts)
    ensures Sizes(ts) == Sizes(ns)
    decreases ns, 0
  {
    hide SaysSame;
    if ns != [] {
      SameSize(ns[0], ts[0]);
      assert forall i :: 0 <= i < |ns[1..]| ==> ns[1..][i] == ns[i + 1] && ts[1..][i] == ts[i + 1];
      SameSizes(ns[1..], ts[1..]);
    }
  }

  /** No way is longer than the height, and one is as long. */
  lemma {:induction false} PathsReach(n: Node, k: nat)
    ensures Height(n) <= k <==> forall path :: IsPath(n, path) ==> |path| <= k
    decreases n, 1
  {
    if Height(n) <= k {
      forall path | IsPath(n, path) ensures |path| <= k { PathWithin(n, path); }
    } else {
      var path := LongestPath(n);
    }
  }

  lemma {:induction false} PathWithin(n: Node, path: seq<nat>)
    requires IsPath(n, path)
    ensures |path| <= Height(n)
    decreases path
  {
    if path != [] {
      PathWithin(n.content[path[0]], path[1..]);
      HeightsAt(n.content, path[0]);
    }
  }

  lemma {:induction false} HeightsAt(ns: seq<Node>, i: nat)
    requires i < |ns|
    ensures 1 + Height(ns[i]) <= Heights(ns)
  {
    if i > 0 { HeightsAt(ns[1..], i - 1); }
  }

  lemma {:induction false} LongestPath(n: Node) returns (path: seq<nat>)
    ensures IsPath(n, path) && |path| == Height(n)
    decreases n, 1
  {
    path := [];
    if n.content != [] {
      var i, rest := LongestBelow(n.content);
      path := [i] + rest;
      assert path[1..] == rest;
    }
  }

  lemma {:induction false} LongestBelow(ns: seq<Node>) returns (i: nat, path: seq<nat>)
    requires ns != []
    ensures i < |ns| && IsPath(ns[i], path) && 1 + |path| == Heights(ns)
    decreases ns, 0
  {
    i := 0;
    path := LongestPath(ns[0]);
    if ns[1..] != [] && 1 + |path| < Heights(ns[1..]) {
      i, path := LongestBelow(ns[1..]);
      i := i + 1;
    }
  }

  /** There are as many ways as nodes. */
  lemma {:induction false} PathsCount(n: Node) returns (paths: seq<seq<nat>>)
    ensures ListsPaths(n, paths) && |paths| == Size(n)
    decreases n, 1
  {
    var below := PathsBelow(n.content, 0);
    paths := [[]] + below;
    forall k | 0 <= k < |below| ensures below[k] != [] { assert below[k] in below; }
    forall path
      ensures path in paths <==> IsPath(n, path)
    {
      assert path in paths <==> path == [] || path in below;
    }
  }

  /** The ways into children from the i-th on. */
  ghost predicate IsBelow(ns: seq<Node>, i: nat, path: seq<nat>) {
    path != [] && i <= path[0] && path[0] < i + |ns| && IsPath(ns[path[0] - i], path[1..])
  }

  lemma {:induction false} PathsBelow(ns: seq<Node>, i: nat) returns (paths: seq<seq<nat>>)
    ensures Order.NoRepeats(paths) && |paths| == Sizes(ns) && forall path :: path in paths <==> IsBelow(ns, i, path)
    decreases ns, 0
  {
    paths := [];
    if ns != [] {
      var first := PathsCount(ns[0]);
      var rest := PathsBelow(ns[1..], i + 1);
      var led := seq(|first|, k requires 0 <= k < |first| => [i] + first[k]);
      paths := led + rest;
      hide Size, Sizes, IsPath;
      Led(ns, i, first, led);
      BelowFirst(ns, i, led, rest);
    }
  }

  lemma Led(ns: seq<Node>, i: nat, first: seq<seq<nat>>, led: seq<seq<nat>>)
    requires ns != [] && ListsPaths(ns[0], first) && |led| == |first|
    requires forall k :: 0 <= k < |led| ==> led[k] == [i] + first[k]
    ensures Order.NoRepeats(led)
    ensures forall path :: path in led <==> path != [] && path[0] == i && IsPath(ns[0], path[1..])
  {
    hide IsPath;
    forall k | 0 <= k < |led| ensures led[k][1..] == first[k] && led[k][0] == i {}
    forall path
      ensures path in led <==> path != [] && path[0] == i && IsPath(ns[0], path[1..])
    {
      if path != [] && path[0] == i && IsPath(ns[0], path[1..]) {
        assert path[1..] in first;
        var k :| 0 <= k < |first| && first[k] == path[1..];
        assert path == [i] + path[1..];
        assert led[k] == path;
      }
      if path in led {
        var k :| 0 <= k < |led| && led[k] == path;
        assert first[k] in first;
      }
    }
  }

  lemma BelowFirst(ns: seq<Node>, i: nat, led: seq<seq<nat>>, rest: seq<seq<nat>>)
    requires ns != [] && Order.NoRepeats(led) && Order.NoRepeats(rest)
    requires forall path :: path in led <==> path != [] && path[0] == i && IsPath(ns[0], path[1..])
    requires forall path :: path in rest <==> IsBelow(ns[1..], i + 1, path)
    ensures Order.NoRepeats(led + rest) && forall path :: path in led + rest <==> IsBelow(ns, i, path)
  {
    hide IsPath;
    forall path: seq<nat>
      ensures path in led + rest <==> IsBelow(ns, i, path)
    {
      if path != [] && i < path[0] && path[0] < i + |ns| { assert ns[path[0] - i] == ns[1..][path[0] - i - 1]; }
    }
    var all := led + rest;
    forall k, l | 0 <= k < l < |all|
      ensures all[k] != all[l]
    {
      if k < |led| <= l {
        assert led[k] in led && rest[l - |led|] in rest;
      }
    }
  }

  lemma ListsOnce(n: Node, a: seq<seq<nat>>, b: seq<seq<nat>>)
    requires ListsPaths(n, a) && ListsPaths(n, b)
    ensures |a| == |b|
  {
    Order.NoRepeatsMultiset(a);
    Order.NoRepeatsMultiset(b);
    forall p ensures multiset(a)[p] == multiset(b)[p] {
      assert p in a <==> p in multiset(a);
      assert p in b <==> p in multiset(b);
    }
    assert multiset(a) == multiset(b);
    assert |a| == |multiset(a)| && |b| == |multiset(b)|;
  }

  lemma LimitsExactly(n: Node)
    ensures InLimits(n) <==> Height(n) <= 16 && Size(n) <= 50_000
  {
    PathsReach(n, 16);
    var paths := PathsCount(n);
    hide IsPath, ListsPaths, Size, Height;
    if all :| ListsPaths(n, all) && |all| <= 50_000 { ListsOnce(n, all, paths); }
  }

  /** A document is taken exactly when the schema and the limits, written out, allow it, and then the result
    * says what the document says. */
  lemma CanonicalSays(web: Links, doc: Node)
    ensures Canonical(web, doc).Some? <==> TakesDoc(web, doc) && InLimits(doc)
    ensures Canonical(web, doc).Some? ==> SaysSame(doc, Canonical(web, doc).value)
  {
    LimitsExactly(doc);
    hide CleanContainer, TakesBlocks, SaysSame, InLimits, Size, Height;
    if doc.kind == "doc" {
      ContainerTaken(web, doc, Top, 0, false);
      if CleanContainer(web, doc, Top, 0, false).Some? {
        SameSize(doc, CleanContainer(web, doc, Top, 0, false).value);
      }
    }
  }

  // ------------------------------------------------------------------------------- the normaliser

  /** done followed by the rest, when the rest is accepted. */
  function Join(done: seq<Node>, rest: Option<seq<Node>>): Option<seq<Node>> {
    match rest
    case None => None
    case Some(ns) => Some(done + ns)
  }

  /** r is what the schema makes of a node, unless its nodes pass the limit. */
  ghost predicate Within(spec: Option<Node>, before: nat, after: nat, r: Option<Node>) {
    if r.Some? then spec == r && after == before + Size(r.value) && after <= MAX_NODES
    else spec.None? || before + Size(spec.value) > MAX_NODES
  }

  lemma {:induction false} SizesAdd(a: seq<Node>, b: seq<Node>)
    ensures Sizes(a + b) == Sizes(a) + Sizes(b)
  {
    if a == [] {
      assert a + b == b;
    } else {
      SizesAdd(a[1..], b);
      assert (a + b)[1..] == a[1..] + b;
    }
  }

  lemma SizesOne(n: Node)
    ensures Sizes([n]) == Size(n)
  {
    assert [n][1..] == [];
  }

  /** A child accepted: it joins those done. */
  lemma OneDone(done: seq<Node>, child: Node, rest: Option<seq<Node>>)
    ensures Join(done, Prepend(Some(child), rest)) == Join(done + [child], rest)
    ensures Sizes(done + [child]) == Sizes(done) + Size(child)
  {
    SizesAdd(done, [child]);
    SizesOne(child);
    if rest.Some? { assert done + ([child] + rest.value) == done + [child] + rest.value; }
  }

  /** A child refused, by the schema or by the limit: so is its parent. */
  lemma OneRefused(kind: string, attrs: Attrs, done: seq<Node>, child: Option<Node>, rest: Option<seq<Node>>,
                   before: nat, after: nat, at: nat)
    requires at == before + 1 + Sizes(done) && Within(child, at, after, None)
    ensures Within(WithContent(kind, attrs, Join(done, Prepend(child, rest))), before, after, None)
  {
    if child.Some? && rest.Some? {
      SizesAdd(done, [child.value] + rest.value);
      SizesAdd([child.value], rest.value);
      SizesOne(child.value);
    }
  }

  lemma NoneLeft(done: seq<Node>)
    ensures Join(done, Some([])) == Some(done)
  {
    assert done + [] == done;
  }

  lemma FromStart(ns: seq<Node>, rest: Option<seq<Node>>)
    ensures ns[0..] == ns && Join([], rest) == rest
  {
    if rest.Some? { assert [] + rest.value == rest.value; }
  }

  lemma StepLeaves(web: Links, ns: seq<Node>, i: nat, depth: nat)
    requires i < |ns|
    ensures CleanLeaves(web, ns[i..], depth) ==
      Prepend(CleanLeaf(web, ns[i], depth), CleanLeaves(web, ns[i + 1..], depth))
  {
    assert ns[i..][1..] == ns[i + 1..];
  }

  lemma StepBlocks(web: Links, ns: seq<Node>, place: Place, i: nat, depth: nat)
    requires i < |ns|
    ensures ns[i].kind in Allowed(place) ==>
              CleanBlocks(web, ns[i..], place, depth) ==
                Prepend(CleanBlock(web, ns[i], depth), CleanBlocks(web, ns[i + 1..], place, depth))
    ensures ns[i].kind !in Allowed(place) ==> CleanBlocks(web, ns[i..], place, depth).None?
  {
    assert ns[i..][1..] == ns[i + 1..];
  }

  lemma StepItems(web: Links, ns: seq<Node>, i: nat, depth: nat)
    requires i < |ns|
    ensures ns[i].kind == "listItem" ==>
              CleanItems(web, ns[i..], depth) ==
                Prepend(CleanContainer(web, ns[i], Item, depth, true), CleanItems(web, ns[i + 1..], depth))
    ensures ns[i].kind != "listItem" ==> CleanItems(web, ns[i..], depth).None?
  {
    assert ns[i..][1..] == ns[i + 1..];
  }

  lemma NoSizes()
    ensures Sizes([]) == 0
  {}

  lemma NoRest(done: seq<Node>)
    ensures Join(done, None) == None
  {}

  lemma LeavesEnd(web: Links, depth: nat)
    ensures CleanLeaves(web, [], depth) == Some([])
  {}

  lemma BlocksEnd(web: Links, place: Place, depth: nat)
    ensures CleanBlocks(web, [], place, depth) == Some([])
  {}

  lemma ItemsEnd(web: Links, depth: nat)
    ensures CleanItems(web, [], depth) == Some([])
  {}

  function CleanHeading(web: Links, n: Node, level: Option<int>, depth: nat): Option<Node> {
    if level.Some? && 2 <= level.value <= 3 then CleanInline(web, n, map["level" := Num(level.value)], depth) else None
  }

  /** What each kind of block is cleaned as. */
  lemma BlockUnfolds(web: Links, n: Node, depth: nat)
    ensures n.kind == "paragraph" ==> CleanBlock(web, n, depth) == CleanInline(web, n, map[], depth)
    ensures n.kind == "heading" ==> CleanBlock(web, n, depth) == CleanHeading(web, n, Whole(n.attrs, "level"), depth)
    ensures n.kind == "blockquote" ==> CleanBlock(web, n, depth) == CleanContainer(web, n, Quote, depth, true)
    ensures n.kind !in Allowed(Top) ==> CleanBlock(web, n, depth).None?
  {
    hide CleanContainer, CleanInline;
  }

  lemma ListUnfolds(web: Links, n: Node, depth: nat)
    requires n.kind == "bulletList" || n.kind == "orderedList"
    ensures CleanBlock(web, n, depth) ==
            if BlockAttrs(n).None? || depth > MAX_DEPTH || !NoText(n) || n.content == [] then None
            else WithContent(n.kind, BlockAttrs(n).value, CleanItems(web, n.content, depth + 1))
  {
    hide CleanItems;
  }

  lemma RefusedWithin(before: nat, after: nat)
    ensures Within(None, before, after, None)
  {}

  class Normalizer {
    const web: Links
    var nodes: nat

    constructor (web: Links)
      ensures nodes == 0 && this.web == web
    {
      this.web := web;
      nodes := 0;
    }

    method Count(depth: nat) returns (ok: bool)
      modifies this`nodes
      ensures nodes == old(nodes) + 1
      ensures ok <==> nodes <= MAX_NODES && depth <= MAX_DEPTH
    {
      nodes := nodes + 1;
      ok := nodes <= MAX_NODES && depth <= MAX_DEPTH;
    }

    /** Each of the node's children is a block of an allowed kind. */
    method BlockContainer(n: Node, place: Place, depth: nat, nonEmpty: bool) returns (r: Option<Node>)
      modifies this`nodes
      ensures Within(CleanContainer(web, n, place, depth, nonEmpty), old(nodes), nodes, r)
      decreases n, 0
    {
      hide CleanBlock, CleanBlocks, Sizes, Join;
      var ok := Count(depth);
      if !ok || !NoText(n) || (nonEmpty && n.content == []) { return None; }
      var out := [];
      FromStart(n.content, CleanBlocks(web, n.content, place, depth + 1));
      NoSizes();
      for i := 0 to |n.content|
        invariant CleanBlocks(web, n.content, place, depth + 1) ==
          Join(out, CleanBlocks(web, n.content[i..], place, depth + 1))
        invariant nodes == old(nodes) + 1 + Sizes(out) <= MAX_NODES
      {
        var child := n.content[i];
        StepBlocks(web, n.content, place, i, depth + 1);
        ghost var at := nodes;
        if child.kind !in Allowed(place) {
          NoRest(out);
          return None;
        }
        var clean := Block(child, depth + 1);
        ghost var rest := CleanBlocks(web, n.content[i + 1..], place, depth + 1);
        if clean.None? {
          OneRefused(n.kind, map[], out, CleanBlock(web, child, depth + 1), rest, old(nodes), nodes, at);
          return None;
        }
        OneDone(out, clean.value, rest);
        out := out + [clean.value];
      }
      assert n.content[|n.content|..] == [];
      BlocksEnd(web, place, depth + 1);
      NoneLeft(out);
      r := Some(Node(n.kind, map[], out, "", []));
    }

    method Block(n: Node, depth: nat) returns (r: Option<Node>)
      modifies this`nodes
      ensures Within(CleanBlock(web, n, depth), old(nodes), nodes, r)
      decreases n, 1
    {
      hide CleanContainer, CleanInline, CleanItems, Within;
      BlockUnfolds(web, n, depth);
      match n.kind {
        case "paragraph" => r := InlineContainer(n, map[], depth);
        case "heading" =>
          var level := Whole(n.attrs, "level");
          if level.None? || level.value < 2 || level.value > 3 {
            RefusedWithin(nodes, nodes);
            return None;
          }
          r := InlineContainer(n, map["level" := Num(level.value)], depth);
        case "blockquote" => r := BlockContainer(n, Quote, depth, true);
        case _ =>
          if n.kind != "bulletList" && n.kind != "orderedList" {
            RefusedWithin(nodes, nodes);
            return None;
          }
          r := List(n, depth);
      }
    }

    method List(n: Node, depth: nat) returns (r: Option<Node>)
      requires n.kind == "bulletList" || n.kind == "orderedList"
      modifies this`nodes
      ensures Within(CleanBlock(web, n, depth), old(nodes), nodes, r)
      decreases n, 0
    {
      hide CleanContainer, CleanItems, CleanBlock, Sizes, Join;
      ListUnfolds(web, n, depth);
      var ok := Count(depth);
      if !ok || !NoText(n) || n.content == [] { return None; }
      var attrs: Attrs := map[];
      if n.kind == "orderedList" {
        var start := Whole(n.attrs, "start");
        if start.Some? && start.value != 1 {
          if start.value < 0 || start.value > 1_000_000 { return None; }
          attrs := map["start" := Num(start.value)];
        }
      }
      assert BlockAttrs(n) == Some(attrs);
      hide BlockAttrs;
      var out := [];
      FromStart(n.content, CleanItems(web, n.content, depth + 1));
      NoSizes();
      for i := 0 to |n.content|
        invariant CleanItems(web, n.content, depth + 1) == Join(out, CleanItems(web, n.content[i..], depth + 1))
        invariant nodes == old(nodes) + 1 + Sizes(out) <= MAX_NODES
      {
        var item := n.content[i];
        StepItems(web, n.content, i, depth + 1);
        ghost var at := nodes;
        if item.kind != "listItem" {
          NoRest(out);
          return None;
        }
        var clean := BlockContainer(item, Item, depth + 1, true);
        ghost var rest := CleanItems(web, n.content[i + 1..], depth + 1);
        if clean.None? {
          OneRefused(n.kind, attrs, out, CleanContainer(web, item, Item, depth + 1, true), rest, old(nodes), nodes, at);
          return None;
        }
        OneDone(out, clean.value, rest);
        out := out + [clean.value];
      }
      assert n.content[|n.content|..] == [];
      ItemsEnd(web, depth + 1);
      NoneLeft(out);
      r := Some(Node(n.kind, attrs, out, "", []));
    }

    /** A paragraph or heading: text, hard breaks and mentions. */
    method InlineContainer(n: Node, attrs: Attrs, depth: nat) returns (r: Option<Node>)
      modifies this`nodes
      ensures Within(CleanInline(web, n, attrs, depth), old(nodes), nodes, r)
    {
      hide CleanLeaf, CleanLeaves, Sizes, Join;
      var ok := Count(depth);
      if !ok || !NoText(n) { return None; }
      var out := [];
      FromStart(n.content, CleanLeaves(web, n.content, depth + 1));
      NoSizes();
      for i := 0 to |n.content|
        invariant CleanLeaves(web, n.content, depth + 1) == Join(out, CleanLeaves(web, n.content[i..], depth + 1))
        invariant nodes == old(nodes) + 1 + Sizes(out) <= MAX_NODES
      {
        StepLeaves(web, n.content, i, depth + 1);
        ghost var at := nodes;
        var clean := Leaf(n.content[i], depth + 1);
        ghost var rest := CleanLeaves(web, n.content[i + 1..], depth + 1);
        if clean.None? {
          OneRefused(n.kind, attrs, out, CleanLeaf(web, n.content[i], depth + 1), rest, old(nodes), nodes, at);
          return None;
        }
        OneDone(out, clean.value, rest);
        out := out + [clean.value];
      }
      assert n.content[|n.content|..] == [];
      LeavesEnd(web, depth + 1);
      NoneLeft(out);
      r := Some(Node(n.kind, attrs, out, "", []));
    }

    method Leaf(n: Node, depth: nat) returns (r: Option<Node>)
      modifies this`nodes
      ensures Within(CleanLeaf(web, n, depth), old(nodes), nodes, r)
    {
      hide CleanMarks, MentionOf;
      NoSizes();
      if n.kind !in INLINE { return None; }
      var ok := Count(depth);
      if !ok || n.content != [] { return None; }
      match n.kind {
        case "text" => r := CleanText(n);
        case "hardBreak" =>
          if !NoText(n) { return None; }
          r := Some(Node("hardBreak", map[], [], "", []));
        case _ =>
          if !NoText(n) { return None; }
          var attrs := MentionOf(n.attrs);
          if attrs.None? { return None; }
          r := Some(Node("mention", attrs.value, [], "", []));
      }
    }

    method CleanText(n: Node) returns (r: Option<Node>)
      ensures r == if n.text == "" || '\0' in n.text then None else TextNode(n.text, CleanMarks(web, n.marks))
    {
      if n.text == "" || '\0' in n.text { return None; }
      hide OfKind, SortMarks, CleanMark;
      var out := [];
      var seen := {};
      for i := 0 to |n.marks|
        invariant AllClean(web, n.marks[..i]) && NoKindTwice(n.marks[..i]) && out == Cleaned(web, n.marks[..i])
        invariant forall k :: k in seen <==> exists j :: 0 <= j < i && n.marks[j].kind == k
      {
        var mark := n.marks[i];
        if mark.kind in seen { return None; }
        seen := seen + {mark.kind};
        var clean := CleanMark(web, mark);
        if clean.None? { return None; }
        assert n.marks[..i + 1] == n.marks[..i] + [mark];
        out := out + [clean.value];
      }
      assert n.marks[..|n.marks|] == n.marks;
      SortedByKind(web, n.marks);
      r := Some(Node("text", map[], [], n.text, SortMarks(out)));
    }
  }

  /** ParseBody, from the decoded document on: accepted exactly when the schema takes it within the
    * limits, with one node counted for each node of the result. */
  method ParseBody(web: Links, doc: Node) returns (r: Option<Node>)
    ensures r == Canonical(web, doc)
    ensures r.Some? <==> TakesDoc(web, doc) && InLimits(doc)
    ensures r.Some? ==> SaysSame(doc, r.value)
  {
    CanonicalSays(web, doc);
    hide CleanContainer, TakesDoc, InLimits, SaysSame;
    if doc.kind != "doc" { return None; }
    var n := new Normalizer(web);
    r := n.BlockContainer(doc, Top, 0, false);
  }
}
