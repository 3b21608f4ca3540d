/** articles/articles.go: the key of a mention's target. */
module MentionKeys {
  import opened Options

  const MAX_REF_BYTES: nat := 200
  const MAX_INT64: nat := 0x7fff_ffff_ffff_ffff

  const KINDS: set<string> := {"CASE", "OCCURRENCE", "INQUIRY", "PERSON", "CLUSTER", "REQUEST", "REPORT"}

  /** The kinds keyed on a row id. */
  const NUMERIC_KINDS: set<string> := {"OCCURRENCE", "CLUSTER", "REQUEST", "REPORT"}

  predicate IsSpace(c: char) {
    var n := c as int;
    || 9 <= n <= 13 || n == 0x20 || n == 0x85 || n == 0xa0 || n == 0x1680 || 0x2000 <= n <= 0x200a
    || n == 0x2028 || n == 0x2029 || n == 0x202f || n == 0x205f || n == 0x3000
  }

  predicate Trimmed(s: string) {
    s == "" || (!IsSpace(s[0]) && !IsSpace(s[|s| - 1]))
  }

  /** strings.TrimSpace. */
  function TrimSpace(s: string): (r: string)
    ensures Trimmed(r) && (Trimmed(s) ==> r == s) && forall c :: c in r ==> c in s
  {
    if s == "" then s
    else if IsSpace(s[0]) then TrimSpace(s[1..])
    else if IsSpace(s[|s| - 1]) then TrimSpace(s[..|s| - 1])
    else s
  }

  /** The length of s in UTF-8. */
  function Bytes(s: string): (n: nat)
    ensures n >= |s|
  {
    if s == "" then 0 else
      var c := s[|s| - 1] as int;
      Bytes(s[..|s| - 1]) + if c < 0x80 then 1 else if c < 0x800 then 2 else if c < 0x1_0000 then 3 else 4
  }

  predicate IsDigit(c: char) { '0' <= c <= '9' }

  predicate AllDigits(s: string) { forall i :: 0 <= i < |s| ==> IsDigit(s[i]) }

  function Number(s: string): nat
    requires AllDigits(s)
  {
    if s == "" then 0 else 10 * Number(s[..|s| - 1]) + (s[|s| - 1] as int - '0' as int)
  }

  /** strconv.ParseInt in base 10, for the ids above zero. */
  function ParseId(s: string): Option<nat> {
    var digits := if s != "" && s[0] == '+' then s[1..] else s;
    if digits == "" || !AllDigits(digits) || !(0 < Number(digits) <= MAX_INT64) then None else Some(Number(digits))
  }

  /** strconv.FormatInt. */
  function FormatId(n: nat): (s: string)
    ensures s != "" && AllDigits(s)
    decreases n
  {
    (if n < 10 then "" else FormatId(n / 10)) + [(n % 10 + '0' as int) as char]
  }

  lemma {:induction false} FormatThenParse(n: nat)
    ensures Number(FormatId(n)) == n
    decreases n
  {
    var s := FormatId(n);
    var front := if n < 10 then "" else FormatId(n / 10);
    assert s[..|s| - 1] == front;
    if n >= 10 { FormatThenParse(n / 10); }
  }

  lemma {:induction false} FormatIsShort(n: nat, k: nat)
    requires n < Pow10(k) && k > 0
    ensures |FormatId(n)| <= k
    decreases n
  {
    if n >= 10 { FormatIsShort(n / 10, k - 1); }
  }

  function Pow10(k: nat): nat { if k == 0 then 1 else 10 * Pow10(k - 1) }

  lemma {:induction false} DigitsArePlain(s: string)
    requires AllDigits(s)
    ensures Bytes(s) == |s| && Trimmed(s) && '\0' !in s
  {
    if s != "" { DigitsArePlain(s[..|s| - 1]); }
  }

  /** A known kind and a key it may have, in the form it is stored in. */
  function ParseKey(kind: string, ref: string): Option<(string, string)> {
    var key := TrimSpace(ref);
    if kind !in KINDS || key == "" || Bytes(key) > MAX_REF_BYTES || '\0' in key then None
    else if kind !in NUMERIC_KINDS then Some((kind, key))
    else match ParseId(key)
      case None => None
      case Some(id) => Some((kind, FormatId(id)))
  }

  /** Parsing a parsed key again changes nothing. */
  lemma ParsedAgain(kind: string, ref: string)
    requires ParseKey(kind, ref).Some?
    ensures var key := ParseKey(kind, ref).value; ParseKey(key.0, key.1) == Some(key)
    ensures var key := ParseKey(kind, ref).value;
            Trimmed(key.1) && key.1 != "" && |key.1| <= MAX_REF_BYTES && '\0' !in key.1
  {
    if kind in NUMERIC_KINDS {
      var id := ParseId(TrimSpace(ref)).value;
      var s := FormatId(id);
      FormatThenParse(id);
      Nineteen();
      FormatIsShort(id, 19);
      DigitsArePlain(s);
      assert s[0] != '+' by { assert IsDigit(s[0]); }
      hide FormatId, Number;
      assert ParseId(s) == Some(id);
    }
  }

  lemma Nineteen()
    ensures MAX_INT64 < Pow10(19)
  {
    assert Pow10(10) == 10000000000;
    assert Pow10(19) == 10 * Pow10(18);
  }

  // -------------------------------------------------------------------- the same, written out

  /** The characters with the property White_Space. */
  predicate White(c: char) {
    (c as int) in {0x9, 0xa, 0xb, 0xc, 0xd, 0x20, 0x85, 0xa0, 0x1680, 0x2000, 0x2001, 0x2002, 0x2003, 0x2004, 0x2005,
                   0x2006, 0x2007, 0x2008, 0x2009, 0x200a, 0x2028, 0x2029, 0x202f, 0x205f, 0x3000}
  }

  /** t is s from a to b, with white space before and after it and none at its ends. */
  ghost predicate TrimmedAt(s: string, t: string, a: int, b: int) {
    && 0 <= a <= b <= |s| && t == s[a..b]
    && (forall i :: 0 <= i < a || b <= i < |s| ==> White(s[i]))
    && (t != "" ==> !White(t[0]) && !White(t[|t| - 1]))
  }

  ghost predicate TrimmedTo(s: string, t: string) {
    exists a, b :: TrimmedAt(s, t, a, b)
  }

  /** s in UTF-8 (section 3 of RFC 3629). */
  ghost function Utf8(s: string): seq<int> {
    if s == "" then [] else Utf8(s[..|s| - 1]) + Utf8Of(s[|s| - 1] as int)
  }

  ghost function Utf8Of(n: int): seq<int> {
    if n < 0x80 then [n]
    else if n < 0x800 then [0xc0 + n / 0x40, 0x80 + n % 0x40]
    else if n < 0x1_0000 then [0xe0 + n / 0x1000, 0x80 + n / 0x40 % 0x40, 0x80 + n % 0x40]
    else [0xf0 + n / 0x4_0000, 0x80 + n / 0x1000 % 0x40, 0x80 + n / 0x40 % 0x40, 0x80 + n % 0x40]
  }

  /** The value of decimal digits, by their places. */
  ghost function Value(s: string): int {
    if s == "" then 0 else (s[0] as int - '0' as int) * Pow10(|s| - 1) + Value(s[1..])
  }

  /** s is a whole number in decimal digits, n. */
  ghost predicate Decimal(s: string, n: int) {
    s != "" && (forall i :: 0 <= i < |s| ==> '0' <= s[i] <= '9') && Value(s) == n
  }

  /** The key given as ref for a mention of this kind: the ref without white space around it, of at most 200
    * bytes; for the kinds with row ids, the positive id it says, perhaps after a plus, in decimal. */
  ghost predicate KeyStated(kind: string, ref: string, key: string) {
    && kind in {"CASE", "OCCURRENCE", "INQUIRY", "PERSON", "CLUSTER", "REQUEST", "REPORT"}
    && exists t ::
         && TrimmedTo(ref, t) && t != "" && |Utf8(t)| <= 200 && '\0' !in t
         && (if kind in {"OCCURRENCE", "CLUSTER", "REQUEST", "REPORT"} then IdStated(t, key) else key == t)
  }

  ghost predicate IdStated(t: string, key: string) {
    exists id :: 0 < id <= 9223372036854775807 && Says(t, id) && Decimal(key, id) && key[0] != '0'
  }

  /** t is the number n, perhaps after a plus. */
  ghost predicate Says(t: string, n: int) {
    Decimal(t, n) || (t != "" && t[0] == '+' && Decimal(t[1..], n))
  }

  lemma {:induction false} TrimSpaceIs(s: string)
    ensures TrimmedTo(s, TrimSpace(s))
    ensures forall t :: TrimmedTo(s, t) <==> t == TrimSpace(s)
  {
    var a, b := TrimSpaceAt(s);
    forall t | TrimmedTo(s, t)
      ensures t == TrimSpace(s)
    {
      var c, d :| TrimmedAt(s, t, c, d);
      TrimmedOnce(s, TrimSpace(s), a, b, t, c, d);
    }
  }

  lemma {:induction false} TrimSpaceAt(s: string) returns (a: int, b: int)
    ensures TrimmedAt(s, TrimSpace(s), a, b)
  {
    if s == "" {
      a, b := 0, 0;
    } else if IsSpace(s[0]) {
      a, b := TrimSpaceAt(s[1..]);
      assert s[1..][a..b] == s[a + 1..b + 1];
      forall i | 0 <= i < a + 1 || b + 1 <= i < |s| ensures White(s[i]) { assert i > 0 ==> s[i] == s[1..][i - 1]; }
      a, b := a + 1, b + 1;
    } else if IsSpace(s[|s| - 1]) {
      var front := s[..|s| - 1];
      a, b := TrimSpaceAt(front);
      assert front[a..b] == s[a..b];
      forall i | 0 <= i < a || b <= i < |s| ensures White(s[i]) { assert i < |front| ==> s[i] == front[i]; }
    } else {
      a, b := 0, |s|;
      assert s[0..|s|] == s;
    }
  }

  lemma TrimmedOnce(s: string, t: string, a: int, b: int, u: string, c: int, d: int)
    requires TrimmedAt(s, t, a, b) && TrimmedAt(s, u, c, d)
    ensures t == u
  {
    if t != "" { assert t[0] == s[a] && t[|t| - 1] == s[b - 1]; }
    if u != "" { assert u[0] == s[c] && u[|u| - 1] == s[d - 1]; }
    if t != "" && u != "" {
      assert a == c && b == d;
    }
  }

  lemma {:induction false} BytesAreUtf8(s: string)
    ensures Bytes(s) == |Utf8(s)|
  {
    if s != "" { BytesAreUtf8(s[..|s| - 1]); }
  }

  lemma {:induction false} ValueMore(s: string, c: char)
    ensures Value(s + [c]) == 10 * Value(s) + (c as int - '0' as int)
  {
    if s == "" {
      assert s + [c] == [c] && [c][1..] == "";
    } else {
      ValueMore(s[1..], c);
      assert (s + [c])[1..] == s[1..] + [c];
      assert Pow10(|s|) == 10 * Pow10(|s| - 1);
      Scaled(s[0] as int - '0' as int, Pow10(|s| - 1));
    }
  }

  lemma Scaled(d: int, p: int)
    ensures d * (10 * p) == 10 * (d * p)
  {}

  lemma {:induction false} NumberIsValue(s: string)
    requires AllDigits(s)
    ensures Number(s) == Value(s)
  {
    if s != "" {
      var front, last := s[..|s| - 1], s[|s| - 1];
      NumberIsValue(front);
      ValueMore(front, last);
      assert front + [last] == s;
    }
  }

  lemma {:induction false} FormatLeads(n: nat)
    requires n > 0
    ensures FormatId(n)[0] != '0'
    decreases n
  {
    if n >= 10 { FormatLeads(n / 10); }
  }

  lemma {:induction false} NoLeadingZero(s: string)
    requires AllDigits(s) && s != "" && s[0] != '0'
    ensures Number(s) > 0
  {
    if |s| > 1 { NoLeadingZero(s[..|s| - 1]); }
  }

  /** Digits without a leading zero are the one decimal form of their value. */
  lemma {:induction false} FormatOnly(s: string)
    requires AllDigits(s) && s != "" && s[0] != '0'
    ensures Number(s) > 0 && s == FormatId(Number(s))
  {
    NoLeadingZero(s);
    var front, n := s[..|s| - 1], Number(s);
    assert s == front + [s[|s| - 1]];
    if front != "" {
      FormatOnly(front);
      assert n / 10 == Number(front) && n >= 10;
    }
    assert n % 10 + '0' as int == s[|s| - 1] as int;
  }

  /** The parsed key is the one stated, and there is one if and only if some key is. */
  lemma ParseKeyExactly(kind: string, ref: string, key: string)
    ensures ParseKey(kind, ref) == Some((kind, key)) <==> KeyStated(kind, ref, key)
    ensures ParseKey(kind, ref).Some? ==> ParseKey(kind, ref).value.0 == kind
  {
    TrimSpaceIs(ref);
    var t := TrimSpace(ref);
    BytesAreUtf8(t);
    hide TrimSpace, TrimmedTo, Bytes, Utf8;
    if t != "" { IdExactly(t, key); }
    hide ParseId, FormatId, IdStated;
  }

  lemma IdExactly(t: string, key: string)
    requires t != ""
    ensures IdStated(t, key) <==> ParseId(t).Some? && FormatId(ParseId(t).value) == key
  {
    hide FormatId, Number, Value;
    var digits := if t[0] == '+' then t[1..] else t;
    if AllDigits(digits) { NumberIsValue(digits); }
    if IdStated(t, key) {
      var id :| 0 < id <= 9223372036854775807 && Says(t, id) && Decimal(key, id) && key[0] != '0';
      assert AllDigits(digits) && Decimal(digits, id);
      FormatOnly(key);
      NumberIsValue(key);
    }
    if ParseId(t).Some? {
      var id := ParseId(t).value;
      var s := FormatId(id);
      FormatThenParse(id);
      FormatLeads(id);
      NumberIsValue(s);
      assert Decimal(digits, id) && Decimal(s, id);
    }
  }

  lemma {:induction false} FewBytes(s: string)
    ensures |Utf8(s)| <= 4 * |s|
  {
    if s != "" { FewBytes(s[..|s| - 1]); }
  }

  lemma StatedBy(t: string, key: string, id: int)
    requires 0 < id <= 9223372036854775807 && Says(t, id) && Decimal(key, id) && key[0] != '0'
    ensures IdStated(t, key)
  {}

  /** An id may have white space around it, a plus and leading zeros; it is stored without. */
  lemma KeyExample()
    ensures ParseKey("CLUSTER", " +0042\n") == Some(("CLUSTER", "42"))
  {
    var ref, t := " +0042\n", "+0042";
    assert ref[1..6] == t;
    assert TrimmedAt(ref, t, 1, 6);
    FewBytes(t);
    assert Value("42") == 42 by { assert "42"[1..] == "2" && "2"[1..] == ""; }
    assert Value("0042") == 42 by { assert "0042"[1..] == "042" && "042"[1..] == "42"; }
    assert t[1..] == "0042";
    assert Decimal("42", 42) && Decimal("0042", 42);
    StatedBy(t, "42", 42);
    ParseKeyExactly("CLUSTER", ref, "42");
  }
}
