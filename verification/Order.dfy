/** Strings in byte order, and sorting strings and numbers. */
module Order {

  predicate Le(a: string, b: string) {
    a == [] || (b != [] && (a[0] < b[0] || (a[0] == b[0] && Le(a[1..], b[1..]))))
  }

  lemma {:induction false} LeTotal(a: string, b: string)
    ensures Le(a, b) || Le(b, a)
  {
    if a != [] && b != [] && a[0] == b[0] { LeTotal(a[1..], b[1..]); }
  }

  lemma {:induction false} LeAntisym(a: string, b: string)
    requires Le(a, b) && Le(b, a)
    ensures a == b
  {
    if a != [] {
      LeAntisym(a[1..], b[1..]);
      assert a == [a[0]] + a[1..] && b == [b[0]] + b[1..];
    }
  }

  lemma {:induction false} LeTrans(a: string, b: string, c: string)
    requires Le(a, b) && Le(b, c)
    ensures Le(a, c)
  {
    if a != [] && a[0] == b[0] && b[0] == c[0] { LeTrans(a[1..], b[1..], c[1..]); }
  }

  /** a comes before b in byte order: b goes on where a ends, or at the first place they differ a's is smaller. */
  ghost predicate Before(a: string, b: string) {
    (a <= b && a != b) || exists k :: RisesAt(a, b, k)
  }

  predicate RisesAt(a: string, b: string, k: int) {
    0 <= k < |a| && k < |b| && a[..k] == b[..k] && (a[k] as int) < (b[k] as int)
  }

  /** The comparison Go makes of strings. */
  lemma {:induction false} LeIsByteOrder(a: string, b: string)
    ensures Le(a, b) <==> a <= b || exists k ::
      0 <= k < |a| && k < |b| && a[..k] == b[..k] && (a[k] as int) < (b[k] as int)
    ensures Le(a, b) <==> a == b || Before(a, b)
  {
    if Le(a, b) { LeGives(a, b); }
    if a <= b { PrefixLe(a, b); }
    forall k | RisesAt(a, b, k)
      ensures Le(a, b)
    {
      RisesLe(a, b, k);
    }
    assert (exists k :: RisesAt(a, b, k)) <==> exists k ::
      0 <= k < |a| && k < |b| && a[..k] == b[..k] && (a[k] as int) < (b[k] as int) by {
      if k :| 0 <= k < |a| && k < |b| && a[..k] == b[..k] && (a[k] as int) < (b[k] as int) {
        assert RisesAt(a, b, k);
      }
    }
  }

  lemma {:induction false} LeGives(a: string, b: string)
    requires Le(a, b)
    ensures a <= b || exists k :: RisesAt(a, b, k)
  {
    if a != [] && a[0] < b[0] {
      assert RisesAt(a, b, 0);
    } else if a != [] {
      LeGives(a[1..], b[1..]);
      if k :| RisesAt(a[1..], b[1..], k) {
        var n := k + 1;
        assert a[..n] == [a[0]] + a[1..][..k] && b[..n] == [b[0]] + b[1..][..k];
        assert RisesAt(a, b, n);
      }
    }
  }

  lemma {:induction false} PrefixLe(a: string, b: string)
    requires a <= b
    ensures Le(a, b)
  {
    if a != [] { PrefixLe(a[1..], b[1..]); }
  }

  lemma {:induction false} RisesLe(a: string, b: string, k: int)
    requires RisesAt(a, b, k)
    ensures Le(a, b)
  {
    if k > 0 {
      assert a[0] == a[..k][0] && b[0] == b[..k][0];
      assert a[1..][..k - 1] == a[..k][1..] && b[1..][..k - 1] == b[..k][1..];
      RisesLe(a[1..], b[1..], k - 1);
    }
  }

  /** Each string comes before all that follow it. */
  ghost predicate Rise(s: seq<string>) {
    forall i, j :: 0 <= i < j < |s| ==> Before(s[i], s[j])
  }

  /** a is one of the strings, and comes before the others. */
  ghost predicate First(s: seq<string>, a: string) {
    a in s && forall x :: x in s ==> x == a || Before(a, x)
  }

  ghost predicate Sorted(s: seq<string>) {
    forall i, j :: 0 <= i < j < |s| ==> Le(s[i], s[j])
  }

  predicate NoRepeats<T(==)>(s: seq<T>) {
    forall i, j :: 0 <= i < j < |s| ==> s[i] != s[j]
  }

  lemma SortedRise(s: seq<string>)
    requires Sorted(s) && NoRepeats(s)
    ensures Rise(s)
  {
    hide Before, Le;
    forall i, j | 0 <= i < j < |s|
      ensures Before(s[i], s[j])
    {
      LeIsByteOrder(s[i], s[j]);
    }
  }

  function Insert(x: string, s: seq<string>): (r: seq<string>)
    ensures multiset(r) == multiset(s) + multiset{x}
  {
    if s == [] then [x]
    else if Le(x, s[0]) then [x] + s
    else
      assert s == [s[0]] + s[1..];
      [s[0]] + Insert(x, s[1..])
  }

  /** sort.Strings. */
  function Sort(s: seq<string>): (r: seq<string>)
    ensures multiset(r) == multiset(s)
  {
    if s == [] then []
    else
      assert s == [s[0]] + s[1..];
      Insert(s[0], Sort(s[1..]))
  }

  lemma {:induction false} InsertSorted(x: string, s: seq<string>)
    requires Sorted(s)
    ensures Sorted(Insert(x, s))
  {
    if s != [] {
      if Le(x, s[0]) {
        forall j | 0 <= j < |s| ensures Le(x, s[j]) {
          if j > 0 { LeTrans(x, s[0], s[j]); }
        }
      } else {
        var r := Insert(x, s[1..]);
        InsertSorted(x, s[1..]);
        LeTotal(x, s[0]);
        forall y | y in r ensures Le(s[0], y) {
          assert y in multiset(r);
          if y != x { var j :| 0 <= j < |s[1..]| && s[1..][j] == y; assert s[j + 1] == y; }
        }
      }
    }
  }

  lemma {:induction false} SortSorted(s: seq<string>)
    ensures Sorted(Sort(s))
  {
    if s != [] {
      SortSorted(s[1..]);
      InsertSorted(s[0], Sort(s[1..]));
    }
  }

  lemma MembersSort(s: seq<string>)
    ensures forall x :: x in Sort(s) <==> x in s
    ensures |Sort(s)| == |s|
  {
    forall x ensures x in Sort(s) <==> x in s {
      assert x in multiset(Sort(s)) <==> x in multiset(s);
    }
    assert |Sort(s)| == |multiset(Sort(s))| == |multiset(s)| == |s|;
  }

  lemma {:induction false} NoRepeatsMultiset<T>(s: seq<T>)
    ensures NoRepeats(s) <==> forall x :: x in s ==> multiset(s)[x] == 1
  {
    if s != [] {
      var t := s[1..];
      assert s == [s[0]] + t;
      NoRepeatsMultiset(t);
      assert forall x :: multiset(s)[x] == multiset(t)[x] + if x == s[0] then 1 else 0;
      if NoRepeats(s) {
        assert NoRepeats(t) by { assert forall i :: 0 <= i < |t| ==> t[i] == s[i + 1]; }
        assert s[0] !in t;
        forall x | x in s ensures multiset(s)[x] == 1 {
          if x == s[0] { assert x !in multiset(t); } else { assert x in t; }
        }
      } else {
        var i, j :| 0 <= i < j < |s| && s[i] == s[j];
        assert s[j] == t[j - 1];
        var x := s[0];
        if i > 0 {
          assert t[i - 1] == t[j - 1];
          x :| x in t && multiset(t)[x] != 1;
        }
        assert x in t && x in s && multiset(t)[x] > 0;
        assert multiset(s)[x] > 1;
      }
    }
  }

  lemma NoRepeatsSort(s: seq<string>)
    requires NoRepeats(s)
    ensures NoRepeats(Sort(s))
  {
    NoRepeatsMultiset(s);
    NoRepeatsMultiset(Sort(s));
    MembersSort(s);
  }

  /** The smallest of some strings. */
  function Smallest(s: seq<string>): (a: string)
    requires s != []
    ensures a in s
  {
    if |s| == 1 then s[0]
    else
      var m := Smallest(s[..|s| - 1]);
      if s[|s| - 1] != m && Le(s[|s| - 1], m) then s[|s| - 1] else m
  }

  lemma {:induction false} SmallestLe(s: seq<string>)
    requires s != []
    ensures forall x :: x in s ==> Le(Smallest(s), x)
  {
    var last := s[|s| - 1];
    LeTotal(last, last);
    if |s| > 1 {
      var rest := s[..|s| - 1];
      SmallestLe(rest);
      LeTotal(last, Smallest(rest));
      forall x | x in s ensures Le(Smallest(s), x) {
        if x != last {
          assert x in rest;
          if Smallest(s) == last { LeTrans(last, Smallest(rest), x); }
        }
      }
    }
  }

  /** The smallest string is the first in byte order, and only it. */
  lemma SmallestFirst(s: seq<string>)
    requires s != []
    ensures forall a :: First(s, a) <==> a == Smallest(s)
  {
    hide Before, Le, Smallest;
    var m := Smallest(s);
    SmallestLe(s);
    forall x | x in s
      ensures x == m || Before(m, x)
    {
      LeIsByteOrder(m, x);
    }
    forall a | First(s, a)
      ensures a == m
    {
      if a != m {
        LeIsByteOrder(a, m);
        LeAntisym(a, m);
      }
    }
  }

  /** Sorted lists without repeats that hold the same strings are the same list. */
  lemma {:induction false} SortedUnique(s: seq<string>, t: seq<string>)
    requires Sorted(s) && Sorted(t) && NoRepeats(s) && NoRepeats(t)
    requires forall x :: x in s <==> x in t
    ensures s == t
  {
    if s != [] { assert s[0] in t; }
    if t != [] { assert t[0] in s; }
    if s != [] && t != [] {
      var i :| 0 <= i < |s| && s[i] == t[0];
      var j :| 0 <= j < |t| && t[j] == s[0];
      LeTotal(s[0], s[0]);
      assert Le(s[0], t[0]) && Le(t[0], s[0]);
      LeAntisym(s[0], t[0]);
      forall x ensures x in s[1..] <==> x in t[1..] {
        TailHas(s, x);
        TailHas(t, x);
      }
      SortedUnique(s[1..], t[1..]);
    }
  }

  lemma TailHas(s: seq<string>, x: string)
    requires s != [] && NoRepeats(s)
    ensures x in s[1..] <==> x in s && x != s[0]
  {
    assert s == [s[0]] + s[1..];
    if x in s[1..] {
      var i :| 0 <= i < |s[1..]| && s[1..][i] == x;
      assert s[i + 1] == x;
    }
  }

  // ------------------------------------------------------------------------------- whole numbers

  function InsertInt(x: int, s: seq<int>): (r: seq<int>)
    ensures multiset(r) == multiset(s) + multiset{x}
  {
    if s == [] then [x] else if x <= s[0] then [x] + s
    else
      assert s == [s[0]] + s[1..];
      [s[0]] + InsertInt(x, s[1..])
  }

  /** slices.Sort and sort.Slice on numbers. */
  function SortInts(s: seq<int>): (r: seq<int>)
    ensures multiset(r) == multiset(s)
  {
    if s == [] then [] else
      assert s == [s[0]] + s[1..];
      InsertInt(s[0], SortInts(s[1..]))
  }

  ghost predicate Ascending(s: seq<int>) {
    forall i, j :: 0 <= i < j < |s| ==> s[i] <= s[j]
  }

  lemma {:induction false} InsertAscending(x: int, s: seq<int>)
    requires Ascending(s)
    ensures Ascending(InsertInt(x, s))
  {
    if s != [] && x > s[0] {
      var r := InsertInt(x, s[1..]);
      InsertAscending(x, s[1..]);
      forall y | y in r ensures s[0] <= y {
        assert y in multiset(r);
        if y != x { var j :| 0 <= j < |s[1..]| && s[1..][j] == y; assert s[j + 1] == y; }
      }
      forall i, j | 0 <= i < j < |[s[0]] + r|
        ensures ([s[0]] + r)[i] <= ([s[0]] + r)[j]
      {
        assert ([s[0]] + r)[j] == r[j - 1] && r[j - 1] in r;
        if i > 0 { assert ([s[0]] + r)[i] == r[i - 1]; }
      }
    }
  }

  lemma {:induction false} SortAscending(s: seq<int>)
    ensures Ascending(SortInts(s)) && forall x :: x in SortInts(s) <==> x in s
  {
    if s != [] {
      SortAscending(s[1..]);
      InsertAscending(s[0], SortInts(s[1..]));
    }
    forall x ensures x in SortInts(s) <==> x in s {
      assert x in multiset(SortInts(s)) <==> x in multiset(s);
    }
  }

  /** Sorting keeps the numbers, and how often each is there. */
  lemma SortIntsKeeps(s: seq<int>)
    ensures |SortInts(s)| == |s| && (forall x :: x in SortInts(s) <==> x in s)
    ensures (NoRepeats(s) ==> NoRepeats(SortInts(s)))
  {
    var r := SortInts(s);
    assert |r| == |multiset(r)| == |multiset(s)| == |s|;
    forall x ensures x in r <==> x in s {
      assert x in multiset(r) <==> x in multiset(s);
    }
    NoRepeatsMultiset(s);
    NoRepeatsMultiset(r);
  }
}
