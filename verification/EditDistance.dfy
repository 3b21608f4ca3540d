/** cluster/conflicts.go: the Levenshtein distance between two names. */
module EditDistance {

  function Min3(a: nat, b: nat, c: nat): nat {
    if a <= b && a <= c then a else if b <= c then b else c
  }

  /** The distance by its recurrence, on the last characters. */
  function Lev(a: string, b: string): nat
    decreases |a| + |b|
  {
    if a == [] then |b|
    else if b == [] then |a|
    else
      var x, y := a[..|a| - 1], b[..|b| - 1];
      Min3(Lev(x, b) + 1, Lev(a, y) + 1, Lev(x, y) + if a[|a| - 1] == b[|b| - 1] then 0 else 1)
  }

  /** One row, overwritten in place for each character of a. */
  method EditDistance(a: string, b: string) returns (d: nat)
    ensures d == Lev(a, b)
  {
    hide Lev, Min3;
    var row := new nat[|b| + 1](j => j);
    forall j | 0 <= j <= |b| ensures Lev(a[..0], b[..j]) == j { LevEmpty(b[..j]); }
    for i := 1 to |a| + 1
      invariant forall k {:trigger row[k]} :: 0 <= k <= |b| ==> row[k] == Lev(a[..i - 1], b[..k])
    {
      ghost var above := row[..];
      var previous := row[0];
      LevEmpty(a[..i]);
      row[0] := i;
      for j := 1 to |b| + 1
        invariant previous == above[j - 1]
        invariant forall k {:trigger row[k]} :: 0 <= k < j ==> row[k] == Lev(a[..i], b[..k])
        invariant forall k {:trigger row[k]} :: j <= k <= |b| ==> row[k] == above[k]
      {
        var cost := if a[i - 1] == b[j - 1] then 0 else 1;
        var current := row[j];
        LevStep(a, b, i, j);
        row[j] := Min3(row[j] + 1, row[j - 1] + 1, previous + cost);
        previous := current;
      }
    }
    assert a[..|a|] == a && b[..|b|] == b;
    d := row[|b|];
  }

  lemma LevEmpty(s: string)
    ensures Lev([], s) == |s| == Lev(s, [])
  {}

  lemma LevStep(a: string, b: string, i: nat, j: nat)
    requires 1 <= i <= |a| && 1 <= j <= |b|
    ensures Lev(a[..i], b[..j]) == Min3(Lev(a[..i - 1], b[..j]) + 1, Lev(a[..i], b[..j - 1]) + 1,
                                        Lev(a[..i - 1], b[..j - 1]) + if a[i - 1] == b[j - 1] then 0 else 1)
  {
    assert a[..i][..i - 1] == a[..i - 1] && b[..j][..j - 1] == b[..j - 1];
  }

  // ---------------------------------------------------------------------------------- a metric

  lemma {:induction false} LevSymmetric(a: string, b: string)
    ensures Lev(a, b) == Lev(b, a)
    decreases |a| + |b|
  {
    if a != [] && b != [] {
      LevSymmetric(a[..|a| - 1], b);
      LevSymmetric(a, b[..|b| - 1]);
      LevSymmetric(a[..|a| - 1], b[..|b| - 1]);
    }
  }

  lemma {:induction false} LevZero(a: string, b: string)
    ensures Lev(a, b) == 0 <==> a == b
    decreases |a| + |b|
  {
    if a != [] && b != [] {
      var x, y := a[..|a| - 1], b[..|b| - 1];
      LevZero(x, y);
      assert a == x + [a[|a| - 1]] && b == y + [b[|b| - 1]];
    }
  }

  lemma {:induction false} Triangle(a: string, b: string, c: string)
    ensures Lev(a, c) <= Lev(a, b) + Lev(b, c)
    decreases |a| + |b| + |c|
  {
    if b == [] {
      LevAtMost(a, c);
    } else if a == [] {
      LevAtLeast(b, c);
    } else if c == [] {
      LevAtLeast(b, a);
      LevSymmetric(a, b);
    } else {
      var x, y, z := a[..|a| - 1], b[..|b| - 1], c[..|c| - 1];
      Triangle(x, b, c);
      Triangle(a, y, c);
      Triangle(a, b, z);
      Triangle(x, y, z);
      Triangle(x, y, c);
      Triangle(a, y, z);
    }
  }

  lemma {:induction false} LevAtMost(a: string, b: string)
    ensures Lev(a, b) <= |a| + |b|
    decreases |a| + |b|
  {
    if a != [] && b != [] { LevAtMost(a[..|a| - 1], b); }
  }

  /** The distance is at least the difference in length. */
  lemma {:induction false} LevAtLeast(a: string, b: string)
    ensures |b| <= Lev(a, b) + |a|
    decreases |a| + |b|
  {
    if a != [] && b != [] {
      LevAtLeast(a[..|a| - 1], b);
      LevAtLeast(a, b[..|b| - 1]);
      LevAtLeast(a[..|a| - 1], b[..|b| - 1]);
    }
  }

  // --------------------------------------------------------------- the fewest single-rune edits

  /** t is s with one rune inserted, deleted or replaced. */
  ghost predicate OneEdit(s: string, t: string) {
    || (exists i, c :: 0 <= i <= |s| && t == s[..i] + [c] + s[i..])
    || (exists i :: 0 <= i < |s| && t == s[..i] + s[i + 1..])
    || (exists i, c :: 0 <= i < |s| && t == s[..i] + [c] + s[i + 1..])
  }

  /** steps goes from a to b by one edit at a time. */
  ghost predicate Edits(steps: seq<string>, a: string, b: string) {
    && steps != [] && steps[0] == a && steps[|steps| - 1] == b
    && forall i: nat {:trigger StepAt(steps, i)} :: i + 1 < |steps| ==> StepAt(steps, i)
  }

  ghost predicate StepAt(steps: seq<string>, i: nat)
    requires i + 1 < |steps|
  {
    OneEdit(steps[i], steps[i + 1])
  }

  /** Adding the same rest to both never increases the distance. */
  lemma {:induction false} LevAppend(a: string, b: string, rest: string)
    ensures Lev(a + rest, b + rest) <= Lev(a, b)
  {
    if rest == [] {
      assert a + rest == a && b + rest == b;
    } else {
      var r := rest[..|rest| - 1];
      LevAppend(a, b, r);
      assert (a + rest)[..|a + rest| - 1] == a + r && (b + rest)[..|b + rest| - 1] == b + r;
    }
  }

  lemma InsertNear(s: string, i: nat, c: char)
    requires i <= |s|
    ensures Lev(s, s[..i] + [c] + s[i..]) <= 1 && Lev(s[..i] + [c] + s[i..], s) <= 1
  {
    hide Lev;
    assert s == s[..i] + s[i..];
    OneMore(s[..i], c);
    LevAppend(s[..i], s[..i] + [c], s[i..]);
    LevSymmetric(s, s[..i] + [c] + s[i..]);
  }

  lemma ReplaceNear(s: string, i: nat, c: char)
    requires i < |s|
    ensures Lev(s, s[..i] + [c] + s[i + 1..]) <= 1
  {
    hide Lev;
    OneOther(s[..i], s[i], c);
    LevAppend(s[..i] + [s[i]], s[..i] + [c], s[i + 1..]);
    assert s == s[..i] + [s[i]] + s[i + 1..];
  }

  lemma OneEditNear(s: string, t: string)
    requires OneEdit(s, t)
    ensures Lev(s, t) <= 1
  {
    hide Lev;
    if i, c :| 0 <= i <= |s| && t == s[..i] + [c] + s[i..] {
      InsertNear(s, i, c);
    } else if i :| 0 <= i < |s| && t == s[..i] + s[i + 1..] {
      assert t[..i] == s[..i] && t[i..] == s[i + 1..];
      assert s == t[..i] + [s[i]] + t[i..];
      InsertNear(t, i, s[i]);
    } else {
      var i, c :| 0 <= i < |s| && t == s[..i] + [c] + s[i + 1..];
      ReplaceNear(s, i, c);
    }
  }

  lemma OneMore(s: string, c: char)
    ensures Lev(s, s + [c]) <= 1
  {
    LevZero(s, s);
    assert (s + [c])[..|s|] == s;
  }

  lemma OneOther(s: string, c: char, d: char)
    ensures Lev(s + [c], s + [d]) <= 1
  {
    LevZero(s, s);
    assert (s + [c])[..|s|] == s && (s + [d])[..|s|] == s;
  }

  /** No sequence of edits is shorter than the distance. */
  lemma {:induction false} NoFewerEdits(steps: seq<string>, a: string, b: string)
    requires Edits(steps, a, b)
    ensures Lev(a, b) <= |steps| - 1
  {
    LevZero(a, a);
    if |steps| > 1 {
      var rest, mid := steps[..|steps| - 1], steps[|steps| - 2];
      assert StepAt(steps, |steps| - 2);
      forall i: nat | i + 1 < |rest|
        ensures StepAt(rest, i)
      {
        assert StepAt(steps, i);
      }
      NoFewerEdits(rest, a, mid);
      OneEditNear(mid, b);
      Triangle(a, mid, b);
    }
  }

  /** Some sequence of edits is as short as the distance. */
  lemma {:induction false} EnoughEdits(a: string, b: string) returns (steps: seq<string>)
    ensures Edits(steps, a, b) && |steps| == Lev(a, b) + 1
    decreases |a| + |b|
  {
    hide Edits, OneEdit;
    if a == [] && b == [] {
      steps := NoEdit(a);
    } else if a == [] || (b != [] && Lev(a, b) == Lev(a, b[..|b| - 1]) + 1) {
      var y := b[..|b| - 1];
      var s := EnoughEdits(a, y);
      LastRune(b);
      steps := MoreEdits(s, a, y, b);
    } else if b == [] || Lev(a, b) == Lev(a[..|a| - 1], b) + 1 {
      var x := a[..|a| - 1];
      var s := EnoughEdits(x, b);
      LastRune(a);
      steps := FirstEdit(s, a, x, b);
    } else {
      var x, y, c, d := a[..|a| - 1], b[..|b| - 1], a[|a| - 1], b[|b| - 1];
      var s := EnoughEdits(x, y);
      assert x + [c] == a && y + [d] == b;
      var t := AppendAll(s, x, y, c);
      if c == d {
        steps := t;
      } else {
        OtherRune(y, c, d);
        steps := MoreEdits(t, a, y + [c], b);
      }
    }
  }

  lemma NoEdit(a: string) returns (steps: seq<string>)
    ensures Edits(steps, a, a) && |steps| == 1
  {
    steps := [a];
  }

  /** A string is one edit from itself without its last rune, and back. */
  lemma LastRune(b: string)
    requires b != []
    ensures OneEdit(b[..|b| - 1], b) && OneEdit(b, b[..|b| - 1])
  {
    var y := b[..|b| - 1];
    assert b == y[..|y|] + [b[|b| - 1]] + y[|y|..];
    assert y == b[..|y|] + b[|y| + 1..];
  }

  lemma OtherRune(y: string, c: char, d: char)
    ensures OneEdit(y + [c], y + [d])
  {
    var m := y + [c];
    assert y + [d] == m[..|y|] + [d] + m[|y| + 1..];
  }

  lemma MoreEdits(s: seq<string>, a: string, m: string, b: string) returns (steps: seq<string>)
    requires Edits(s, a, m) && OneEdit(m, b)
    ensures Edits(steps, a, b) && |steps| == |s| + 1
  {
    steps := s + [b];
    forall i: nat | i + 1 < |steps|
      ensures StepAt(steps, i)
    {
      if i < |s| - 1 { assert StepAt(s, i); }
    }
  }

  lemma FirstEdit(s: seq<string>, a: string, m: string, b: string) returns (steps: seq<string>)
    requires Edits(s, m, b) && OneEdit(a, m)
    ensures Edits(steps, a, b) && |steps| == |s| + 1
  {
    steps := [a] + s;
    forall i: nat | i + 1 < |steps|
      ensures StepAt(steps, i)
    {
      if i > 0 { assert StepAt(s, i - 1); }
    }
  }

  /** The same edits with a character kept at the end. */
  lemma AppendAll(s: seq<string>, a: string, b: string, c: char) returns (steps: seq<string>)
    requires Edits(s, a, b)
    ensures Edits(steps, a + [c], b + [c]) && |steps| == |s|
  {
    hide OneEdit;
    steps := seq(|s|, i requires 0 <= i < |s| => s[i] + [c]);
    forall i: nat | i + 1 < |steps|
      ensures StepAt(steps, i)
    {
      assert StepAt(s, i);
      EditKept(s[i], s[i + 1], c);
    }
  }

  lemma KeptRest(s: string, c: char, i: nat, j: nat)
    requires i <= j <= |s|
    ensures (s + [c])[..i] == s[..i] && (s + [c])[j..] == s[j..] + [c]
  {}

  lemma EditKept(s: string, t: string, c: char)
    requires OneEdit(s, t)
    ensures OneEdit(s + [c], t + [c])
  {
    if i, d :| 0 <= i <= |s| && t == s[..i] + [d] + s[i..] {
      InsertKept(s, i, d, c);
    } else if i :| 0 <= i < |s| && t == s[..i] + s[i + 1..] {
      DeleteKept(s, i, c);
    } else {
      var i, d :| 0 <= i < |s| && t == s[..i] + [d] + s[i + 1..];
      ReplaceKept(s, i, d, c);
    }
  }

  lemma InsertKept(s: string, i: nat, d: char, c: char)
    requires i <= |s|
    ensures OneEdit(s + [c], s[..i] + [d] + s[i..] + [c])
  {
    var u := s + [c];
    KeptRest(s, c, i, i);
    assert s[..i] + [d] + s[i..] + [c] == u[..i] + [d] + u[i..];
  }

  lemma DeleteKept(s: string, i: nat, c: char)
    requires i < |s|
    ensures OneEdit(s + [c], s[..i] + s[i + 1..] + [c])
  {
    var u := s + [c];
    KeptRest(s, c, i, i + 1);
    assert s[..i] + s[i + 1..] + [c] == u[..i] + u[i + 1..];
  }

  lemma ReplaceKept(s: string, i: nat, d: char, c: char)
    requires i < |s|
    ensures OneEdit(s + [c], s[..i] + [d] + s[i + 1..] + [c])
  {
    var u := s + [c];
    KeptRest(s, c, i, i + 1);
    assert s[..i] + [d] + s[i + 1..] + [c] == u[..i] + [d] + u[i + 1..];
  }

  /** The distance is the least number of single-rune edits from a to b. */
  lemma LevIsFewest(a: string, b: string)
    ensures exists steps :: Edits(steps, a, b) && |steps| - 1 == Lev(a, b)
    ensures forall steps :: Edits(steps, a, b) ==> Lev(a, b) <= |steps| - 1
  {
    var some := EnoughEdits(a, b);
    forall steps | Edits(steps, a, b)
      ensures Lev(a, b) <= |steps| - 1
    {
      NoFewerEdits(steps, a, b);
    }
  }

  // ------------------------------------------------------------------------------- the same name

  /** At most n edits lead from a to b. */
  ghost predicate WithinEdits(a: string, b: string, n: nat) {
    exists steps :: Edits(steps, a, b) && |steps| - 1 <= n
  }

  lemma WithinExactly(a: string, b: string, n: nat)
    ensures WithinEdits(a, b, n) <==> Lev(a, b) <= n
  {
    hide Lev, Edits;
    LevIsFewest(a, b);
  }

  /** Two names are one name, or a spelling variant of it: once folded, at most two edits apart. */
  method SameName(a: string, b: string, fold: string -> string) returns (same: bool)
    ensures same <==> WithinEdits(fold(a), fold(b), 2)
  {
    hide WithinEdits;
    WithinExactly(fold(a), fold(b), 2);
    LevZero(fold(a), fold(b));
    if fold(a) == fold(b) { return true; }
    var d := EditDistance(fold(a), fold(b));
    same := d <= 2;
  }

  /** A name of n times one letter. */
  function Letters(n: nat): (s: string)
    ensures |s| == n
  {
    seq(n, _ => 'a')
  }

  lemma {:induction false} LettersApart(m: nat, n: nat)
    ensures Lev(Letters(m), Letters(m + n)) <= n
  {
    hide Lev;
    if n == 0 {
      LevZero(Letters(m), Letters(m));
    } else {
      LettersApart(m, n - 1);
      assert Letters(m + n - 1) + ['a'] == Letters(m + n);
      OneMore(Letters(m + n - 1), 'a');
      Triangle(Letters(m), Letters(m + n - 1), Letters(m + n));
    }
  }

  /** What is within m edits of a name and what is within n of it are within limit edits of each other
    * if and only if m + n is. So a variant of a variant is one, with the limit of two, only where the
    * two together need no more than two edits. */
  lemma VariantsOfVariants(m: nat, n: nat, limit: nat)
    ensures (forall a, b, c :: WithinEdits(a, b, m) && WithinEdits(b, c, n) ==> WithinEdits(a, c, limit)) <==>
      m + n <= limit
  {
    hide WithinEdits, Lev, Letters;
    if m + n <= limit {
      forall a, b, c | WithinEdits(a, b, m) && WithinEdits(b, c, n)
        ensures WithinEdits(a, c, limit)
      {
        WithinExactly(a, b, m);
        WithinExactly(b, c, n);
        WithinExactly(a, c, limit);
        Triangle(a, b, c);
      }
    } else {
      var a, b, c := Letters(1), Letters(1 + m), Letters(1 + m + n);
      LettersApart(1, m);
      LettersApart(1 + m, n);
      LevAtLeast(a, c);
      WithinExactly(a, b, m);
      WithinExactly(b, c, n);
      WithinExactly(a, c, limit);
    }
  }
}
