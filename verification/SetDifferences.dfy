/** The set difference over arrays of lib/array.h, for a comparison function given by the caller. */
module SetDifferences {

  /** Some element of `s` matches `x`, compared in the direction array_contains_ uses. */
  predicate Has<T>(s: seq<T>, x: T, eq: (T, T) -> bool) {
    exists i :: 0 <= i < |s| && eq(s[i], x)
  }

  /** array_contains_. */
  method Contains<T>(s: seq<T>, x: T, eq: (T, T) -> bool) returns (found: bool)
    ensures found == Has(s, x, eq)
  {
    for i := 0 to |s|
      invariant !Has(s[..i], x, eq)
    {
      if eq(s[i], x) { return true; }
      assert s[..i + 1] == s[..i] + [s[i]];
    }
    assert s[..|s|] == s;
    found := false;
  }

  /** What array_set_difference_ has written after the first `n` elements of `a`: an element goes out unless
      `b` or the output so far matches it. */
  function Output<T>(a: seq<T>, b: seq<T>, eq: (T, T) -> bool, n: nat): (r: seq<T>)
    requires n <= |a|
    ensures |r| <= n
  {
    if n == 0 then []
    else
      var r := Output(a, b, eq, n - 1);
      if Has(b, a[n - 1], eq) || Has(r, a[n - 1], eq) then r else r + [a[n - 1]]
  }

  lemma {:induction false} OutputGrows<T>(a: seq<T>, b: seq<T>, eq: (T, T) -> bool, m: nat, n: nat)
    requires m <= n <= |a|
    ensures |Output(a, b, eq, m)| <= |Output(a, b, eq, n)|
  {
    if m < n { OutputGrows(a, b, eq, m, n - 1); }
  }

  /** array_set_difference_, for any comparison. `out` is the memory behind the output pointer; an element
      written behind its end is an overrun, where the model stops. */
  method SetDifference<T>(a: seq<T>, b: seq<T>, out: array<T>, eq: (T, T) -> bool) returns (n: nat, fits: bool)
    modifies out
    ensures fits == (|Output(a, b, eq, |a|)| <= out.Length)
    ensures fits ==> n <= out.Length && out[..n] == Output(a, b, eq, |a|)
    ensures fits ==> forall k :: n <= k < out.Length ==> out[k] == old(out[k])
  {
    n, fits := 0, true;
    for i := 0 to |a|
      invariant fits && n <= out.Length && out[..n] == Output(a, b, eq, i)
      invariant forall k :: n <= k < out.Length ==> out[k] == old(out[k])
    {
      var inB := Contains(b, a[i], eq);
      var inOut := Contains(out[..n], a[i], eq);
      if !inB && !inOut {
        OutputGrows(a, b, eq, i + 1, |a|);
        if n == out.Length { return n, false; }
        Append(out, n, a[i]);
        n := n + 1;
      }
    }
  }

  /** memcpy of one element. */
  method Append<T>(out: array<T>, n: nat, x: T)
    requires n < out.Length
    modifies out
    ensures out[..n + 1] == old(out[..n]) + [x]
    ensures forall k :: n < k < out.Length ==> out[k] == old(out[k])
  {
    out[n] := x;
  }

  // ----- what the difference is: position i of `a` survives when nothing in `b` and nothing before it matches

  predicate Survives<T>(a: seq<T>, b: seq<T>, eq: (T, T) -> bool, i: nat)
    requires i < |a|
  {
    !Has(b, a[i], eq) && !Has(a[..i], a[i], eq)
  }

  /** The surviving positions, in order. */
  function Survivors<T>(a: seq<T>, b: seq<T>, eq: (T, T) -> bool, n: nat): (r: seq<nat>)
    requires n <= |a|
    ensures |r| <= n && forall k :: 0 <= k < |r| ==> r[k] < n
  {
    if n == 0 then []
    else Survivors(a, b, eq, n - 1) + if Survives(a, b, eq, n - 1) then [n - 1] else []
  }

  /** The survivors among the first `n` elements. */
  function Difference<T>(a: seq<T>, b: seq<T>, eq: (T, T) -> bool, n: nat): (r: seq<T>)
    requires n <= |a|
    ensures |r| == |Survivors(a, b, eq, n)|
  {
    var kept := Survivors(a, b, eq, n);
    seq(|kept|, k requires 0 <= k < |kept| => a[kept[k]])
  }

  ghost predicate Transitive<T(!new)>(eq: (T, T) -> bool) {
    forall x, y, z :: eq(x, y) && eq(y, z) ==> eq(x, z)
  }

  ghost predicate Equivalence<T(!new)>(eq: (T, T) -> bool) {
    Transitive(eq) && (forall x, y :: eq(x, y) ==> eq(y, x)) && forall x :: eq(x, x)
  }

  predicate Increasing(r: seq<nat>) {
    forall j, k :: 0 <= j < k < |r| ==> r[j] < r[k]
  }

  lemma {:induction false} SurvivorsAreInOrder<T>(a: seq<T>, b: seq<T>, eq: (T, T) -> bool, n: nat)
    requires n <= |a|
    ensures Increasing(Survivors(a, b, eq, n))
    ensures forall i :: 0 <= i < n ==> (i in Survivors(a, b, eq, n) <==> Survives(a, b, eq, i))
  {
    if n > 0 {
      SurvivorsAreInOrder(a, b, eq, n - 1);
    }
  }

  /** For a transitive comparison, an element outside `b` was met before exactly when the output has it. */
  lemma MetBefore<T(!new)>(a: seq<T>, b: seq<T>, eq: (T, T) -> bool, n: nat, x: T)
    requires n <= |a| && Transitive(eq) && !Has(b, x, eq)
    ensures Has(Difference(a, b, eq, n), x, eq) <==> Has(a[..n], x, eq)
  {
    SurvivorsAreInOrder(a, b, eq, n);
    var kept, d := Survivors(a, b, eq, n), Difference(a, b, eq, n);
    if Has(d, x, eq) {
      var k :| 0 <= k < |d| && eq(d[k], x);
      assert eq(a[..n][kept[k]], x);
    }
    if Has(a[..n], x, eq) {
      var i: nat := FirstMatch(a, n, x, eq);
      HasUpToMatch(b, a[i], x, eq);
      HasUpToMatch(a[..i], a[i], x, eq);
      assert i in kept;
      var k :| 0 <= k < |kept| && kept[k] == i;
      assert eq(d[k], x);
    }
  }

  lemma HasUpToMatch<T(!new)>(s: seq<T>, y: T, x: T, eq: (T, T) -> bool)
    requires Transitive(eq) && eq(y, x) && !Has(s, x, eq)
    ensures !Has(s, y, eq)
  {
  }

  lemma FirstMatch<T>(a: seq<T>, n: nat, x: T, eq: (T, T) -> bool) returns (i: nat)
    requires n <= |a| && Has(a[..n], x, eq)
    ensures i < n && eq(a[i], x) && forall j :: 0 <= j < i ==> !eq(a[j], x)
  {
    i := 0;
    while !eq(a[i], x)
      invariant i < n && forall j :: 0 <= j < i ==> !eq(a[j], x)
      decreases n - i
    {
      var k :| 0 <= k < n && eq(a[..n][k], x);
      i := i + 1;
    }
  }

  /** For a transitive comparison the output is the order-keeping, duplicate-free difference. */
  lemma {:induction false} OutputIsDifference<T(!new)>(a: seq<T>, b: seq<T>, eq: (T, T) -> bool, n: nat)
    requires n <= |a| && Transitive(eq)
    ensures Output(a, b, eq, n) == Difference(a, b, eq, n)
  {
    if n > 0 {
      OutputIsDifference(a, b, eq, n - 1);
      if !Has(b, a[n - 1], eq) { MetBefore(a, b, eq, n - 1, a[n - 1]); }
    }
  }

  /** For an equivalence the result holds exactly the classes of `a` that `b` lacks. */
  lemma DifferenceIsExact<T(!new)>(a: seq<T>, b: seq<T>, eq: (T, T) -> bool, x: T)
    requires Equivalence(eq)
    ensures Has(Difference(a, b, eq, |a|), x, eq) <==> Has(a, x, eq) && !Has(b, x, eq)
  {
    var kept, d := Survivors(a, b, eq, |a|), Difference(a, b, eq, |a|);
    SurvivorsAreInOrder(a, b, eq, |a|);
    assert a[..|a|] == a;
    if !Has(b, x, eq) {
      MetBefore(a, b, eq, |a|, x);
    } else {
      var i :| 0 <= i < |b| && eq(b[i], x);
      forall k | 0 <= k < |d|
        ensures !eq(d[k], x)
      {
        assert Survives(a, b, eq, kept[k]);
        assert !eq(b[i], d[k]);
      }
    }
  }

  /** No two elements of the result match, an earlier with a later one. */
  lemma DifferenceHasNoMatch<T>(a: seq<T>, b: seq<T>, eq: (T, T) -> bool)
    ensures var d := Difference(a, b, eq, |a|); forall j, k :: 0 <= j < k < |d| ==> !eq(d[j], d[k])
  {
    var kept, d := Survivors(a, b, eq, |a|), Difference(a, b, eq, |a|);
    SurvivorsAreInOrder(a, b, eq, |a|);
    forall j, k | 0 <= j < k < |d|
      ensures !eq(d[j], d[k])
    {
      assert Survives(a, b, eq, kept[k]);
      assert a[..kept[k]][kept[j]] == d[j];
    }
  }
}
