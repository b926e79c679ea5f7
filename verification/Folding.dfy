/** Simple Unicode case folding as the driver uses it: `next` sends a rune to the
    next rune of its fold orbit, and walking the orbit comes back to the start. */
module Folding {

  const PERCENT := '%'
  const UNDERSCORE := '_'

  /** The rune reached from `c` after `n` steps of `next`. */
  ghost function Iter(next: char -> char, c: char, n: nat): char
  {
    if n == 0 then c else next(Iter(next, c, n - 1))
  }

  ghost predicate OnCycle(next: char -> char, c: char) {
    exists n: nat :: n > 0 && Iter(next, c, n) == c
  }

  /** `next` permutes the runes with finite cycles, and `%` has no case variant. */
  ghost predicate IsFold(next: char -> char) {
    && next(PERCENT) == PERCENT
    && forall c :: OnCycle(next, c)
  }

  ghost predicate SameOrbit(next: char -> char, a: char, b: char) {
    exists n: nat :: Iter(next, a, n) == b
  }

  lemma {:induction false} IterSum(next: char -> char, c: char, m: nat, n: nat)
    ensures Iter(next, c, m + n) == Iter(next, Iter(next, c, m), n)
  {
    if n != 0 {
      IterSum(next, c, m, n - 1);
      assert m + (n - 1) == m + n - 1;
    }
  }

  lemma {:induction false} IterPeriods(next: char -> char, c: char, period: nat, times: nat)
    requires Iter(next, c, period) == c
    ensures Iter(next, c, period * times) == c
  {
    if times != 0 {
      IterPeriods(next, c, period, times - 1);
      IterSum(next, c, period, period * (times - 1));
      assert period * times == period + period * (times - 1);
    }
  }

  /** Orbit membership is an equivalence relation. */
  lemma OrbitReflexive(next: char -> char, a: char)
    ensures SameOrbit(next, a, a)
  {
    assert Iter(next, a, 0) == a;
  }

  lemma OrbitSymmetric(next: char -> char, a: char, b: char)
    requires IsFold(next) && SameOrbit(next, a, b)
    ensures SameOrbit(next, b, a)
  {
    var n: nat :| Iter(next, a, n) == b;
    assert OnCycle(next, a);
    var period: nat :| period > 0 && Iter(next, a, period) == a;
    var back := (period - 1) * n;
    IterPeriods(next, a, period, n);
    assert n + back == period * n;
    IterSum(next, a, n, back);
    assert Iter(next, b, back) == a;
  }

  lemma OrbitTransitive(next: char -> char, a: char, b: char, c: char)
    requires SameOrbit(next, a, b) && SameOrbit(next, b, c)
    ensures SameOrbit(next, a, c)
  {
    var m: nat :| Iter(next, a, m) == b;
    var n: nat :| Iter(next, b, n) == c;
    IterSum(next, a, m, n);
  }

  /** Two runes of one orbit are fold-equal to the same runes. */
  lemma OrbitSwap(next: char -> char, a: char, b: char, c: char)
    requires IsFold(next) && SameOrbit(next, a, b)
    ensures SameOrbit(next, a, c) <==> SameOrbit(next, b, c)
    ensures SameOrbit(next, c, a) <==> SameOrbit(next, c, b)
  {
    OrbitSymmetric(next, a, b);
    if SameOrbit(next, a, c) { OrbitTransitive(next, b, a, c); }
    if SameOrbit(next, b, c) { OrbitTransitive(next, a, b, c); }
    if SameOrbit(next, c, a) { OrbitTransitive(next, c, a, b); }
    if SameOrbit(next, c, b) { OrbitTransitive(next, c, b, a); }
  }

  lemma {:induction false} FixedPointOrbit(next: char -> char, a: char, n: nat)
    requires next(a) == a
    ensures Iter(next, a, n) == a
  {
    if n != 0 { FixedPointOrbit(next, a, n - 1); }
  }

  /** `%` is fold-equal to itself alone, on either side. */
  lemma PercentAlone(next: char -> char, c: char)
    requires IsFold(next)
    ensures SameOrbit(next, PERCENT, c) <==> c == PERCENT
    ensures SameOrbit(next, c, PERCENT) <==> c == PERCENT
  {
    OrbitReflexive(next, PERCENT);
    if SameOrbit(next, c, PERCENT) { OrbitSymmetric(next, c, PERCENT); }
    if SameOrbit(next, PERCENT, c) {
      var n: nat :| Iter(next, PERCENT, n) == c;
      FixedPointOrbit(next, PERCENT, n);
    }
  }

  /** A walk that came back after `n` steps has seen the whole orbit. */
  lemma {:induction false} OrbitCovered(next: char -> char, a: char, b: char, n: nat, m: nat)
    requires n > 0 && Iter(next, a, n) == a && Iter(next, a, m) == b
    ensures exists k: nat :: k < n && Iter(next, a, k) == b
    decreases m
  {
    if m >= n {
      IterSum(next, a, n, m - n);
      OrbitCovered(next, a, b, n, m - n);
    }
  }

  /** One step of the fold stays among the fold-equal runes. */
  lemma StepIsEqual(next: char -> char, c: char)
    ensures SameOrbit(next, c, next(c))
  {
    assert Iter(next, c, 0) == c;
    assert Iter(next, c, 1) == next(c);
  }

  lemma {:induction false} IterStays(next: char -> char, s: set<char>, c: char, n: nat)
    requires c in s && forall d :: d in s ==> next(d) in s
    ensures Iter(next, c, n) in s
  {
    if n > 0 {
      IterStays(next, s, c, n - 1);
    }
  }

  /** And no others are: whatever is closed under the fold holds all of them. */
  lemma OrbitIsLeast(next: char -> char, s: set<char>, c: char, d: char)
    requires c in s && forall e :: e in s ==> next(e) in s
    requires SameOrbit(next, c, d)
    ensures d in s
  {
    var n: nat :| Iter(next, c, n) == d;
    IterStays(next, s, c, n);
  }

  /** Walks the orbit of `a` once and says whether it meets `b`. */
  method EqualFold(next: char -> char, a: char, b: char) returns (equal: bool)
    requires IsFold(next)
    ensures equal == SameOrbit(next, a, b)
  {
    OrbitReflexive(next, a);
    if a == b {
      return true;
    }
    assert OnCycle(next, a);
    ghost var period: nat :| period > 0 && Iter(next, a, period) == a;
    var r := next(a);
    ghost var n: nat := 1;
    while r != a
      invariant 1 <= n <= period && r == Iter(next, a, n)
      invariant forall k: nat :: k < n ==> Iter(next, a, k) != b
      decreases period - n
    {
      if r == b {
        return true;
      }
      r := next(r);
      n := n + 1;
    }
    if SameOrbit(next, a, b) {
      var m: nat :| Iter(next, a, m) == b;
      OrbitCovered(next, a, b, n, m);
      assert false;
    }
    return false;
  }

  /** Rune by rune fold-equal: strings.EqualFold. */
  ghost predicate FoldVariant(next: char -> char, a: string, b: string) {
    && |a| == |b|
    && forall k :: 0 <= k < |a| ==> SameOrbit(next, a[k], b[k])
  }

  method EqualFoldStrings(next: char -> char, a: string, b: string) returns (equal: bool)
    requires IsFold(next)
    ensures equal == FoldVariant(next, a, b)
  {
    if |a| != |b| {
      return false;
    }
    for k := 0 to |a|
      invariant forall i :: 0 <= i < k ==> SameOrbit(next, a[i], b[i])
    {
      var same := EqualFold(next, a[k], b[k]);
      if !same {
        return false;
      }
    }
    return true;
  }
}
