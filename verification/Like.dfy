/** SQL LIKE matching on the client: the backtracking loop, what it decides on every
    input, and where that is the declared meaning of a pattern. */
module LikePatterns {
  import opened Folding

  /** One pattern rune other than a wildcard run against one name rune. */
  ghost predicate OneMatch(next: char -> char, p: char, c: char) {
    p == UNDERSCORE || SameOrbit(next, p, c)
  }

  /** The declared meaning: `%` is any run of runes, `_` any one rune. */
  ghost predicate Like(next: char -> char, p: string, s: string)
    decreases |p|
  {
    if p == [] then s == []
    else if p[0] == PERCENT then exists k :: 0 <= k <= |s| && Like(next, p[1..], s[k..])
    else s != [] && OneMatch(next, p[0], s[0]) && Like(next, p[1..], s[1..])
  }

  /** Main result on the declared meaning: `_` is any one rune, `%` anything, a pattern
      without wildcards itself up to case, and two patterns one after the other describe
      what the first describes followed by what the second describes. */
  lemma LikeMeans(next: char -> char, p: string, p': string, s: string)
    requires IsFold(next)
    ensures Like(next, "_", s) <==> |s| == 1
    ensures Like(next, "%", s)
    ensures '%' !in p && '_' !in p ==> (Like(next, p, s) <==> FoldVariant(next, p, s))
    ensures Like(next, p + p', s) <==> exists k :: 0 <= k <= |s| && Like(next, p, s[..k]) && Like(next, p', s[k..])
  {
    assert "_"[1..] == "" && "%"[1..] == "";
    assert s[|s|..] == [];
    if '%' !in p && '_' !in p {
      PlainIsItself(next, p, s);
    }
    LikeConcat(next, p, p', s);
  }

  lemma {:induction false} PlainIsItself(next: char -> char, p: string, s: string)
    requires PERCENT !in p && UNDERSCORE !in p
    ensures Like(next, p, s) <==> FoldVariant(next, p, s)
    decreases |p|
  {
    if p != [] && s != [] {
      assert p[0] in p;
      PlainIsItself(next, p[1..], s[1..]);
      assert forall k :: 1 <= k < |p| ==> p[1..][k - 1] == p[k];
      assert forall k :: 1 <= k < |s| ==> s[1..][k - 1] == s[k];
    }
  }

  lemma {:induction false} LikeConcat(next: char -> char, p: string, p': string, s: string)
    ensures Like(next, p + p', s) <==> exists k :: 0 <= k <= |s| && Like(next, p, s[..k]) && Like(next, p', s[k..])
    decreases |p|
  {
    if p == [] {
      assert p + p' == p' && s[0..] == s;
    } else {
      assert (p + p')[0] == p[0] && (p + p')[1..] == p[1..] + p';
      if p[0] == PERCENT {
        RunConcat(next, p, p', s);
      } else if s != [] {
        LikeConcat(next, p[1..], p', s[1..]);
        forall k | 1 <= k <= |s| ensures s[..k][1..] == s[1..][..k - 1] && s[k..] == s[1..][k - 1..] {}
        if k :| 0 <= k <= |s[1..]| && Like(next, p[1..], s[1..][..k]) && Like(next, p', s[1..][k..]) {
          assert s[..k + 1][1..] == s[1..][..k];
        }
      }
    }
  }

  lemma {:induction false} RunConcat(next: char -> char, p: string, p': string, s: string)
    requires p != [] && p[0] == PERCENT
    ensures Like(next, p + p', s) <==> exists k :: 0 <= k <= |s| && Like(next, p, s[..k]) && Like(next, p', s[k..])
    decreases |p|, 0
  {
    assert (p + p')[0] == p[0] && (p + p')[1..] == p[1..] + p';
    if Like(next, p + p', s) {
      var j :| 0 <= j <= |s| && Like(next, p[1..] + p', s[j..]);
      LikeConcat(next, p[1..], p', s[j..]);
      var k :| 0 <= k <= |s[j..]| && Like(next, p[1..], s[j..][..k]) && Like(next, p', s[j..][k..]);
      assert s[j..][..k] == s[..j + k][j..] && s[j..][k..] == s[j + k..];
    }
    if k :| 0 <= k <= |s| && Like(next, p, s[..k]) && Like(next, p', s[k..]) {
      var j :| 0 <= j <= k && Like(next, p[1..], s[..k][j..]);
      assert s[..k][j..] == s[j..][..k - j] && s[k..] == s[j..][k - j..];
      LikeConcat(next, p[1..], p', s[j..]);
      assert Like(next, p[1..] + p', s[j..]);
    }
  }

  /** What the loop decides about the rest of the pattern from `i` and the rest of the
      name from `j`: as `Like`, but a `%` of the pattern that meets a `%` of the name
      stands for that one rune. */
  ghost predicate LoopAt(next: char -> char, p: string, s: string, i: nat, j: nat)
    requires i <= |p| && j <= |s|
    decreases |p| - i, 0
  {
    if i == |p| then j == |s|
    else if p[i] == PERCENT && !(j < |s| && s[j] == PERCENT) then Later(next, p, s, i + 1, j)
    else j < |s| && OneMatch(next, p[i], s[j]) && LoopAt(next, p, s, i + 1, j + 1)
  }

  ghost predicate LoopLike(next: char -> char, p: string, s: string) {
    LoopAt(next, p, s, 0, 0)
  }

  /** The rest of the pattern from `i` matches some suffix that starts at `from` or later. */
  ghost predicate Later(next: char -> char, p: string, s: string, i: nat, from: nat)
    requires i <= |p|
    decreases |p| - i, 1
  {
    exists k :: from <= k <= |s| && LoopAt(next, p, s, i, k)
  }

  /** `p[a..i]` matches the name from `m` rune by rune, without any wildcard run. */
  ghost predicate Aligned(next: char -> char, p: string, s: string, a: nat, i: nat, m: nat)
    requires a <= i <= |p| && m + (i - a) <= |s|
  {
    forall k :: a <= k < i ==> OneMatch(next, p[k], s[m + (k - a)])
  }

  /** Why remembering the last `%` is enough. The loop has matched `p[a..i]` rune by
      rune against the name from `m` to `j`. Any other match of the rest of the pattern
      that is not behind the loop reaches position `i` of the pattern no earlier than `j`. */
  lemma {:induction false} NeverBehind(next: char -> char, p: string, s: string,
                                       a: nat, i: nat, m: nat, j: nat, b: nat, k: nat)
    requires IsFold(next)
    requires a <= b <= i <= |p| && j == m + (i - a) && j <= |s| && Aligned(next, p, s, a, i, m)
    requires k <= |s| && k - b >= j - i
    requires LoopAt(next, p, s, b, k)
    ensures Later(next, p, s, i, j)
    decreases i - b
  {
    if b < i {
      if p[b] == PERCENT && !(k < |s| && s[k] == PERCENT) {
        if k - b == j - i {
          assert OneMatch(next, p[b], s[m + (b - a)]);
          PercentAlone(next, s[k]);
          assert false;
        }
        var k' :| k <= k' <= |s| && LoopAt(next, p, s, b + 1, k');
        NeverBehind(next, p, s, a, i, m, j, b + 1, k');
      } else {
        NeverBehind(next, p, s, a, i, m, j, b + 1, k + 1);
      }
    }
  }

  /** A match from behind the last `%` is also one from where the loop is now. */
  lemma StarAbsorbed(next: char -> char, p: string, s: string, a: nat, i: nat, m: nat, j: nat)
    requires IsFold(next)
    requires a <= i <= |p| && j == m + (i - a) && j <= |s| && Aligned(next, p, s, a, i, m)
    requires Later(next, p, s, a, m + 1)
    ensures Later(next, p, s, i, j)
  {
    var k :| m + 1 <= k <= |s| && LoopAt(next, p, s, a, k);
    NeverBehind(next, p, s, a, i, m, j, a, k);
  }

  lemma LaterUnfold(next: char -> char, p: string, s: string, i: nat, j: nat)
    requires i <= |p| && j <= |s|
    ensures Later(next, p, s, i, j) <==> LoopAt(next, p, s, i, j) || Later(next, p, s, i, j + 1)
  {
  }

  /** Between two iterations: the rest of the name still has to match the rest of the
      pattern, or the last `%` (at `star`) has to take more than it took at `mark`.
      `goal` is the final answer. */
  ghost predicate Pending(next: char -> char, p: string, s: string, i: int, j: int, star: int, mark: int,
                          goal: bool) {
    && 0 <= i <= |p| && 0 <= mark <= j <= |s| && -1 <= star < i
    && (star == -1 ==> mark == 0)
    && (star >= 0 ==> j == mark + (i - (star + 1)) && Aligned(next, p, s, star + 1, i, mark))
    && (goal <==> LoopAt(next, p, s, i, j) || (star >= 0 && Later(next, p, s, star + 1, mark + 1)))
  }

  lemma PendingLiteral(next: char -> char, p: string, s: string, i: nat, j: nat, star: int, mark: nat, goal: bool)
    requires IsFold(next) && Pending(next, p, s, i, j, star, mark, goal)
    requires i < |p| && j < |s| && OneMatch(next, p[i], s[j])
    ensures Pending(next, p, s, i + 1, j + 1, star, mark, goal)
  {
    PercentAlone(next, s[j]);
  }

  lemma PendingStar(next: char -> char, p: string, s: string, i: nat, j: nat, star: int, mark: nat, goal: bool)
    requires IsFold(next) && Pending(next, p, s, i, j, star, mark, goal)
    requires i < |p| && j < |s| && p[i] == PERCENT && s[j] != PERCENT
    ensures Pending(next, p, s, i + 1, j, i, j, goal)
  {
    if star >= 0 && Later(next, p, s, star + 1, mark + 1) {
      StarAbsorbed(next, p, s, star + 1, i, mark, j);
      var k :| j <= k <= |s| && LoopAt(next, p, s, i, k);
      if k < |s| && s[k] == PERCENT {
        PercentAlone(next, s[k]);
        assert LoopAt(next, p, s, i + 1, k + 1);
      } else {
        assert Later(next, p, s, i + 1, k);
        var k' :| k <= k' <= |s| && LoopAt(next, p, s, i + 1, k');
      }
    }
    LaterUnfold(next, p, s, i + 1, j);
  }

  lemma PendingBack(next: char -> char, p: string, s: string, i: nat, j: nat, star: nat, mark: nat, goal: bool)
    requires IsFold(next) && Pending(next, p, s, i, j, star, mark, goal)
    requires j < |s| && (i < |p| ==> p[i] != PERCENT && !OneMatch(next, p[i], s[j]))
    ensures Pending(next, p, s, star + 1, mark + 1, star, mark + 1, goal)
  {
  }

  lemma PendingEnd(next: char -> char, p: string, s: string, i: nat, star: int, mark: nat, goal: bool)
    requires IsFold(next) && Pending(next, p, s, i, |s|, star, mark, goal)
    ensures goal <==> LoopAt(next, p, s, i, |s|)
  {
    if star >= 0 && Later(next, p, s, star + 1, mark + 1) {
      StarAbsorbed(next, p, s, star + 1, i, mark, |s|);
    }
  }

  /** Grows in every iteration: `mark` first, a row of n + 1 each, then `i`. */
  ghost function Rank(n: nat, mark: nat, i: nat): nat {
    if mark == 0 then i else n + 1 + Rank(n, mark - 1, i)
  }

  lemma {:induction false} RankGrows(n: nat, mark: nat, mark': nat, i: nat, i': nat)
    requires i <= n && (mark < mark' || (mark == mark' && i < i'))
    ensures Rank(n, mark, i) < Rank(n, mark', i')
  {
    if mark > 0 {
      RankGrows(n, mark - 1, mark' - 1, i, i');
    }
  }

  lemma {:induction false} RankIs(n: nat, mark: nat, i: nat)
    ensures Rank(n, mark, i) == (n + 1) * mark + i
  {
    if mark > 0 {
      RankIs(n, mark - 1, i);
      assert (n + 1) * mark == (n + 1) * (mark - 1) + (n + 1);
    }
  }

  /** The matching loop. It decides `LoopLike` on every input, and `steps`, the number
      of iterations of its main part, stays below (|p| + 1) * (|s| + 1). */
  method LikeMatch(next: char -> char, p: string, s: string) returns (matches: bool, ghost steps: nat)
    requires IsFold(next)
    ensures matches == LoopLike(next, p, s)
    ensures steps < (|p| + 1) * (|s| + 1)
  {
    var i, j, star, mark := 0, 0, -1, 0;
    steps := 0;
    ghost var goal := LoopLike(next, p, s);
    RankIs(|p|, |s| + 1, 0);
    while j < |s|
      invariant Pending(next, p, s, i, j, star, mark, goal)
      invariant steps <= Rank(|p|, mark, i)
      decreases |s| - mark, |p| - i
    {
      PercentAlone(next, s[j]);
      var literal := i < |p| && p[i] == UNDERSCORE;
      if i < |p| && !literal {
        literal := EqualFold(next, p[i], s[j]);
      }
      if literal {
        PendingLiteral(next, p, s, i, j, star, mark, goal);
        RankGrows(|p|, mark, mark, i, i + 1);
        i := i + 1;
        j := j + 1;
      } else if i < |p| && p[i] == PERCENT {
        PendingStar(next, p, s, i, j, star, mark, goal);
        RankGrows(|p|, mark, j, i, i + 1);
        star := i;
        mark := j;
        i := i + 1;
      } else if star != -1 {
        PendingBack(next, p, s, i, j, star, mark, goal);
        RankGrows(|p|, mark, mark + 1, i, star + 1);
        i := star + 1;
        mark := mark + 1;
        j := mark;
      } else {
        RankGrows(|p|, mark, mark + 1, i, 0);
        RankGrows(|p|, mark + 1, |s| + 1, 0, 0);
        return false, steps + 1;
      }
      steps := steps + 1;
    }
    RankGrows(|p|, mark, |s| + 1, i, 0);
    PendingEnd(next, p, s, i, star, mark, goal);
    while i < |p| && p[i] == PERCENT
      invariant 0 <= i <= |p|
      invariant goal <==> LoopAt(next, p, s, i, |s|)
    {
      i := i + 1;
    }
    return i == |p|, steps;
  }

  lemma {:induction false} LoopAtSuffix(next: char -> char, p: string, s: string, p': string, s': string,
                                        di: nat, dj: nat, i: nat, j: nat)
    requires di <= |p'| && dj <= |s'| && p == p'[di..] && s == s'[dj..] && i <= |p| && j <= |s|
    ensures LoopAt(next, p, s, i, j) <==> LoopAt(next, p', s', di + i, dj + j)
    decreases |p| - i
  {
    if i < |p| {
      assert p[i] == p'[di + i];
      if p[i] == PERCENT && !(j < |s| && s[j] == PERCENT) {
        var i' := i + 1;
        forall k | j <= k <= |s|
          ensures LoopAt(next, p, s, i', k) <==> LoopAt(next, p', s', di + i', dj + k)
        {
          LoopAtSuffix(next, p, s, p', s', di, dj, i', k);
        }
        SameSuffixes(next, p, s, p', s', di, dj, i', j);
      } else if j < |s| {
        LoopAtSuffix(next, p, s, p', s', di, dj, i + 1, j + 1);
      }
    }
  }

  lemma SameSuffixes(next: char -> char, p: string, s: string, p': string, s': string,
                     di: nat, dj: nat, i: nat, j: nat)
    requires i <= |p| && j <= |s| && di + i <= |p'| && dj + |s| == |s'|
    requires forall k :: j <= k <= |s| ==> (LoopAt(next, p, s, i, k) <==> LoopAt(next, p', s', di + i, dj + k))
    ensures Later(next, p, s, i, j) <==> Later(next, p', s', di + i, dj + j)
  {
    if Later(next, p', s', di + i, dj + j) {
      var k :| dj + j <= k <= |s'| && LoopAt(next, p', s', di + i, k);
      assert LoopAt(next, p, s, i, k - dj) <==> LoopAt(next, p', s', di + i, dj + (k - dj));
    }
  }

  /** The recursion of `LoopLike` over the first rune of the pattern. */
  lemma Unfold(next: char -> char, p: string, s: string)
    requires p != []
    ensures p[0] == PERCENT && !(s != [] && s[0] == PERCENT)
            ==> (LoopLike(next, p, s) <==> exists k :: 0 <= k <= |s| && LoopLike(next, p[1..], s[k..]))
    ensures !(p[0] == PERCENT && !(s != [] && s[0] == PERCENT))
            ==> (LoopLike(next, p, s) <==> s != [] && OneMatch(next, p[0], s[0]) && LoopLike(next, p[1..], s[1..]))
  {
    forall k | 0 <= k <= |s|
      ensures LoopLike(next, p[1..], s[k..]) <==> LoopAt(next, p, s, 1, k)
    {
      LoopAtSuffix(next, p[1..], s[k..], p, s, 1, k, 0, 0);
    }
    if p[0] == PERCENT && !(s != [] && s[0] == PERCENT) {
      assert LoopLike(next, p, s) <==> Later(next, p, s, 1, 0);
      if LoopLike(next, p, s) {
        var k :| 0 <= k <= |s| && LoopAt(next, p, s, 1, k);
        assert LoopLike(next, p[1..], s[k..]);
      }
    }
  }

  /** The loop never accepts a name that the pattern does not describe. */
  lemma {:induction false} LoopIsSound(next: char -> char, p: string, s: string)
    requires LoopLike(next, p, s)
    ensures Like(next, p, s)
    decreases |p|
  {
    if p != [] { Unfold(next, p, s); }
    if p == [] {
    } else if p[0] == PERCENT && !(s != [] && s[0] == PERCENT) {
      var k :| 0 <= k <= |s| && LoopLike(next, p[1..], s[k..]);
      LoopIsSound(next, p[1..], s[k..]);
    } else {
      LoopIsSound(next, p[1..], s[1..]);
    }
  }

  /** On a name without `%`, or a pattern without `%`, it accepts every name that the
      pattern describes. */
  lemma {:induction false} LoopIsComplete(next: char -> char, p: string, s: string)
    requires IsFold(next) && Like(next, p, s)
    requires PERCENT !in p || PERCENT !in s
    ensures LoopLike(next, p, s)
    decreases |p|
  {
    if p != [] { Unfold(next, p, s); }
    if p == [] {
    } else if p[0] == PERCENT {
      var k :| 0 <= k <= |s| && Like(next, p[1..], s[k..]);
      LoopIsComplete(next, p[1..], s[k..]);
    } else {
      LoopIsComplete(next, p[1..], s[1..]);
    }
  }

  function Repeat(c: char, n: nat): (r: string)
    ensures |r| == n && forall k :: 0 <= k < n ==> r[k] == c
  {
    seq(n, _ => c)
  }

  lemma {:induction false} UnderscoresCount(next: char -> char, p: string, s: string)
    requires forall k :: 0 <= k < |p| ==> p[k] == UNDERSCORE
    ensures Like(next, p, s) <==> |s| == |p|
    ensures LoopLike(next, p, s) <==> |s| == |p|
  {
    if p != [] {
      Unfold(next, p, s);
      if s != [] { UnderscoresCount(next, p[1..], s[1..]); }
    }
  }

  lemma {:induction false} NoRunNoSlack(next: char -> char, p: string, s: string)
    requires PERCENT !in p && |p| != |s|
    ensures !LoopLike(next, p, s)
  {
    if p != [] {
      Unfold(next, p, s);
      if s != [] { NoRunNoSlack(next, p[1..], s[1..]); }
    }
  }

  /** A common prefix never hurts: the loop strips it, the meaning allows it. */
  lemma {:induction false} CommonPrefix(next: char -> char, u: string, p: string, s: string)
    ensures LoopLike(next, u + p, u + s) <==> LoopLike(next, p, s)
    ensures Like(next, p, s) ==> Like(next, u + p, u + s)
  {
    if u == [] {
      assert u + p == p && u + s == s;
    } else {
      CommonPrefix(next, u[1..], p, s);
      OrbitReflexive(next, u[0]);
      Unfold(next, u + p, u + s);
      assert (u + p)[1..] == u[1..] + p && (u + s)[1..] == u[1..] + s;
    }
  }

  lemma SelfMatch(next: char -> char, p: string)
    ensures Like(next, p, p)
  {
    CommonPrefix(next, p, [], []);
    assert p + [] == p;
  }

  lemma RunTakes(next: char -> char, p: string, s: string, k: nat)
    requires k <= |s| && Like(next, p, s[k..])
    ensures Like(next, [PERCENT] + p, s)
  {
  }

  /** A name that holds `%` is misjudged by some pattern, here one of underscores and a
      single `%` that meets the `%` of the name. */
  lemma NameMisjudged(next: char -> char, s: string, k: nat) returns (p: string)
    requires k < |s| && s[k] == PERCENT
    ensures Like(next, p, s) && !LoopLike(next, p, s)
  {
    var v := s[k + 1..];
    var tail := Repeat(UNDERSCORE, |v| + 1);
    p := s[..k] + ([PERCENT] + tail);
    assert s == s[..k] + ([PERCENT] + v);
    CommonPrefix(next, s[..k], [PERCENT] + tail, [PERCENT] + v);
    CommonPrefix(next, [PERCENT], tail, v);
    UnderscoresCount(next, tail, v);
    UnderscoresCount(next, tail, [PERCENT] + v);
    RunTakes(next, tail, [PERCENT] + v, 0);
  }

  /** A pattern that holds `%` misjudges some name: its own text with one rune more
      after the last `%`. */
  lemma PatternMisjudges(next: char -> char, p: string, k: nat) returns (s: string)
    requires k < |p| && p[k] == PERCENT && PERCENT !in p[k + 1..]
    ensures Like(next, p, s) && !LoopLike(next, p, s)
  {
    var w, t := p[..k], p[k + 1..];
    var longer := [PERCENT] + (['x'] + t);
    s := w + longer;
    assert p == w + ([PERCENT] + t);
    CommonPrefix(next, w, [PERCENT] + t, longer);
    CommonPrefix(next, [PERCENT], t, ['x'] + t);
    NoRunNoSlack(next, t, ['x'] + t);
    SelfMatch(next, t);
    assert longer[2..] == t;
    RunTakes(next, t, longer, 2);
  }

  lemma {:induction false} LastPercent(p: string) returns (k: nat)
    requires PERCENT in p
    ensures k < |p| && p[k] == PERCENT && PERCENT !in p[k + 1..]
  {
    if p[|p| - 1] == PERCENT {
      k := |p| - 1;
    } else {
      k := LastPercent(p[..|p| - 1]);
      assert p[k + 1..] == p[..|p| - 1][k + 1..] + [p[|p| - 1]];
    }
  }

  /** Main result on matching, by name: the loop is right about a name for every
      pattern exactly when the name holds no `%`. */
  lemma ExactForName(next: char -> char, s: string)
    requires IsFold(next)
    ensures (forall p :: LoopLike(next, p, s) <==> Like(next, p, s)) <==> PERCENT !in s
  {
    if PERCENT in s {
      var k :| 0 <= k < |s| && s[k] == PERCENT;
      var p := NameMisjudged(next, s, k);
    } else {
      forall p ensures LoopLike(next, p, s) <==> Like(next, p, s) { Agree(next, p, s); }
    }
  }

  /** Main result on matching, by pattern: it is right about every name exactly when the
      pattern holds no `%`. */
  lemma ExactForPattern(next: char -> char, p: string)
    requires IsFold(next)
    ensures (forall s :: LoopLike(next, p, s) <==> Like(next, p, s)) <==> PERCENT !in p
  {
    if PERCENT in p {
      var k := LastPercent(p);
      var s := PatternMisjudges(next, p, k);
    } else {
      forall s ensures LoopLike(next, p, s) <==> Like(next, p, s) { Agree(next, p, s); }
    }
  }

  lemma Agree(next: char -> char, p: string, s: string)
    requires IsFold(next) && (PERCENT !in p || PERCENT !in s)
    ensures LoopLike(next, p, s) <==> Like(next, p, s)
  {
    if Like(next, p, s) { LoopIsComplete(next, p, s); }
    if LoopLike(next, p, s) { LoopIsSound(next, p, s); }
  }

  ghost predicate SameWildcards(a: string, b: string) {
    && |a| == |b|
    && forall k :: 0 <= k < |a| ==> (a[k] == UNDERSCORE <==> b[k] == UNDERSCORE)
  }

  /** Changing the case of non-wildcard pattern runes and of name runes changes nothing. */
  lemma {:induction false} CaseIsIgnored(next: char -> char, p: string, p': string, s: string, s': string)
    requires IsFold(next) && FoldVariant(next, p, p') && SameWildcards(p, p') && FoldVariant(next, s, s')
    ensures LoopLike(next, p, s) <==> LoopLike(next, p', s')
    decreases |p|
  {
    if p != [] {
      Unfold(next, p, s);
      Unfold(next, p', s');
      PercentAlone(next, p[0]);
      PercentAlone(next, p'[0]);
      if s != [] {
        PercentAlone(next, s[0]);
        PercentAlone(next, s'[0]);
        OrbitSwap(next, s[0], s'[0], p[0]);
        OrbitSwap(next, p[0], p'[0], s'[0]);
      }
      if p[0] == PERCENT && !(s != [] && s[0] == PERCENT) {
        forall k | 0 <= k <= |s|
          ensures LoopLike(next, p[1..], s[k..]) <==> LoopLike(next, p'[1..], s'[k..])
        {
          CaseIsIgnored(next, p[1..], p'[1..], s[k..], s'[k..]);
        }
      } else if s != [] {
        CaseIsIgnored(next, p[1..], p'[1..], s[1..], s'[1..]);
      }
    }
  }
}
