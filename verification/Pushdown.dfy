/** Name filters: always applied on the client, and sent to Spark as a LIKE clause when
    Spark's own pattern syntax can express them. */
module Pushdown {
  import opened Wrappers
  import opened Folding
  import opened LikePatterns
  import Text

  /** A missing or empty pattern matches every name. */
  ghost predicate MatchesPattern(next: char -> char, pattern: Option<string>, name: string) {
    pattern == None || pattern.value == "" || LoopLike(next, pattern.value, name)
  }

  ghost function Keep(next: char -> char, pattern: Option<string>, names: seq<string>): seq<string> {
    if names == [] then []
    else (if MatchesPattern(next, pattern, names[0]) then [names[0]] else []) + Keep(next, pattern, names[1..])
  }

  lemma {:induction false} KeepAppend(next: char -> char, pattern: Option<string>, a: seq<string>, b: seq<string>)
    ensures Keep(next, pattern, a + b) == Keep(next, pattern, a) + Keep(next, pattern, b)
  {
    if a == [] {
      assert a + b == b;
    } else {
      KeepAppend(next, pattern, a[1..], b);
      assert (a + b)[0] == a[0] && (a + b)[1..] == a[1..] + b;
      var first := if MatchesPattern(next, pattern, a[0]) then [a[0]] else [];
      Assoc(first, Keep(next, pattern, a[1..]), Keep(next, pattern, b));
    }
  }

  lemma {:induction false} KeepAll(next: char -> char, pattern: Option<string>, names: seq<string>)
    requires pattern == None || pattern.value == ""
    ensures Keep(next, pattern, names) == names
  {
    if names != [] { KeepAll(next, pattern, names[1..]); }
  }

  method Matches(next: char -> char, pattern: Option<string>, name: string) returns (m: bool)
    requires IsFold(next)
    ensures m == MatchesPattern(next, pattern, name)
  {
    if pattern == None || pattern.value == "" {
      return true;
    }
    ghost var steps;
    m, steps := LikeMatch(next, pattern.value, name);
  }

  method FilterByPattern(next: char -> char, names: seq<string>, pattern: Option<string>)
    returns (out: seq<string>)
    requires IsFold(next)
    ensures out == Keep(next, pattern, names)
  {
    if pattern == None || pattern.value == "" {
      KeepAll(next, pattern, names);
      return names;
    }
    out := [];
    for n := 0 to |names|
      invariant out == Keep(next, pattern, names[..n])
    {
      ghost var steps;
      var m;
      m, steps := LikeMatch(next, pattern.value, names[n]);
      assert names[..n + 1] == names[..n] + [names[n]];
      KeepAppend(next, pattern, names[..n], [names[n]]);
      if m {
        out := out + [names[n]];
      }
    }
    assert names[..|names|] == names;
  }

  // ---------------------------------------------------------------- the LIKE clause

  predicate AsciiAlnum(c: char) {
    'a' <= c <= 'z' || 'A' <= c <= 'Z' || '0' <= c <= '9'
  }

  predicate Expressible(c: char) {
    c == PERCENT || c == UNDERSCORE || AsciiAlnum(c)
  }

  function SparkSymbol(c: char): char {
    if c == PERCENT then '*' else if c == UNDERSCORE then '.' else c
  }

  function Translate(p: string): string {
    seq(|p|, k requires 0 <= k < |p| => SparkSymbol(p[k]))
  }

  const CLAUSE_HEAD := " LIKE '"
  const CLAUSE_TAIL := "'"

  /** The clause holds the whole pattern, translated, or there is none. */
  ghost function ClauseFor(pattern: Option<string>): string {
    if pattern == None || pattern.value == "" || exists c :: c in pattern.value && !Expressible(c)
    then ""
    else CLAUSE_HEAD + Translate(pattern.value) + CLAUSE_TAIL
  }

  method LikeClause(pattern: Option<string>) returns (clause: string)
    ensures clause == ClauseFor(pattern)
  {
    if pattern == None || pattern.value == "" {
      return "";
    }
    var p := pattern.value;
    var like := "";
    for k := 0 to |p|
      invariant |like| == k
      invariant forall i :: 0 <= i < k ==> Expressible(p[i]) && like[i] == SparkSymbol(p[i])
    {
      var r := p[k];
      if r == PERCENT {
        like := like + ['*'];
      } else if r == UNDERSCORE {
        like := like + ['.'];
      } else if AsciiAlnum(r) {
        like := like + [r];
      } else {
        assert r in p && !Expressible(r);
        return "";
      }
    }
    assert like == Translate(p);
    clause := CLAUSE_HEAD + like + CLAUSE_TAIL;
  }

  /** A clause is sent exactly for a pattern of ASCII letters, digits and wildcards; it has
      one symbol for each rune of the pattern, `*` for `%`, `.` for `_` and the others as
      they are. */
  lemma ClauseIsSpelled(pattern: Option<string>)
    ensures ClauseFor(pattern) != ""
            <==> && pattern.Some? && pattern.value != ""
                 && forall c :: c in pattern.value ==> c == '%' || c == '_' || 'a' <= c <= 'z' || 'A' <= c <= 'Z'
                                                       || '0' <= c <= '9'
    ensures ClauseFor(pattern) != "" ==>
              var clause, p := ClauseFor(pattern), pattern.value;
              && |clause| == 7 + |p| + 1 && clause[..7] == " LIKE '" && clause[7 + |p|..] == "'"
              && forall k :: 0 <= k < |p| ==>
                   clause[7 + k] == if p[k] == '%' then '*' else if p[k] == '_' then '.' else p[k]
  {
  }

  // ---------------------------------------------------------------- how Spark reads it

  function AsciiLower(c: char): char {
    if 'A' <= c <= 'Z' then c - 'A' + 'a' else c
  }

  /** A regex where `*` stands for any run and `.` for any one rune, ASCII case ignored. */
  ghost predicate RegexMatch(re: string, s: string)
    decreases |re|
  {
    if re == [] then s == []
    else if re[0] == '*' then exists k :: 0 <= k <= |s| && RegexMatch(re[1..], s[k..])
    else s != [] && (re[0] == '.' || AsciiLower(re[0]) == AsciiLower(s[0])) && RegexMatch(re[1..], s[1..])
  }

  function Trim(s: string): string {
    TrimRight(TrimLeft(s))
  }

  function TrimLeft(s: string): string {
    if s != [] && s[0] <= ' ' then TrimLeft(s[1..]) else s
  }

  function TrimRight(s: string): string {
    if s != [] && s[|s| - 1] <= ' ' then TrimRight(s[..|s| - 1]) else s
  }

  /** The text between the quotes, if there is a clause. */
  function ClauseText(clause: string): Option<string> {
    if CLAUSE_HEAD <= clause && |clause| > |CLAUSE_HEAD|
    then Some(clause[|CLAUSE_HEAD|..|clause| - 1])
    else None
  }

  ghost predicate SparkAccepts(clause: string, name: string) {
    match ClauseText(clause)
    case None => true
    case Some(text) => exists re :: re in Text.Split(Trim(text), '|') && RegexMatch(re, name)
  }

  /** The names Spark lists under a clause. */
  ghost function SparkKeep(clause: string, names: seq<string>): seq<string> {
    if names == [] then []
    else (if SparkAccepts(clause, names[0]) then [names[0]] else []) + SparkKeep(clause, names[1..])
  }

  // ---------------------------------------------------------------- no name is lost

  /** Trimming and splitting leave a translated pattern alone, and the quotes hold it
      whole: it has no space, no `|` and no quote. */
  lemma ClauseReadsBack(pattern: Option<string>, clause: string, name: string)
    requires pattern.Some? && clause != "" && clause == ClauseFor(pattern)
    ensures SparkAccepts(clause, name) <==> RegexMatch(Translate(pattern.value), name)
    ensures '\'' !in Translate(pattern.value)
  {
    var re := Translate(pattern.value);
    forall c | c in re
      ensures c > ' ' && c != '|' && c != '\''
    {
      var k :| 0 <= k < |re| && re[k] == c;
      assert pattern.value[k] in pattern.value;
    }
    assert clause[|CLAUSE_HEAD|..|clause| - 1] == re;
    assert re[0] in re && re[|re| - 1] in re;
    assert Trim(re) == re;
    Text.SplitHead(re, '|', "");
    assert Text.Split(Trim(re), '|') == [re];
    assert re in [re];
  }

  /** No rune of the name has a Unicode case variant among the ASCII letters and digits
      that ASCII case folding does not know. Every name over ASCII is of this kind. */
  ghost predicate AsciiFolded(next: char -> char, name: string) {
    forall k, c :: 0 <= k < |name| && AsciiAlnum(c) && SameOrbit(next, c, name[k])
                   ==> AsciiLower(c) == AsciiLower(name[k])
  }

  lemma {:induction false} LikeToRegex(next: char -> char, p: string, s: string)
    requires Like(next, p, s) && AsciiFolded(next, s) && forall c :: c in p ==> Expressible(c)
    ensures RegexMatch(Translate(p), s)
    decreases |p|
  {
    if p != [] {
      var re := Translate(p);
      assert re[1..] == Translate(p[1..]);
      assert p[0] in p;
      if p[0] == PERCENT {
        var k :| 0 <= k <= |s| && Like(next, p[1..], s[k..]);
        LikeToRegex(next, p[1..], s[k..]);
      } else {
        LikeToRegex(next, p[1..], s[1..]);
        assert p[0] != UNDERSCORE ==> SameOrbit(next, p[0], s[0]);
      }
    }
  }

  /** Spark's listing under the clause holds every name the client will keep. */
  lemma ClauseOnlyNarrows(next: char -> char, pattern: Option<string>, clause: string, name: string)
    requires clause == ClauseFor(pattern) && AsciiFolded(next, name)
    requires MatchesPattern(next, pattern, name)
    ensures SparkAccepts(clause, name)
  {
    if clause != "" {
      ClauseReadsBack(pattern, clause, name);
      forall c | c in pattern.value ensures Expressible(c) {}
      LoopIsSound(next, pattern.value, name);
      LikeToRegex(next, pattern.value, name);
    }
  }

  /** Filtering what Spark narrowed gives what filtering the full listing gives. */
  lemma {:induction false} PushdownPreserves(next: char -> char, pattern: Option<string>, clause: string,
                                             names: seq<string>)
    requires clause == ClauseFor(pattern)
    requires forall n :: n in names ==> AsciiFolded(next, n)
    ensures Keep(next, pattern, SparkKeep(clause, names)) == Keep(next, pattern, names)
  {
    if names != [] {
      PushdownPreserves(next, pattern, clause, names[1..]);
      var head, tail := names[0], SparkKeep(clause, names[1..]);
      assert names[0] in names;
      if MatchesPattern(next, pattern, head) {
        ClauseOnlyNarrows(next, pattern, clause, head);
      }
      KeepAppend(next, pattern, [head], tail);
      assert Keep(next, pattern, [head] + tail) == Keep(next, pattern, [head]) + Keep(next, pattern, tail);
      assert [] + tail == tail;
    }
  }

  lemma {:induction false} DotsOnly(re: string, s: string)
    requires forall k :: 0 <= k < |re| ==> re[k] == '.'
    ensures RegexMatch(re, s) <==> |re| == |s|
  {
    if re != [] && s != [] { DotsOnly(re[1..], s[1..]); }
  }

  lemma {:induction false} DotsThen(dots: string, c: char, rest: string, s: string)
    requires (forall k :: 0 <= k < |dots| ==> dots[k] == '.') && c != '*' && c != '.'
    requires RegexMatch(dots + [c] + rest, s)
    ensures |dots| < |s| && AsciiLower(c) == AsciiLower(s[|dots|])
  {
    var re := dots + [c] + rest;
    if dots != [] {
      assert re[1..] == dots[1..] + [c] + rest;
      DotsThen(dots[1..], c, rest, s[1..]);
    }
  }

  /** A name with such a rune is lost by the pattern that spells that rune in ASCII. */
  lemma NameLost(next: char -> char, name: string, k: nat, c: char) returns (p: string)
    requires IsFold(next) && k < |name| && AsciiAlnum(c) && SameOrbit(next, c, name[k])
    requires AsciiLower(c) != AsciiLower(name[k])
    ensures p != "" && LoopLike(next, p, name) && !RegexMatch(Translate(p), name)
    ensures forall r :: r in p ==> Expressible(r)
  {
    var before, after := Repeat(UNDERSCORE, k), Repeat(UNDERSCORE, |name| - k - 1);
    p := before + ([c] + after);
    PercentAlone(next, c);
    UnderscoresThen(next, before, [c] + after, name);
    UnderscoresCount(next, after, name[k..][1..]);
    Unfold(next, [c] + after, name[k..]);
    assert ([c] + after)[1..] == after;
    assert LoopLike(next, [c] + after, name[k..]);
    var dots, rest := Repeat('.', k), Repeat('.', |after|);
    assert Translate(p) == dots + [c] + rest;
    if RegexMatch(Translate(p), name) {
      DotsThen(dots, c, rest, name);
    }
  }

  lemma {:induction false} UnderscoresThen(next: char -> char, u: string, p: string, s: string)
    requires (forall k :: 0 <= k < |u| ==> u[k] == UNDERSCORE) && |u| <= |s|
    ensures LoopLike(next, u + p, s) <==> LoopLike(next, p, s[|u|..])
  {
    if u == [] {
      assert u + p == p;
    } else {
      UnderscoresThen(next, u[1..], p, s[1..]);
      Unfold(next, u + p, s);
      assert (u + p)[1..] == u[1..] + p;
      assert s[1..][|u| - 1..] == s[|u|..];
    }
  }

  ghost predicate Preserves(next: char -> char, pattern: Option<string>, names: seq<string>) {
    Keep(next, pattern, SparkKeep(ClauseFor(pattern), names)) == Keep(next, pattern, names)
  }

  lemma {:induction false} KeptMembers(next: char -> char, pattern: Option<string>, names: seq<string>, n: string)
    ensures n in Keep(next, pattern, names) <==> n in names && MatchesPattern(next, pattern, n)
  {
    if names != [] { KeptMembers(next, pattern, names[1..], n); }
  }

  lemma {:induction false} ListedMembers(clause: string, names: seq<string>, n: string)
    ensures n in SparkKeep(clause, names) <==> n in names && SparkAccepts(clause, n)
  {
    if names != [] { ListedMembers(clause, names[1..], n); }
  }

  /** Main result: sending the clause is harmless for every pattern exactly when Unicode
      and ASCII folding agree on the names of the listing. */
  lemma PushdownExact(next: char -> char, names: seq<string>)
    requires IsFold(next)
    ensures (forall pattern :: Preserves(next, pattern, names))
            <==> (forall n :: n in names ==> AsciiFolded(next, n))
  {
    if forall n :: n in names ==> AsciiFolded(next, n) {
      forall pattern ensures Preserves(next, pattern, names) {
        PushdownPreserves(next, pattern, ClauseFor(pattern), names);
      }
    } else {
      var n :| n in names && !AsciiFolded(next, n);
      var k, c :| 0 <= k < |n| && AsciiAlnum(c) && SameOrbit(next, c, n[k]) && AsciiLower(c) != AsciiLower(n[k]);
      var p := NameLost(next, n, k, c);
      var pattern := Some(p);
      var clause := CLAUSE_HEAD + Translate(p) + CLAUSE_TAIL;
      assert clause == ClauseFor(pattern);
      ClauseReadsBack(pattern, clause, n);
      KeptMembers(next, pattern, names, n);
      KeptMembers(next, pattern, SparkKeep(clause, names), n);
      ListedMembers(clause, names, n);
      assert !Preserves(next, pattern, names);
    }
  }

  predicate SessionCatalogName(name: string) {
    forall k :: 0 <= k < |name| ==> AsciiAlnum(name[k]) || name[k] == UNDERSCORE
  }

  /** Among ASCII letters, digits and underscore, Unicode folding is ASCII folding. */
  ghost predicate AsciiOrbits(next: char -> char) {
    forall a, b :: AsciiAlnum(a) && (AsciiAlnum(b) || b == UNDERSCORE) && SameOrbit(next, a, b)
                   ==> AsciiLower(a) == AsciiLower(b)
  }

  /** Names of Spark's session catalog are always safe, and with folds as in Unicode,
      where U+212A is a case variant of `k`, a name that holds U+212A is not. */
  lemma SessionCatalogIsSafe(next: char -> char, names: seq<string>, pattern: Option<string>)
    requires IsFold(next) && AsciiOrbits(next)
    requires forall n :: n in names ==> SessionCatalogName(n)
    ensures Preserves(next, pattern, names)
  {
    forall n | n in names ensures AsciiFolded(next, n) {}
    PushdownExact(next, names);
  }

  lemma KelvinSignIsLost(next: char -> char)
    requires IsFold(next) && SameOrbit(next, 'k', '\U{212A}')
    ensures exists pattern :: !Preserves(next, pattern, ["\U{212A}"])
  {
    var name := "\U{212A}";
    assert !AsciiFolded(next, name) by {
      assert SameOrbit(next, 'k', name[0]) && AsciiLower('k') != AsciiLower(name[0]);
    }
    PushdownExact(next, [name]);
    assert name in [name];
  }
}
