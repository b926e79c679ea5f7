/** The string functions of Go's standard library that the driver parses with. A Go
    string is a sequence of bytes; here each byte is the char of the same number. */
module Text {
  import opened Wrappers

  /** strings.Index. */
  function Index(s: string, sub: string): (r: Option<nat>)
    ensures r.Some? ==> r.value + |sub| <= |s| && s[r.value..r.value + |sub|] == sub
  {
    if |s| < |sub| then None
    else if s[..|sub|] == sub then Some(0)
    else if s == [] then None
    else
      match Index(s[1..], sub)
      case None => None
      case Some(i) =>
        assert s[1..][i..i + |sub|] == s[i + 1..i + 1 + |sub|];
        Some(i + 1)
  }

  /** strings.LastIndex of one byte. */
  function LastIndexByte(s: string, c: char): (r: Option<nat>)
    ensures r.Some? ==> r.value < |s| && s[r.value] == c
  {
    if s == [] then None
    else if s[|s| - 1] == c then Some(|s| - 1)
    else LastIndexByte(s[..|s| - 1], c)
  }

  /** strings.Split with a one-byte separator. */
  function Split(s: string, sep: char): (parts: seq<string>)
    ensures parts != []
  {
    if s == [] then [""]
    else
      var rest := Split(s[1..], sep);
      if s[0] == sep then [""] + rest else [[s[0]] + rest[0]] + rest[1..]
  }

  /** The parts with the separator between them. */
  function Join(parts: seq<string>, sep: char): string {
    if parts == [] then "" else if |parts| == 1 then parts[0] else parts[0] + [sep] + Join(parts[1..], sep)
  }

  function TrimSuffix(s: string, c: char): string {
    if s != [] && s[|s| - 1] == c then s[..|s| - 1] else s
  }

  /** strings.ToLower and strings.TrimSpace, which go by Unicode's tables. */
  datatype Unicode = Unicode(lower: string -> string, trim: string -> string)

  // ---------------------------------------------------------------- percent-encoding

  function HexDigit(n: nat): char
    requires n < 16
  {
    if n < 10 then '0' + n as char else 'A' + (n - 10) as char
  }

  function HexValue(c: char): Option<nat> {
    if '0' <= c <= '9' then Some((c - '0') as nat)
    else if 'A' <= c <= 'F' then Some((c - 'A') as nat + 10)
    else if 'a' <= c <= 'f' then Some((c - 'a') as nat + 10)
    else None
  }

  /** url.PathUnescape: `%XX` is a byte, anything else stands for itself. */
  function PathUnescape(s: string): Option<string> {
    if s == [] then Some("")
    else if s[0] != '%' then
      match PathUnescape(s[1..])
      case None => None
      case Some(rest) => Some([s[0]] + rest)
    else if |s| < 3 || HexValue(s[1]) == None || HexValue(s[2]) == None then None
    else
      match PathUnescape(s[3..])
      case None => None
      case Some(rest) => Some([(HexValue(s[1]).value * 16 + HexValue(s[2]).value) as char] + rest)
  }

  predicate IsBytes(s: string) {
    forall k :: 0 <= k < |s| ==> s[k] as int < 256
  }

  /** Percent-encodes every byte that is not to be kept (section 2.1 of RFC 3986). */
  function PercentEncode(keep: char -> bool, s: string): string
    requires IsBytes(s)
  {
    if s == [] then ""
    else (if keep(s[0]) then [s[0]] else ['%', HexDigit(s[0] as nat / 16), HexDigit(s[0] as nat % 16)])
         + PercentEncode(keep, s[1..])
  }

  lemma HexByte(n: nat)
    requires n < 256
    ensures HexValue(HexDigit(n / 16)) == Some(n / 16) && HexValue(HexDigit(n % 16)) == Some(n % 16)
  {
  }

  lemma UnescapeByte(n: nat, rest: string)
    requires n < 256
    ensures PathUnescape(['%', HexDigit(n / 16), HexDigit(n % 16)] + rest)
            == match PathUnescape(rest) case None => None case Some(r) => Some([n as char] + r)
  {
  }

  /** Any encoder that does not keep `%` is undone, whatever else it keeps. */
  lemma {:induction false} UnescapeEncoded(keep: char -> bool, s: string)
    requires IsBytes(s) && !keep('%')
    ensures PathUnescape(PercentEncode(keep, s)) == Some(s)
  {
    if s != [] {
      UnescapeEncoded(keep, s[1..]);
      var rest := PercentEncode(keep, s[1..]);
      assert [s[0]] + s[1..] == s;
      if keep(s[0]) {
        assert ([s[0]] + rest)[1..] == rest;
      } else {
        UnescapeByte(s[0] as nat, rest);
        assert s[0] as nat as char == s[0];
      }
    }
  }

  /** The byte at `k` is no percent sign, or one that two hexadecimal digits follow. */
  predicate EscapeAt(s: string, k: nat)
    requires k < |s|
  {
    s[k] == '%' ==> k + 2 < |s| && HexValue(s[k + 1]).Some? && HexValue(s[k + 2]).Some?
  }

  /** Decoding fails exactly at a percent sign that is not followed by two digits. */
  lemma {:induction false} UnescapeFails(s: string)
    ensures PathUnescape(s).Some? <==> forall k :: 0 <= k < |s| ==> EscapeAt(s, k)
  {
    if s != [] {
      var n := if s[0] == '%' && EscapeAt(s, 0) then 3 else 1;
      UnescapeFails(s[n..]);
      forall k | n <= k < |s| ensures EscapeAt(s, k) <==> EscapeAt(s[n..], k - n) {
        assert s[k] == s[n..][k - n];
      }
      assert (forall k :: 0 <= k < |s[n..]| ==> EscapeAt(s[n..], k))
             <==> forall k :: n <= k < |s| ==> EscapeAt(s, k) by {
        if forall k :: n <= k < |s| ==> EscapeAt(s, k) {
          forall k | 0 <= k < |s[n..]| ensures EscapeAt(s[n..], k) {
            assert EscapeAt(s, k + n);
          }
        }
      }
    }
  }

  lemma {:induction false} EncodedLacks(keep: char -> bool, s: string, c: char)
    requires IsBytes(s) && !keep(c) && c != '%' && HexValue(c) == None
    ensures c !in PercentEncode(keep, s)
  {
    if s != [] {
      EncodedLacks(keep, s[1..], c);
      HexByte(s[0] as nat);
    }
  }

  // ---------------------------------------------------------------- numbers

  function Digits(n: nat): (s: string)
    ensures s != [] && forall c :: c in s ==> '0' <= c <= '9'
  {
    if n < 10 then [HexDigit(n)] else Digits(n / 10) + [HexDigit(n % 10)]
  }

  function Itoa(n: int): string {
    if n < 0 then "-" + Digits(-n) else Digits(n)
  }

  function ParseDigits(s: string): Option<nat> {
    if s == [] then Some(0)
    else
      var last := s[|s| - 1];
      match ParseDigits(s[..|s| - 1])
      case None => None
      case Some(n) => if '0' <= last <= '9' then Some(n * 10 + (last - '0') as nat) else None
  }

  const MIN_INT64 := -0x8000_0000_0000_0000
  const MAX_INT64 := 0x7fff_ffff_ffff_ffff

  /** strconv.Atoi: an optional sign, digits, and a value that fits 64 bits. */
  function Atoi(s: string): Option<int> {
    var signed := s != [] && (s[0] == '-' || s[0] == '+');
    var digits := if signed then s[1..] else s;
    if digits == [] then None
    else
      match ParseDigits(digits)
      case None => None
      case Some(n) =>
        var v := if signed && s[0] == '-' then 0 - n else n as int;
        if MIN_INT64 <= v <= MAX_INT64 then Some(v) else None
  }

  lemma {:induction false} ParsePrinted(n: nat)
    ensures ParseDigits(Digits(n)) == Some(n)
  {
    if n >= 10 {
      ParsePrinted(n / 10);
      var init := Digits(n / 10);
      assert (init + [HexDigit(n % 10)])[..|init|] == init;
    } else {
      assert ParseDigits([HexDigit(n)][..0]) == Some(0);
    }
  }

  lemma AtoiPrinted(n: int)
    requires MIN_INT64 <= n <= MAX_INT64
    ensures Atoi(Itoa(n)) == Some(n)
  {
    var abs := if n < 0 then -n else n;
    var d := Digits(abs);
    ParsePrinted(abs);
    assert d[0] in d;
    assert Itoa(n) == if n < 0 then ['-'] + d else d;
    assert (['-'] + d)[1..] == d;
  }

  predicate IsDigit(c: char) {
    '0' <= c <= '9'
  }

  lemma {:induction false} DigitsOnly(s: string)
    ensures ParseDigits(s).Some? <==> forall k :: 0 <= k < |s| ==> IsDigit(s[k])
  {
    if s != [] {
      DigitsOnly(s[..|s| - 1]);
    }
  }

  /** A number is a text of digits, after at most one sign, that stands for a 64-bit value. */
  lemma AtoiAccepts(s: string)
    ensures var signed := s != "" && (s[0] == '+' || s[0] == '-');
            var digits := if signed then s[1..] else s;
            Atoi(s).Some? <==> && digits != "" && (forall k :: 0 <= k < |digits| ==> IsDigit(digits[k]))
                               && ParseDigits(digits).GetOr(0) <= if signed && s[0] == '-' then 0x8000_0000_0000_0000
                                                                     else 0x7fff_ffff_ffff_ffff
  {
    var signed := s != "" && (s[0] == '+' || s[0] == '-');
    DigitsOnly(if signed then s[1..] else s);
  }

  lemma ItoaChars(n: int)
    ensures Itoa(n) != "" && forall c :: c in Itoa(n) ==> c == '-' || '0' <= c <= '9'
  {
  }

  // ---------------------------------------------------------------- searching and splitting

  lemma {:induction false} IndexAt(s: string, k: nat, sub: string)
    requires sub != [] && k + |sub| <= |s| && s[k..k + |sub|] == sub
    requires forall i :: 0 <= i < k ==> s[i] != sub[0]
    ensures Index(s, sub) == Some(k)
  {
    if k > 0 {
      assert s[1..][k - 1..k - 1 + |sub|] == s[k..k + |sub|];
      IndexAt(s[1..], k - 1, sub);
      assert s[..|sub|][0] == s[0];
    }
  }

  predicate StandsAt(s: string, sub: string, k: nat) {
    k + |sub| <= |s| && s[k..k + |sub|] == sub
  }

  /** A text is not found exactly when it stands nowhere. */
  lemma {:induction false} IndexNone(s: string, sub: string)
    ensures Index(s, sub) == None <==> forall k :: !StandsAt(s, sub, k)
  {
    if |s| >= |sub| && !StandsAt(s, sub, 0) && s != [] {
      IndexNone(s[1..], sub);
      forall k: nat ensures StandsAt(s, sub, k + 1) <==> StandsAt(s[1..], sub, k) {
        if k + 1 + |sub| <= |s| {
          assert s[k + 1..k + 1 + |sub|] == s[1..][k..k + |sub|];
        }
      }
      if k: nat :| StandsAt(s, sub, k) {
        assert k > 0;
        assert StandsAt(s[1..], sub, k - 1);
      }
    } else if |s| >= |sub| {
      assert StandsAt(s, sub, 0) || s == [];
    }
  }

  lemma {:induction false} IndexFirst(s: string, sub: string, k: nat)
    requires StandsAt(s, sub, k) && forall i :: 0 <= i < k ==> !StandsAt(s, sub, i)
    ensures Index(s, sub) == Some(k)
  {
    if k > 0 {
      assert !StandsAt(s, sub, 0);
      assert s[1..][k - 1..k - 1 + |sub|] == s[k..k + |sub|];
      forall i | 0 <= i < k - 1 ensures !StandsAt(s[1..], sub, i) {
        assert !StandsAt(s, sub, i + 1);
        assert s[1..][i..i + |sub|] == s[i + 1..i + 1 + |sub|];
      }
      IndexFirst(s[1..], sub, k - 1);
    } else {
      assert s[0..|sub|] == s[..|sub|];
    }
  }

  lemma {:induction false} LastIndexAt(s: string, k: nat, c: char)
    requires k < |s| && s[k] == c && forall i :: k < i < |s| ==> s[i] != c
    ensures LastIndexByte(s, c) == Some(k)
  {
    if k < |s| - 1 {
      LastIndexAt(s[..|s| - 1], k, c);
    }
  }

  lemma {:induction false} SplitHead(a: string, sep: char, b: string)
    requires sep !in a
    ensures Split(a + [sep] + b, sep) == [a] + Split(b, sep)
    ensures Split(a, sep) == [a]
  {
    var s := a + [sep] + b;
    if a == [] {
      assert s[1..] == b;
    } else {
      SplitHead(a[1..], sep, b);
      assert s[1..] == a[1..] + [sep] + b;
      assert [a[0]] + a[1..] == a;
    }
  }

  lemma {:induction false} SplitJoined(parts: seq<string>, sep: char)
    requires parts != [] && forall k :: 0 <= k < |parts| ==> sep !in parts[k]
    ensures Split(Join(parts, sep), sep) == parts
  {
    if |parts| == 1 {
      SplitHead(parts[0], sep, "");
    } else {
      SplitJoined(parts[1..], sep);
      SplitHead(parts[0], sep, Join(parts[1..], sep));
    }
  }
}
