/** The fields of a connection configuration, and what setting one of them means. */
module ConfigSettings {
  import opened Wrappers

  const DEFAULT_PORT := 15002
  const DEFAULT_USER_AGENT := "adbc-driver-spark"

  /** The values of a Config. */
  datatype Settings = Settings(host: string, port: int, useTLS: bool, token: string, userID: string,
                               userAgent: string, sessionID: string, headers: map<string, string>)

  const DEFAULTS := Settings("", DEFAULT_PORT, false, "", "", DEFAULT_USER_AGENT, "", map[])

  /** A field that a parameter or an option sets. */
  datatype Field = Token | UserID | UserAgent | SessionID | TLS | Header(name: string)

  datatype FieldValue = Text(text: string) | Flag(flag: bool)

  /** strconv.ParseBool. */
  function ParseBool(s: string): Option<bool> {
    if s in ["1", "t", "T", "TRUE", "true", "True"] then Some(true)
    else if s in ["0", "f", "F", "FALSE", "false", "False"] then Some(false)
    else None
  }

  /** What a text stands for in a field, if it is allowed there. */
  function Read(f: Field, value: string): Option<FieldValue> {
    if f == TLS then
      match ParseBool(value)
      case Some(b) => Some(Flag(b))
      case None => None
    else Some(Text(value))
  }

  function Get(s: Settings, f: Field): Option<FieldValue> {
    match f
    case Token => Some(Text(s.token))
    case UserID => Some(Text(s.userID))
    case UserAgent => Some(Text(s.userAgent))
    case SessionID => Some(Text(s.sessionID))
    case TLS => Some(Flag(s.useTLS))
    case Header(name) => if name in s.headers then Some(Text(s.headers[name])) else None
  }

  /** `t` is `s` with `v` in the field `f` and nothing else changed. */
  ghost predicate SetsOnly(s: Settings, t: Settings, f: Field, v: FieldValue) {
    && t.host == s.host && t.port == s.port
    && forall g :: Get(t, g) == if g == f then Some(v) else Get(s, g)
  }

  /** The fields, host and port say everything about a configuration. */
  lemma SameFields(s: Settings, t: Settings)
    requires s.host == t.host && s.port == t.port && forall f :: Get(s, f) == Get(t, f)
    ensures s == t
  {
    assert Get(s, Token) == Get(t, Token) && Get(s, UserID) == Get(t, UserID);
    assert Get(s, UserAgent) == Get(t, UserAgent) && Get(s, SessionID) == Get(t, SessionID);
    assert Get(s, TLS) == Get(t, TLS);
    forall n ensures n in s.headers <==> n in t.headers
      ensures n in s.headers ==> s.headers[n] == t.headers[n]
    {
      assert Get(s, Header(n)) == Get(t, Header(n));
    }
  }

  /** Sets a list of fields from left to right; None if some text is not allowed. */
  function Assign(s: Settings, pairs: seq<(Field, string)>): Option<Settings> {
    if pairs == [] then Some(s)
    else
      match Assign(s, pairs[..|pairs| - 1])
      case None => None
      case Some(t) => Set(t, pairs[|pairs| - 1].0, pairs[|pairs| - 1].1)
  }

  function Set(s: Settings, f: Field, value: string): Option<Settings> {
    match Read(f, value)
    case None => None
    case Some(v) =>
      match f
      case Token => Some(s.(token := value))
      case UserID => Some(s.(userID := value))
      case UserAgent => Some(s.(userAgent := value))
      case SessionID => Some(s.(sessionID := value))
      case TLS => Some(s.(useTLS := v.flag))
      case Header(name) => Some(s.(headers := s.headers[name := value]))
  }

  lemma SetIsExact(s: Settings, f: Field, value: string)
    ensures Set(s, f, value) == None <==> Read(f, value) == None
    ensures Set(s, f, value).Some? ==> SetsOnly(s, Set(s, f, value).value, f, Read(f, value).value)
  {
  }

  /** The last text given for a field. */
  function LastFor(pairs: seq<(Field, string)>, f: Field): Option<string> {
    if pairs == [] then None
    else if pairs[|pairs| - 1].0 == f then Some(pairs[|pairs| - 1].1)
    else LastFor(pairs[..|pairs| - 1], f)
  }

  /** Main result on assignment: it fails exactly when some text is not allowed in its
      field; otherwise each field holds the last text given for it, and fields without one
      keep their value. */
  lemma {:induction false} LastWins(s: Settings, pairs: seq<(Field, string)>)
    ensures Assign(s, pairs) == None <==> exists k :: 0 <= k < |pairs| && Read(pairs[k].0, pairs[k].1) == None
    ensures Assign(s, pairs).Some? ==>
              var t := Assign(s, pairs).value;
              && t.host == s.host && t.port == s.port
              && forall f :: Get(t, f) == match LastFor(pairs, f)
                                          case Some(value) => Read(f, value)
                                          case None => Get(s, f)
  {
    if pairs != [] {
      var init, last := pairs[..|pairs| - 1], pairs[|pairs| - 1];
      LastWins(s, init);
      if Assign(s, init).Some? {
        SetIsExact(Assign(s, init).value, last.0, last.1);
      }
    }
  }

  lemma {:induction false} LastIsMember(pairs: seq<(Field, string)>, f: Field)
    ensures LastFor(pairs, f) == None <==> forall k :: 0 <= k < |pairs| ==> pairs[k].0 != f
    ensures LastFor(pairs, f).Some? ==> (f, LastFor(pairs, f).value) in pairs
  {
    if pairs != [] {
      LastIsMember(pairs[..|pairs| - 1], f);
    }
  }
}
