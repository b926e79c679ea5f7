/** Spark Connect connection strings. */
module ConnectionStrings {
  import opened Wrappers
  import opened Text
  import opened ConfigSettings

  datatype ConfigError = EmptyString | UnsupportedScheme | MissingHost | InvalidPort | MalformedParameter | InvalidBool

  /** The field that a parameter key names; unknown keys are headers. */
  function FieldOf(key: string): Field {
    if key == "user_id" || key == "userid" || key == "user" then UserID
    else if key == "token" then Token
    else if key == "user_agent" || key == "useragent" then UserAgent
    else if key == "session_id" || key == "sessionid" then SessionID
    else if key == "use_ssl" || key == "usessl" || key == "use_tls" || key == "usetls" || key == "ssl" then TLS
    else Header(key)
  }

  /** None if an opening bracket is not closed. */
  function SplitHostPort(s: string): Option<(string, string)> {
    if s != [] && s[0] == '[' then
      match Index(s, "]")
      case None => None
      case Some(end) =>
        assert s[end..end + 1] == "]";
        if |s| > end + 1 && s[end + 1] == ':' then Some((s[1..end], s[end + 2..])) else Some((s[1..end], ""))
    else
      match LastIndexByte(s, ':')
      case Some(i) => Some((s[..i], s[i + 1..]))
      case None => Some((s, ""))
  }

  function Endpoint(s: Settings): string {
    s.host + ":" + Itoa(s.port)
  }

  // ---------------------------------------------------------------- what a string means

  /** The scheme, lower-cased, and what follows it. */
  function SchemeOf(u: Unicode, conn: string): (string, string) {
    match Index(conn, "://")
    case Some(i) => (u.lower(conn[..i]), conn[i + 3..])
    case None => ("", conn)
  }

  /** The host part and the parameters of what follows the scheme. */
  function HostAndParams(rest: string): (string, string) {
    match Index(rest, "/;")
    case Some(i) => (TrimSuffix(rest[..i], '/'), rest[i + 2..])
    case None =>
      match Index(rest, ";")
      case Some(i) => (TrimSuffix(rest[..i], '/'), rest[i + 1..])
      case None =>
        match Index(rest, "/")
        case Some(i) => (TrimSuffix(rest[..i], '/'), "")
        case None => (TrimSuffix(rest, '/'), "")
  }

  function WithHost(s: Settings, hostPort: string): Result<Settings, ConfigError> {
    match SplitHostPort(hostPort)
    case None => Ok(s.(host := hostPort))
    case Some((host, port)) =>
      if port == "" then Ok(s.(host := host))
      else
        match Atoi(port)
        case Some(p) => Ok(s.(host := host, port := p))
        case None => Err(InvalidPort)
  }

  /** One parameter: a key, trimmed and lower-cased, and a value, percent-decoded if it can be. */
  function ReadParam(u: Unicode, kv: string): Option<(Field, string)> {
    match Index(kv, "=")
    case None => None
    case Some(i) =>
      var value := kv[i + 1..];
      Some((FieldOf(u.lower(u.trim(kv[..i]))), PathUnescape(value).GetOr(value)))
  }

  /** The settings after one more parameter; an empty one is skipped. */
  function WithParam(u: Unicode, s: Settings, kv: string): Result<Settings, ConfigError> {
    if kv == "" then Ok(s)
    else
      match ReadParam(u, kv)
      case None => Err(MalformedParameter)
      case Some(p) =>
        match Set(s, p.0, p.1)
        case Some(t) => Ok(t)
        case None => Err(InvalidBool)
  }

  function WithParams(u: Unicode, s: Settings, kvs: seq<string>): Result<Settings, ConfigError> {
    if kvs == [] then Ok(s)
    else
      match WithParams(u, s, kvs[..|kvs| - 1])
      case Err(e) => Err(e)
      case Ok(t) => WithParam(u, t, kvs[|kvs| - 1])
  }

  function Parse(u: Unicode, conn: string): Result<Settings, ConfigError> {
    if conn == "" then Err(EmptyString)
    else
      var (scheme, rest) := SchemeOf(u, conn);
      if scheme == "" || scheme == "sc" || scheme == "grpc" then ParseRest(u, DEFAULTS, rest)
      else if scheme == "grpcs" || scheme == "sc+tls" then ParseRest(u, DEFAULTS.(useTLS := true), rest)
      else Err(UnsupportedScheme)
  }

  /** The host and the parameters, on top of `s`. */
  function ParseRest(u: Unicode, s: Settings, rest: string): Result<Settings, ConfigError> {
    var (hostPort, params) := HostAndParams(rest);
    if hostPort == "" then Err(MissingHost)
    else
      match WithHost(s, hostPort)
      case Err(e) => Err(e)
      case Ok(t) => if params == "" then Ok(t) else WithParams(u, t, Split(params, ';'))
  }

  // ---------------------------------------------------------------- the parser

  class Config {
    var host: string
    var port: int
    var useTLS: bool
    var token: string
    var userID: string
    var userAgent: string
    var sessionID: string
    var headers: map<string, string>

    ghost function Value(): Settings
      reads this
    {
      Settings(host, port, useTLS, token, userID, userAgent, sessionID, headers)
    }

    constructor ()
      ensures Value() == DEFAULTS
    {
      host, port, useTLS, token, userID := "", DEFAULT_PORT, false, "", "";
      userAgent, sessionID, headers := DEFAULT_USER_AGENT, "", map[];
    }

    /** Sets one field; a text that is not a boolean is refused for TLS. */
    method SetField(f: Field, value: string) returns (ok: bool)
      modifies this
      ensures ok <==> Set(old(Value()), f, value).Some?
      ensures Value() == Set(old(Value()), f, value).GetOr(old(Value()))
    {
      match f {
        case UserID => userID := value;
        case Token => token := value;
        case UserAgent => userAgent := value;
        case SessionID => sessionID := value;
        case TLS =>
          var b := ParseBool(value);
          if b == None {
            return false;
          }
          useTLS := b.value;
        case Header(name) => headers := headers[name := value];
      }
      return true;
    }

    method ApplyParam(key: string, value: string) returns (ok: bool)
      modifies this
      ensures ok <==> Set(old(Value()), FieldOf(key), value).Some?
      ensures Value() == Set(old(Value()), FieldOf(key), value).GetOr(old(Value()))
    {
      ok := SetField(FieldOf(key), value);
    }
  }

  method CutScheme(u: Unicode, conn: string) returns (scheme: string, rest: string)
    ensures (scheme, rest) == SchemeOf(u, conn)
  {
    scheme, rest := "", conn;
    var i := Index(conn, "://");
    if i.Some? {
      scheme := u.lower(conn[..i.value]);
      rest := conn[i.value + 3..];
    }
  }

  method CutParams(rest: string) returns (hostPort: string, params: string)
    ensures (hostPort, params) == HostAndParams(rest)
  {
    hostPort, params := rest, "";
    var i := Index(rest, "/;");
    if i.Some? {
      hostPort := rest[..i.value];
      params := rest[i.value + 2..];
    } else {
      i := Index(rest, ";");
      if i.Some? {
        hostPort := rest[..i.value];
        params := rest[i.value + 1..];
      } else {
        i := Index(rest, "/");
        if i.Some? {
          hostPort := rest[..i.value];
        }
      }
    }
    hostPort := TrimSuffix(hostPort, '/');
  }

  method SetHost(cfg: Config, hostPort: string) returns (ok: bool)
    modifies cfg
    ensures match WithHost(old(cfg.Value()), hostPort)
            case Ok(s) => ok && cfg.Value() == s
            case Err(e) => !ok && e == InvalidPort
  {
    var hp := SplitHostPort(hostPort);
    if hp == None {
      cfg.host := hostPort;
      return true;
    }
    cfg.host := hp.value.0;
    if hp.value.1 != "" {
      var p := Atoi(hp.value.1);
      if p == None {
        return false;
      }
      cfg.port := p.value;
    }
    return true;
  }

  /** The scheme, the host and the parameters are cut and read one after the other. */
  method ParseConnectionString(u: Unicode, conn: string) returns (r: Result<Config, ConfigError>)
    ensures match Parse(u, conn)
            case Ok(s) => r.Ok? && fresh(r.value) && r.value.Value() == s
            case Err(e) => r == Err(e)
  {
    var cfg := new Config();
    if conn == "" {
      return Err(EmptyString);
    }
    var scheme, rest := CutScheme(u, conn);
    if scheme == "" || scheme == "sc" || scheme == "grpc" {
      cfg.useTLS := false;
    } else if scheme == "grpcs" || scheme == "sc+tls" {
      cfg.useTLS := true;
    } else {
      return Err(UnsupportedScheme);
    }
    ghost var s := cfg.Value();
    var hostPort, params := CutParams(rest);
    if hostPort == "" {
      return Err(MissingHost);
    }
    var ok := SetHost(cfg, hostPort);
    if !ok {
      return Err(InvalidPort);
    }
    if params == "" {
      return Ok(cfg);
    }
    r := ApplyParams(u, cfg, Split(params, ';'));
  }

  /** One pass of the parameter loop of ParseConnectionString. */
  method ApplyKeyValue(u: Unicode, cfg: Config, kv: string) returns (failed: Option<ConfigError>)
    modifies cfg
    ensures match WithParam(u, old(cfg.Value()), kv)
            case Ok(s) => failed == None && cfg.Value() == s
            case Err(e) => failed == Some(e)
  {
    if kv == "" {
      return None;
    }
    var i := Index(kv, "=");
    if i == None {
      return Some(MalformedParameter);
    }
    var value := kv[i.value + 1..];
    var v := PathUnescape(value);
    if v.Some? {
      value := v.value;
    }
    var ok := cfg.ApplyParam(u.lower(u.trim(kv[..i.value])), value);
    return if ok then None else Some(InvalidBool);
  }

  method ApplyParams(u: Unicode, cfg: Config, kvs: seq<string>) returns (r: Result<Config, ConfigError>)
    modifies cfg
    ensures match WithParams(u, old(cfg.Value()), kvs)
            case Ok(s) => r == Ok(cfg) && cfg.Value() == s
            case Err(e) => r == Err(e)
  {
    for k := 0 to |kvs|
      invariant WithParams(u, old(cfg.Value()), kvs[..k]) == Ok(cfg.Value())
    {
      assert kvs[..k + 1][..k] == kvs[..k];
      var failed := ApplyKeyValue(u, cfg, kvs[k]);
      if failed.Some? {
        ParamFails(u, old(cfg.Value()), kvs, k + 1);
        return Err(failed.value);
      }
    }
    assert kvs[..|kvs|] == kvs;
    return Ok(cfg);
  }

  lemma {:induction false} ParamFails(u: Unicode, s: Settings, kvs: seq<string>, k: nat)
    requires k <= |kvs| && WithParams(u, s, kvs[..k]).Err?
    ensures WithParams(u, s, kvs) == WithParams(u, s, kvs[..k])
  {
    if k < |kvs| {
      var last := |kvs| - 1;
      assert kvs[..last][..k] == kvs[..k];
      ParamFails(u, s, kvs[..last], k);
    } else {
      assert kvs[..k] == kvs;
    }
  }

  // ---------------------------------------------------------------- printing and the round trip

  datatype Host = Plain(name: string) | Bracketed(name: string) {
    predicate Printable() {
      && '/' !in name
      && (Plain? ==> name == "" || name[0] != '[')
      && (Bracketed? ==> ']' !in name)
    }

    function Text(): string {
      if Plain? then name else "[" + name + "]"
    }
  }

  /** A text that can stand for a key; it is trimmed and lower-cased when it is read. */
  predicate IsKey(key: string) {
    '=' !in key && ';' !in key
  }

  /** The encoder may keep any byte but `%` and `;`, in particular `=` and `+`. */
  function PrintParam(keep: char -> bool, p: (string, string)): string
    requires IsBytes(p.1)
  {
    p.0 + "=" + PercentEncode(keep, p.1)
  }

  function PrintParams(keep: char -> bool, params: seq<(string, string)>): seq<string>
    requires forall k :: 0 <= k < |params| ==> IsBytes(params[k].1)
  {
    seq(|params|, k requires 0 <= k < |params| => PrintParam(keep, params[k]))
  }

  function Print(host: Host, port: int, keep: char -> bool, params: seq<(string, string)>): string
    requires forall k :: 0 <= k < |params| ==> IsBytes(params[k].1)
  {
    "sc://" + (host.Text() + ":" + Itoa(port)) + "/;" + Join(PrintParams(keep, params), ';')
  }

  /** What the parameters set. */
  function FieldsOf(u: Unicode, params: seq<(string, string)>): seq<(Field, string)> {
    seq(|params|, k requires 0 <= k < |params| => (FieldOf(u.lower(u.trim(params[k].0))), params[k].1))
  }

  lemma SplitPlain(s: string, name: string, port: string)
    requires s == name + [':'] + port && ':' !in port && (name == "" || name[0] != '[')
    ensures SplitHostPort(s) == Some((name, port))
  {
    var n := |name|;
    forall i | n < i < |s| ensures s[i] != ':' {
      assert s[i] == port[i - n - 1] && port[i - n - 1] in port;
    }
    LastIndexAt(s, n, ':');
    assert s[..n] == name && s[n + 1..] == port;
  }

  lemma SplitBracketed(s: string, name: string, port: string)
    requires s == ['['] + name + [']', ':'] + port && ']' !in name
    ensures SplitHostPort(s) == Some((name, port))
  {
    var n := |name| + 1;
    forall i | 0 <= i < n ensures s[i] != ']' {
      assert i > 0 ==> s[i] == name[i - 1] && name[i - 1] in name;
    }
    assert s[n..n + 1] == "]";
    IndexAt(s, n, "]");
    assert s[1..n] == name && s[n + 2..] == port;
  }

  lemma SplitPrintedHost(host: Host, port: string)
    requires host.Printable() && ':' !in port
    ensures SplitHostPort(host.Text() + ":" + port) == Some((host.name, port))
  {
    var s := host.Text() + ":" + port;
    if host.Bracketed? {
      assert s == ['['] + host.name + [']', ':'] + port;
      SplitBracketed(s, host.name, port);
    } else {
      SplitPlain(s, host.name, port);
    }
  }

  lemma ReadPrintedParam(u: Unicode, keep: char -> bool, p: (string, string))
    requires IsKey(p.0) && IsBytes(p.1) && !keep('%') && !keep(';')
    ensures ReadParam(u, PrintParam(keep, p)) == Some((FieldOf(u.lower(u.trim(p.0))), p.1))
    ensures PrintParam(keep, p) != "" && ';' !in PrintParam(keep, p)
  {
    var enc := PercentEncode(keep, p.1);
    var kv := PrintParam(keep, p);
    var n := |p.0|;
    assert kv[..n] == p.0 && kv[n + 1..] == enc && kv[n..n + 1] == "=";
    forall i | 0 <= i < n ensures kv[i] != '=' {
      assert kv[i] == p.0[i] && p.0[i] in p.0;
    }
    IndexAt(kv, n, "=");
    UnescapeEncoded(keep, p.1);
    EncodedLacks(keep, p.1, ';');
  }

  lemma {:induction false} ParamsAssign(u: Unicode, s: Settings, keep: char -> bool, params: seq<(string, string)>)
    requires forall k :: 0 <= k < |params| ==> IsKey(params[k].0) && IsBytes(params[k].1)
    requires !keep('%') && !keep(';')
    ensures WithParams(u, s, PrintParams(keep, params))
            == match Assign(s, FieldsOf(u, params)) case Some(t) => Ok(t) case None => Err(InvalidBool)
  {
    if params != [] {
      var last := |params| - 1;
      ParamsAssign(u, s, keep, params[..last]);
      assert PrintParams(keep, params)[..last] == PrintParams(keep, params[..last]);
      assert FieldsOf(u, params)[..last] == FieldsOf(u, params[..last]);
      ReadPrintedParam(u, keep, params[last]);
    }
  }

  lemma PrintedScheme(u: Unicode, rest: string)
    requires u.lower("sc") == "sc"
    ensures SchemeOf(u, "sc://" + rest) == ("sc", rest)
  {
    var conn := "sc://" + rest;
    assert conn[2..5] == "://";
    IndexAt(conn, 2, "://");
    assert conn[..2] == "sc" && conn[5..] == rest;
  }

  lemma PrintedHostPart(hostPort: string, params: string)
    requires hostPort != "" && '/' !in hostPort
    ensures HostAndParams(hostPort + "/;" + params) == (hostPort, params)
  {
    var rest, n := hostPort + "/;" + params, |hostPort|;
    assert rest[..n] == hostPort && rest[n + 2..] == params && rest[n..n + 2] == "/;";
    forall i | 0 <= i < n ensures rest[i] != '/' {
      assert rest[i] == hostPort[i] && hostPort[i] in hostPort;
    }
    IndexAt(rest, n, "/;");
    assert hostPort[n - 1] in hostPort;
  }

  /** Main result: parsing a printed connection string gives its host and port, and the
      parameters assigned from left to right; it fails exactly when one of them is not a
      boolean where one is needed. */
  lemma ParsePrinted(u: Unicode, host: Host, port: int, keep: char -> bool, params: seq<(string, string)>)
    requires host.Printable() && MIN_INT64 <= port <= MAX_INT64
    requires forall k :: 0 <= k < |params| ==> IsKey(params[k].0) && IsBytes(params[k].1)
    requires u.lower("sc") == "sc" && !keep('%') && !keep(';')
    ensures Parse(u, Print(host, port, keep, params))
            == match Assign(DEFAULTS.(host := host.name, port := port), FieldsOf(u, params))
               case Some(s) => Ok(s)
               case None => Err(InvalidBool)
  {
    var hostPort := host.Text() + ":" + Itoa(port);
    var rest := hostPort + "/;" + Join(PrintParams(keep, params), ';');
    assert Print(host, port, keep, params) == "sc://" + rest;
    PrintedScheme(u, rest);
    ParsePrintedRest(u, host, port, keep, params);
  }

  lemma PrintedList(u: Unicode, keep: char -> bool, params: seq<(string, string)>)
    requires forall k :: 0 <= k < |params| ==> IsKey(params[k].0) && IsBytes(params[k].1)
    requires !keep('%') && !keep(';') && params != []
    ensures var list := Join(PrintParams(keep, params), ';');
            list != "" && Split(list, ';') == PrintParams(keep, params)
  {
    var kvs := PrintParams(keep, params);
    forall k | 0 <= k < |kvs| ensures kvs[k] != "" && ';' !in kvs[k] {
      ReadPrintedParam(u, keep, params[k]);
    }
    SplitJoined(kvs, ';');
    assert kvs[0] != "";
  }

  lemma ParsePrintedRest(u: Unicode, host: Host, port: int, keep: char -> bool, params: seq<(string, string)>)
    requires host.Printable() && MIN_INT64 <= port <= MAX_INT64
    requires forall k :: 0 <= k < |params| ==> IsKey(params[k].0) && IsBytes(params[k].1)
    requires !keep('%') && !keep(';')
    ensures ParseRest(u, DEFAULTS, host.Text() + ":" + Itoa(port) + "/;" + Join(PrintParams(keep, params), ';'))
            == match Assign(DEFAULTS.(host := host.name, port := port), FieldsOf(u, params))
               case Some(s) => Ok(s)
               case None => Err(InvalidBool)
  {
    var s := DEFAULTS.(host := host.name, port := port);
    ItoaChars(port);
    AtoiPrinted(port);
    PrintedHostPart(host.Text() + ":" + Itoa(port), Join(PrintParams(keep, params), ';'));
    SplitPrintedHost(host, Itoa(port));
    ParamsAssign(u, s, keep, params);
    if params != [] {
      PrintedList(u, keep, params);
    }
  }

  // ---------------------------------------------------------------- endpoints

  /** Splitting an endpoint as a connection string is split gives back host and port
      exactly when the host does not start with a bracket. */
  lemma EndpointSplits(s: Settings)
    ensures SplitHostPort(Endpoint(s)) == Some((s.host, Itoa(s.port))) <==> s.host == "" || s.host[0] != '['
  {
    ItoaChars(s.port);
    var e := Endpoint(s);
    if s.host == "" || s.host[0] != '[' {
      SplitPlain(e, s.host, Itoa(s.port));
    } else {
      assert e[0] == '[';
    }
  }

  /** How a dialer reads a target, as Go's net.SplitHostPort: a host with colons must stand
      in brackets, there are no other brackets, and there is a port. */
  function DialedHostPort(s: string): Option<(string, string)> {
    match LastIndexByte(s, ':')
    case None => None
    case Some(i) =>
      if s[0] == '[' then
        match Index(s, "]")
        case None => None
        case Some(end) =>
          assert s[end..end + 1] == "]";
          if end + 1 != i || '[' in s[1..] || ']' in s[end + 1..] then None else Some((s[1..end], s[i + 1..]))
      else if ':' in s[..i] || '[' in s || ']' in s then None
      else Some((s[..i], s[i + 1..]))
  }

  lemma LastColon(s: string, host: string, port: string)
    requires s == host + [':'] + port && ':' !in port
    ensures LastIndexByte(s, ':') == Some(|host|) && s[..|host|] == host && s[|host| + 1..] == port
  {
    var n := |host|;
    forall i | n < i < |s| ensures s[i] != ':' {
      assert s[i] == port[i - n - 1] && port[i - n - 1] in port;
    }
    LastIndexAt(s, n, ':');
  }

  predicate Dialable(host: string) {
    ':' !in host && '[' !in host && ']' !in host
  }

  /** An endpoint is dialed as its host and port exactly when the host has no colon and no
      bracket. */
  lemma EndpointDials(s: Settings)
    ensures DialedHostPort(Endpoint(s)) == Some((s.host, Itoa(s.port))) <==> Dialable(s.host)
  {
    var e, port := Endpoint(s), Itoa(s.port);
    ItoaChars(s.port);
    LastColon(e, s.host, port);
    assert forall c :: c in e <==> c in s.host || c == ':' || c in port;
    if s.host != "" && s.host[0] == '[' {
      assert e[0] == '[';
    }
  }

  /** Main result on dialing: a printed host keeps its brackets, or their absence, exactly
      if it has none; and the endpoint of what was parsed is dialed as that host exactly
      when the host has no colon and no bracket of its own. */
  lemma BracketsAreLost(u: Unicode, host: Host, port: int, keep: char -> bool, params: seq<(string, string)>)
    requires host.Printable() && MIN_INT64 <= port <= MAX_INT64
    requires forall k :: 0 <= k < |params| ==> IsKey(params[k].0) && IsBytes(params[k].1)
    requires u.lower("sc") == "sc" && !keep('%') && !keep(';')
    requires Parse(u, Print(host, port, keep, params)).Ok?
    ensures var s := Parse(u, Print(host, port, keep, params)).value;
            && (Endpoint(s) == host.Text() + ":" + Itoa(port) <==> host.Plain?)
            && (DialedHostPort(Endpoint(s)) == Some((host.name, Itoa(port))) <==> Dialable(host.name))
  {
    var s := Parse(u, Print(host, port, keep, params)).value;
    ParsePrinted(u, host, port, keep, params);
    LastWins(DEFAULTS.(host := host.name, port := port), FieldsOf(u, params));
    assert |Endpoint(s)| == |host.name| + 1 + |Itoa(port)|;
    EndpointDials(s);
  }

  /** So the loopback address in its canonical spelling parses and cannot be dialed. */
  lemma LoopbackIsNotDialed(u: Unicode, keep: char -> bool)
    requires u.lower("sc") == "sc" && !keep('%') && !keep(';')
    ensures var r := Parse(u, Print(Bracketed("::1"), DEFAULT_PORT, keep, []));
            r.Ok? && r.value.host == "::1" && DialedHostPort(Endpoint(r.value)) == None
  {
    ParsePrinted(u, Bracketed("::1"), DEFAULT_PORT, keep, []);
    var s := Parse(u, Print(Bracketed("::1"), DEFAULT_PORT, keep, [])).value;
    ItoaChars(s.port);
    LastColon(Endpoint(s), s.host, Itoa(s.port));
    assert Endpoint(s)[0] == ':' && "::1"[0] == ':';
  }

  // ---------------------------------------------------------------- transport security

  /** The assignments of a parameter list, without its empty members. */
  function ReadParams(u: Unicode, kvs: seq<string>): seq<(Field, string)> {
    if kvs == [] then []
    else
      var kv := kvs[|kvs| - 1];
      ReadParams(u, kvs[..|kvs| - 1]) + (if kv != "" && ReadParam(u, kv).Some? then [ReadParam(u, kv).value] else [])
  }

  lemma {:induction false} ParamsAreAssignments(u: Unicode, s: Settings, kvs: seq<string>)
    requires WithParams(u, s, kvs).Ok?
    ensures Assign(s, ReadParams(u, kvs)) == Some(WithParams(u, s, kvs).value)
  {
    if kvs != [] {
      ParamsAreAssignments(u, s, kvs[..|kvs| - 1]);
      var init, kv := ReadParams(u, kvs[..|kvs| - 1]), kvs[|kvs| - 1];
      if kv != "" {
        assert (init + [ReadParam(u, kv).value])[..|init|] == init;
      } else {
        assert init + [] == init;
      }
    }
  }

  /** The assignments of what follows a scheme. */
  function ParamsOfRest(u: Unicode, rest: string): seq<(Field, string)> {
    var params := HostAndParams(rest).1;
    if params == "" then [] else ReadParams(u, Split(params, ';'))
  }

  /** The assignments that a connection string makes. */
  function ParamsOf(u: Unicode, conn: string): seq<(Field, string)> {
    ParamsOfRest(u, SchemeOf(u, conn).1)
  }

  lemma HostLeavesTLS(s: Settings, hostPort: string)
    requires WithHost(s, hostPort).Ok?
    ensures WithHost(s, hostPort).value.useTLS == s.useTLS
  {
  }

  lemma RestAssigns(u: Unicode, s: Settings, rest: string) returns (t: Settings)
    requires ParseRest(u, s, rest).Ok?
    ensures Assign(t, ParamsOfRest(u, rest)) == Some(ParseRest(u, s, rest).value) && t.useTLS == s.useTLS
  {
    var hostPort := HostAndParams(rest).0;
    var params := HostAndParams(rest).1;
    HostLeavesTLS(s, hostPort);
    t := WithHost(s, hostPort).value;
    if params == "" {
      assert ParseRest(u, s, rest) == Ok(t);
    } else {
      var kvs := Split(params, ';');
      assert ParseRest(u, s, rest) == WithParams(u, t, kvs);
      ParamsAreAssignments(u, t, kvs);
    }
  }

  predicate AsksForTLS(scheme: string) {
    scheme == "grpcs" || scheme == "sc+tls"
  }

  lemma ParseIsRest(u: Unicode, conn: string)
    requires Parse(u, conn).Ok?
    ensures var (scheme, rest) := SchemeOf(u, conn);
            Parse(u, conn) == ParseRest(u, DEFAULTS.(useTLS := AsksForTLS(scheme)), rest)
  {
    assert DEFAULTS.(useTLS := false) == DEFAULTS;
  }

  /** Main result on TLS: a parsed configuration uses it exactly when the last text given
      for it reads true, or there is none and the scheme asks for it. In particular a token
      makes no difference. */
  lemma TLSIsAskedFor(u: Unicode, conn: string)
    requires Parse(u, conn).Ok?
    ensures Parse(u, conn).value.useTLS
            <==> match LastFor(ParamsOf(u, conn), TLS)
                 case Some(text) => ParseBool(text) == Some(true)
                 case None => AsksForTLS(SchemeOf(u, conn).0)
  {
    ParseIsRest(u, conn);
    var t := RestAssigns(u, DEFAULTS.(useTLS := AsksForTLS(SchemeOf(u, conn).0)), SchemeOf(u, conn).1);
    LastWins(t, ParamsOf(u, conn));
    assert Get(Parse(u, conn).value, TLS) == match LastFor(ParamsOf(u, conn), TLS)
                                          case Some(text) => Read(TLS, text)
                                          case None => Get(t, TLS);
  }

  /** A token alone does not turn TLS on. */
  lemma TokenAlone(u: Unicode, host: Host, port: int, keep: char -> bool, token: string)
    requires host.Printable() && MIN_INT64 <= port <= MAX_INT64
    requires u.lower("sc") == "sc" && u.lower(u.trim("token")) == "token" && IsBytes(token) && !keep('%') && !keep(';')
    ensures var r := Parse(u, Print(host, port, keep, [("token", token)]));
            r.Ok? && r.value.token == token && !r.value.useTLS
  {
    ParsePrinted(u, host, port, keep, [("token", token)]);
    var fields := FieldsOf(u, [("token", token)]);
    assert fields == [(Token, token)] && fields[..0] == [];
    assert Assign(DEFAULTS.(host := host.name, port := port), []).Some?;
  }
}
