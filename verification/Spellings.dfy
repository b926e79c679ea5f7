/** Every spelling of a connection string that the parser takes, and what it says. */
module Spellings {
  import opened Wrappers
  import opened Text
  import opened ConfigSettings
  import opened ConnectionStrings

  datatype Scheme = NoScheme | Named(text: string)

  /** What follows the host: nothing or a path; or parameters after `/;` or a bare `;`. */
  datatype Tail =
    | NoTail
    | Path(text: string)
    | Params(slash: bool, list: seq<(string, string)>)

  datatype Spelling = Spelling(scheme: Scheme, host: Host, port: Option<string>, tail: Tail)

  function PrintHost(host: Host, port: Option<string>): string {
    host.Text() + (if port == None then "" else ":" + port.value)
  }

  predicate Encodable(tail: Tail) {
    tail.Params? ==> forall k :: 0 <= k < |tail.list| ==> IsKey(tail.list[k].0) && IsBytes(tail.list[k].1)
  }

  function ListOf(keep: char -> bool, tail: Tail): string
    requires Encodable(tail)
  {
    if tail.Params? then Join(PrintParams(keep, tail.list), ';') else ""
  }

  function PrintTail(keep: char -> bool, tail: Tail): string
    requires Encodable(tail)
  {
    match tail
    case NoTail => ""
    case Path(text) => "/" + text
    case Params(slash, _) => (if slash then "/;" else ";") + ListOf(keep, tail)
  }

  function PrintRest(keep: char -> bool, sp: Spelling): string
    requires Encodable(sp.tail)
  {
    PrintHost(sp.host, sp.port) + PrintTail(keep, sp.tail)
  }

  function PrintSpelling(keep: char -> bool, sp: Spelling): string
    requires Encodable(sp.tail)
  {
    (if sp.scheme == NoScheme then "" else sp.scheme.text + "://") + PrintRest(keep, sp)
  }

  // ---------------------------------------------------------------- the scheme

  /** A scheme is what stands before the first `://`, in lower case. */
  lemma SchemeIsCut(u: Unicode, text: string, rest: string)
    requires ':' !in text
    ensures SchemeOf(u, text + "://" + rest) == (u.lower(text), rest)
  {
    var conn, n := text + "://" + rest, |text|;
    assert conn[n..n + 3] == "://" && conn[..n] == text && conn[n + 3..] == rest;
    forall i | 0 <= i < n ensures conn[i] != ':' {
      assert conn[i] == text[i] && text[i] in text;
    }
    IndexAt(conn, n, "://");
  }

  /** The schemes that are taken: five, two of which ask for TLS; any other is refused. */
  lemma SchemesTaken(u: Unicode, text: string, rest: string)
    requires ':' !in text
    ensures var conn, scheme := text + "://" + rest, u.lower(text);
            if scheme == "" || scheme == "sc" || scheme == "grpc" then
              Parse(u, conn) == ParseRest(u, DEFAULTS.(useTLS := false), rest)
            else if scheme == "grpcs" || scheme == "sc+tls" then
              Parse(u, conn) == ParseRest(u, DEFAULTS.(useTLS := true), rest)
            else Parse(u, conn) == Err(UnsupportedScheme)
  {
    SchemeIsCut(u, text, rest);
    assert DEFAULTS.(useTLS := false) == DEFAULTS;
  }

  /** A text without `://` has no scheme, and only such a text has none. */
  lemma NoSchemeIsCut(u: Unicode, conn: string)
    ensures SchemeOf(u, conn) == ("", conn) <==> forall k :: !StandsAt(conn, "://", k)
  {
    IndexNone(conn, "://");
    if Index(conn, "://").Some? {
      assert |conn[Index(conn, "://").value + 3..]| < |conn|;
    }
  }

  // ---------------------------------------------------------------- host and tail

  lemma FoundIn(s: string, sub: string, j: nat)
    requires j < |sub|
    ensures Index(s, sub).Some? ==> sub[j] in s
  {
    if Index(s, sub).Some? {
      var k := Index(s, sub).value;
      assert s[k..k + |sub|][j] == s[k + j];
    }
  }

  lemma FirstIs(s: string, before: string, sub: string, after: string)
    requires s == before + sub + after && sub != "" && sub[0] !in before
    ensures Index(s, sub) == Some(|before|) && s[..|before|] == before && s[|before| + |sub|..] == after
  {
    var n := |before|;
    assert s[n..n + |sub|] == sub;
    forall i | 0 <= i < n ensures s[i] != sub[0] {
      assert s[i] == before[i] && before[i] in before;
    }
    IndexAt(s, n, sub);
  }

  lemma NoSuffix(hostPort: string)
    requires '/' !in hostPort
    ensures TrimSuffix(hostPort, '/') == hostPort
  {
    if hostPort != "" {
      assert hostPort[|hostPort| - 1] in hostPort;
    }
  }

  /** Without parameters the host part ends at the first slash, or at the end. */
  lemma NoTailIsCut(hostPort: string)
    requires '/' !in hostPort && ';' !in hostPort
    ensures HostAndParams(hostPort) == (hostPort, "")
  {
    NoSuffix(hostPort);
    FoundIn(hostPort, "/;", 0);
    FoundIn(hostPort, ";", 0);
    FoundIn(hostPort, "/", 0);
  }

  lemma PathIsCut(rest: string, hostPort: string, text: string)
    requires rest == hostPort + "/" + text && '/' !in hostPort && ';' !in hostPort && ';' !in text
    ensures HostAndParams(rest) == (hostPort, "")
  {
    NoSuffix(hostPort);
    assert ';' !in rest;
    FoundIn(rest, "/;", 1);
    FoundIn(rest, ";", 0);
    FirstIs(rest, hostPort, "/", text);
  }

  /** After `/;` the parameters are cut where they were printed, whatever they hold. */
  lemma SlashTail(hostPort: string, list: string)
    requires '/' !in hostPort
    ensures HostAndParams(hostPort + "/;" + list) == (hostPort, list)
  {
    NoSuffix(hostPort);
    FirstIs(hostPort + "/;" + list, hostPort, "/;", list);
  }

  /** One more slash before them belongs to nothing. */
  lemma DoubledSlash(hostPort: string, list: string)
    requires '/' !in hostPort && ';' !in hostPort
    ensures HostAndParams(hostPort + "//;" + list) == (hostPort, list)
  {
    var rest, n := hostPort + "//;" + list, |hostPort|;
    assert rest[n + 1..n + 3] == "/;";
    assert StandsAt(rest, "/;", n + 1);
    forall i | 0 <= i < n + 1 ensures !StandsAt(rest, "/;", i) {
      assert rest[i..i + 2] == [rest[i], rest[i + 1]];
      assert i < n ==> rest[i] == hostPort[i] && hostPort[i] in hostPort;
    }
    IndexFirst(rest, "/;", n + 1);
    assert rest[..n + 1] == hostPort + "/" && rest[n + 3..] == list;
    assert (hostPort + "/")[..n] == hostPort;
  }

  /** After a bare `;` they are exactly if no `/;` stands in them. */
  lemma BareTail(hostPort: string, list: string)
    requires '/' !in hostPort && ';' !in hostPort
    ensures HostAndParams(hostPort + ";" + list) == (hostPort, list)
            <==> !HasSlashSemi(hostPort + ";" + list)
  {
    var rest, n := hostPort + ";" + list, |hostPort|;
    NoSuffix(hostPort);
    SlashSemiFound(rest);
    FirstIs(rest, hostPort, ";", list);
    if Index(rest, "/;").Some? {
      var i := Index(rest, "/;").value;
      assert rest[i..i + 2][0] == '/' && rest[i] == '/';
      assert forall x :: 0 <= x < n ==> rest[x] == hostPort[x] && hostPort[x] in hostPort;
      assert |rest[i + 2..]| < |list|;
    }
  }

  predicate EndsInSlash(s: string) {
    s != "" && s[|s| - 1] == '/'
  }

  predicate SlashSemiAt(s: string, k: nat) {
    k + 1 < |s| && s[k] == '/' && s[k + 1] == ';'
  }

  /** `/;` stands in the text. */
  ghost predicate HasSlashSemi(s: string) {
    exists k: nat :: SlashSemiAt(s, k)
  }

  lemma SlashSemiFound(s: string)
    ensures HasSlashSemi(s) <==> Index(s, "/;").Some?
  {
    IndexNone(s, "/;");
    forall k: nat ensures SlashSemiAt(s, k) <==> StandsAt(s, "/;", k) {
      if k + 2 <= |s| {
        assert s[k..k + 2] == [s[k], s[k + 1]];
      }
    }
  }

  lemma SlashSemiSplits(a: string, b: string)
    requires ';' !in a
    ensures HasSlashSemi(a + [';'] + b) <==> EndsInSlash(a) || HasSlashSemi(b)
  {
    var s := a + [';'] + b;
    assert forall x :: 0 <= x < |a| ==> s[x] == a[x] && a[x] in a;
    if k: nat :| SlashSemiAt(s, k) && k > |a| {
      assert SlashSemiAt(b, k - |a| - 1);
    }
    if EndsInSlash(a) {
      assert SlashSemiAt(s, |a| - 1);
    }
    if k: nat :| SlashSemiAt(b, k) {
      assert SlashSemiAt(s, k + |a| + 1);
    }
  }

  /** It stands in a list of parameters exactly if one before the last ends in a slash. */
  lemma {:induction false} SlashSemiInList(parts: seq<string>)
    requires forall k :: 0 <= k < |parts| ==> ';' !in parts[k]
    ensures HasSlashSemi(Join(parts, ';')) <==> exists i :: 0 <= i < |parts| - 1 && EndsInSlash(parts[i])
  {
    var s := Join(parts, ';');
    if |parts| <= 1 {
      assert forall x :: 0 <= x < |s| ==> s[x] in s;
    } else {
      var tail := parts[1..];
      SlashSemiInList(tail);
      SlashSemiSplits(parts[0], Join(tail, ';'));
      assert forall i :: 0 <= i < |tail| ==> tail[i] == parts[i + 1];
      if i :| 0 <= i < |tail| - 1 && EndsInSlash(tail[i]) {
        assert EndsInSlash(parts[i + 1]);
      }
      if i :| 0 <= i < |parts| - 1 && EndsInSlash(parts[i]) && i > 0 {
        assert EndsInSlash(tail[i - 1]);
      }
    }
  }

  /** The host is the printed name, without its brackets. The port is the printed number;
      without one, or with an empty one, it stays what it was. */
  lemma HostIsRead(s: Settings, host: Host, port: Option<string>)
    requires host.Printable() && (port == None && host.Plain? ==> ':' !in host.name)
    requires port.Some? ==> ':' !in port.value
    ensures WithHost(s, PrintHost(host, port))
            == if port == None || port.value == "" then Ok(s.(host := host.name))
               else match Atoi(port.value)
                    case Some(n) => Ok(s.(host := host.name, port := n))
                    case None => Err(InvalidPort)
  {
    if port.Some? {
      assert PrintHost(host, port) == host.Text() + ":" + port.value;
      SplitPrintedHost(host, port.value);
    } else if host.Plain? {
      assert PrintHost(host, port) == host.name;
    } else {
      var text := PrintHost(host, port);
      assert text == ['['] + host.name + "]" + "";
      FirstIs(text, ['['] + host.name, "]", "");
      assert text[1..|host.name| + 1] == host.name;
    }
  }

  /** An opening bracket that is not closed is part of the host; what follows a closing one
      without a colon is not. */
  lemma OddBrackets(s: Settings, name: string, after: string)
    requires ']' !in name && (after == "" || after[0] != ':')
    ensures WithHost(s, "[" + name) == Ok(s.(host := "[" + name))
    ensures WithHost(s, "[" + name + "]" + after) == Ok(s.(host := name))
  {
    FoundIn("[" + name, "]", 0);
    var text := "[" + name + "]" + after;
    FirstIs(text, "[" + name, "]", after);
    assert text[1..|name| + 1] == name;
    assert after != "" ==> text[|name| + 2] == after[0];
  }

  /** The text can be cut apart again. */
  predicate Readable(sp: Spelling) {
    && sp.host.Printable() && ';' !in sp.host.name
    && (sp.port == None && sp.host.Plain? ==> ':' !in sp.host.name)
    && (sp.port.Some? ==> ':' !in sp.port.value && '/' !in sp.port.value && ';' !in sp.port.value)
    && (sp.tail.Path? ==> ';' !in sp.tail.text)
    && (sp.scheme.Named? ==> ':' !in sp.scheme.text)
  }

  /** After a bare `;`, no parameter before the last ends in a slash. */
  predicate Separated(keep: char -> bool, tail: Tail)
    requires Encodable(tail)
  {
    tail.Params? && !tail.slash ==>
      forall k :: 0 <= k < |tail.list| - 1 ==> !EndsInSlash(PrintParam(keep, tail.list[k]))
  }

  lemma HostPartLacks(host: Host, port: Option<string>, c: char)
    requires c !in host.name && (port.Some? ==> c !in port.value) && c !in ['[', ']', ':']
    ensures c !in PrintHost(host, port)
  {
  }

  lemma ParamsAreCut(hostPort: string, keep: char -> bool, tail: Tail)
    requires '/' !in hostPort && ';' !in hostPort && tail.Params? && Encodable(tail) && !keep('%') && !keep(';')
    ensures HostAndParams(hostPort + PrintTail(keep, tail)) == (hostPort, ListOf(keep, tail)) <==> Separated(keep, tail)
  {
    var list := ListOf(keep, tail);
    if tail.slash {
      assert hostPort + PrintTail(keep, tail) == hostPort + "/;" + list;
      SlashTail(hostPort, list);
    } else {
      assert hostPort + PrintTail(keep, tail) == hostPort + ";" + list == hostPort + [';'] + list;
      BareTail(hostPort, list);
      SlashSemiSplits(hostPort, list);
      ListSeparates(keep, tail.list);
      assert hostPort != "" ==> hostPort[|hostPort| - 1] in hostPort;
    }
  }

  /** Host part and parameters are cut where they were printed exactly if no bare `;` is
      mistaken. */
  lemma TailIsCut(keep: char -> bool, sp: Spelling)
    requires Readable(sp) && Encodable(sp.tail) && !keep('%') && !keep(';')
    ensures HostAndParams(PrintRest(keep, sp)) == (PrintHost(sp.host, sp.port), ListOf(keep, sp.tail))
            <==> Separated(keep, sp.tail)
  {
    var hostPort := PrintHost(sp.host, sp.port);
    HostPartLacks(sp.host, sp.port, '/');
    HostPartLacks(sp.host, sp.port, ';');
    match sp.tail
    case Params(_, _) => ParamsAreCut(hostPort, keep, sp.tail);
    case Path(text) => PathIsCut(PrintRest(keep, sp), hostPort, text);
    case NoTail =>
      NoTailIsCut(hostPort);
      assert PrintRest(keep, sp) == hostPort;
  }

  lemma ListSeparates(keep: char -> bool, params: seq<(string, string)>)
    requires Encodable(Params(false, params)) && !keep('%') && !keep(';')
    ensures !HasSlashSemi(Join(PrintParams(keep, params), ';')) <==> Separated(keep, Params(false, params))
  {
    var parts := PrintParams(keep, params);
    forall k | 0 <= k < |parts| ensures ';' !in parts[k] {
      EncodedLacks(keep, params[k].1, ';');
    }
    SlashSemiInList(parts);
    assert forall i :: 0 <= i < |parts| ==> parts[i] == PrintParam(keep, params[i]);
    if HasSlashSemi(Join(parts, ';')) {
      var i :| 0 <= i < |parts| - 1 && EndsInSlash(parts[i]);
      assert EndsInSlash(PrintParam(keep, params[i]));
    } else {
      forall i | 0 <= i < |params| - 1 ensures !EndsInSlash(PrintParam(keep, params[i])) {
        assert !EndsInSlash(parts[i]);
      }
    }
  }

  // ---------------------------------------------------------------- what a spelling says

  function ParamsIn(tail: Tail): seq<(string, string)> {
    if tail.Params? then tail.list else []
  }

  /** The host, the port and the parameters, over settings that the scheme has chosen. */
  lemma RestSays(u: Unicode, keep: char -> bool, sp: Spelling, s: Settings)
    requires Readable(sp) && Encodable(sp.tail) && !keep('%') && !keep(';') && Separated(keep, sp.tail)
    ensures ParseRest(u, s, PrintRest(keep, sp))
            == if PrintHost(sp.host, sp.port) == "" then Err(MissingHost)
               else if sp.port.Some? && sp.port.value != "" && Atoi(sp.port.value) == None then Err(InvalidPort)
               else
                 var port := if sp.port == None || sp.port.value == "" then s.port else Atoi(sp.port.value).value;
                 match Assign(s.(host := sp.host.name, port := port), FieldsOf(u, ParamsIn(sp.tail)))
                 case Some(t) => Ok(t)
                 case None => Err(InvalidBool)
  {
    TailIsCut(keep, sp);
    HostIsRead(s, sp.host, sp.port);
    var read := WithHost(s, PrintHost(sp.host, sp.port));
    var list := ParamsIn(sp.tail);
    if read.Ok? {
      ParamsAssign(u, read.value, keep, list);
      if list != [] {
        PrintedList(u, keep, list);
      } else {
        assert ListOf(keep, sp.tail) == "" && FieldsOf(u, list) == [];
      }
    }
  }

  /** Main result on spellings: whatever form is used, the host is the printed name and the
      port the printed number or 15002; TLS is on if the scheme is one of the two that ask
      for it; and the parameters are assigned on top, from left to right. */
  lemma SpellingSays(u: Unicode, keep: char -> bool, sp: Spelling)
    requires Readable(sp) && Encodable(sp.tail) && !keep('%') && !keep(';') && Separated(keep, sp.tail)
    requires sp.scheme == NoScheme ==> forall k :: !StandsAt(PrintRest(keep, sp), "://", k)
    ensures var scheme := if sp.scheme == NoScheme then "" else u.lower(sp.scheme.text);
            Parse(u, PrintSpelling(keep, sp))
            == if PrintSpelling(keep, sp) == "" then Err(EmptyString)
               else if scheme !in ["", "sc", "grpc", "grpcs", "sc+tls"] then Err(UnsupportedScheme)
               else if PrintHost(sp.host, sp.port) == "" then Err(MissingHost)
               else if sp.port.Some? && sp.port.value != "" && Atoi(sp.port.value) == None then Err(InvalidPort)
               else
                 var port := if sp.port == None || sp.port.value == "" then 15002 else Atoi(sp.port.value).value;
                 var s := Settings(sp.host.name, port, scheme in ["grpcs", "sc+tls"], "", "", "adbc-driver-spark", "",
                                   map[]);
                 match Assign(s, FieldsOf(u, ParamsIn(sp.tail)))
                 case Some(t) => Ok(t)
                 case None => Err(InvalidBool)
  {
    var rest := PrintRest(keep, sp);
    var conn := PrintSpelling(keep, sp);
    var scheme := if sp.scheme == NoScheme then "" else u.lower(sp.scheme.text);
    var s := DEFAULTS.(useTLS := scheme == "grpcs" || scheme == "sc+tls");
    RestSays(u, keep, sp, s);
    if sp.scheme == NoScheme {
      assert conn == rest;
      BareConnection(u, conn);
    } else {
      assert conn == sp.scheme.text + "://" + rest;
      SchemesTaken(u, sp.scheme.text, rest);
    }
  }

  lemma BareConnection(u: Unicode, conn: string)
    requires forall k :: !StandsAt(conn, "://", k)
    ensures Parse(u, conn) == if conn == "" then Err(EmptyString) else ParseRest(u, DEFAULTS.(useTLS := false), conn)
  {
    NoSchemeIsCut(u, conn);
    assert DEFAULTS.(useTLS := false) == DEFAULTS;
  }

  /** A bare `;` that is mistaken: the first parameter becomes part of the host. */
  lemma BareSemicolonIsMistaken(s: Settings)
    ensures HostAndParams("h;x=a/;token=t") == ("h;x=a", "token=t")
    ensures WithHost(s, "h;x=a") == Ok(s.(host := "h;x=a"))
  {
    SlashTail("h;x=a", "token=t");
    assert "h;x=a" + "/;" + "token=t" == "h;x=a/;token=t";
    HostIsRead(s, Plain("h;x=a"), None);
    assert PrintHost(Plain("h;x=a"), None) == "h;x=a";
  }

  // ---------------------------------------------------------------- what a parameter says

  /** What each documented key and alias sets, field by field; any other key is a header. */
  lemma KeySets(s: Settings, k: string, value: string)
    ensures (match Set(s, FieldOf(k), value) case Some(t) => Ok(t) case None => Err(InvalidBool))
            == if k in ["user_id", "userid", "user"] then Ok(s.(userID := value))
               else if k == "token" then Ok(s.(token := value))
               else if k in ["user_agent", "useragent"] then Ok(s.(userAgent := value))
               else if k in ["session_id", "sessionid"] then Ok(s.(sessionID := value))
               else if k in ["use_ssl", "usessl", "use_tls", "usetls", "ssl"] then
                 if value in ["1", "t", "T", "TRUE", "true", "True"] then Ok(s.(useTLS := true))
                 else if value in ["0", "f", "F", "FALSE", "false", "False"] then Ok(s.(useTLS := false))
                 else Err(InvalidBool)
               else Ok(s.(headers := s.headers[k := value]))
  {
  }

  /** Main result on parameters: a connection string with one of them sets what its key, in
      lower case and trimmed, stands for, and nothing else. */
  lemma ParameterSets(u: Unicode, host: Host, port: int, keep: char -> bool, key: string, value: string)
    requires host.Printable() && MIN_INT64 <= port <= MAX_INT64 && u.lower("sc") == "sc"
    requires IsKey(key) && IsBytes(value) && !keep('%') && !keep(';')
    ensures var k := u.lower(u.trim(key));
            var s := Settings(host.name, port, false, "", "", "adbc-driver-spark", "", map[]);
            Parse(u, Print(host, port, keep, [(key, value)]))
            == if k in ["user_id", "userid", "user"] then Ok(s.(userID := value))
               else if k == "token" then Ok(s.(token := value))
               else if k in ["user_agent", "useragent"] then Ok(s.(userAgent := value))
               else if k in ["session_id", "sessionid"] then Ok(s.(sessionID := value))
               else if k in ["use_ssl", "usessl", "use_tls", "usetls", "ssl"] then
                 if value in ["1", "t", "T", "TRUE", "true", "True"] then Ok(s.(useTLS := true))
                 else if value in ["0", "f", "F", "FALSE", "false", "False"] then Ok(s.(useTLS := false))
                 else Err(InvalidBool)
               else Ok(s.(headers := s.headers[k := value]))
  {
    var k, s := u.lower(u.trim(key)), DEFAULTS.(host := host.name, port := port);
    ConnectionStrings.ParsePrinted(u, host, port, keep, [(key, value)]);
    OneAssignment(s, FieldOf(k), value);
    assert FieldsOf(u, [(key, value)]) == [(FieldOf(k), value)];
    KeySets(s, k, value);
  }

  lemma OneAssignment(s: Settings, f: Field, value: string)
    ensures Assign(s, [(f, value)]) == Set(s, f, value)
  {
    assert [(f, value)][..0] == [];
    assert Assign(s, []) == Some(s);
  }

  /** A key ends at the first `=`. The value is decoded if it can be, and kept as it is
      where some percent sign is not followed by two digits. */
  lemma ValueIsKept(u: Unicode, key: string, value: string)
    requires '=' !in key
    ensures ReadParam(u, key + "=" + value)
            == Some((FieldOf(u.lower(u.trim(key))),
                     if forall k :: 0 <= k < |value| ==> EscapeAt(value, k)
                     then PathUnescape(value).GetOr("") else value))
  {
    FirstIs(key + "=" + value, key, "=", value);
    UnescapeFails(value);
  }

  /** A parameter is refused if it has no `=`, or is not a boolean where one is needed; an
      empty one is skipped. */
  predicate Refused(u: Unicode, kv: string) {
    && kv != ""
    && match ReadParam(u, kv)
       case None => true
       case Some(p) => Read(p.0, p.1) == None
  }

  lemma ParamIsRead(u: Unicode, kv: string)
    ensures ReadParam(u, kv) == None <==> '=' !in kv
  {
    FoundIn(kv, "=", 0);
    IndexNone(kv, "=");
    if k: nat :| k < |kv| && kv[k] == '=' {
      assert kv[k..k + 1] == "=";
      assert StandsAt(kv, "=", k);
    }
  }

  /** A list of parameters is taken exactly if none is refused; otherwise the error is that
      of the first that is. */
  lemma {:induction false} ParamsTaken(u: Unicode, s: Settings, kvs: seq<string>)
    ensures WithParams(u, s, kvs).Ok? <==> forall k :: 0 <= k < |kvs| ==> !Refused(u, kvs[k])
    ensures forall k :: 0 <= k < |kvs| && Refused(u, kvs[k]) && (forall i :: 0 <= i < k ==> !Refused(u, kvs[i])) ==>
              WithParams(u, s, kvs) == Err(if '=' !in kvs[k] then MalformedParameter else InvalidBool)
  {
    if kvs != [] {
      var init, last := kvs[..|kvs| - 1], kvs[|kvs| - 1];
      ParamsTaken(u, s, init);
      assert forall k :: 0 <= k < |init| ==> init[k] == kvs[k];
      if WithParams(u, s, init).Ok? {
        OneTaken(u, WithParams(u, s, init).value, last);
      }
    }
  }

  lemma OneTaken(u: Unicode, s: Settings, kv: string)
    ensures WithParam(u, s, kv).Ok? <==> !Refused(u, kv)
    ensures Refused(u, kv) ==> WithParam(u, s, kv) == Err(if '=' !in kv then MalformedParameter else InvalidBool)
  {
    ParamIsRead(u, kv);
    if ReadParam(u, kv).Some? {
      SetIsExact(s, ReadParam(u, kv).value.0, ReadParam(u, kv).value.1);
    }
  }
}
