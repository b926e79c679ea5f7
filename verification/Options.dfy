/** Database options: an unordered map laid over a parsed connection string. */
module DatabaseOptions {
  import opened Wrappers
  import Text
  import opened ConfigSettings
  import ConnectionStrings

  const URI := "uri"
  const SPARK_URI := "adbc.spark.uri"
  const SPARK_PREFIX := "adbc.spark."
  const TLS_ENABLED := "adbc.spark.tls.enabled"
  const HEADER_PREFIX := "adbc.spark.headers."

  datatype OptionError = URIRequired | BadURI(error: ConnectionStrings.ConfigError) | BadBoolean | UnknownOption

  /** What an option key does. */
  datatype Effect = Sets(field: Field) | Ignored | Rejected

  function EffectOf(key: string): Effect {
    if key == URI || key == SPARK_URI then Ignored
    else if key == "adbc.spark.token" || key == "password" then Sets(Token)
    else if key == "adbc.spark.user_id" || key == "username" then Sets(UserID)
    else if key == "adbc.spark.user_agent" then Sets(UserAgent)
    else if key == "adbc.spark.session_id" then Sets(SessionID)
    else if key == TLS_ENABLED then Sets(TLS)
    else if HEADER_PREFIX < key then Sets(Header(key[|HEADER_PREFIX|..]))
    else if SPARK_PREFIX <= key then Rejected
    else Ignored
  }

  /** An option that makes the call fail. */
  predicate Bad(key: string, value: string) {
    EffectOf(key).Rejected? || (EffectOf(key).Sets? && Read(EffectOf(key).field, value) == None)
  }

  /** The settings after some options, and the error that stopped there. */
  datatype Progress = Progress(settings: Settings, failed: Option<OptionError>)

  /** The options in the given order, up to the first that fails. */
  function Overlay(s: Settings, opts: map<string, string>, order: seq<string>): Progress
    requires forall k :: k in order ==> k in opts
  {
    if order == [] then Progress(s, None)
    else
      var before := Overlay(s, opts, order[..|order| - 1]);
      var key := order[|order| - 1];
      if before.failed.Some? then before
      else
        match EffectOf(key)
        case Ignored => before
        case Rejected => before.(failed := Some(UnknownOption))
        case Sets(f) =>
          match Set(before.settings, f, opts[key])
          case Some(t) => Progress(t, None)
          case None => before.(failed := Some(BadBoolean))
  }

  /** The order in which Go happens to visit the map: every key once. */
  ghost predicate IsOrder(order: seq<string>, opts: map<string, string>) {
    && (forall k :: k in order <==> k in opts)
    && (forall i, j :: 0 <= i < j < |order| ==> order[i] != order[j])
  }

  function Lookup(opts: map<string, string>, key: string): string {
    if key in opts then opts[key] else ""
  }

  method FirstNonEmpty(values: seq<string>) returns (v: string)
    ensures v == "" <==> forall k :: 0 <= k < |values| ==> values[k] == ""
    ensures v != "" ==> exists k :: 0 <= k < |values| && values[k] == v && forall i :: 0 <= i < k ==> values[i] == ""
  {
    for k := 0 to |values|
      invariant forall i :: 0 <= i < k ==> values[i] == ""
    {
      if values[k] != "" {
        return values[k];
      }
    }
    return "";
  }

  function UriOf(opts: map<string, string>): string {
    if Lookup(opts, URI) != "" then Lookup(opts, URI) else Lookup(opts, SPARK_URI)
  }

  class Database {
    var cfg: ConnectionStrings.Config?

    constructor ()
      ensures cfg == null
    {
      cfg := null;
    }

    /** With a URI the call installs a new configuration or leaves the old one untouched.
        Without one it writes to the configuration in place, and on failure leaves there
        what came before the failing option. */
    method SetOptions(u: Text.Unicode, opts: map<string, string>, order: seq<string>)
      returns (r: Result<(), OptionError>)
      requires IsOrder(order, opts)
      modifies this, cfg
      ensures UriOf(opts) == "" && old(cfg) == null ==> r == Err(URIRequired) && cfg == null
      ensures UriOf(opts) == "" && old(cfg) != null ==>
                var p := Overlay(old(cfg.Value()), opts, order);
                && cfg == old(cfg) && cfg.Value() == p.settings
                && r == if p.failed.Some? then Err(p.failed.value) else Ok(())
      ensures UriOf(opts) != "" && ConnectionStrings.Parse(u, UriOf(opts)).Err? ==>
                r == Err(BadURI(ConnectionStrings.Parse(u, UriOf(opts)).error)) && cfg == old(cfg)
      ensures UriOf(opts) != "" && ConnectionStrings.Parse(u, UriOf(opts)).Ok? ==>
                var p := Overlay(ConnectionStrings.Parse(u, UriOf(opts)).value, opts, order);
                && (p.failed.Some? ==> r == Err(p.failed.value) && cfg == old(cfg))
                && (p.failed == None ==> r == Ok(()) && cfg != null && fresh(cfg) && cfg.Value() == p.settings)
      ensures UriOf(opts) != "" && old(cfg) != null ==> old(cfg).Value() == old(cfg.Value())
    {
      var values := [Lookup(opts, URI), Lookup(opts, SPARK_URI)];
      var uri := FirstNonEmpty(values);
      assert values[0] == Lookup(opts, URI) && values[1] == Lookup(opts, SPARK_URI);
      assert uri == UriOf(opts);
      if uri == "" && cfg == null {
        return Err(URIRequired);
      }
      var target := cfg;
      if uri != "" {
        var parsed := ConnectionStrings.ParseConnectionString(u, uri);
        if parsed.Err? {
          return Err(BadURI(parsed.error));
        }
        target := parsed.value;
      }
      r := ApplyOptions(target, opts, order);
      if r.Ok? {
        cfg := target;
      }
    }
  }

  /** The loop over the options. */
  method ApplyOptions(target: ConnectionStrings.Config, opts: map<string, string>, order: seq<string>)
    returns (r: Result<(), OptionError>)
    requires forall k :: k in order ==> k in opts
    modifies target
    ensures var p := Overlay(old(target.Value()), opts, order);
            && target.Value() == p.settings
            && r == if p.failed.Some? then Err(p.failed.value) else Ok(())
  {
    for k := 0 to |order|
      invariant Overlay(old(target.Value()), opts, order[..k]) == Progress(target.Value(), None)
    {
      assert order[..k + 1][..k] == order[..k];
      var key := order[k];
      match EffectOf(key) {
        case Ignored =>
        case Rejected =>
          StopsAt(old(target.Value()), opts, order, k + 1);
          return Err(UnknownOption);
        case Sets(f) =>
          var ok := target.SetField(f, opts[key]);
          if !ok {
            StopsAt(old(target.Value()), opts, order, k + 1);
            return Err(BadBoolean);
          }
      }
    }
    assert order[..|order|] == order;
    return Ok(());
  }

  lemma {:induction false} StopsAt(s: Settings, opts: map<string, string>, order: seq<string>, k: nat)
    requires k <= |order| && forall x :: x in order ==> x in opts
    requires Overlay(s, opts, order[..k]).failed.Some?
    ensures Overlay(s, opts, order) == Overlay(s, opts, order[..k])
  {
    if k < |order| {
      var last := |order| - 1;
      assert order[..last][..k] == order[..k];
      StopsAt(s, opts, order[..last], k);
    } else {
      assert order[..k] == order;
    }
  }

  // ---------------------------------------------------------------- laws

  /** The assignments that the options of an order make. */
  ghost function Assignments(opts: map<string, string>, order: seq<string>): seq<(Field, string)>
    requires forall k :: k in order ==> k in opts
  {
    if order == [] then []
    else
      var key := order[|order| - 1];
      Assignments(opts, order[..|order| - 1])
      + (if EffectOf(key).Sets? then [(EffectOf(key).field, opts[key])] else [])
  }

  /** Main result on options: what each documented key sets, field by field; a header
      option names its header; other keys of the driver are refused, the rest is ignored. */
  lemma OptionSets(s: Settings, opts: map<string, string>, key: string)
    requires key in opts
    ensures var value := opts[key];
            Overlay(s, opts, [key])
            == if key == "uri" || key == "adbc.spark.uri" then Progress(s, None)
               else if key == "adbc.spark.token" || key == "password" then Progress(s.(token := value), None)
               else if key == "adbc.spark.user_id" || key == "username" then Progress(s.(userID := value), None)
               else if key == "adbc.spark.user_agent" then Progress(s.(userAgent := value), None)
               else if key == "adbc.spark.session_id" then Progress(s.(sessionID := value), None)
               else if key == "adbc.spark.tls.enabled" then
                 if value in ["1", "t", "T", "TRUE", "true", "True"] then Progress(s.(useTLS := true), None)
                 else if value in ["0", "f", "F", "FALSE", "false", "False"] then Progress(s.(useTLS := false), None)
                 else Progress(s, Some(BadBoolean))
               else if "adbc.spark.headers." < key then
                 Progress(s.(headers := s.headers[key[19..] := value]), None)
               else if "adbc.spark." <= key then Progress(s, Some(UnknownOption))
               else Progress(s, None)
  {
    assert [key][..0] == [];
    assert Overlay(s, opts, []) == Progress(s, None);
  }

  /** The URI is the `uri` option, or without it, or if it is empty, the driver's own. */
  lemma UriIsChosen(opts: map<string, string>)
    ensures "uri" in opts && opts["uri"] != "" ==> UriOf(opts) == opts["uri"]
    ensures "uri" !in opts || opts["uri"] == "" ==>
              UriOf(opts) == if "adbc.spark.uri" in opts then opts["adbc.spark.uri"] else ""
  {
  }

  /** An overlay fails exactly when some option is bad; otherwise it is the assignments
      made one after the other. */
  lemma {:induction false} OverlayAssigns(s: Settings, opts: map<string, string>, order: seq<string>)
    requires forall k :: k in order ==> k in opts
    ensures Overlay(s, opts, order).failed.Some? <==> exists k :: k in order && Bad(k, opts[k])
    ensures Overlay(s, opts, order).failed == None
            ==> Assign(s, Assignments(opts, order)) == Some(Overlay(s, opts, order).settings)
  {
    if order != [] {
      var init, key := order[..|order| - 1], order[|order| - 1];
      OverlayAssigns(s, opts, init);
      assert forall k :: k in order <==> k in init || k == key;
      assert key in order;
      var a := Assignments(opts, init);
      if EffectOf(key).Sets? {
        assert (a + [(EffectOf(key).field, opts[key])])[..|a|] == a;
      } else {
        assert a + [] == a;
      }
    }
  }

  lemma {:induction false} AssignmentsOf(opts: map<string, string>, order: seq<string>, p: (Field, string))
    requires forall k :: k in order ==> k in opts
    ensures p in Assignments(opts, order) <==> exists k :: k in order && EffectOf(k) == Sets(p.0) && opts[k] == p.1
  {
    if order != [] {
      var init, key := order[..|order| - 1], order[|order| - 1];
      AssignmentsOf(opts, init, p);
      assert forall k :: k in order <==> k in init || k == key;
    }
  }

  /** No two options give one field different values. */
  ghost predicate Agreeing(opts: map<string, string>) {
    forall j, k :: j in opts && k in opts && EffectOf(j).Sets? && EffectOf(j) == EffectOf(k)
                   ==> Read(EffectOf(j).field, opts[j]) == Read(EffectOf(k).field, opts[k])
  }

  /** Options override what was there before, and touch nothing else. */
  lemma OptionsOverride(s: Settings, opts: map<string, string>, order: seq<string>, f: Field)
    requires IsOrder(order, opts) && Overlay(s, opts, order).failed == None
    ensures var t := Overlay(s, opts, order).settings;
            && t.host == s.host && t.port == s.port
            && ((forall k :: k in opts ==> EffectOf(k) != Sets(f)) ==> Get(t, f) == Get(s, f))
            && ((exists k :: k in opts && EffectOf(k) == Sets(f))
                ==> exists k :: k in opts && EffectOf(k) == Sets(f) && Get(t, f) == Read(f, opts[k]))
  {
    var a := Assignments(opts, order);
    OverlayAssigns(s, opts, order);
    LastWins(s, a);
    LastIsMember(a, f);
    match LastFor(a, f)
    case Some(v) =>
      AssignmentsOf(opts, order, (f, v));
    case None =>
      forall k | k in opts ensures EffectOf(k) != Sets(f) {
        AssignmentsOf(opts, order, (f, opts[k]));
      }
  }

  lemma OneKeySetsTLS(key: string)
    ensures EffectOf(key) == Sets(TLS) <==> key == TLS_ENABLED
  {
    assert TLS_ENABLED == "adbc.spark.tls.enabled";
  }

  lemma OverlaidTLS(s: Settings, opts: map<string, string>, order: seq<string>)
    requires IsOrder(order, opts) && Overlay(s, opts, order).failed == None
    ensures Overlay(s, opts, order).settings.useTLS
            <==> if TLS_ENABLED in opts then ParseBool(opts[TLS_ENABLED]) == Some(true) else s.useTLS
  {
    forall key ensures EffectOf(key) == Sets(TLS) <==> key == TLS_ENABLED {
      OneKeySetsTLS(key);
    }
    OptionsOverride(s, opts, order, TLS);
    assert Get(Overlay(s, opts, order).settings, TLS) == if TLS_ENABLED in opts then Read(TLS, opts[TLS_ENABLED])
                                                         else Get(s, TLS);
  }

  /** Main result on TLS: it is on exactly when the option says so or, without that
      option, the connection string does; no token is ever a reason. */
  lemma TLSIsNeverInferred(u: Text.Unicode, conn: string, opts: map<string, string>, order: seq<string>)
    requires ConnectionStrings.Parse(u, conn).Ok? && IsOrder(order, opts)
    requires Overlay(ConnectionStrings.Parse(u, conn).value, opts, order).failed == None
    ensures Overlay(ConnectionStrings.Parse(u, conn).value, opts, order).settings.useTLS
            <==> if TLS_ENABLED in opts then ParseBool(opts[TLS_ENABLED]) == Some(true)
                 else match LastFor(ConnectionStrings.ParamsOf(u, conn), TLS)
                      case Some(text) => ParseBool(text) == Some(true)
                      case None => ConnectionStrings.AsksForTLS(ConnectionStrings.SchemeOf(u, conn).0)
  {
    ConnectionStrings.TLSIsAskedFor(u, conn);
    OverlaidTLS(ConnectionStrings.Parse(u, conn).value, opts, order);
  }

  lemma SameOverlay(s: Settings, opts: map<string, string>, a: seq<string>, b: seq<string>)
    requires IsOrder(a, opts) && IsOrder(b, opts) && Agreeing(opts)
    requires Overlay(s, opts, a).failed == None && Overlay(s, opts, b).failed == None
    ensures Overlay(s, opts, a) == Overlay(s, opts, b)
  {
    var t, u := Overlay(s, opts, a).settings, Overlay(s, opts, b).settings;
    OptionsOverride(s, opts, a, TLS);
    OptionsOverride(s, opts, b, TLS);
    forall f ensures Get(t, f) == Get(u, f) {
      OptionsOverride(s, opts, a, f);
      OptionsOverride(s, opts, b, f);
    }
    SameFields(t, u);
  }

  lemma {:induction false} SomeOrder(keys: set<string>) returns (order: seq<string>)
    ensures (forall k :: k in order <==> k in keys) && forall i, j :: 0 <= i < j < |order| ==> order[i] != order[j]
  {
    if keys == {} {
      order := [];
    } else {
      var k :| k in keys;
      order := SomeOrder(keys - {k});
      order := order + [k];
    }
  }

  /** An order that visits `key` last. */
  lemma OrderEndingIn(opts: map<string, string>, key: string) returns (order: seq<string>)
    requires key in opts
    ensures IsOrder(order, opts) && order != [] && order[|order| - 1] == key
  {
    order := SomeOrder(opts.Keys - {key});
    order := order + [key];
  }

  lemma LastOptionWins(s: Settings, opts: map<string, string>, order: seq<string>)
    requires IsOrder(order, opts) && order != [] && EffectOf(order[|order| - 1]).Sets?
    requires Overlay(s, opts, order).failed == None
    ensures var key := order[|order| - 1];
            Get(Overlay(s, opts, order).settings, EffectOf(key).field) == Read(EffectOf(key).field, opts[key])
  {
  }

  /** Main result: whether a call fails never depends on the order of the map; and if no
      option is bad, the result is the same for all orders exactly when no two options give
      one field different values. */
  lemma OrderDoesNotMatter(s: Settings, opts: map<string, string>)
    ensures forall order :: IsOrder(order, opts) ==>
              (Overlay(s, opts, order).failed.Some? <==> exists k :: k in opts && Bad(k, opts[k]))
    ensures (forall k :: k in opts ==> !Bad(k, opts[k])) ==>
              ((forall a, b :: IsOrder(a, opts) && IsOrder(b, opts) ==> Overlay(s, opts, a) == Overlay(s, opts, b))
               <==> Agreeing(opts))
  {
    forall order | IsOrder(order, opts)
      ensures Overlay(s, opts, order).failed.Some? <==> exists k :: k in opts && Bad(k, opts[k])
    {
      OverlayAssigns(s, opts, order);
    }
    if forall k :: k in opts ==> !Bad(k, opts[k]) {
      if Agreeing(opts) {
        forall a, b | IsOrder(a, opts) && IsOrder(b, opts) ensures Overlay(s, opts, a) == Overlay(s, opts, b) {
          SameOverlay(s, opts, a, b);
        }
      } else {
        var j, k :| j in opts && k in opts && EffectOf(j).Sets? && EffectOf(j) == EffectOf(k)
                    && Read(EffectOf(j).field, opts[j]) != Read(EffectOf(k).field, opts[k]);
        var a := OrderEndingIn(opts, j);
        var b := OrderEndingIn(opts, k);
        LastOptionWins(s, opts, a);
        LastOptionWins(s, opts, b);
      }
    }
  }

  /** No good option would change these settings. */
  ghost predicate Idle(s: Settings, opts: map<string, string>) {
    forall k :: k in opts && EffectOf(k).Sets? && !Bad(k, opts[k]) ==> Set(s, EffectOf(k).field, opts[k]) == Some(s)
  }

  lemma {:induction false} IdleLeavesNothing(s: Settings, opts: map<string, string>, order: seq<string>)
    requires Idle(s, opts) && forall k :: k in order ==> k in opts
    ensures Overlay(s, opts, order).settings == s
  {
    if order != [] {
      IdleLeavesNothing(s, opts, order[..|order| - 1]);
      assert order[|order| - 1] in opts;
    }
  }

  /** An order that visits some keys first. */
  lemma OrderStarting(opts: map<string, string>, first: seq<string>) returns (order: seq<string>)
    requires forall k :: k in first ==> k in opts
    requires forall i, j :: 0 <= i < j < |first| ==> first[i] != first[j]
    ensures IsOrder(order, opts) && first <= order
  {
    var rest := SomeOrder(opts.Keys - set k | k in first);
    order := first + rest;
    forall i, j | 0 <= i < j < |order| ensures order[i] != order[j] {
      if i < |first| <= j {
        assert order[i] in first && order[j] in rest;
      }
    }
  }

  /** What a call leaves when a bad option comes first. */
  lemma BadFirst(s: Settings, opts: map<string, string>, order: seq<string>)
    requires IsOrder(order, opts) && order != [] && Bad(order[0], opts[order[0]])
    ensures Overlay(s, opts, order)
            == Progress(s, Some(if EffectOf(order[0]).Rejected? then UnknownOption else BadBoolean))
  {
    assert order[..1] == [order[0]] && [order[0]][..0] == [];
    assert Overlay(s, opts, []) == Progress(s, None);
    StopsAt(s, opts, order, 1);
  }

  /** What a call leaves when a bad option comes right after a good one. */
  lemma BadSecond(s: Settings, opts: map<string, string>, order: seq<string>)
    requires IsOrder(order, opts) && |order| >= 2 && EffectOf(order[0]).Sets? && !Bad(order[0], opts[order[0]])
    requires Bad(order[1], opts[order[1]])
    ensures Some(Overlay(s, opts, order).settings) == Set(s, EffectOf(order[0]).field, opts[order[0]])
  {
    assert order[..1] == [order[0]] && [order[0]][..0] == [] && order[..2][..1] == order[..1];
    assert Overlay(s, opts, []) == Progress(s, None);
    StopsAt(s, opts, order, 2);
  }

  /** Main result on failing calls in place: what they leave is the same for all orders of
      the map exactly when it is always the old settings, and that is exactly when no good
      option would change these. */
  lemma FailureIsOrderFree(s: Settings, opts: map<string, string>)
    requires exists k :: k in opts && Bad(k, opts[k])
    ensures (forall a, b :: IsOrder(a, opts) && IsOrder(b, opts)
                            ==> Overlay(s, opts, a).settings == Overlay(s, opts, b).settings) <==> Idle(s, opts)
    ensures (forall a :: IsOrder(a, opts) ==> Overlay(s, opts, a).settings == s) <==> Idle(s, opts)
  {
    if Idle(s, opts) {
      forall a | IsOrder(a, opts) ensures Overlay(s, opts, a).settings == s {
        IdleLeavesNothing(s, opts, a);
      }
    } else {
      var bad :| bad in opts && Bad(bad, opts[bad]);
      var good :| good in opts && EffectOf(good).Sets? && !Bad(good, opts[good])
                  && Set(s, EffectOf(good).field, opts[good]) != Some(s);
      var a := OrderStarting(opts, [bad]);
      var b := OrderStarting(opts, [good, bad]);
      BadFirst(s, opts, a);
      BadSecond(s, opts, b);
    }
  }

  ghost predicate AnyUnknown(opts: map<string, string>) {
    exists k :: k in opts && EffectOf(k).Rejected?
  }

  ghost predicate AnyBadBoolean(opts: map<string, string>) {
    exists k :: k in opts && EffectOf(k).Sets? && Bad(k, opts[k])
  }

  /** An error has a cause among the options, and there is one if there is a cause. */
  lemma {:induction false} ErrorHasCause(s: Settings, opts: map<string, string>, order: seq<string>)
    requires forall k :: k in order ==> k in opts
    ensures match Overlay(s, opts, order).failed
            case None => forall k :: k in order ==> !Bad(k, opts[k])
            case Some(e) => (e == UnknownOption && AnyUnknown(opts)) || (e == BadBoolean && AnyBadBoolean(opts))
  {
    if order != [] {
      var init, key := order[..|order| - 1], order[|order| - 1];
      ErrorHasCause(s, opts, init);
      assert key in opts && forall k :: k in order <==> k in init || k == key;
    }
  }

  /** Main result on the error of a call: it is the same for all orders of the map exactly
      when no unknown option meets a bad boolean. */
  lemma ErrorIsOrderFree(s: Settings, opts: map<string, string>)
    ensures (forall a, b :: IsOrder(a, opts) && IsOrder(b, opts)
                            ==> Overlay(s, opts, a).failed == Overlay(s, opts, b).failed)
            <==> !(AnyUnknown(opts) && AnyBadBoolean(opts))
  {
    if AnyUnknown(opts) && AnyBadBoolean(opts) {
      var j :| j in opts && EffectOf(j).Rejected?;
      var k :| k in opts && EffectOf(k).Sets? && Bad(k, opts[k]);
      var a := OrderStarting(opts, [j]);
      var b := OrderStarting(opts, [k]);
      BadFirst(s, opts, a);
      BadFirst(s, opts, b);
    } else {
      forall a, b | IsOrder(a, opts) && IsOrder(b, opts)
        ensures Overlay(s, opts, a).failed == Overlay(s, opts, b).failed
      {
        ErrorHasCause(s, opts, a);
        ErrorHasCause(s, opts, b);
      }
    }
  }

  /** A failing call without a URI leaves traces that do depend on the order: here the
      token is stored or not. */
  lemma FailureLeavesTraces(s: Settings) returns (opts: map<string, string>, a: seq<string>, b: seq<string>)
    requires s.token != "t"
    ensures IsOrder(a, opts) && IsOrder(b, opts)
    ensures Overlay(s, opts, a).failed.Some? && Overlay(s, opts, b).failed.Some?
    ensures Overlay(s, opts, a).settings != Overlay(s, opts, b).settings
  {
    var token, tls := "adbc.spark.token", TLS_ENABLED;
    opts := map[token := "t", tls := "maybe"];
    a, b := [token, tls], [tls, token];
    assert |token| != |tls|;
    assert EffectOf(token) == Sets(Token) && EffectOf(tls) == Sets(TLS);
    assert ParseBool("maybe") == None;
    assert a[..1] == [token] && b[..1] == [tls] && [token][..0] == [] && [tls][..0] == [];
    assert Overlay(s, opts, []) == Progress(s, None);
    assert Overlay(s, opts, [token]) == Progress(s.(token := "t"), None);
    assert Overlay(s, opts, [tls]) == Progress(s, Some(BadBoolean));
    assert Overlay(s, opts, a) == Progress(s.(token := "t"), Some(BadBoolean));
    assert Overlay(s, opts, b) == Progress(s, Some(BadBoolean));
  }
}
