/**
 The wire topics: printed by the Go agent, filtered by the broker, parsed and dispatched by
 the Python worker.
 */
module Topics {
  import opened Options
  import opened Config

  // ---------------------------------------------------------------- printing

  datatype Kind = Telemetry | State | Heartbeat | Event | CommandResponse | CommandRequest

  function Text(k: Kind): string {
    match k
    case Telemetry => "telemetry"
    case State => "state"
    case Heartbeat => "heartbeat"
    case Event => "event"
    case CommandResponse => "command/response"
    case CommandRequest => "command/request"
  }

  function Print(id: string, kind: string): string {
    "gw/" + id + "/" + kind
  }

  // ---------------------------------------------------------------- parsing

  predicate KindChar(c: char) {
    'a' <= c <= 'z' || c == '_' || c == '/'
  }

  predicate KindText(s: string) {
    s != "" && forall i | 0 <= i < |s| :: KindChar(s[i])
  }

  // How many characters precede the first slash.
  function Head(s: string): (n: nat)
    ensures n <= |s|
    ensures forall i | 0 <= i < n :: s[i] != '/'
    ensures n < |s| ==> s[n] == '/'
  {
    if s == "" || s[0] == '/' then 0 else 1 + Head(s[1..])
  }

  // A subject without the newline that ends it, if one does.
  function Chomp(topic: string): string {
    if topic != "" && topic[|topic| - 1] == '\n' then topic[..|topic| - 1] else topic
  }

  // What follows the "gw/" prefix: an id, a slash and a kind.
  function ParseRest(rest: string): Option<(string, string)> {
    var n := Head(rest);
    if n < |rest| && Slug(rest[..n]) && KindText(rest[n + 1..]) then Some((rest[..n], rest[n + 1..])) else None
  }

  // re.match of ^gw/(?P<serial>[A-Za-z0-9_-]+)/(?P<kind>[a-z_/]+)$ ; Python's $ also
  // matches just before a newline that ends the string.
  function Parse(topic: string): Option<(string, string)> {
    var body := Chomp(topic);
    if "gw/" <= body then ParseRest(body[3..]) else None
  }

  lemma {:induction false} HeadOfSlug(id: string, tail: string)
    requires forall i | 0 <= i < |id| :: IdChar(id[i])
    ensures Head(id + "/" + tail) == |id|
  {
    var s := id + "/" + tail;
    if id == "" {
      assert s[0] == '/';
    } else {
      assert s[0] == id[0] && s[1..] == id[1..] + "/" + tail;
      HeadOfSlug(id[1..], tail);
    }
  }

  lemma RestParsesExactly(rest: string, id: string, kind: string)
    ensures ParseRest(rest) == Some((id, kind)) <==> Slug(id) && KindText(kind) && rest == id + "/" + kind
  {
    hide KindText;
    if ParseRest(rest) == Some((id, kind)) {
      assert rest == rest[..|id|] + "/" + rest[|id| + 1..];
    }
    if Slug(id) && rest == id + "/" + kind {
      HeadOfSlug(id, kind);
      assert rest[..|id|] == id && rest[|id| + 1..] == kind;
    }
  }

  lemma ChompUndoes(topic: string, body: string)
    requires body != "" && body[|body| - 1] != '\n'
    ensures Chomp(topic) == body <==> topic == body || topic == body + "\n"
  {
    if topic == body + "\n" {
      assert topic[..|topic| - 1] == body;
    }
    if topic != "" && topic[|topic| - 1] == '\n' {
      assert topic == topic[..|topic| - 1] + "\n";
    }
  }

  lemma PrintedEnd(id: string, kind: string)
    requires KindText(kind)
    ensures var t := Print(id, kind); t != "" && t[|t| - 1] != '\n'
  {
    assert Print(id, kind)[|Print(id, kind)| - 1] == kind[|kind| - 1] && KindChar(kind[|kind| - 1]);
  }

  lemma ParseOfPrint(id: string, kind: string)
    requires Slug(id) && KindText(kind)
    ensures Parse(Print(id, kind)) == Some((id, kind))
  {
    PrintedEnd(id, kind);
    hide Slug, KindText, ParseRest;
    var t := Print(id, kind);
    ChompUndoes(t, t);
    RestParsesExactly(id + "/" + kind, id, kind);
    assert t == "gw/" + (id + "/" + kind) && t[3..] == id + "/" + kind;
  }

  lemma ParsedWasPrinted(topic: string, id: string, kind: string)
    requires Parse(topic) == Some((id, kind))
    ensures Slug(id) && KindText(kind) && Chomp(topic) == Print(id, kind)
  {
    var body := Chomp(topic);
    hide Slug, KindText, ParseRest, Chomp;
    RestParsesExactly(body[3..], id, kind);
    assert body == "gw/" + body[3..];
    assert "gw/" + (id + "/" + kind) == Print(id, kind);
  }

  // The topic names this serial number and kind.
  predicate Addressed(topic: string, serial: string, kind: string) {
    Slug(serial) && KindText(kind) && (topic == Print(serial, kind) || topic == Print(serial, kind) + "\n")
  }

  // The worker recognises exactly the printed topics, with or without a trailing newline.
  lemma ParsesExactly(topic: string, id: string, kind: string)
    ensures Parse(topic) == Some((id, kind)) <==> Addressed(topic, id, kind)
  {
    hide Slug, KindText, ParseRest, Chomp;
    if Slug(id) && KindText(kind) {
      PrintedEnd(id, kind);
      var t := Print(id, kind);
      hide Print;
      ChompUndoes(topic, t);
      ParseOfPrint(id, kind);
      ChompUndoes(t, t);
    }
    if Parse(topic) == Some((id, kind)) {
      ParsedWasPrinted(topic, id, kind);
    }
  }

  // ---------------------------------------------------------------- the broker's filter

  // The levels of a topic name or filter (section 4.7.1 of MQTT 3.1.1).
  function Levels(s: string): (l: seq<string>)
    ensures l != []
    decreases |s|
  {
    var n := Head(s);
    if n == |s| then [s] else [s[..n]] + Levels(s[n + 1..])
  }

  // '#' matches the parent and any number of levels below it, '+' exactly one level.
  predicate Matches(filter: seq<string>, levels: seq<string>) {
    if filter == [] then levels == []
    else if filter[0] == "#" then |filter| == 1
    else levels != [] && (filter[0] == "+" || filter[0] == levels[0]) && Matches(filter[1..], levels[1..])
  }

  const WORKER_FILTER: string := "gw/+/#"

  lemma WorkerFilterLevels()
    ensures Levels(WORKER_FILTER) == ["gw", "+", "#"]
  {
    var f := WORKER_FILTER;
    assert Head("gw/+/#") == 2 by { HeadOfSlug("gw", "+/#"); assert "gw" + "/" + "+/#" == f; }
    assert f[..2] == "gw" && f[3..] == "+/#";
    assert Head("+/#") == 1 by { assert "+/#"[1..] == "/#"; assert "+/#"[0] != '/'; }
    assert "+/#"[..1] == "+" && "+/#"[2..] == "#";
    assert Head("#") == 1 by { assert "#"[1..] == ""; }
  }

  lemma WorkerFilterMeans(levels: seq<string>)
    ensures Matches(["gw", "+", "#"], levels) <==> |levels| >= 2 && levels[0] == "gw"
  {
    var f := ["gw", "+", "#"];
    assert f[1..] == ["+", "#"] && f[1..][1..] == ["#"];
    if levels != [] && levels[1..] != [] {
      assert Matches(["#"], levels[1..][1..]);
    }
  }

  // ---------------------------------------------------------------- end to end

  lemma KindTexts(k: Kind)
    ensures KindText(Text(k))
  {
  }

  lemma TextInjective(a: Kind, b: Kind)
    requires Text(a) == Text(b)
    ensures a == b
  {
    assert |Text(a)| == |Text(b)| && Text(a)[0] == Text(b)[0];
  }

  lemma LevelsUnderPrefix(rest: string)
    ensures Levels("gw/" + rest) == ["gw"] + Levels(rest)
  {
    var t := "gw/" + rest;
    assert t == "gw" + "/" + rest;
    HeadOfSlug("gw", rest);
    assert t[..2] == "gw" && t[3..] == rest;
  }

  // The worker's filter lets through every topic under gw/, so every printed one.
  lemma FilterAdmits(id: string, kind: string)
    ensures Matches(Levels(WORKER_FILTER), Levels(Print(id, kind)))
  {
    var rest := id + "/" + kind;
    assert Print(id, kind) == "gw/" + rest;
    WorkerFilterLevels();
    hide Levels, Print, Head, Matches;
    LevelsUnderPrefix(rest);
    WorkerFilterMeans(["gw"] + Levels(rest));
  }

  // Every topic the agent prints for a validated id passes the worker's filter and parses
  // back to exactly that id and kind.
  lemma RoundTrip(c: Config, k: Kind)
    requires WellFormed(c)
    ensures Matches(Levels(WORKER_FILTER), Levels(Print(c.gatewayId, Text(k))))
    ensures Parse(Print(c.gatewayId, Text(k))) == Some((c.gatewayId, Text(k)))
  {
    KindTexts(k);
    hide Slug, KindText, Parse, Levels, Matches, Print, Text;
    FilterAdmits(c.gatewayId, Text(k));
    ParseOfPrint(c.gatewayId, Text(k));
  }

  // Different gateways or kinds never share a topic.
  lemma NoCollision(id1: string, k1: Kind, id2: string, k2: Kind)
    requires Slug(id1) && Slug(id2) && Print(id1, Text(k1)) == Print(id2, Text(k2))
    ensures id1 == id2 && k1 == k2
  {
    KindTexts(k1);
    KindTexts(k2);
    ParseOfPrint(id1, Text(k1));
    ParseOfPrint(id2, Text(k2));
    TextInjective(k1, k2);
  }

  // ---------------------------------------------------------------- dispatch

  datatype Handler = ToTelemetry | ToState | ToHeartbeat | ToCommandResponse | LogOnly | Unrecognised

  function Dispatch(kind: string): Handler {
    if kind == "telemetry" then ToTelemetry
    else if kind == "state" then ToState
    else if kind == "heartbeat" then ToHeartbeat
    else if kind == "command/response" then ToCommandResponse
    else if kind in ["event", "ota/status", "config/reported"] then LogOnly
    else Unrecognised
  }

  function HandlerOf(k: Kind): Handler {
    match k
    case Telemetry => ToTelemetry
    case State => ToState
    case Heartbeat => ToHeartbeat
    case CommandResponse => ToCommandResponse
    case Event => LogOnly
    case CommandRequest => Unrecognised
  }

  lemma DispatchOfText(k: Kind)
    ensures Dispatch(Text(k)) == HandlerOf(k)
  {
    match k
    case CommandRequest =>
      var long := Text(k);
      assert long[0] == 'c' && |long| == 15;
      assert "config/reported"[1] == 'o' && "config/reported"[2] == 'n' && long[2] == 'm';
    case _ =>
  }

  // Every printed topic reaches the handler written for its kind; the server's own command
  // requests come back through the same filter and reach none.
  lemma DispatchOfPrinted(id: string, k: Kind)
    requires Slug(id)
    ensures var p := Parse(Print(id, Text(k))); p.Some? && Dispatch(p.value.1) == HandlerOf(k)
  {
    KindTexts(k);
    DispatchOfText(k);
    hide Slug, KindText, Parse, Text, Print, Dispatch, HandlerOf;
    ParseOfPrint(id, Text(k));
  }

  // What becomes of a message: `gateways` are the registered serial numbers, `isJson` whether
  // the payload parses.
  datatype Route = Dropped | Routed(gateway: int, handler: Handler)

  function RouteOf(topic: string, gateways: map<string, int>, isJson: bool): Route {
    match Parse(topic)
    case None => Dropped
    case Some((serial, kind)) =>
      if serial !in gateways || !isJson then Dropped else Routed(gateways[serial], Dispatch(kind))
  }

  lemma KnownKinds()
    ensures KindText("telemetry") && KindText("state") && KindText("heartbeat") && KindText("command/response")
    ensures KindText("event") && KindText("ota/status") && KindText("config/reported") && KindText("command/request")
  {
  }

  // The characters of a kind.
  lemma KindTextExactly(s: string)
    ensures KindText(s) <==>
              s != "" && forall i | 0 <= i < |s| :: s[i] in "abcdefghijklmnopqrstuvwxyz" || s[i] in "_/"
  {
    forall i | 0 <= i < |s| ensures KindChar(s[i]) <==> s[i] in "abcdefghijklmnopqrstuvwxyz" || s[i] in "_/" {
      Lower(s[i]);
      Separator(s[i]);
    }
    hide KindChar;
  }

  lemma Separator(c: char)
    ensures c in "_/" <==> c == '_' || c == '/'
  {
    assert "_/"[0] == '_' && "_/"[1] == '/';
  }

  lemma RouteOfPrinted(id: string, kind: string, gateways: map<string, int>, isJson: bool)
    requires Slug(id) && KindText(kind)
    ensures RouteOf("gw/" + id + "/" + kind, gateways, isJson) ==
              if id in gateways && isJson then Routed(gateways[id], Dispatch(kind)) else Dropped
  {
    hide Slug, KindText, Parse, Dispatch;
    ParseOfPrint(id, kind);
  }

  lemma DispatchWords()
    ensures Dispatch("telemetry") == ToTelemetry && Dispatch("state") == ToState && Dispatch("heartbeat") == ToHeartbeat
    ensures Dispatch("command/response") == ToCommandResponse
    ensures Dispatch("event") == LogOnly && Dispatch("ota/status") == LogOnly && Dispatch("config/reported") == LogOnly
    ensures Dispatch("command/request") == Unrecognised
  {
    DispatchOfText(Telemetry);
    DispatchOfText(State);
    DispatchOfText(Heartbeat);
    DispatchOfText(CommandResponse);
    DispatchOfText(Event);
    DispatchOfText(CommandRequest);
    var ota, conf := "ota/status", "config/reported";
    assert ota[0] == 'o' && conf[0] == 'c' && conf[1] == 'o' && conf[2] == 'n' && "command/response"[2] == 'm';
  }

  // The routes of a registered gateway, topic by topic.
  lemma Routes(id: string, gateways: map<string, int>)
    requires Slug(id) && id in gateways
    ensures RouteOf("gw/" + id + "/telemetry", gateways, true) == Routed(gateways[id], ToTelemetry)
    ensures RouteOf("gw/" + id + "/state", gateways, true) == Routed(gateways[id], ToState)
    ensures RouteOf("gw/" + id + "/heartbeat", gateways, true) == Routed(gateways[id], ToHeartbeat)
    ensures RouteOf("gw/" + id + "/command/response", gateways, true) == Routed(gateways[id], ToCommandResponse)
    ensures RouteOf("gw/" + id + "/event", gateways, true) == Routed(gateways[id], LogOnly)
    ensures RouteOf("gw/" + id + "/ota/status", gateways, true) == Routed(gateways[id], LogOnly)
    ensures RouteOf("gw/" + id + "/config/reported", gateways, true) == Routed(gateways[id], LogOnly)
    ensures RouteOf("gw/" + id + "/command/request", gateways, true) == Routed(gateways[id], Unrecognised)
  {
    KnownKinds();
    DispatchWords();
    hide Slug, KindText, RouteOf, Dispatch;
    TopicRoute(id, "/telemetry", "telemetry", gateways);
    TopicRoute(id, "/state", "state", gateways);
    TopicRoute(id, "/heartbeat", "heartbeat", gateways);
    TopicRoute(id, "/command/response", "command/response", gateways);
    TopicRoute(id, "/event", "event", gateways);
    TopicRoute(id, "/ota/status", "ota/status", gateways);
    TopicRoute(id, "/config/reported", "config/reported", gateways);
    TopicRoute(id, "/command/request", "command/request", gateways);
  }

  lemma TopicRoute(id: string, tail: string, kind: string, gateways: map<string, int>)
    requires Slug(id) && KindText(kind) && id in gateways && tail == "/" + kind
    ensures RouteOf("gw/" + id + tail, gateways, true) == Routed(gateways[id], Dispatch(kind))
  {
    RouteOfPrinted(id, kind, gateways, true);
    assert "gw/" + id + tail == "gw/" + id + "/" + kind;
    hide RouteOf, Dispatch, Slug, KindText;
  }

  // A message is handled for a gateway exactly when its topic is one printed for a serial
  // number registered to that gateway, and its payload is JSON.
  lemma RoutedExactlyWhen(topic: string, gateways: map<string, int>, isJson: bool, gateway: int, handler: Handler)
    ensures RouteOf(topic, gateways, isJson) == Routed(gateway, handler) <==>
              isJson && exists serial, kind :: Addressed(topic, serial, kind)
                          && serial in gateways && gateways[serial] == gateway && Dispatch(kind) == handler
  {
    hide Slug, KindText, Dispatch;
    if RouteOf(topic, gateways, isJson) == Routed(gateway, handler) {
      var (serial, kind) := Parse(topic).value;
      ParsesExactly(topic, serial, kind);
      assert Addressed(topic, serial, kind);
    }
    forall serial, kind | Addressed(topic, serial, kind) ensures Parse(topic) == Some((serial, kind)) {
      ParsesExactly(topic, serial, kind);
    }
  }
}
