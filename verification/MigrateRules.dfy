/** The key lists and the reshaping of values that the upgrade uses. */
module MigrateRules {
  import opened JsonValue
  import opened Wrappers
  import opened Migrate
  import Text

  /** Parsing JSON text and URLs: the host of a URL, when it parses and has one. */
  datatype Parsers = Parsers(json: string -> Option<Json>, host: string -> Option<string>)

  const META_KEYS := ["id", "remarks", "groupId", "subId", "coreType"]
  const ENDPOINT_KEYS := ["address", "port"]
  const TRANSPORT_KEYS := [
    "network", "headerType", "host", "path", "wsEarlyData", "wsEarlyDataHeader", "wsHeartbeatPeriod", "wsHeaders",
    "acceptProxyProtocol", "serviceName", "authority", "grpcMode", "grpcIdleTimeout", "grpcHealthCheckTimeout",
    "grpcPingTimeout", "grpcPermitWithoutStream", "grpcInitialWindowsSize", "userAgent", "xhttpMode", "xhttpExtra",
    "kcpSeed", "kcpMtu", "kcpTti", "kcpUplink", "kcpDownlink", "kcpCwndMultiplier", "kcpMaxSendingWindow"]
  const TLS_KEYS := [
    "security", "sni", "disableSni", "fingerprint", "alpn", "allowInsecure", "tlsMinVersion", "tlsMaxVersion",
    "tlsCipherSuites", "tlsCurvePreferences", "cert", "disableSystemRoot", "rejectUnknownSni",
    "enableSessionResumption", "publicKey", "shortId", "spiderX", "ech", "vcn", "pcs", "pqv"]

  const LAYOUT := Layout(META_KEYS, ENDPOINT_KEYS, TRANSPORT_KEYS, TLS_KEYS)

  function FixMeta(meta: map<string, Json>): map<string, Json> {
    var core := Obj(meta).TextOr("coreType", "");
    if core == "xray" || core == "sing-box" then meta else meta["coreType" := Null]
  }

  /** The non-empty parts between commas and line ends, trimmed. */
  function SplitDelimited(s: string): seq<string> {
    NonEmptyTrimmed(Text.SplitOn(s, c => c == ',' || c == '\n'))
  }

  function NonEmptyTrimmed(parts: seq<string>): (r: seq<string>)
    ensures forall i | 0 <= i < |r| :: r[i] != ""
  {
    if parts == [] then []
    else
      var part := Text.Trim(parts[0]);
      (if part == "" then [] else [part]) + NonEmptyTrimmed(parts[1..])
  }

  function Strings(parts: seq<string>): seq<Json> {
    seq(|parts|, i requires 0 <= i < |parts| => Str(parts[i]))
  }

  function CsvToArray(v: Json): Json {
    match v
    case Str(s) => Arr(Strings(SplitDelimited(s)))
    case _ => v
  }

  function FixTls(tls: map<string, Json>): map<string, Json> {
    map k <- tls ::
      if k == "alpn" || k == "tlsCipherSuites" || k == "tlsCurvePreferences" then CsvToArray(tls[k]) else tls[k]
  }

  /** A decimal number below 256, with or without a plus sign. */
  function ParseByte(s: string): Option<nat> {
    var digits := if s != "" && s[0] == '+' then s[1..] else s;
    if digits != "" && Text.AreDigits(digits) && Text.Value(digits) <= 255
    then Some(Text.Value(digits)) else None
  }

  function Bytes(parts: seq<string>): seq<Json> {
    if parts == [] then []
    else
      var byte := ParseByte(parts[0]);
      (if byte.Some? then [Num(byte.value)] else []) + Bytes(parts[1..])
  }

  function ReservedToBytes(v: Json): Json {
    match v
    case Str(s) => Arr(Bytes(SplitDelimited(s)))
    case _ => v
  }

  /** The header map in the old JSON text, its string values only. */
  function WsHeaders(flat: map<string, Json>, parsers: Parsers): Json {
    var raw := Obj(flat).TextOr("wsHeaders", "");
    if Text.IsBlank(raw) then Obj(map[])
    else
      match parsers.json(raw)
      case Some(Obj(m)) => Obj(map k <- m | m[k].Str? :: m[k])
      case _ => Obj(map[])
  }

  /** A field's new name and the flat one it is taken from. */
  type Moves = seq<(string, string)>

  const PLAIN_MOVES: Moves := [("host", "host"), ("path", "path")]

  /** Which fields each network takes, under which name. */
  function MovesOf(kind: string): Moves {
    if kind == "ws" then PLAIN_MOVES + [
      ("earlyData", "wsEarlyData"), ("earlyDataHeader", "wsEarlyDataHeader"),
      ("heartbeatPeriod", "wsHeartbeatPeriod"), ("acceptProxyProtocol", "acceptProxyProtocol")]
    else if kind == "grpc" then [
      ("mode", "grpcMode"), ("idleTimeout", "grpcIdleTimeout"), ("healthCheckTimeout", "grpcHealthCheckTimeout"),
      ("pingTimeout", "grpcPingTimeout"), ("permitWithoutStream", "grpcPermitWithoutStream"),
      ("initialWindowSize", "grpcInitialWindowsSize"), ("userAgent", "userAgent")]
    else if kind == "h2" then PLAIN_MOVES + [("idleTimeout", "grpcIdleTimeout"), ("pingTimeout", "grpcPingTimeout")]
    else if kind == "httpupgrade" then PLAIN_MOVES + [
      ("earlyData", "wsEarlyData"), ("acceptProxyProtocol", "acceptProxyProtocol")]
    else if kind == "xhttp" then PLAIN_MOVES + [("mode", "xhttpMode"), ("extra", "xhttpExtra")]
    else if kind == "kcp" then [
      ("headerType", "headerType"), ("seed", "kcpSeed"), ("mtu", "kcpMtu"), ("tti", "kcpTti"), ("uplink", "kcpUplink"),
      ("downlink", "kcpDownlink"), ("cwndMultiplier", "kcpCwndMultiplier"),
      ("maxSendingWindow", "kcpMaxSendingWindow")]
    else if kind == "quic" then [("headerType", "headerType")]
    else PLAIN_MOVES + [("headerType", "headerType")]
  }

  /** `o` with the first `n` moves made. */
  function PutAll(o: map<string, Json>, moves: Moves, n: nat, flat: map<string, Json>): map<string, Json>
    requires n <= |moves|
  {
    if n == 0 then o
    else
      var before := PutAll(o, moves, n - 1, flat);
      var (key, src) := moves[n - 1];
      if src in flat then before[key := flat[src]] else before
  }

  predicate HasText(flat: map<string, Json>, key: string) {
    Obj(flat).TextOr(key, "") != ""
  }

  /** The first of two fields that holds a non-empty string. */
  function PutFirst(o: map<string, Json>, key: string, flat: map<string, Json>, a: string, b: string)
    : map<string, Json>
  {
    if HasText(flat, a) then o[key := flat[a]]
    else if HasText(flat, b) then o[key := flat[b]]
    else o
  }

  predicate IsNetwork(net: string) {
    net in ["ws", "grpc", "h2", "httpupgrade", "xhttp", "kcp", "quic"]
  }

  /** The network the flat transport names, plain TCP when it names none of them. */
  function KindOf(flat: map<string, Json>): string {
    var net := Obj(flat).TextOr("network", "tcp");
    if IsNetwork(net) then net else "tcp"
  }

  predicate HasHeaders(kind: string) {
    kind == "ws" || kind == "httpupgrade"
  }

  /** What the nested transport holds before the moves. */
  function NestBase(flat: map<string, Json>, parsers: Parsers): map<string, Json> {
    var kind := KindOf(flat);
    var o := map["kind" := Str(kind)];
    if kind == "grpc" then
      PutFirst(PutFirst(o, "serviceName", flat, "serviceName", "path"), "authority", flat, "authority", "host")
    else if HasHeaders(kind) then o["headers" := WsHeaders(flat, parsers)]
    else o
  }

  /** A flat transport, keyed on `network`, as the tagged one. */
  function NestTransport(flat: map<string, Json>, parsers: Parsers): Json {
    var moves := MovesOf(KindOf(flat));
    Obj(PutAll(NestBase(flat, parsers), moves, |moves|, flat))
  }

  /** What an unnamed subscription is called: its host, or all of its URL. */
  function DefaultSubName(url: string, parsers: Parsers): string {
    var trimmed := Text.Trim(url);
    match parsers.host(trimmed)
    case Some(host) => if host != "" then host else trimmed
    case None => trimmed
  }

  /** The user typed the name of this subscription. */
  predicate NamedByHand(sub: map<string, Json>, parsers: Parsers) {
    var remarks := Text.Trim(Obj(sub).TextOr("remarks", ""));
    remarks != "" && remarks != DefaultSubName(Obj(sub).TextOr("url", ""), parsers)
  }

  function SourceRules(parsers: Parsers): Rules {
    Rules(
      LAYOUT,
      m => FixMeta(m),
      m => NestTransport(m, parsers),
      m => FixTls(m),
      v => ReservedToBytes(v),
      m => NamedByHand(m, parsers))
  }

  // ---------- What the rules satisfy ----------

  lemma GroupNamesDiffer()
    ensures "meta" != "endpoint" && "meta" != "transport" && "meta" != "tls" && "meta" != "protocol"
    ensures "endpoint" != "transport" && "endpoint" != "tls" && "endpoint" != "protocol"
    ensures "transport" != "tls" && "transport" != "protocol" && "tls" != "protocol"
    ensures "muxEnabled" != "transport" && "muxEnabled" != "meta" && "muxEnabled" != "protocol" && "muxEnabled" != "tls"
    ensures "muxEnabled" != "endpoint" && "reserved" != "endpoint" && "reserved" != "tls"
    ensures "reserved" != "transport" && "reserved" != "meta" && "reserved" != "protocol" && "reserved" != "muxEnabled"
  {
    assert |"meta"| == 4 && |"endpoint"| == 8 && |"transport"| == 9 && |"tls"| == 3 && |"protocol"| == 8;
    assert |"muxEnabled"| == 10 && |"reserved"| == 8;
    assert "endpoint"[0] == 'e' && "protocol"[0] == 'p' && "reserved"[0] == 'r';
  }

  ghost predicate Lacks(keys: seq<string>, k: string) {
    k !in keys
  }

  /** The names the upgrade itself gives a meaning are in no list. */
  ghost predicate NamesOutside(layout: Layout, k: string) {
    Lacks(layout.meta, k) && Lacks(layout.endpoint, k) && Lacks(layout.transport, k) && Lacks(layout.tls, k)
  }

  ghost predicate Apart(a: seq<string>, b: seq<string>) {
    forall k :: k in a ==> k !in b
  }

  ghost predicate Disjoint(layout: Layout) {
    && Apart(layout.meta, layout.endpoint) && Apart(layout.meta, layout.transport) && Apart(layout.meta, layout.tls)
    && Apart(layout.endpoint, layout.transport) && Apart(layout.endpoint, layout.tls)
    && Apart(layout.transport, layout.tls)
  }

  ghost predicate RulesOk(rules: Rules) {
    && NamesOutside(rules.layout, "meta") && NamesOutside(rules.layout, "endpoint")
    && NamesOutside(rules.layout, "transport") && NamesOutside(rules.layout, "tls")
    && NamesOutside(rules.layout, "protocol") && NamesOutside(rules.layout, "muxEnabled")
    && NamesOutside(rules.layout, "reserved")
    && Disjoint(rules.layout)
    && forall flat :: rules.nest(flat).Has("kind")
  }

  lemma MetaKeysApart()
    ensures forall k :: k in META_KEYS ==> k !in ENDPOINT_KEYS && k !in TRANSPORT_KEYS
  {
  }

  lemma MetaAndTlsKeysApart()
    ensures forall k :: k in META_KEYS ==> k !in TLS_KEYS
  {
  }

  lemma EndpointKeysApart()
    ensures forall k :: k in ENDPOINT_KEYS ==> k !in TRANSPORT_KEYS && k !in TLS_KEYS
  {
  }

  /** First letters and lengths no TLS key shares. */
  ghost predicate ShapedLikeTransport(k: string) {
    k != "" && (
      || k[0] == 'n' || k[0] == 'h' || k[0] == 'w' || k[0] == 'u' || k[0] == 'g' || k[0] == 'x' || k[0] == 'k'
      || (k[0] == 'p' && |k| == 4) || (k[0] == 'a' && (|k| == 19 || |k| == 9)) || (k[0] == 's' && |k| == 11))
  }

  lemma TransportKeysShaped()
    ensures forall k :: k in TRANSPORT_KEYS ==> ShapedLikeTransport(k)
  {
  }

  lemma TlsKeysShapedOtherwise()
    ensures forall k :: k in TLS_KEYS ==> !ShapedLikeTransport(k)
  {
  }

  lemma TransportKeysApart()
    ensures Apart(TRANSPORT_KEYS, TLS_KEYS)
  {
    TransportKeysShaped();
    TlsKeysShapedOtherwise();
  }

  lemma NamesOutsideSmall(k: string)
    requires k in ["meta", "endpoint", "transport", "tls", "protocol", "muxEnabled", "reserved"]
    ensures k !in META_KEYS && k !in ENDPOINT_KEYS
  {
  }

  lemma NamesOutsideTransport(k: string)
    requires k in ["meta", "endpoint", "transport", "tls", "protocol", "muxEnabled", "reserved"]
    ensures k !in TRANSPORT_KEYS
  {
  }

  lemma NamesOutsideTls(k: string)
    requires k in ["meta", "endpoint", "transport", "tls", "protocol", "muxEnabled", "reserved"]
    ensures k !in TLS_KEYS
  {
  }

  lemma NamesAreOutside(k: string)
    requires k in ["meta", "endpoint", "transport", "tls", "protocol", "muxEnabled", "reserved"]
    ensures NamesOutside(LAYOUT, k)
  {
    NamesOutsideSmall(k);
    NamesOutsideTransport(k);
    NamesOutsideTls(k);
  }

  lemma {:induction false} PutAllKeeps(o: map<string, Json>, moves: Moves, n: nat, flat: map<string, Json>, k: string)
    requires n <= |moves| && forall i | 0 <= i < n :: moves[i].0 != k
    ensures var r := PutAll(o, moves, n, flat); (k in r <==> k in o) && (k in o ==> r[k] == o[k])
  {
    if n > 0 {
      PutAllKeeps(o, moves, n - 1, flat, k);
    }
  }

  /** Every network gives its fields different names, and none that is given otherwise. */
  lemma NamesAreApart(kind: string)
    ensures var moves := MovesOf(kind);
            && (forall i, j | 0 <= i < j < |moves| :: moves[i].0 != moves[j].0)
            && (forall i | 0 <= i < |moves| ::
                  && moves[i].0 != "kind" && moves[i].0 != "headers"
                  && moves[i].0 != "serviceName" && moves[i].0 != "authority")
  {
  }

  /** Every network takes a field once, gRPC besides those it chooses between. */
  lemma SourcesAreApart(kind: string)
    ensures var moves := MovesOf(kind);
            && (forall i, j | 0 <= i < j < |moves| :: moves[i].1 != moves[j].1)
            && (forall i | 0 <= i < |moves| :: moves[i].1 != "network" && moves[i].1 != "wsHeaders")
  {
  }

  /** Whatever the flat transport, the nested one is tagged, with the network it
    * named when that is one of the eight, and as plain TCP otherwise. */
  lemma NestedIsTagged(flat: map<string, Json>, parsers: Parsers)
    ensures NestTransport(flat, parsers).Has("kind")
            && NestTransport(flat, parsers).fields["kind"]
               == if "network" in flat && flat["network"].Str?
                     && flat["network"].s in {"ws", "grpc", "h2", "httpupgrade", "xhttp", "kcp", "quic"}
                  then flat["network"] else Str("tcp")
  {
    var moves := MovesOf(KindOf(flat));
    NamesAreApart(KindOf(flat));
    PutAllKeeps(NestBase(flat, parsers), moves, |moves|, flat, "kind");
    assert |"kind"| == 4 && |"headers"| == 7 && |"serviceName"| == 11 && |"authority"| == 9;
  }

  lemma SourceRulesOk(parsers: Parsers)
    ensures RulesOk(SourceRules(parsers))
  {
    MetaKeysApart();
    MetaAndTlsKeysApart();
    EndpointKeysApart();
    TransportKeysApart();
    NamesAreOutside("meta");
    NamesAreOutside("endpoint");
    NamesAreOutside("transport");
    NamesAreOutside("tls");
    NamesAreOutside("protocol");
    NamesAreOutside("muxEnabled");
    NamesAreOutside("reserved");
    forall flat ensures SourceRules(parsers).nest(flat).Has("kind") {
      NestedIsTagged(flat, parsers);
    }
  }
}
