/** Keeping a core's own sockets off the tun: each outbound with a socket of
  * its own is bound to the uplink (or marked), and an outbound that only
  * reaches a relay on this device keeps loopback reachability. */
module OutboundBind {
  import opened JsonValue
  import opened Wrappers
  import Text

  type Fields = map<string, Json>

  // ---------- Which addresses are on this device ----------

  datatype Family = V4 | V6 | Both

  /** The loopback family of an IP literal; `None` for other literals and names. */
  type IpParser = string -> Option<Family>

  function Before(s: string, c: char): string {
    if s == "" || s[0] == c then "" else [s[0]] + Before(s[1..], c)
  }

  function Count(s: string, c: char): nat {
    if s == "" then 0 else (if s[0] == c then 1 else 0) + Count(s[1..], c)
  }

  /** An address without brackets and port; one with several colons is taken whole. */
  function HostOf(addr: string): string {
    if addr != "" && addr[0] == '[' then Before(addr[1..], ']')
    else if Count(addr, ':') == 1 then Before(addr, ':')
    else addr
  }

  function LoopbackFamily(addr: string, ips: IpParser): Option<Family> {
    var host := HostOf(addr);
    if Text.Lower(host) == "localhost" then Some(Both) else ips(host)
  }

  predicate DialsOnlyLoopback(servers: seq<string>, ips: IpParser) {
    servers != [] && forall i | 0 <= i < |servers| :: LoopbackFamily(servers[i], ips).Some?
  }

  /** The texts at `key` of the objects in an array. */
  function TextsAt(items: seq<Json>, key: string): seq<string> {
    if items == [] then []
    else (if items[0].Has(key) && items[0].fields[key].Str? then [items[0].fields[key].s] else [])
         + TextsAt(items[1..], key)
  }

  function ArrayAt(m: Fields, key: string): seq<Json> {
    if key in m && m[key].Arr? then m[key].items else []
  }

  function TextAt(m: Fields, key: string): seq<string> {
    if key in m && m[key].Str? then [m[key].s] else []
  }

  // ---------- sing-box ----------

  datatype Uplink = Uplink(v4: Option<string>, v6: Option<string>)

  predicate OpensNoSocket(kind: string) {
    kind == "" || kind == "block" || kind == "selector" || kind == "urltest"
  }

  function SingBoxServers(ob: Fields): seq<string> {
    TextAt(ob, "server") + TextsAt(ArrayAt(ob, "peers"), "address")
  }

  /** The object dials a socket of its own. */
  predicate Dials(ob: Fields) {
    !OpensNoSocket(Obj(ob).TextOr("type", "")) && Obj(ob).TextOr("detour", "") == ""
  }

  predicate OnlyLoopback(ob: Fields, ips: IpParser) {
    DialsOnlyLoopback(SingBoxServers(ob), ips)
  }

  function WithText(m: Fields, key: string, text: Option<string>): Fields {
    if text.Some? then m[key := Str(text.value)] else m
  }

  const INTERFACE := "bind_interface"
  const INET4 := "inet4_bind_address"
  const INET6 := "inet6_bind_address"

  function Bound(ob: Fields, iface: string, source: Uplink, ips: IpParser): Fields {
    if Dials(ob) && !OnlyLoopback(ob, ips)
    then WithText(WithText(ob[INTERFACE := Str(iface)], INET4, source.v4), INET6, source.v6)
    else ob
  }

  predicate NamesFamily(servers: seq<string>, ips: IpParser, other: Family) {
    exists i | 0 <= i < |servers| :: LoopbackFamily(servers[i], ips).Some?
            && LoopbackFamily(servers[i], ips).value != other
  }

  function Preserved(ob: Fields, ips: IpParser): Fields {
    if Dials(ob) && OnlyLoopback(ob, ips) then
      var servers := SingBoxServers(ob);
      var v4 := if NamesFamily(servers, ips, V6) then ob[INET4 := Str("127.0.0.1")] else ob;
      if NamesFamily(servers, ips, V4) then v4[INET6 := Str("::1")] else v4
    else ob
  }

  lemma BindKeysAreApart()
    ensures INTERFACE != "type" && INTERFACE != "detour" && INTERFACE != "server" && INTERFACE != "peers"
            && INTERFACE != "tag"
    ensures INET4 != "type" && INET4 != "detour" && INET4 != "server" && INET4 != "peers" && INET4 != "tag"
    ensures INET6 != "type" && INET6 != "detour" && INET6 != "server" && INET6 != "peers" && INET6 != "tag"
    ensures INTERFACE != INET4 && INTERFACE != INET6 && INET4 != INET6
  {
    assert |INTERFACE| == 14 && |INET4| == 18 && |INET6| == 18;
    assert INET4[4] == '4' && INET6[4] == '6';
    assert |"type"| == 4 && |"detour"| == 6 && |"server"| == 6 && |"peers"| == 5 && |"tag"| == 3;
  }

  /** The fields that decide how an object dials, and the name others dial it by. */
  ghost predicate SameDial(a: Fields, b: Fields) {
    forall k | k == "type" || k == "detour" || k == "server" || k == "peers" || k == "tag" ::
      (k in a <==> k in b) && (k in a ==> a[k] == b[k])
  }

  lemma SameDialSame(a: Fields, b: Fields, ips: IpParser)
    requires SameDial(a, b)
    ensures Dials(a) == Dials(b) && SingBoxServers(a) == SingBoxServers(b)
            && OnlyLoopback(a, ips) == OnlyLoopback(b, ips)
    ensures Obj(a).TextOr("tag", "") == Obj(b).TextOr("tag", "")
            && Obj(a).TextOr("detour", "") == Obj(b).TextOr("detour", "")
    ensures Obj(a).TextOr("type", "") == Obj(b).TextOr("type", "")
  {
    assert forall k | k == "type" || k == "detour" || k == "tag" :: Obj(a).TextOr(k, "") == Obj(b).TextOr(k, "");
    assert TextAt(a, "server") == TextAt(b, "server") && ArrayAt(a, "peers") == ArrayAt(b, "peers");
  }

  lemma BindKeepsDial(ob: Fields, iface: string, source: Uplink, ips: IpParser)
    ensures SameDial(Bound(ob, iface, source, ips), ob)
  {
    BindKeysAreApart();
  }

  lemma PreserveKeepsDial(ob: Fields, ips: IpParser)
    ensures SameDial(Preserved(ob, ips), ob)
  {
    BindKeysAreApart();
  }

  lemma PassesKeepDial(ob: Fields, iface: string, source: Uplink, ips: IpParser)
    ensures SameDial(Bound(ob, iface, source, ips), ob) && SameDial(Preserved(ob, ips), ob)
  {
    BindKeepsDial(ob, iface, source, ips);
    PreserveKeepsDial(ob, ips);
  }

  /** The two passes act on different objects, so their order does not matter and
    * a second run changes nothing. */
  lemma PassesCommute(ob: Fields, iface: string, source: Uplink, ips: IpParser)
    ensures Bound(Preserved(ob, ips), iface, source, ips) == Preserved(Bound(ob, iface, source, ips), ips)
    ensures Bound(Bound(ob, iface, source, ips), iface, source, ips) == Bound(ob, iface, source, ips)
    ensures Preserved(Preserved(ob, ips), ips) == Preserved(ob, ips)
  {
    PassesKeepDial(ob, iface, source, ips);
    SameDialSame(Bound(ob, iface, source, ips), ob, ips);
    SameDialSame(Preserved(ob, ips), ob, ips);
  }

  ghost predicate IsBoundTo(ob: Fields, iface: string) {
    INTERFACE in ob && ob[INTERFACE] == Str(iface)
  }

  /** The egress of an object that dials for itself is settled. */
  ghost predicate EgressSettled(ob: Fields, iface: string, ips: IpParser) {
    OpensNoSocket(Obj(ob).TextOr("type", "")) || OnlyLoopback(ob, ips) || IsBoundTo(ob, iface)
  }

  // ---------- The whole sing-box config ----------

  function ObjectBound(v: Json, iface: string, source: Uplink, ips: IpParser): Json {
    match v case Obj(m) => Obj(Bound(m, iface, source, ips)) case _ => v
  }

  function ObjectPreserved(v: Json, ips: IpParser): Json {
    match v case Obj(m) => Obj(Preserved(m, ips)) case _ => v
  }

  const OUTBOUNDS := "outbounds"
  const ENDPOINTS := "endpoints"

  function Binder(iface: string, source: Uplink, ips: IpParser): Json -> Json {
    v => ObjectBound(v, iface, source, ips)
  }

  ghost function BoundConfig(cfg: Json, iface: string, source: Uplink, ips: IpParser): Json {
    var f := Binder(iface, source, ips);
    EachItem(EachItem(cfg, OUTBOUNDS, f), ENDPOINTS, f)
  }

  ghost function PreservedConfig(cfg: Json, ips: IpParser): Json {
    var f := v => ObjectPreserved(v, ips);
    EachItem(EachItem(cfg, OUTBOUNDS, f), ENDPOINTS, f)
  }

  class Config {
    var value: Json

    constructor (v: Json)
      ensures value == v
    {
      value := v;
    }

    /** Rewrite the array at `key` in place. */
    method MapArray(key: string, f: Json -> Json)
      modifies this
      ensures value == EachItem(old(value), key, f)
    {
      if !value.Has(key) || !value.fields[key].Arr? {
        return;
      }
      var items := value.fields[key].items;
      ghost var was := items;
      for i := 0 to |items|
        invariant |items| == |was|
        invariant forall j | 0 <= j < i :: items[j] == f(was[j])
        invariant forall j | i <= j < |was| :: items[j] == was[j]
        invariant value == old(value)
      {
        items := items[i := f(items[i])];
      }
      assert items == Mapped(was, f);
      value := Obj(value.fields[key := Arr(items)]);
    }

    method BindSingBoxOutbounds(iface: string, source: Uplink, ips: IpParser)
      modifies this
      ensures value == BoundConfig(old(value), iface, source, ips)
    {
      MapArray(OUTBOUNDS, Binder(iface, source, ips));
      MapArray(ENDPOINTS, Binder(iface, source, ips));
    }

    method PreserveLoopbackSingBoxEgress(ips: IpParser)
      modifies this
      ensures value == PreservedConfig(old(value), ips)
    {
      MapArray(OUTBOUNDS, v => ObjectPreserved(v, ips));
      MapArray(ENDPOINTS, v => ObjectPreserved(v, ips));
    }
  }

  /** The objects of both arrays. */
  ghost function Objects(cfg: Json): seq<Json> {
    if cfg.Obj? then ArrayAt(cfg.fields, OUTBOUNDS) + ArrayAt(cfg.fields, ENDPOINTS) else []
  }

  lemma ArrayKeysDiffer()
    ensures OUTBOUNDS != ENDPOINTS
  {
    assert OUTBOUNDS[0] == 'o' && ENDPOINTS[0] == 'e';
  }

  lemma ObjectsMapped(cfg: Json, f: Json -> Json)
    ensures Objects(EachItem(EachItem(cfg, OUTBOUNDS, f), ENDPOINTS, f)) == Mapped(Objects(cfg), f)
  {
    ArrayKeysDiffer();
  }

  /** Binding and preserving commute on whole configs. */
  lemma ConfigPassesCommute(cfg: Json, iface: string, source: Uplink, ips: IpParser)
    ensures BoundConfig(PreservedConfig(cfg, ips), iface, source, ips)
            == PreservedConfig(BoundConfig(cfg, iface, source, ips), ips)
  {
    ArrayKeysDiffer();
    var f, g := Binder(iface, source, ips), v => ObjectPreserved(v, ips);
    forall v ensures f(g(v)) == g(f(v)) {
      if v.Obj? {
        PassesCommute(v.fields, iface, source, ips);
      }
    }
    MapsCommute(cfg, f, g);
  }

  lemma MapsCommute(cfg: Json, f: Json -> Json, g: Json -> Json)
    requires forall v :: f(g(v)) == g(f(v))
    ensures EachItem(EachItem(EachItem(EachItem(cfg, OUTBOUNDS, g), ENDPOINTS, g), OUTBOUNDS, f), ENDPOINTS, f)
         == EachItem(EachItem(EachItem(EachItem(cfg, OUTBOUNDS, f), ENDPOINTS, f), OUTBOUNDS, g), ENDPOINTS, g)
  {
    ArrayKeysDiffer();
    OtherKeysCommute(EachItem(cfg, OUTBOUNDS, g), g, f, ENDPOINTS, OUTBOUNDS);
    OtherKeysCommute(EachItem(cfg, OUTBOUNDS, f), f, g, ENDPOINTS, OUTBOUNDS);
    SameKeyCommutes(cfg, f, g, OUTBOUNDS);
    SameKeyCommutes(EachItem(EachItem(cfg, OUTBOUNDS, g), OUTBOUNDS, f), f, g, ENDPOINTS);
  }

  lemma OtherKeysCommute(cfg: Json, f: Json -> Json, g: Json -> Json, a: string, b: string)
    requires a != b
    ensures EachItem(EachItem(cfg, a, f), b, g) == EachItem(EachItem(cfg, b, g), a, f)
  {
    if cfg.Has(a) && cfg.fields[a].Arr? && cfg.Has(b) && cfg.fields[b].Arr? {
      var x, y := Arr(Mapped(cfg.fields[a].items, f)), Arr(Mapped(cfg.fields[b].items, g));
      assert cfg.fields[a := x][b := y] == cfg.fields[b := y][a := x];
    }
  }

  lemma SameKeyCommutes(cfg: Json, f: Json -> Json, g: Json -> Json, key: string)
    requires forall v :: f(g(v)) == g(f(v))
    ensures EachItem(EachItem(cfg, key, f), key, g) == EachItem(EachItem(cfg, key, g), key, f)
  {
    if cfg.Has(key) && cfg.fields[key].Arr? {
      var items := cfg.fields[key].items;
      assert Mapped(Mapped(items, f), g) == Mapped(Mapped(items, g), f);
      assert cfg.fields[key := Arr(Mapped(items, f))][key := Arr(Mapped(Mapped(items, f), g))]
          == cfg.fields[key := Arr(Mapped(items, g))][key := Arr(Mapped(Mapped(items, g), f))];
    }
  }

  // ---------- Following detours ----------

  ghost function Tag(v: Json): string {
    v.TextOr("tag", "")
  }

  ghost function Detour(v: Json): string {
    v.TextOr("detour", "")
  }

  /** Each object dials through the next, and the last one dials for itself. */
  ghost predicate DetourPath(objects: seq<Json>, path: seq<Json>) {
    && path != []
    && (forall i | 0 <= i < |path| :: path[i] in objects && path[i].Obj?)
    && (forall i | 0 <= i < |path| - 1 :: Detour(path[i]) != "" && Tag(path[i + 1]) == Detour(path[i]))
    && Detour(path[|path| - 1]) == ""
  }

  /** Every detour names an object, one of lower rank: detours resolve and do not loop. */
  ghost predicate DetoursResolve(objects: seq<Json>, rank: Json -> nat) {
    forall v <- objects | v.Obj? && Detour(v) != "" ::
      exists w <- objects :: w.Obj? && Tag(w) == Detour(v) && rank(w) < rank(v)
  }

  /** From every object the detours lead to one that dials for itself. */
  lemma {:induction false} DetoursEnd(objects: seq<Json>, rank: Json -> nat, v: Json) returns (path: seq<Json>)
    requires DetoursResolve(objects, rank) && v in objects && v.Obj?
    ensures DetourPath(objects, path) && path[0] == v
    decreases rank(v)
  {
    if Detour(v) == "" {
      path := [v];
    } else {
      var w :| w in objects && w.Obj? && Tag(w) == Detour(v) && rank(w) < rank(v);
      var rest := DetoursEnd(objects, rank, w);
      path := [v] + rest;
    }
  }

  lemma BindKeepsLinks(v: Json, iface: string, source: Uplink, ips: IpParser)
    requires v.Obj?
    ensures var w := ObjectBound(v, iface, source, ips); w.Obj? && Tag(w) == Tag(v) && Detour(w) == Detour(v)
  {
    BindKeepsDial(v.fields, iface, source, ips);
    SameDialSame(Bound(v.fields, iface, source, ips), v.fields, ips);
  }

  lemma DialingIsSettled(ob: Fields, iface: string, source: Uplink, ips: IpParser)
    requires Obj(ob).TextOr("detour", "") == ""
    ensures EgressSettled(Bound(ob, iface, source, ips), iface, ips)
  {
    BindKeysAreApart();
    BindKeepsDial(ob, iface, source, ips);
    SameDialSame(Bound(ob, iface, source, ips), ob, ips);
  }

  /** `f` changes neither what an object is called nor what it dials through. */
  ghost predicate KeepsLinks(f: Json -> Json) {
    forall v: Json {:trigger f(v)} ::
      f(v).Obj? == v.Obj? && (v.Obj? ==> Tag(f(v)) == Tag(v) && Detour(f(v)) == Detour(v))
  }

  lemma BinderKeepsLinks(iface: string, source: Uplink, ips: IpParser)
    ensures KeepsLinks(Binder(iface, source, ips))
  {
    var f := Binder(iface, source, ips);
    forall v: Json | v.Obj? ensures f(v).Obj? && Tag(f(v)) == Tag(v) && Detour(f(v)) == Detour(v) {
      BindKeepsLinks(v, iface, source, ips);
    }
  }

  lemma PathMapped(objects: seq<Json>, path: seq<Json>, f: Json -> Json)
    requires DetourPath(objects, path)
    requires KeepsLinks(f)
    ensures DetourPath(Mapped(objects, f), Mapped(path, f))
  {
    var q := Mapped(path, f);
    forall i | 0 <= i < |path|
      ensures q[i] in Mapped(objects, f) && q[i].Obj? && Tag(q[i]) == Tag(path[i]) && Detour(q[i]) == Detour(path[i])
    {
      assert q[i] == f(path[i]);
      MappedHas(objects, path[i], f);
    }
  }

  lemma MappedHas(objects: seq<Json>, v: Json, f: Json -> Json)
    requires v in objects
    ensures f(v) in Mapped(objects, f)
  {
    var j :| 0 <= j < |objects| && objects[j] == v;
    assert Mapped(objects, f)[j] == f(v);
  }

  /** A path of mapped objects is the image of a path of the objects. */
  lemma PathUnmapped(objects: seq<Json>, path: seq<Json>, f: Json -> Json) returns (was: seq<Json>)
    requires DetourPath(Mapped(objects, f), path) && KeepsLinks(f)
    ensures DetourPath(objects, was) && Mapped(was, f) == path
  {
    was := Preimages(objects, path, f, |path|);
    forall i | 0 <= i < |path| ensures was[i].Obj? && Tag(was[i]) == Tag(path[i]) && Detour(was[i]) == Detour(path[i]) {
      assert f(was[i]) == path[i];
    }
  }

  lemma {:induction false} Preimages(objects: seq<Json>, path: seq<Json>, f: Json -> Json, n: nat)
    returns (was: seq<Json>)
    requires n <= |path| && forall i | 0 <= i < |path| :: path[i] in Mapped(objects, f)
    ensures |was| == n && forall i | 0 <= i < n :: was[i] in objects && f(was[i]) == path[i]
  {
    if n == 0 {
      was := [];
    } else {
      was := Preimages(objects, path, f, n - 1);
      var j :| 0 <= j < |objects| && Mapped(objects, f)[j] == path[n - 1];
      was := was + [objects[j]];
    }
  }

  /** The paths of detours in a bound config are the bound paths of the config. */
  lemma PathsAreTheBoundPaths(cfg: Json, iface: string, source: Uplink, ips: IpParser, path: seq<Json>)
    ensures DetourPath(Objects(BoundConfig(cfg, iface, source, ips)), path)
            <==> exists was :: DetourPath(Objects(cfg), was) && Mapped(was, Binder(iface, source, ips)) == path
  {
    var f := Binder(iface, source, ips);
    ObjectsMapped(cfg, f);
    BinderKeepsLinks(iface, source, ips);
    if DetourPath(Objects(BoundConfig(cfg, iface, source, ips)), path) {
      var was := PathUnmapped(Objects(cfg), path, f);
    }
    if was :| DetourPath(Objects(cfg), was) && Mapped(was, f) == path {
      PathMapped(Objects(cfg), was, f);
    }
  }

  /** In a bound config every path of detours ends at an object whose traffic is bound to
    * the uplink, stays on this device, or opens no socket. */
  lemma EgressNeverReentersTun(cfg: Json, iface: string, source: Uplink, ips: IpParser, path: seq<Json>)
    requires DetourPath(Objects(BoundConfig(cfg, iface, source, ips)), path)
    ensures path[|path| - 1].Obj? && EgressSettled(path[|path| - 1].fields, iface, ips)
  {
    PathsAreTheBoundPaths(cfg, iface, source, ips, path);
    var was :| DetourPath(Objects(cfg), was) && Mapped(was, Binder(iface, source, ips)) == path;
    LastIsSettled(was, iface, source, ips);
  }

  lemma LastIsSettled(was: seq<Json>, iface: string, source: Uplink, ips: IpParser)
    requires was != [] && was[|was| - 1].Obj? && Detour(was[|was| - 1]) == ""
    ensures var last := Mapped(was, Binder(iface, source, ips))[|was| - 1];
            last.Obj? && EgressSettled(last.fields, iface, ips)
  {
    var last := was[|was| - 1];
    assert Mapped(was, Binder(iface, source, ips))[|was| - 1] == ObjectBound(last, iface, source, ips);
    DialingIsSettled(last.fields, iface, source, ips);
  }

  /** With detours that resolve and do not loop, every object of the bound config leads
    * along them to such an end. */
  lemma EveryObjectLeavesTheTun(cfg: Json, rank: Json -> nat, iface: string, source: Uplink, ips: IpParser, v: Json)
    returns (path: seq<Json>)
    requires DetoursResolve(Objects(cfg), rank) && v in Objects(BoundConfig(cfg, iface, source, ips)) && v.Obj?
    ensures DetourPath(Objects(BoundConfig(cfg, iface, source, ips)), path) && path[0] == v
    ensures path[|path| - 1].Obj? && EgressSettled(path[|path| - 1].fields, iface, ips)
  {
    var f := Binder(iface, source, ips);
    ObjectsMapped(cfg, f);
    BinderKeepsLinks(iface, source, ips);
    var i :| 0 <= i < |Objects(cfg)| && Mapped(Objects(cfg), f)[i] == v;
    var was := DetoursEnd(Objects(cfg), rank, Objects(cfg)[i]);
    path := Mapped(was, f);
    PathMapped(Objects(cfg), was, f);
    EgressNeverReentersTun(cfg, iface, source, ips, path);
  }

  /** The object's own server, or that of one of its peers. */
  ghost predicate IsServer(ob: Fields, s: string) {
    || ("server" in ob && ob["server"] == Str(s))
    || ("peers" in ob && ob["peers"].Arr?
        && exists p <- ob["peers"].items :: p.Has("address") && p.fields["address"] == Str(s))
  }

  lemma {:induction false} TextsAre(items: seq<Json>, key: string, s: string)
    ensures s in TextsAt(items, key) <==> exists v <- items :: v.Has(key) && v.fields[key] == Str(s)
  {
    if items != [] {
      TextsAre(items[1..], key, s);
      assert items == [items[0]] + items[1..];
    }
  }

  lemma ServersAre(ob: Fields, s: string)
    ensures s in SingBoxServers(ob) <==> IsServer(ob, s)
  {
    TextsAre(ArrayAt(ob, "peers"), "address", s);
  }

  lemma OnlyLoopbackExactly(ob: Fields, ips: IpParser)
    ensures OnlyLoopback(ob, ips)
            <==> (exists s :: IsServer(ob, s)) && forall s | IsServer(ob, s) :: LoopbackFamily(s, ips).Some?
  {
    var servers := SingBoxServers(ob);
    forall s ensures s in servers <==> IsServer(ob, s) {
      ServersAre(ob, s);
    }
    if servers != [] {
      assert IsServer(ob, servers[0]);
    }
    forall i | 0 <= i < |servers| ensures IsServer(ob, servers[i]) {
      assert servers[i] in servers;
    }
  }

  /** The object has a type that opens sockets and no detour. */
  predicate OpensOwnSocket(ob: Fields) {
    && "type" in ob && ob["type"].Str? && ob["type"].s !in ["", "block", "selector", "urltest"]
    && !("detour" in ob && ob["detour"].Str? && ob["detour"].s != "")
  }

  /** It names servers, and all of them are on this device. */
  ghost predicate StaysHere(ob: Fields, ips: IpParser) {
    (exists s :: IsServer(ob, s)) && forall s | IsServer(ob, s) :: LoopbackFamily(s, ips).Some?
  }

  /** Some server on this device is of the family, or of both. */
  ghost predicate ServesFamily(ob: Fields, ips: IpParser, family: Family) {
    exists s :: IsServer(ob, s) && (LoopbackFamily(s, ips) == Some(family) || LoopbackFamily(s, ips) == Some(Both))
  }

  /** `to` has `text` at `key` where there is one, and what `from` has otherwise. */
  ghost predicate HasTextOrKeeps(from: Fields, to: Fields, key: string, text: Option<string>) {
    if text.Some? then key in to && to[key] == Str(text.value)
    else (key in to <==> key in from) && (key in from ==> to[key] == from[key])
  }

  lemma DialsExactly(ob: Fields, ips: IpParser)
    ensures Dials(ob) <==> OpensOwnSocket(ob)
    ensures OnlyLoopback(ob, ips) <==> StaysHere(ob, ips)
  {
    OnlyLoopbackExactly(ob, ips);
  }

  /** `to` differs from `from` in the three keys of a bind alone: the interface, and the
    * uplink's address of each family under the family's key. */
  ghost predicate GainsUplink(from: Fields, to: Fields, iface: string, source: Uplink) {
    && "bind_interface" in to && to["bind_interface"] == Str(iface)
    && HasTextOrKeeps(from, to, "inet4_bind_address", source.v4)
    && HasTextOrKeeps(from, to, "inet6_bind_address", source.v6)
    && forall k | k != "bind_interface" && k != "inet4_bind_address" && k != "inet6_bind_address" ::
         HasTextOrKeeps(from, to, k, None)
  }

  lemma BindWrites(ob: Fields, iface: string, source: Uplink, ips: IpParser)
    requires Dials(ob) && !OnlyLoopback(ob, ips)
    ensures GainsUplink(ob, Bound(ob, iface, source, ips), iface, source)
  {
    BindKeysAreApart();
  }

  /** Binding changes an object exactly when it has a type that opens sockets, no detour, and
    * not only servers on this device; one that names no server is bound too. */
  lemma BoundExactly(ob: Fields, iface: string, source: Uplink, ips: IpParser)
    ensures if OpensOwnSocket(ob) && !StaysHere(ob, ips)
            then GainsUplink(ob, Bound(ob, iface, source, ips), iface, source)
            else Bound(ob, iface, source, ips) == ob
  {
    DialsExactly(ob, ips);
    if Dials(ob) && !OnlyLoopback(ob, ips) {
      BindWrites(ob, iface, source, ips);
    }
  }

  lemma FamilyExactly(ob: Fields, ips: IpParser)
    ensures NamesFamily(SingBoxServers(ob), ips, V6) <==> ServesFamily(ob, ips, V4)
    ensures NamesFamily(SingBoxServers(ob), ips, V4) <==> ServesFamily(ob, ips, V6)
  {
    var servers := SingBoxServers(ob);
    forall s ensures s in servers <==> IsServer(ob, s) {
      ServersAre(ob, s);
    }
    if s :| IsServer(ob, s) && (LoopbackFamily(s, ips) == Some(V4) || LoopbackFamily(s, ips) == Some(Both)) {
      assert s in servers;
    }
    if s :| IsServer(ob, s) && (LoopbackFamily(s, ips) == Some(V6) || LoopbackFamily(s, ips) == Some(Both)) {
      assert s in servers;
    }
    forall i | 0 <= i < |servers| ensures IsServer(ob, servers[i]) {
      assert servers[i] in servers;
    }
  }

  /** `to` differs from `from` in the two source addresses alone: the loopback address of
    * each family that is served. */
  ghost predicate GainsLoopback(from: Fields, to: Fields, v4: bool, v6: bool) {
    && HasTextOrKeeps(from, to, "inet4_bind_address", if v4 then Some("127.0.0.1") else None)
    && HasTextOrKeeps(from, to, "inet6_bind_address", if v6 then Some("::1") else None)
    && forall k | k != "inet4_bind_address" && k != "inet6_bind_address" :: HasTextOrKeeps(from, to, k, None)
  }

  lemma PreserveWrites(ob: Fields, ips: IpParser)
    requires Dials(ob) && OnlyLoopback(ob, ips)
    ensures var servers := SingBoxServers(ob);
            GainsLoopback(ob, Preserved(ob, ips), NamesFamily(servers, ips, V6), NamesFamily(servers, ips, V4))
  {
    BindKeysAreApart();
  }

  /** Preserving changes an object exactly when it opens a socket of its own and stays on
    * this device: then it dials each family it has a server of from that family's own
    * loopback address. */
  lemma PreservedExactly(ob: Fields, ips: IpParser)
    ensures if OpensOwnSocket(ob) && StaysHere(ob, ips)
            then GainsLoopback(ob, Preserved(ob, ips), ServesFamily(ob, ips, V4), ServesFamily(ob, ips, V6))
            else Preserved(ob, ips) == ob
  {
    DialsExactly(ob, ips);
    if Dials(ob) && OnlyLoopback(ob, ips) {
      PreserveWrites(ob, ips);
      FamilyExactly(ob, ips);
    }
  }

  // ---------- Whole configs ----------

  ghost predicate BecomesBound(v: Json, r: Json, iface: string, source: Uplink, ips: IpParser) {
    if v.Obj? && OpensOwnSocket(v.fields) && !StaysHere(v.fields, ips)
    then r.Obj? && GainsUplink(v.fields, r.fields, iface, source)
    else r == v
  }

  ghost predicate BecomesPreserved(v: Json, r: Json, ips: IpParser) {
    if v.Obj? && OpensOwnSocket(v.fields) && StaysHere(v.fields, ips)
    then r.Obj? && GainsLoopback(v.fields, r.fields, ServesFamily(v.fields, ips, V4), ServesFamily(v.fields, ips, V6))
    else r == v
  }

  lemma BothBecome(cfg: Json, f: Json -> Json, becomes: (Json, Json) -> bool)
    requires forall v :: becomes(v, f(v))
    ensures var w := EachItem(EachItem(cfg, OUTBOUNDS, f), ENDPOINTS, f);
            && ListBecomes(cfg, w, "outbounds", becomes) && ListBecomes(cfg, w, "endpoints", becomes)
            && forall k | k != "outbounds" && k != "endpoints" :: SameField(cfg, w, k)
  {
    ArrayKeysDiffer();
    ItemsBecome(cfg, OUTBOUNDS, f, becomes);
    ItemsBecome(EachItem(cfg, OUTBOUNDS, f), ENDPOINTS, f, becomes);
  }

  /** Every outbound and endpoint of a config, bound. */
  lemma ConfigBoundExactly(cfg: Json, iface: string, source: Uplink, ips: IpParser)
    ensures var w := BoundConfig(cfg, iface, source, ips);
            && ListBecomes(cfg, w, "outbounds", (v, r) => BecomesBound(v, r, iface, source, ips))
            && ListBecomes(cfg, w, "endpoints", (v, r) => BecomesBound(v, r, iface, source, ips))
            && forall k | k != "outbounds" && k != "endpoints" :: SameField(cfg, w, k)
  {
    forall v ensures BecomesBound(v, ObjectBound(v, iface, source, ips), iface, source, ips) {
      if v.Obj? {
        BoundExactly(v.fields, iface, source, ips);
      }
    }
    BothBecome(cfg, Binder(iface, source, ips), (v, r) => BecomesBound(v, r, iface, source, ips));
  }

  /** Every outbound and endpoint of a config, preserved. */
  lemma ConfigPreservedExactly(cfg: Json, ips: IpParser)
    ensures var w := PreservedConfig(cfg, ips);
            && ListBecomes(cfg, w, "outbounds", (v, r) => BecomesPreserved(v, r, ips))
            && ListBecomes(cfg, w, "endpoints", (v, r) => BecomesPreserved(v, r, ips))
            && forall k | k != "outbounds" && k != "endpoints" :: SameField(cfg, w, k)
  {
    forall v ensures BecomesPreserved(v, ObjectPreserved(v, ips), ips) {
      if v.Obj? {
        PreservedExactly(v.fields, ips);
      }
    }
    BothBecome(cfg, v => ObjectPreserved(v, ips), (v, r) => BecomesPreserved(v, r, ips));
  }

  // ---------- Addresses ----------

  /** `r` is `s` up to the first `c`, or all of it. */
  predicate IsUpTo(s: string, c: char, r: string) {
    r <= s && c !in r && (r == s || s[|r|] == c)
  }

  lemma {:induction false} BeforeIsUpTo(s: string, c: char)
    ensures IsUpTo(s, c, Before(s, c))
  {
    if s != "" && s[0] != c {
      BeforeIsUpTo(s[1..], c);
    }
  }

  predicate IsOnly(s: string, c: char, i: nat) {
    i < |s| && s[i] == c && forall j | 0 <= j < |s| && j != i :: s[j] != c
  }

  lemma {:induction false} CountOne(s: string, c: char)
    ensures Count(s, c) == 0 <==> c !in s
    ensures Count(s, c) == 1 <==> exists i :: IsOnly(s, c, i)
  {
    if s != "" {
      var rest := s[1..];
      CountOne(rest, c);
      assert s == [s[0]] + rest;
      if i: nat :| IsOnly(rest, c, i) {
        assert s[0] != c ==> IsOnly(s, c, i + 1);
      }
      if i: nat :| IsOnly(s, c, i) {
        assert i > 0 ==> IsOnly(rest, c, i - 1);
      }
      assert s[0] == c && c !in rest ==> IsOnly(s, c, 0);
      if s[0] == c && c in rest {
        var j :| 0 <= j < |rest| && rest[j] == c;
        assert s[j + 1] == c;
      }
    }
  }

  /** The host is what stands in brackets, or before the only colon, or all of it. */
  lemma HostExactly(addr: string)
    ensures var host := HostOf(addr);
            if addr != "" && addr[0] == '[' then IsUpTo(addr[1..], ']', host)
            else if exists i :: IsOnly(addr, ':', i) then IsUpTo(addr, ':', host)
            else host == addr
  {
    CountOne(addr, ':');
    BeforeIsUpTo(addr, ':');
    if addr != "" {
      BeforeIsUpTo(addr[1..], ']');
    }
  }

  /** An address is on this device when its host is `localhost`, in any case, or a literal
    * of a loopback family. */
  lemma LoopbackExactly(addr: string, ips: IpParser)
    ensures LoopbackFamily(addr, ips)
            == if Text.SpellsLower(HostOf(addr), "localhost") then Some(Both) else ips(HostOf(addr))
  {
    Text.LowerSpells(HostOf(addr), "localhost");
  }
}
