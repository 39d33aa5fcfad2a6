/** The versioned upgrade of the stored state: an ordered ladder of steps, each
  * lifting the document by one version, and the dating of unstamped documents. */
module Migrate {
  import opened JsonValue
  import opened Wrappers
  import Text

  const STAMP := "schemaVersion"
  const PROFILES := "profiles"
  const SUBSCRIPTIONS := "subscriptions"
  const MANUAL := "manualTitle"
  const SCHEMA_VERSION: nat := 4

  // ---------- What the steps are made of ----------

  /** The keys of each group of a flat profile. */
  datatype Layout = Layout(meta: seq<string>, endpoint: seq<string>, transport: seq<string>, tls: seq<string>)

  /** The parts of the upgrade that only reshape values. */
  datatype Rules = Rules(
    layout: Layout,
    fixMeta: map<string, Json> -> map<string, Json>,
    nest: map<string, Json> -> Json,
    fixTls: map<string, Json> -> map<string, Json>,
    bytes: Json -> Json,
    manual: map<string, Json> -> bool)

  predicate HasTransport(protocol: string) {
    protocol == "vless" || protocol == "vmess" || protocol == "trojan" || protocol == "shadowsocks"
  }

  predicate HasTls(protocol: string) {
    || protocol == "vless" || protocol == "vmess" || protocol == "trojan" || protocol == "shadowsocks"
    || protocol == "http" || protocol == "hysteria2" || protocol == "tuic" || protocol == "anytls"
    || protocol == "naive" || protocol == "shadowtls"
  }

  function Elems(keys: seq<string>): set<string> {
    set k | k in keys
  }

  ghost function Taken(obj: map<string, Json>, keys: seq<string>): map<string, Json> {
    map k <- obj | k in keys :: obj[k]
  }

  /** Split `obj` into the listed fields and the rest. */
  method TakeGroup(obj: map<string, Json>, keys: seq<string>) returns (rest: map<string, Json>, out: map<string, Json>)
    ensures out == Taken(obj, keys)
    ensures rest == obj - Elems(keys)
  {
    rest, out := obj, map[];
    for i := 0 to |keys|
      invariant out == map k <- obj | k in keys[..i] :: obj[k]
      invariant rest == obj - Elems(keys[..i])
    {
      assert keys[..i + 1] == keys[..i] + [keys[i]];
      if keys[i] in rest {
        out := out[keys[i] := rest[keys[i]]];
        rest := rest - {keys[i]};
      }
    }
    assert keys[..|keys|] == keys;
  }

  // ---------- v0 to v1: one profile ----------

  predicate IsFlat(p: Json) {
    p.Obj? && p.Has("protocol") && p.fields["protocol"].Str? && !p.Has("meta") && p.Has("id")
  }

  /** An object keyed on `network` that the tagging step still has to tag. */
  predicate IsUntagged(t: Json) {
    t.Obj? && !t.Has("kind") && t.Has("network")
  }

  function WithMeta(obj: map<string, Json>, rules: Rules): map<string, Json> {
    (obj - Elems(rules.layout.meta))["meta" := Obj(rules.fixMeta(map k <- obj | k in rules.layout.meta :: obj[k]))]
  }

  function WithEndpoint(obj: map<string, Json>, rules: Rules): map<string, Json> {
    (obj - Elems(rules.layout.endpoint))["endpoint" := Obj(map k <- obj | k in rules.layout.endpoint :: obj[k])]
  }

  function WithTransport(obj: map<string, Json>, rules: Rules): map<string, Json> {
    var nested := (obj - Elems(rules.layout.transport))[
      "transport" := rules.nest(map k <- obj | k in rules.layout.transport :: obj[k])];
    if "muxEnabled" in nested then nested else nested["muxEnabled" := Bool(false)]
  }

  function WithTls(obj: map<string, Json>, rules: Rules): map<string, Json> {
    (obj - Elems(rules.layout.tls))["tls" := Obj(rules.fixTls(map k <- obj | k in rules.layout.tls :: obj[k]))]
  }

  function WithReserved(obj: map<string, Json>, rules: Rules): map<string, Json> {
    if "reserved" in obj then obj["reserved" := rules.bytes(obj["reserved"])] else obj
  }

  function Nested(obj: map<string, Json>, protocol: string, rules: Rules): map<string, Json> {
    var m := WithMeta(obj, rules);
    var e := if protocol != "custom" then WithEndpoint(m, rules) else m;
    var t := if HasTransport(protocol) then WithTransport(e, rules) else e;
    var s := if HasTls(protocol) then WithTls(t, rules) else t;
    if protocol == "wireguard" then WithReserved(s, rules) else s
  }

  function Tagged(p: Json, rules: Rules): Json {
    if p.Has("transport") && IsUntagged(p.fields["transport"])
    then Obj(p.fields["transport" := rules.nest(p.fields["transport"].fields)])
    else p
  }

  function ProfileMigrated(p: Json, rules: Rules): Json {
    if !p.Has("protocol") || !p.fields["protocol"].Str? then p
    else if IsFlat(p) then Obj(Nested(p.fields, p.fields["protocol"].s, rules))
    else Tagged(p, rules)
  }

  method FlattenToNested(obj: map<string, Json>, protocol: string, rules: Rules) returns (r: map<string, Json>)
    ensures r == Nested(obj, protocol, rules)
  {
    var group;
    r, group := TakeGroup(obj, rules.layout.meta);
    r := r["meta" := Obj(rules.fixMeta(group))];
    if protocol != "custom" {
      r, group := TakeGroup(r, rules.layout.endpoint);
      r := r["endpoint" := Obj(group)];
    }
    if HasTransport(protocol) {
      r, group := TakeGroup(r, rules.layout.transport);
      r := r["transport" := rules.nest(group)];
      if "muxEnabled" !in r {
        r := r["muxEnabled" := Bool(false)];
      }
    }
    if HasTls(protocol) {
      r, group := TakeGroup(r, rules.layout.tls);
      r := r["tls" := Obj(rules.fixTls(group))];
    }
    if protocol == "wireguard" && "reserved" in r {
      r := r["reserved" := rules.bytes(r["reserved"])];
    }
  }

  method MigrateProfile(p: Json, rules: Rules) returns (r: Json)
    ensures r == ProfileMigrated(p, rules)
  {
    if !p.Has("protocol") || !p.fields["protocol"].Str? {
      return p;
    }
    if !p.Has("meta") && p.Has("id") {
      var nested := FlattenToNested(p.fields, p.fields["protocol"].s, rules);
      return Obj(nested);
    }
    r := p;
    if p.Has("transport") {
      var t := p.fields["transport"];
      if t.Obj? && !t.Has("kind") && t.Has("network") {
        r := Obj(p.fields["transport" := rules.nest(t.fields)]);
      }
    }
  }

  // ---------- The steps ----------

  function I64(n: int): bool {
    -0x8000_0000_0000_0000 <= n < 0x8000_0000_0000_0000
  }

  /** Hours to minutes, unless that overflows. */
  function InMinutes(sub: Json): Json {
    if sub.Has("interval") && sub.fields["interval"].Num? && I64(sub.fields["interval"].n)
       && I64(sub.fields["interval"].n * 60)
    then Obj(sub.fields["interval" := Num(sub.fields["interval"].n * 60)])
    else sub
  }

  function Marked(sub: Json, rules: Rules): Json {
    match sub
    case Obj(m) => Obj(m[MANUAL := Bool(rules.manual(m))])
    case _ => sub
  }

  function OptedOut(sub: Json): Json {
    if sub.Obj? && !Text.IsBlank(sub.TextOr("userAgent", "")) then
      var request := if "request" in sub.fields then sub.fields["request"] else Obj(map[]);
      Obj(sub.fields["request" :=
        if request.Obj? && "sendHwid" !in request.fields
        then Obj(request.fields["sendHwid" := Bool(false)]) else request])
    else sub
  }

  /** Plain or obfs-local Shadowsocks never asked for the TLS it carries. */
  predicate CarriesStrayTls(p: Json) {
    && p.TextOr("protocol", "") == "shadowsocks"
    && (p.Has("transport") ==> p.fields["transport"].TextOr("kind", "tcp") == "tcp")
    && p.Has("tls") && p.fields["tls"].Obj? && p.fields["tls"].TextOr("security", "tls") == "tls"
  }

  function WithoutStrayTls(p: Json): Json {
    if CarriesStrayTls(p)
    then Obj(p.fields["tls" := Obj(p.fields["tls"].fields["security" := Str("none")])])
    else p
  }

  /** The state was written after the UI had converted the intervals itself. */
  predicate IsConverted(v: Json) {
    v.TextOr("version", "") != ""
  }

  ghost function V0ToV1(v: Json, rules: Rules): Json {
    var w := EachItem(v, PROFILES, p => ProfileMigrated(p, rules));
    if IsConverted(w) then w else EachItem(w, SUBSCRIPTIONS, s => InMinutes(s))
  }

  ghost function V1ToV2(v: Json, rules: Rules): Json {
    EachItem(v, SUBSCRIPTIONS, s => Marked(s, rules))
  }

  ghost function V2ToV3(v: Json): Json {
    EachItem(v, SUBSCRIPTIONS, s => OptedOut(s))
  }

  ghost function V3ToV4(v: Json): Json {
    EachItem(v, PROFILES, p => WithoutStrayTls(p))
  }

  ghost function Step(v: Json, version: nat, rules: Rules): Json {
    match version
    case 0 => V0ToV1(v, rules)
    case 1 => V1ToV2(v, rules)
    case 2 => V2ToV3(v)
    case _ => V3ToV4(v)
  }

  // ---------- The ladder ----------

  /** The stamp a document carries, when it is a positive integer. */
  function PositiveStamp(v: Json): nat {
    if v.Has(STAMP) && v.fields[STAMP].Num? && 0 < v.fields[STAMP].n < 0x1_0000_0000_0000_0000
    then v.fields[STAMP].n else 0
  }

  predicate HasIdentity(v: Json) {
    v.Has("settings") && v.fields["settings"].Has("requestIdentity")
  }

  predicate HasMarkedSub(v: Json) {
    && v.Has(SUBSCRIPTIONS) && v.fields[SUBSCRIPTIONS].Arr?
    && exists s <- v.fields[SUBSCRIPTIONS].items :: s.Has(MANUAL)
  }

  /** The version a document was written at: its stamp, or the newest version
    * whose mark it bears. */
  function StoredVersion(v: Json): nat {
    if PositiveStamp(v) > 0 then PositiveStamp(v)
    else if HasIdentity(v) then 3
    else if HasMarkedSub(v) then 2
    else 0
  }

  ghost function Stamped(v: Json, version: nat): Json {
    match v
    case Obj(m) => Obj(m[STAMP := Num(version)])
    case _ => v
  }

  /** `v` lifted from `from` to `to`. */
  ghost function Lifted(v: Json, from: nat, to: nat, rules: Rules): Json
    requires from <= to
    decreases (to as int) - from
  {
    if from == to then v else Lifted(Step(v, from, rules), from + 1, to, rules)
  }

  function AtMost(n: nat, cap: nat): (r: nat)
    ensures r <= cap
  {
    if n <= cap then n else cap
  }

  ghost function Migrated(v: Json, rules: Rules): Json {
    Stamped(Lifted(v, AtMost(StoredVersion(v), SCHEMA_VERSION), SCHEMA_VERSION, rules), SCHEMA_VERSION)
  }

  /** The stored state, upgraded in place. */
  class Document {
    var value: Json

    constructor (v: Json)
      ensures value == v
    {
      value := v;
    }

    method MigrateV0ToV1(rules: Rules)
      modifies this
      ensures value == V0ToV1(old(value), rules)
    {
      if value.Has(PROFILES) && value.fields[PROFILES].Arr? {
        var items := value.fields[PROFILES].items;
        ghost var was := items;
        for i := 0 to |items|
          invariant |items| == |was|
          invariant forall j | 0 <= j < i :: items[j] == ProfileMigrated(was[j], rules)
          invariant forall j | i <= j < |was| :: items[j] == was[j]
          invariant value == old(value)
        {
          var p := MigrateProfile(items[i], rules);
          items := items[i := p];
        }
        assert items == Mapped(was, p => ProfileMigrated(p, rules));
        value := Obj(value.fields[PROFILES := Arr(items)]);
      }
      if value.TextOr("version", "") != "" {
        return;
      }
      if !value.Has(SUBSCRIPTIONS) || !value.fields[SUBSCRIPTIONS].Arr? {
        return;
      }
      var subs := value.fields[SUBSCRIPTIONS].items;
      ghost var were, before := subs, value;
      for i := 0 to |subs|
        invariant |subs| == |were|
        invariant forall j | 0 <= j < i :: subs[j] == InMinutes(were[j])
        invariant forall j | i <= j < |were| :: subs[j] == were[j]
        invariant value == before
      {
        subs := subs[i := InMinutes(subs[i])];
      }
      assert subs == Mapped(were, s => InMinutes(s));
      value := Obj(value.fields[SUBSCRIPTIONS := Arr(subs)]);
    }

    method MigrateV1ToV2(rules: Rules)
      modifies this
      ensures value == V1ToV2(old(value), rules)
    {
      if !value.Has(SUBSCRIPTIONS) || !value.fields[SUBSCRIPTIONS].Arr? {
        return;
      }
      var subs := value.fields[SUBSCRIPTIONS].items;
      ghost var were := subs;
      for i := 0 to |subs|
        invariant |subs| == |were|
        invariant forall j | 0 <= j < i :: subs[j] == Marked(were[j], rules)
        invariant forall j | i <= j < |were| :: subs[j] == were[j]
        invariant value == old(value)
      {
        if subs[i].Obj? {
          subs := subs[i := Obj(subs[i].fields[MANUAL := Bool(rules.manual(subs[i].fields))])];
        }
      }
      assert subs == Mapped(were, s => Marked(s, rules));
      value := Obj(value.fields[SUBSCRIPTIONS := Arr(subs)]);
    }

    method MigrateV2ToV3()
      modifies this
      ensures value == V2ToV3(old(value))
    {
      if !value.Has(SUBSCRIPTIONS) || !value.fields[SUBSCRIPTIONS].Arr? {
        return;
      }
      var subs := value.fields[SUBSCRIPTIONS].items;
      ghost var were := subs;
      for i := 0 to |subs|
        invariant |subs| == |were|
        invariant forall j | 0 <= j < i :: subs[j] == OptedOut(were[j])
        invariant forall j | i <= j < |were| :: subs[j] == were[j]
        invariant value == old(value)
      {
        subs := subs[i := OptedOut(subs[i])];
      }
      assert subs == Mapped(were, s => OptedOut(s));
      value := Obj(value.fields[SUBSCRIPTIONS := Arr(subs)]);
    }

    method MigrateV3ToV4()
      modifies this
      ensures value == V3ToV4(old(value))
    {
      if !value.Has(PROFILES) || !value.fields[PROFILES].Arr? {
        return;
      }
      var items := value.fields[PROFILES].items;
      ghost var was := items;
      for i := 0 to |items|
        invariant |items| == |was|
        invariant forall j | 0 <= j < i :: items[j] == WithoutStrayTls(was[j])
        invariant forall j | i <= j < |was| :: items[j] == was[j]
        invariant value == old(value)
      {
        items := items[i := WithoutStrayTls(items[i])];
      }
      assert items == Mapped(was, p => WithoutStrayTls(p));
      value := Obj(value.fields[PROFILES := Arr(items)]);
    }

    /** Run every step from the stored version on, then stamp the current one. */
    method MigrateAppState(rules: Rules)
      modifies this
      ensures value == Migrated(old(value), rules)
    {
      var version := AtMost(StoredVersion(value), SCHEMA_VERSION);
      ghost var from := version;
      while version < SCHEMA_VERSION
        invariant version <= SCHEMA_VERSION
        invariant Lifted(value, version, SCHEMA_VERSION, rules) == Lifted(old(value), from, SCHEMA_VERSION, rules)
        decreases SCHEMA_VERSION - version
      {
        match version {
          case 0 => MigrateV0ToV1(rules);
          case 1 => MigrateV1ToV2(rules);
          case 2 => MigrateV2ToV3();
          case _ => MigrateV3ToV4();
        }
        version := version + 1;
      }
      if value.Obj? {
        value := Obj(value.fields[STAMP := Num(SCHEMA_VERSION)]);
      }
    }

    /** A backup from a newer app is refused and left alone. */
    method MigrateBackup(rules: Rules) returns (r: Result<(), nat>)
      modifies this
      ensures r.Ok? <==> StoredVersion(old(value)) <= SCHEMA_VERSION
      ensures r.Ok? ==> value == Migrated(old(value), rules)
      ensures r.Err? ==> value == old(value) && r.error == StoredVersion(old(value))
    {
      var version := StoredVersion(value);
      if version > SCHEMA_VERSION {
        return Err(version);
      }
      MigrateAppState(rules);
      return Ok(());
    }
  }
}
