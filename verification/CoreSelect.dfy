/** Which core engine runs a profile and its chain, and when none can. */
module CoreSelect {
  import opened Wrappers
  import opened Profiles
  import opened Chain
  import Sanitize

  datatype XrayOnlySetting =
    VisionUdp443Flow | VlessEncryption | KcpTransport | XhttpTransport | GrpcServicePath | VerifyPeerCertName

  /** A setting that pins a core, and which one it is where losing it breaks the
    * connection. */
  datatype Pin = Pin(core: CoreEngine, setting: Option<XrayOnlySetting>)

  datatype CoreConflict =
    | UnpinnedInsecureTls
    | CustomAllowInsecure
    | ChainCoreConflict(xray: string, singBox: string)

  type Resolved<+T> = Result<T, CoreConflict>

  // ---------- One profile ----------

  predicate IsSingBoxOnly(proto: Protocol) {
    proto.TuicP? || proto.AnytlsP? || proto.NaiveP? || proto.ShadowtlsP?
  }

  function When(condition: bool, pin: Pin): seq<Pin> {
    if condition then [pin] else []
  }

  predicate IsPlaintext(m: SsMethod) {
    m.NoCipher? || m.PlainCipher?
  }

  predicate EncryptsVless(encryption: string) {
    encryption != "" && encryption != "none"
  }

  function ProtocolPins(s: Settings): seq<Pin> {
    match s
    case Vless(_, _, flow, encryption, packetEncoding) =>
      When(flow.VisionUdp443?, Pin(Xray, Some(VisionUdp443Flow)))
      + When(EncryptsVless(encryption), Pin(Xray, Some(VlessEncryption)))
      + When(packetEncoding.Packetaddr?, Pin(SingBox, None))
    case Vmess(_, _, packetEncoding, globalPadding, authenticatedLength) =>
      When(packetEncoding.Packetaddr? || globalPadding || authenticatedLength, Pin(SingBox, None))
    case Shadowsocks(transport, tls, ssMethod) =>
      When(IsPlaintext(ssMethod) || transport.Quic? || tls.security.TlsSecurity? || !transport.Tcp?
           || transport.HeaderTypeOf().HttpHeader?,
           Pin(SingBox, None))
    case _ => []
  }

  function TransportPins(t: Transport): seq<Pin> {
    match t
    case H2 => [Pin(SingBox, None)]
    case Quic(_) => [Pin(SingBox, None)]
    case Kcp(_) => [Pin(Xray, Some(KcpTransport))]
    case Xhttp => [Pin(Xray, Some(XhttpTransport))]
    case Httpupgrade(earlyData, acceptProxyProtocol) => When(acceptProxyProtocol || earlyData > 0, Pin(Xray, None))
    case Ws(_, heartbeatPeriod, acceptProxyProtocol) =>
      When(heartbeatPeriod > 0 || acceptProxyProtocol, Pin(Xray, None))
    case Grpc(serviceName, authority, mode, userAgent, pingTimeout, healthCheckTimeout, initialWindowSize) =>
      When(serviceName != "" && serviceName[0] == '/', Pin(Xray, Some(GrpcServicePath)))
      + When(pingTimeout > 0, Pin(SingBox, None))
      + When(authority != "" || mode == "multi" || healthCheckTimeout > 0 || initialWindowSize > 0 || userAgent != "",
             Pin(Xray, None))
    case Tcp(_) => []
  }

  function TlsPins(t: Tls): seq<Pin> {
    When(t.vcn != "", Pin(Xray, Some(VerifyPeerCertName)))
    + When(t.rejectUnknownSni || t.enableSessionResumption || (t.security.Reality? && t.pqv != ""), Pin(Xray, None))
  }

  /** The profile's pins; where they disagree the earliest wins. */
  function CapabilityPins(p: Profile): seq<Pin> {
    if p.IsCustom() then [Pin(Xray, None)]
    else if IsSingBoxOnly(p.Protocol()) then [Pin(SingBox, None)]
    else
      ProtocolPins(p.settings)
      + (match p.settings.TransportOf() case Some(t) => TransportPins(t) case None => [])
      + (match p.settings.TlsOf() case Some(t) => TlsPins(t) case None => [])
  }

  function CapabilityCore(p: Profile): Option<CoreEngine> {
    var pins := CapabilityPins(p);
    if pins == [] then None else Some(pins[0].core)
  }

  /** The settings sing-box cannot carry and that break the connection without them, each
    * once, also where another setting pins the profile to sing-box. */
  method XrayOnlySettings(p: Profile) returns (found: seq<XrayOnlySetting>)
    ensures forall s :: s in found <==> Pin(Xray, Some(s)) in CapabilityPins(p)
    ensures forall i, j | 0 <= i < j < |found| :: found[i] != found[j]
  {
    found := SettingsOf(CapabilityPins(p));
  }

  method SettingsOf(pins: seq<Pin>) returns (found: seq<XrayOnlySetting>)
    ensures forall s :: s in found <==> Pin(Xray, Some(s)) in pins
    ensures forall i, j | 0 <= i < j < |found| :: found[i] != found[j]
  {
    found := [];
    for i := 0 to |pins|
      invariant forall s :: s in found <==> Pin(Xray, Some(s)) in pins[..i]
      invariant forall j, k | 0 <= j < k < |found| :: found[j] != found[k]
    {
      if pins[i].core.Xray? && pins[i].setting.Some? && pins[i].setting.value !in found {
        found := found + [pins[i].setting.value];
      }
    }
  }

  /** TLS that would accept any certificate. */
  predicate SkipsCheckUnpinned(p: Profile) {
    match p.settings.TlsOf()
    case Some(t) => t.security.TlsSecurity? && t.allowInsecure && t.pcs == ""
    case None => false
  }

  /** The engine the profile must run on, if any. */
  function ForcedCore(p: Profile): Option<CoreEngine> {
    var capability := CapabilityCore(p);
    if capability.Some? then capability
    else if SkipsCheckUnpinned(p) then Some(SingBox)
    else None
  }

  /** What rules out both cores, if anything does. */
  function ConflictOf(p: Profile): Option<CoreConflict> {
    match p.settings
    case Custom(loaded) =>
      if exists i | 0 <= i < |loaded| :: Sanitize.HasUnpinnedAllowInsecure(loaded[i])
      then Some(CustomAllowInsecure) else None
    case _ =>
      if CapabilityCore(p) == Some(Xray) && SkipsCheckUnpinned(p) then Some(UnpinnedInsecureTls) else None
  }

  /** Xray accepts an outbound made from the profile. */
  predicate XrayBuilds(p: Profile) {
    !(IsSingBoxOnly(p.Protocol())
      || p.IsCustom()
      || (p.settings.TransportOf().Some?
          && (p.settings.TransportOf().value.Quic? || p.settings.TransportOf().value.H2?))
      || (p.settings.Shadowsocks? && IsPlaintext(p.settings.ssMethod))
      || SkipsCheckUnpinned(p))
  }

  // ---------- The whole chain ----------

  datatype Need = Need(core: CoreEngine, profile: Profile)

  /** The profile itself and the hops it dials through, of which a broken chain has none. */
  ghost function Members(p: Profile, ps: seq<Profile>): seq<Profile> {
    var r := ChainOf(p, ps);
    [p] + if r.Ok? then r.value else []
  }

  /** Which core each profile must run on. */
  type Needs = Profile -> Option<CoreEngine>

  /** The first of the first `n` profiles that must run on `core`. */
  ghost function FirstForced(ms: seq<Profile>, n: nat, needs: Needs, core: CoreEngine): (r: Option<Profile>)
    requires n <= |ms|
  {
    if n == 0 then None
    else
      var before := FirstForced(ms, n - 1, needs, core);
      if before.Some? then before
      else if needs(ms[n - 1]) == Some(core) then Some(ms[n - 1])
      else None
  }

  lemma {:induction false} FirstForcedIsForced(ms: seq<Profile>, n: nat, needs: Needs, core: CoreEngine)
    requires n <= |ms|
    ensures FirstForced(ms, n, needs, core).Some? <==> exists i | 0 <= i < n :: needs(ms[i]) == Some(core)
  {
    if n > 0 {
      FirstForcedIsForced(ms, n - 1, needs, core);
    }
  }

  ghost function ForcedFor(p: Profile, ps: seq<Profile>, needs: Needs): (r: Resolved<Option<Need>>) {
    var ms := Members(p, ps);
    match (FirstForced(ms, |ms|, needs, Xray), FirstForced(ms, |ms|, needs, SingBox))
    case (Some(x), Some(s)) => Err(ChainCoreConflict(x.meta.remarks, s.meta.remarks))
    case (Some(x), None) => Ok(Some(Need(Xray, x)))
    case (None, Some(s)) => Ok(Some(Need(SingBox, s)))
    case (None, None) => Ok(None)
  }

  /** The first need among the members, or both needs when they clash. */
  method ChainForcedCore(p: Profile, ps: seq<Profile>, needs: Needs) returns (r: Resolved<Option<Need>>)
    ensures r == ForcedFor(p, ps, needs)
  {
    var chain := ChainHops(p, ps);
    var ms := [p] + if chain.Ok? then chain.value else [];
    var xray, singBox: Option<Profile> := None, None;
    for i := 0 to |ms|
      invariant xray == FirstForced(ms, i, needs, Xray) && singBox == FirstForced(ms, i, needs, SingBox)
    {
      match needs(ms[i])
      case Some(Xray) => xray := if xray.Some? then xray else Some(ms[i]);
      case Some(SingBox) => singBox := if singBox.Some? then singBox else Some(ms[i]);
      case None =>
    }
    match (xray, singBox)
    case (Some(x), Some(s)) => r := Err(ChainCoreConflict(x.meta.remarks, s.meta.remarks));
    case (Some(x), None) => r := Ok(Some(Need(Xray, x)));
    case (None, Some(s)) => r := Ok(Some(Need(SingBox, s)));
    case (None, None) => r := Ok(None);
  }

  function DefaultCore(proto: Protocol): CoreEngine {
    if proto.Hysteria2P? || IsSingBoxOnly(proto) then SingBox else Xray
  }

  function PreferredCore(p: Profile, table: map<Protocol, CoreEngine>): CoreEngine {
    if p.meta.coreType.Some? then p.meta.coreType.value
    else if p.Protocol() in table then table[p.Protocol()]
    else DefaultCore(p.Protocol())
  }

  ghost function Resolution(p: Profile, table: map<Protocol, CoreEngine>, ps: seq<Profile>): Resolved<CoreEngine> {
    match ForcedFor(p, ps, ForcedCore)
    case Err(c) => Err(c)
    case Ok(need) => Ok(if need.Some? then need.value.core else PreferredCore(p, table))
  }

  method ResolveCore(p: Profile, table: map<Protocol, CoreEngine>, ps: seq<Profile>) returns (r: Resolved<CoreEngine>)
    ensures r == Resolution(p, table, ps)
  {
    var forced := ChainForcedCore(p, ps, ForcedCore);
    match forced
    case Err(c) => r := Err(c);
    case Ok(need) => r := Ok(if need.Some? then need.value.core else PreferredCore(p, table));
  }

  // ---------- What a resolved core means ----------

  ghost predicate SomeForced(ms: seq<Profile>, core: CoreEngine) {
    exists m <- ms :: ForcedCore(m) == Some(core)
  }

  ghost function NeededOr(ms: seq<Profile>, preferred: CoreEngine): CoreEngine {
    if SomeForced(ms, Xray) then Xray else if SomeForced(ms, SingBox) then SingBox else preferred
  }

  lemma ForcedIsMembership(p: Profile, ps: seq<Profile>, core: CoreEngine)
    ensures var ms := Members(p, ps); FirstForced(ms, |ms|, ForcedCore, core).Some? <==> SomeForced(ms, core)
  {
    var ms := Members(p, ps);
    FirstForcedIsForced(ms, |ms|, ForcedCore, core);
  }

  /** A core is found exactly when the chain does not need both; the core found is
    * the one the chain needs, or the preferred one when it needs none. */
  lemma ResolvesUnlessBothNeeded(p: Profile, table: map<Protocol, CoreEngine>, ps: seq<Profile>)
    ensures var ms, r := Members(p, ps), Resolution(p, table, ps);
            && (r.Err? <==> SomeForced(ms, Xray) && SomeForced(ms, SingBox))
            && (r.Ok? ==> r.value == NeededOr(ms, PreferredCore(p, table)))
  {
    ForcedIsMembership(p, ps, Xray);
    ForcedIsMembership(p, ps, SingBox);
  }

  /** A broken chain counts as no hops, so its profile still resolves, to its own core. */
  lemma BrokenChainsResolve(p: Profile, table: map<Protocol, CoreEngine>, ps: seq<Profile>)
    requires ChainOf(p, ps).Err?
    ensures Resolution(p, table, ps) == Ok(if ForcedCore(p).Some? then ForcedCore(p).value else PreferredCore(p, table))
  {
    assert Members(p, ps) == [p];
    ResolvesUnlessBothNeeded(p, table, ps);
    OnlyForced(p, Xray);
    OnlyForced(p, SingBox);
  }

  lemma OnlyForced(p: Profile, core: CoreEngine)
    ensures SomeForced([p], core) <==> ForcedCore(p) == Some(core)
  {
    assert p in [p];
  }

  /** No member of a resolved chain needs another core than the one found. */
  lemma ResolvedFitsEveryMember(p: Profile, table: map<Protocol, CoreEngine>, ps: seq<Profile>, m: Profile)
    requires Resolution(p, table, ps).Ok? && m in Members(p, ps)
    ensures ForcedCore(m).Some? ==> ForcedCore(m).value == Resolution(p, table, ps).value
  {
    ResolvesUnlessBothNeeded(p, table, ps);
  }

  /** Every hop of a resolved chain resolves on its own, too. */
  lemma HopsResolve(p: Profile, table: map<Protocol, CoreEngine>, ps: seq<Profile>, k: nat)
    requires Resolution(p, table, ps).Ok? && ChainValid(p, ps) && k < |ChainOf(p, ps).value|
    ensures Resolution(ChainOf(p, ps).value[k], table, ps).Ok?
  {
    var hops := ChainOf(p, ps).value;
    HopsAreValid(p, ps, k);
    forall m <- Members(hops[k], ps) ensures m in Members(p, ps) {
      if m != hops[k] {
        assert m in hops[k + 1..];
      }
    }
    ResolvesUnlessBothNeeded(p, table, ps);
    ResolvesUnlessBothNeeded(hops[k], table, ps);
  }

  /** A VLESS setting pins Xray ahead of a transport Xray has dropped. */
  predicate PinnedPastItsTransport(p: Profile) {
    && p.settings.Vless?
    && (p.settings.flow.VisionUdp443? || EncryptsVless(p.settings.encryption))
    && (p.settings.transport.H2? || p.settings.transport.Quic?)
  }

  /** What Xray resolves to, it can build, but for exactly the VLESS profiles whose
    * own setting pins Xray before their transport gets to pin sing-box. */
  lemma XrayBuildsWhatItRuns(p: Profile, table: map<Protocol, CoreEngine>, ps: seq<Profile>, m: Profile)
    requires Resolution(p, table, ps) == Ok(Xray) && m in Members(p, ps)
    requires !m.IsCustom() && ConflictOf(m).None?
    ensures XrayBuilds(m) <==> !PinnedPastItsTransport(m)
  {
    ResolvedFitsEveryMember(p, table, ps, m);
    FitsXrayBuilds(m);
  }

  lemma FitsXrayBuilds(m: Profile)
    requires ForcedCore(m) != Some(SingBox) && !m.IsCustom() && ConflictOf(m).None?
    ensures XrayBuilds(m) <==> !PinnedPastItsTransport(m)
  {
    if m.settings.TransportOf().Some? {
      var t := m.settings.TransportOf().value;
      if t.H2? || t.Quic? {
        assert TransportPins(t)[0].core == SingBox;
        assert ProtocolPins(m.settings) != [] ==> CapabilityPins(m)[0] == ProtocolPins(m.settings)[0];
      }
    }
  }

  ghost predicate PinsNameBoth(p: Profile) {
    (exists a <- CapabilityPins(p) :: a.core == Xray) && (exists b <- CapabilityPins(p) :: b.core == SingBox)
  }

  /** Without pins for both cores that family is empty. */
  lemma UnmixedPinsBuild(m: Profile)
    requires !PinsNameBoth(m)
    ensures !PinnedPastItsTransport(m)
  {
    if m.settings.Vless? && PinnedPastItsTransport(m) {
      PinsOfBothCores(m);
    }
  }

  lemma PinsOfBothCores(m: Profile)
    requires PinnedPastItsTransport(m)
    ensures PinsNameBoth(m)
  {
    var own, t := ProtocolPins(m.settings), TransportPins(m.settings.transport);
    assert own[0].core == Xray && own[0] == CapabilityPins(m)[0];
    assert t[0].core == SingBox && CapabilityPins(m)[|own|] == t[0];
  }

  /** That family is not empty: a profile that resolves to Xray, has no conflict,
    * and that Xray cannot build. */
  lemma PinnedPastItsTransportExample()
    ensures var tls := Tls(NoSecurity, false, false, false, "", "", "");
            var p := Profile(Meta("a", "a", None, None), Vless(H2, tls, NoFlow, "mlkem768x25519plus", NoEncoding));
            Resolution(p, map[], [p]) == Ok(Xray) && ConflictOf(p).None? && !XrayBuilds(p)
  {
    var tls := Tls(NoSecurity, false, false, false, "", "", "");
    var p := Profile(Meta("a", "a", None, None), Vless(H2, tls, NoFlow, "mlkem768x25519plus", NoEncoding));
    assert |"mlkem768x25519plus"| == 18;
    assert CapabilityPins(p)[0] == Pin(Xray, Some(VlessEncryption));
    assert Members(p, [p]) == [p];
    ResolvesUnlessBothNeeded(p, map[], [p]);
    assert p in Members(p, [p]);
  }

  // ---------- The hops the picker warns about ----------

  datatype HopConflict = HopConflict(id: string, conflict: CoreConflict)

  ghost function ConflictWith(p: Profile, ps: seq<Profile>, id: string, needs: Needs): Resolved<Option<Need>> {
    var draft := p.Via(Some(id));
    ForcedFor(draft, Others(ps, p.meta.id) + [draft], needs)
  }

  ghost function Conflicts(p: Profile, ps: seq<Profile>, ids: seq<string>, n: nat, needs: Needs): seq<HopConflict>
    requires n <= |ids|
  {
    if n == 0 then []
    else
      var r := ConflictWith(p, ps, ids[n - 1], needs);
      Conflicts(p, ps, ids, n - 1, needs) + if r.Err? then [HopConflict(ids[n - 1], r.error)] else []
  }

  ghost function AllConflicts(p: Profile, ps: seq<Profile>, needs: Needs): seq<HopConflict> {
    var ids := Candidates(p, ps, |ps|);
    Conflicts(p, ps, ids, |ids|, needs)
  }

  method ChainConflicts(p: Profile, ps: seq<Profile>, needs: Needs) returns (r: seq<HopConflict>)
    ensures r == AllConflicts(p, ps, needs)
  {
    var state := Others(ps, p.meta.id);
    ghost var others := state;
    var draft := p;
    state := state + [draft];
    var draftIdx := |state| - 1;
    var ids := ChainCandidates(p, ps);
    r := [];
    for i := 0 to |ids|
      invariant draftIdx == |others| && state == others + [draft]
      invariant draft == p.Via(draft.meta.via)
      invariant r == Conflicts(p, ps, ids, i, needs)
    {
      draft := draft.Via(Some(ids[i]));
      state := state[draftIdx := draft];
      assert state == others + [draft];
      var forced := ChainForcedCore(state[draftIdx], state, needs);
      if forced.Err? {
        r := r + [HopConflict(ids[i], forced.error)];
      }
    }
  }

  lemma {:induction false} ConflictsAre(p: Profile, ps: seq<Profile>, ids: seq<string>, n: nat, needs: Needs,
                                        id: string)
    requires n <= |ids|
    ensures (exists c <- Conflicts(p, ps, ids, n, needs) :: c.id == id) <==>
            (exists i | 0 <= i < n :: ids[i] == id) && ConflictWith(p, ps, id, needs).Err?
  {
    if n > 0 {
      ConflictsAre(p, ps, ids, n - 1, needs, id);
      var before, now := Conflicts(p, ps, ids, n - 1, needs), Conflicts(p, ps, ids, n, needs);
      if ConflictWith(p, ps, ids[n - 1], needs).Err? {
        WarnedAfter(before, now[|before|], id);
        assert now == before + [now[|before|]];
      }
    }
  }

  lemma WarnedAfter(before: seq<HopConflict>, c: HopConflict, id: string)
    ensures (exists x <- before + [c] :: x.id == id) <==> (exists x <- before :: x.id == id) || c.id == id
  {
    assert forall x <- before :: x in before + [c];
    assert c in before + [c];
  }

  lemma StandInForcesAlike(p: Profile, ps: seq<Profile>, k: nat, id: string, needs: Needs)
    requires UniqueIds(ps) && k < |ps| && ps[k].meta.id == p.meta.id
    ensures ConflictWith(p, ps, id, needs) == ForcedFor(p.Via(Some(id)), ps[k := p.Via(Some(id))], needs)
  {
    var draft := p.Via(Some(id));
    var state, stored := Others(ps, p.meta.id) + [draft], ps[k := draft];
    StandInLooksStored(draft, ps, k);
    SameFindSameHops(state, stored, draft.meta.via, [draft.meta.id]);
  }

  /** An offered hop is warned about exactly when, stored as the profile's `via`,
    * it leaves the profile without a core. */
  lemma WarnsExactlyWhenUnresolved(p: Profile, ps: seq<Profile>, k: nat, id: string, table: map<Protocol, CoreEngine>)
    requires UniqueIds(ps) && k < |ps| && ps[k].meta.id == p.meta.id && id in Candidates(p, ps, |ps|)
    ensures (exists c <- AllConflicts(p, ps, ForcedCore) :: c.id == id) <==>
            Resolution(p.Via(Some(id)), table, ps[k := p.Via(Some(id))]).Err?
  {
    var ids := Candidates(p, ps, |ps|);
    ConflictsAre(p, ps, ids, |ids|, ForcedCore, id);
    StandInForcesAlike(p, ps, k, id, ForcedCore);
  }
}
