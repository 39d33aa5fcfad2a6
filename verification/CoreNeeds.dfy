/** Which settings of a profile force which core, from its fields alone, and the core that
  * a profile without a chain runs on. */
module CoreNeeds {
  import opened Wrappers
  import opened Profiles
  import opened Chain
  import opened CoreSelect

  // ---------- What only one core can do ----------

  /** VLESS features of Xray alone; they win over everything else. */
  predicate UsesXrayVless(s: Settings) {
    s.Vless? && (s.flow.VisionUdp443? || (s.encryption != "" && s.encryption != "none"))
  }

  /** Protocol settings of sing-box alone. */
  predicate UsesSingBoxProtocol(s: Settings) {
    match s
    case Vless(_, _, _, _, packetEncoding) => packetEncoding.Packetaddr?
    case Vmess(_, _, packetEncoding, globalPadding, authenticatedLength) =>
      packetEncoding.Packetaddr? || globalPadding || authenticatedLength
    case Shadowsocks(transport, tls, ssMethod) =>
      || ssMethod.NoCipher? || ssMethod.PlainCipher? || tls.security.TlsSecurity?
      || transport != Tcp(transport.HeaderTypeOf()) || transport.HeaderTypeOf().HttpHeader?
    case _ => false
  }

  /** A gRPC service path is Xray's, and wins over the ping that is sing-box's. */
  predicate UsesXrayTransport(t: Transport) {
    match t
    case Kcp(_) => true
    case Xhttp => true
    case Httpupgrade(earlyData, acceptProxyProtocol) => acceptProxyProtocol || earlyData > 0
    case Ws(_, heartbeatPeriod, acceptProxyProtocol) => acceptProxyProtocol || heartbeatPeriod > 0
    case Grpc(serviceName, authority, mode, userAgent, pingTimeout, healthCheckTimeout, initialWindowSize) =>
      || (serviceName != "" && serviceName[0] == '/')
      || (pingTimeout <= 0
          && (authority != "" || mode == "multi" || userAgent != "" || healthCheckTimeout > 0 || initialWindowSize > 0))
    case _ => false
  }

  predicate UsesSingBoxTransport(t: Transport) {
    || t.H2? || t.Quic?
    || (t.Grpc? && t.pingTimeout > 0 && (t.serviceName == "" || t.serviceName[0] != '/'))
  }

  predicate UsesXrayTls(t: Tls) {
    t.vcn != "" || t.rejectUnknownSni || t.enableSessionResumption || (t.security.Reality? && t.pqv != "")
  }

  /** Only a check that is skipped without a pinned certificate; the last to decide. */
  predicate SkipsCheck(t: Tls) {
    t.security.TlsSecurity? && t.allowInsecure && t.pcs == ""
  }

  predicate IsSingBoxProtocol(s: Settings) {
    s.Tuic? || s.Anytls? || s.Naive? || s.Shadowtls?
  }

  // ---------- What a profile needs ----------

  /** From the protocol down to TLS, the first level that needs a core decides. */
  predicate NeedsXray(s: Settings) {
    || s.Custom?
    || (!IsSingBoxProtocol(s)
        && (UsesXrayVless(s)
            || (!UsesSingBoxProtocol(s)
                && ((s.TransportOf().Some? && UsesXrayTransport(s.TransportOf().value))
                    || (!(s.TransportOf().Some? && UsesSingBoxTransport(s.TransportOf().value))
                        && s.TlsOf().Some? && UsesXrayTls(s.TlsOf().value))))))
  }

  predicate NeedsSingBox(s: Settings) {
    || IsSingBoxProtocol(s)
    || (!s.Custom? && !UsesXrayVless(s)
        && (UsesSingBoxProtocol(s)
            || (s.TransportOf().Some? && UsesSingBoxTransport(s.TransportOf().value))
            || (!(s.TransportOf().Some? && UsesXrayTransport(s.TransportOf().value))
                && s.TlsOf().Some? && !UsesXrayTls(s.TlsOf().value) && SkipsCheck(s.TlsOf().value))))
  }

  lemma FirstOf(a: seq<Pin>, b: seq<Pin>, c: seq<Pin>)
    ensures var all := a + b + c;
            && (a != [] ==> all != [] && all[0] == a[0])
            && (a == [] && b != [] ==> all != [] && all[0] == b[0])
            && (a == [] && b == [] ==> all == c)
  {}

  lemma ProtocolDecides(s: Settings)
    ensures var pins := ProtocolPins(s);
            && (UsesXrayVless(s) <==> pins != [] && pins[0].core == Xray)
            && (!UsesXrayVless(s) && UsesSingBoxProtocol(s) <==> pins != [] && pins[0].core == SingBox)
  {}

  lemma TransportDecides(t: Transport)
    ensures var pins := TransportPins(t);
            && (UsesXrayTransport(t) <==> pins != [] && pins[0].core == Xray)
            && (UsesSingBoxTransport(t) <==> pins != [] && pins[0].core == SingBox)
  {}

  lemma TlsDecides(t: Tls)
    ensures var pins := TlsPins(t);
            && (UsesXrayTls(t) <==> pins != [] && pins[0].core == Xray)
            && (!UsesXrayTls(t) <==> pins == [])
  {}

  /** Which core a profile must run on, from its fields. */
  lemma ForcedExactly(p: Profile)
    ensures ForcedCore(p) == Some(Xray) <==> NeedsXray(p.settings)
    ensures ForcedCore(p) == Some(SingBox) <==> NeedsSingBox(p.settings)
  {
    var s := p.settings;
    ProtocolDecides(s);
    var transport := if s.TransportOf().Some? then TransportPins(s.TransportOf().value) else [];
    var tls := if s.TlsOf().Some? then TlsPins(s.TlsOf().value) else [];
    if s.TransportOf().Some? {
      TransportDecides(s.TransportOf().value);
    }
    if s.TlsOf().Some? {
      TlsDecides(s.TlsOf().value);
    }
    FirstOf(ProtocolPins(s), transport, tls);
  }

  /** What rules out both cores. */
  lemma ConflictExactly(p: Profile)
    requires !p.IsCustom()
    ensures ConflictOf(p) == Some(UnpinnedInsecureTls)
            <==> NeedsXray(p.settings) && p.settings.TlsOf().Some? && SkipsCheck(p.settings.TlsOf().value)
    ensures ConflictOf(p).Some? ==> ConflictOf(p) == Some(UnpinnedInsecureTls)
  {
    ForcedExactly(p);
  }

  /** What Xray can build an outbound for. */
  lemma BuildsExactly(p: Profile)
    ensures XrayBuilds(p)
            <==> && !p.IsCustom() && !IsSingBoxProtocol(p.settings)
                 && (p.settings.TransportOf().Some? ==>
                       !p.settings.TransportOf().value.Quic? && !p.settings.TransportOf().value.H2?)
                 && (p.settings.Shadowsocks? ==> p.settings.ssMethod.Aead? || p.settings.ssMethod.Ss2022?)
                 && (p.settings.TlsOf().Some? ==> !SkipsCheck(p.settings.TlsOf().value))
  {}

  // ---------- The core of a profile ----------

  /** The choice of the profile, else of its protocol, else sing-box for five protocols and
    * Xray for the others. */
  ghost predicate IsPreferred(p: Profile, table: map<Protocol, CoreEngine>, core: CoreEngine) {
    if p.meta.coreType.Some? then core == p.meta.coreType.value
    else if p.Protocol() in table then core == table[p.Protocol()]
    else core == SingBox <==> p.settings.Hysteria2? || IsSingBoxProtocol(p.settings)
  }

  /** Profiles share a protocol exactly when they have settings of the same kind. */
  lemma ProtocolsDiffer(p: Profile, q: Profile)
    ensures p.Protocol() == q.Protocol()
            <==> match p.settings
                 case Vless(_, _, _, _, _) => q.settings.Vless?
                 case Vmess(_, _, _, _, _) => q.settings.Vmess?
                 case Trojan(_, _) => q.settings.Trojan?
                 case Shadowsocks(_, _, _) => q.settings.Shadowsocks?
                 case Socks => q.settings.Socks?
                 case Http(_) => q.settings.Http?
                 case Wireguard => q.settings.Wireguard?
                 case Hysteria2(_) => q.settings.Hysteria2?
                 case Tuic(_) => q.settings.Tuic?
                 case Anytls(_) => q.settings.Anytls?
                 case Naive(_) => q.settings.Naive?
                 case Shadowtls(_) => q.settings.Shadowtls?
                 case Custom(_) => q.settings.Custom?
  {}

  lemma PreferredExactly(p: Profile, table: map<Protocol, CoreEngine>)
    ensures IsPreferred(p, table, PreferredCore(p, table))
  {}

  /** The core of a profile without hops. */
  lemma AloneExactly(p: Profile, table: map<Protocol, CoreEngine>, ps: seq<Profile>)
    requires p.meta.via.None?
    ensures var r := Resolution(p, table, ps);
            && r.Ok?
            && if NeedsXray(p.settings) then r.value == Xray
               else if NeedsSingBox(p.settings) then r.value == SingBox
               else IsPreferred(p, table, r.value)
  {
    ForcedExactly(p);
    PreferredExactly(p, table);
    assert Members(p, ps) == [p];
    ResolvesUnlessBothNeeded(p, table, ps);
    OnlyForced(p, Xray);
    OnlyForced(p, SingBox);
  }

  /** The core of any chain, from the fields of its members. */
  lemma ChainExactly(p: Profile, table: map<Protocol, CoreEngine>, ps: seq<Profile>)
    ensures var ms, r := Members(p, ps), Resolution(p, table, ps);
            && (r.Err? <==> (exists m <- ms :: NeedsXray(m.settings)) && exists m <- ms :: NeedsSingBox(m.settings))
            && (r.Ok? && (exists m <- ms :: NeedsXray(m.settings)) ==> r.value == Xray)
            && (r.Ok? && (exists m <- ms :: NeedsSingBox(m.settings)) ==> r.value == SingBox)
            && ((forall m <- ms :: !NeedsXray(m.settings) && !NeedsSingBox(m.settings)) ==>
                  r.Ok? && IsPreferred(p, table, r.value))
  {
    ResolvesUnlessBothNeeded(p, table, ps);
    PreferredExactly(p, table);
    forall m <- Members(p, ps)
      ensures (ForcedCore(m) == Some(Xray) <==> NeedsXray(m.settings))
              && (ForcedCore(m) == Some(SingBox) <==> NeedsSingBox(m.settings))
    {
      ForcedExactly(m);
    }
  }

  /** The first member that satisfies `needs` is the `i`-th. */
  ghost predicate IsFirst(ms: seq<Profile>, i: nat, needs: Settings -> bool) {
    i < |ms| && needs(ms[i].settings) && forall j | 0 <= j < i :: !needs(ms[j].settings)
  }

  lemma {:induction false} FirstForcedIsFirst(
      ms: seq<Profile>, n: nat, forced: Needs, core: CoreEngine, needs: Settings -> bool) returns (i: nat)
    requires n <= |ms| && forall m <- ms :: forced(m) == Some(core) <==> needs(m.settings)
    ensures match FirstForced(ms, n, forced, core)
            case Some(m) => i < n && IsFirst(ms, i, needs) && m == ms[i]
            case None => forall j | 0 <= j < n :: !needs(ms[j].settings)
  {
    i := 0;
    if n > 0 {
      i := FirstForcedIsFirst(ms, n - 1, forced, core, needs);
      assert ms[n - 1] in ms;
      if FirstForced(ms, n - 1, forced, core).None? && needs(ms[n - 1].settings) {
        i := n - 1;
      }
    }
  }

  /** Which member a chain's core is blamed on: the first that needs it, or the first of each
    * when both are needed. */
  lemma BlameExactly(p: Profile, ps: seq<Profile>) returns (x: nat, s: nat)
    ensures var ms := Members(p, ps);
            match ForcedFor(p, ps, ForcedCore)
            case Err(conflict) =>
              && IsFirst(ms, x, NeedsXray) && IsFirst(ms, s, NeedsSingBox)
              && conflict == ChainCoreConflict(ms[x].meta.remarks, ms[s].meta.remarks)
            case Ok(Some(Need(Xray, m))) => IsFirst(ms, x, NeedsXray) && m == ms[x]
            case Ok(Some(Need(SingBox, m))) => IsFirst(ms, s, NeedsSingBox) && m == ms[s]
            case Ok(None) => forall m <- ms :: !NeedsXray(m.settings) && !NeedsSingBox(m.settings)
  {
    var ms := Members(p, ps);
    forall m <- ms
      ensures (ForcedCore(m) == Some(Xray) <==> NeedsXray(m.settings))
              && (ForcedCore(m) == Some(SingBox) <==> NeedsSingBox(m.settings))
    {
      ForcedExactly(m);
    }
    x := FirstForcedIsFirst(ms, |ms|, ForcedCore, Xray, NeedsXray);
    s := FirstForcedIsFirst(ms, |ms|, ForcedCore, SingBox, NeedsSingBox);
  }

  // ---------- What sing-box would lose ----------

  /** The profile has the setting, of those sing-box cannot carry. */
  predicate WouldLose(s: Settings, setting: XrayOnlySetting) {
    && !s.Custom? && !IsSingBoxProtocol(s)
    && match setting
       case VisionUdp443Flow => s.Vless? && s.flow.VisionUdp443?
       case VlessEncryption => s.Vless? && s.encryption != "" && s.encryption != "none"
       case KcpTransport => s.TransportOf().Some? && s.TransportOf().value.Kcp?
       case XhttpTransport => s.TransportOf().Some? && s.TransportOf().value.Xhttp?
       case GrpcServicePath =>
         && s.TransportOf().Some? && s.TransportOf().value.Grpc?
         && s.TransportOf().value.serviceName != "" && s.TransportOf().value.serviceName[0] == '/'
       case VerifyPeerCertName => s.TlsOf().Some? && s.TlsOf().value.vcn != ""
  }

  lemma LossesExactly(p: Profile, setting: XrayOnlySetting)
    ensures Pin(Xray, Some(setting)) in CapabilityPins(p) <==> WouldLose(p.settings, setting)
  {
    var s := p.settings;
    var transport := if s.TransportOf().Some? then TransportPins(s.TransportOf().value) else [];
    var tls := if s.TlsOf().Some? then TlsPins(s.TlsOf().value) else [];
    ProtocolLosses(s, setting);
    if s.TransportOf().Some? {
      TransportLosses(s.TransportOf().value, setting);
    }
  }

  lemma ProtocolLosses(s: Settings, setting: XrayOnlySetting)
    ensures Pin(Xray, Some(setting)) in ProtocolPins(s)
            <==> s.Vless? && ((setting.VisionUdp443Flow? && s.flow.VisionUdp443?)
                              || (setting.VlessEncryption? && s.encryption != "" && s.encryption != "none"))
  {}

  lemma TransportLosses(t: Transport, setting: XrayOnlySetting)
    ensures Pin(Xray, Some(setting)) in TransportPins(t)
            <==> (setting.KcpTransport? && t.Kcp?) || (setting.XhttpTransport? && t.Xhttp?)
                 || (setting.GrpcServicePath? && t.Grpc? && t.serviceName != "" && t.serviceName[0] == '/')
  {}
}
