/** Proxy profiles, with the fields that decide how a profile is dialled and
  * which core engine can run it. */
module Profiles {
  import opened JsonValue
  import opened Wrappers

  datatype CoreEngine = Xray | SingBox

  datatype Meta = Meta(id: string, remarks: string, coreType: Option<CoreEngine>, via: Option<string>)

  datatype Security = NoSecurity | TlsSecurity | Reality
  datatype Tls = Tls(
    security: Security, allowInsecure: bool, rejectUnknownSni: bool, enableSessionResumption: bool,
    vcn: string, pcs: string, pqv: string)

  datatype HeaderType = NoHeader | HttpHeader | OtherHeader

  datatype Transport =
    | Tcp(headerType: HeaderType)
    | Ws(earlyData: int, heartbeatPeriod: int, acceptProxyProtocol: bool)
    | Grpc(serviceName: string, authority: string, mode: string, userAgent: string,
           pingTimeout: int, healthCheckTimeout: int, initialWindowSize: int)
    | H2
    | Httpupgrade(earlyData: int, acceptProxyProtocol: bool)
    | Xhttp
    | Kcp(headerType: HeaderType)
    | Quic(headerType: HeaderType)
  {
    function HeaderTypeOf(): HeaderType {
      match this
      case Tcp(h) => h
      case Kcp(h) => h
      case Quic(h) => h
      case _ => NoHeader
    }
  }

  datatype PacketEncoding = NoEncoding | Xudp | Packetaddr
  datatype Flow = NoFlow | Vision | VisionUdp443
  datatype SsMethod = Aead | Ss2022 | NoCipher | PlainCipher

  datatype Protocol =
    | VlessP | VmessP | TrojanP | ShadowsocksP | SocksP | HttpP | WireguardP
    | Hysteria2P | TuicP | AnytlsP | NaiveP | ShadowtlsP | CustomP

  /** What is particular to a protocol. A custom profile holds what Xray would
    * load for it: the user's config, or a provider's outbounds once sanitised;
    * nothing when its text is not JSON. */
  datatype Settings =
    | Vless(transport: Transport, tls: Tls, flow: Flow, encryption: string, packetEncoding: PacketEncoding)
    | Vmess(transport: Transport, tls: Tls, packetEncoding: PacketEncoding,
            globalPadding: bool, authenticatedLength: bool)
    | Trojan(transport: Transport, tls: Tls)
    | Shadowsocks(transport: Transport, tls: Tls, ssMethod: SsMethod)
    | Socks
    | Http(tls: Tls)
    | Wireguard
    | Hysteria2(tls: Tls)
    | Tuic(tls: Tls)
    | Anytls(tls: Tls)
    | Naive(tls: Tls)
    | Shadowtls(tls: Tls)
    | Custom(loaded: seq<Json>)
  {
    function TransportOf(): Option<Transport> {
      if Vless? || Vmess? || Trojan? || Shadowsocks? then Some(transport) else None
    }

    function TlsOf(): Option<Tls> {
      if Socks? || Wireguard? || Custom? then None else Some(tls)
    }
  }

  datatype Profile = Profile(meta: Meta, settings: Settings) {
    predicate IsCustom() {
      settings.Custom?
    }

    /** The same profile, dialling through `via`. */
    function Via(via: Option<string>): Profile {
      Profile(meta.(via := via), settings)
    }

    function Protocol(): Protocol {
      match settings
      case Vless(_, _, _, _, _) => VlessP
      case Vmess(_, _, _, _, _) => VmessP
      case Trojan(_, _) => TrojanP
      case Shadowsocks(_, _, _) => ShadowsocksP
      case Socks => SocksP
      case Http(_) => HttpP
      case Wireguard => WireguardP
      case Hysteria2(_) => Hysteria2P
      case Tuic(_) => TuicP
      case Anytls(_) => AnytlsP
      case Naive(_) => NaiveP
      case Shadowtls(_) => ShadowtlsP
      case Custom(_) => CustomP
    }
  }
}
