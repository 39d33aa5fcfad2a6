/** The same for Xray, whose socket options sit per outbound and per XHTTP
  * download leg: bind them to the uplink, or mark them past the tun. */
module XrayEscape {
  import opened JsonValue
  import opened Wrappers
  import opened OutboundBind

  datatype Escape = Bind(iface: string, source: Uplink) | Mark(mark: nat)

  const SOCKOPT := "sockopt"
  const STREAM := "streamSettings"
  const XHTTP := "xhttpSettings"
  const LEG := "downloadSettings"
  const EXTRA := "extra"
  const SEND := "sendThrough"

  predicate IsLocal(protocol: string) {
    protocol == "" || protocol == "blackhole" || protocol == "loopback"
  }

  function XrayServers(ob: Fields): seq<string> {
    if "settings" in ob && ob["settings"].Obj? then
      var settings := ob["settings"].fields;
      TextsAt(ArrayAt(settings, "vnext"), "address") + TextsAt(ArrayAt(settings, "servers"), "address")
      + TextAt(settings, "address") + TextsAt(ArrayAt(settings, "peers"), "endpoint")
    else []
  }

  /** The outbound dials through the one its `proxySettings` name. */
  predicate IsRelayed(ob: Fields) {
    "proxySettings" in ob && ob["proxySettings"].TextOr("tag", "") != ""
  }

  /** The outbound has traffic of its own to send off this device. */
  predicate SendsOut(ob: Fields, ips: IpParser) {
    !IsLocal(Obj(ob).TextOr("protocol", "")) && !DialsOnlyLoopback(XrayServers(ob), ips)
  }

  function EscapeKey(e: Escape): string {
    if e.Bind? then "interface" else "mark"
  }

  function EscapeValue(e: Escape): Json {
    match e case Bind(iface, _) => Str(iface) case Mark(mark) => Num(mark)
  }

  function SockoptOf(stream: Fields): Json {
    if SOCKOPT in stream then stream[SOCKOPT] else Obj(map[])
  }

  /** The socket of this stream is its own, and its options can be set. */
  predicate OwnsSocket(stream: Fields) {
    SockoptOf(stream).Obj? && SockoptOf(stream).TextOr("dialerProxy", "") == ""
  }

  function SockoptEscaped(stream: Fields, e: Escape): Fields {
    var sock := SockoptOf(stream);
    if !sock.Obj? then stream
    else if !OwnsSocket(stream) then stream[SOCKOPT := sock]
    else stream[SOCKOPT := Obj(sock.fields[EscapeKey(e) := EscapeValue(e)])]
  }

  predicate IsLoopbackLeg(leg: Fields, ips: IpParser) {
    "address" in leg && leg["address"].Str? && LoopbackFamily(leg["address"].s, ips).Some?
  }

  function LegEscaped(leg: Json, e: Escape, ips: IpParser): Json {
    if leg.Obj? && !IsLoopbackLeg(leg.fields, ips) then Obj(SockoptEscaped(leg.fields, e)) else leg
  }

  function ParentEscaped(parent: Json, e: Escape, ips: IpParser): Json {
    if parent.Has(LEG) then Obj(parent.fields[LEG := LegEscaped(parent.fields[LEG], e, ips)]) else parent
  }

  /** Both places a download leg may stand. */
  function XhttpEscaped(xhttp: Json, e: Escape, ips: IpParser): Json {
    var outer := ParentEscaped(xhttp, e, ips);
    if outer.Has(EXTRA) then Obj(outer.fields[EXTRA := ParentEscaped(outer.fields[EXTRA], e, ips)]) else outer
  }

  function LegsEscaped(stream: Fields, e: Escape, ips: IpParser): Fields {
    if XHTTP in stream then stream[XHTTP := XhttpEscaped(stream[XHTTP], e, ips)] else stream
  }

  function WithStream(ob: Fields): Fields {
    if !IsRelayed(ob) && STREAM !in ob then ob[STREAM := Obj(map[])] else ob
  }

  /** `ob` with stream settings whose legs are done, escaped in turn when the socket
    * is its own. */
  function Settled(ob: Fields, stream: Fields, relayed: bool, e: Escape): Fields {
    if relayed then ob[STREAM := Obj(stream)]
    else
      var done := ob[STREAM := Obj(SockoptEscaped(stream, e))];
      if OwnsSocket(stream) && e.Bind? && e.source.v4.Some? then done[SEND := Str(e.source.v4.value)] else done
  }

  function Escaped(ob: Fields, e: Escape, ips: IpParser): Fields {
    var own := WithStream(ob);
    if !SendsOut(ob, ips) then ob
    else if !(STREAM in own && own[STREAM].Obj?) then own
    else Settled(own, LegsEscaped(own[STREAM].fields, e, ips), IsRelayed(ob), e)
  }

  function Escaper(e: Escape, ips: IpParser): Json -> Json {
    (v: Json) => if v.Obj? then Obj(Escaped(v.fields, e, ips)) else v
  }

  /** Escape the outbounds and endpoints of an Xray config in place. */
  method EscapeXrayOutbounds(config: Config, e: Escape, ips: IpParser)
    modifies config
    ensures Objects(config.value) == Mapped(old(Objects(config.value)), Escaper(e, ips))
    ensures forall k | k != OUTBOUNDS && k != ENDPOINTS ::
              (config.value.Has(k) <==> old(config.value).Has(k))
              && (config.value.Has(k) ==> config.value.fields[k] == old(config.value).fields[k])
  {
    ObjectsMapped(config.value, Escaper(e, ips));
    config.MapArray(OUTBOUNDS, Escaper(e, ips));
    config.MapArray(ENDPOINTS, Escaper(e, ips));
  }

  lemma XrayKeysDiffer()
    ensures SOCKOPT != XHTTP && LEG != EXTRA && STREAM != SEND
    ensures "interface" != "dialerProxy" && "mark" != "dialerProxy"
    ensures SOCKOPT != "address" && STREAM != "protocol" && STREAM != "settings" && STREAM != "proxySettings"
    ensures SEND != "protocol" && SEND != "settings" && SEND != "proxySettings"
  {
    assert |SOCKOPT| == 7 && |XHTTP| == 13 && |LEG| == 16 && |EXTRA| == 5 && |STREAM| == 14;
    assert |SEND| == 11 && |"interface"| == 9 && |"mark"| == 4 && |"dialerProxy"| == 11;
    assert |"address"| == 7 && SOCKOPT[0] == 's' && "address"[0] == 'a';
    assert |"protocol"| == 8 && |"settings"| == 8 && |"proxySettings"| == 13;
  }

  lemma SockoptEscapedOnce(stream: Fields, e: Escape)
    ensures var once := SockoptEscaped(stream, e);
            && SockoptEscaped(once, e) == once && OwnsSocket(once) == OwnsSocket(stream)
            && (forall k | k != SOCKOPT :: (k in once <==> k in stream) && (k in stream ==> once[k] == stream[k]))
            && (OwnsSocket(stream)
                ==> SockoptOf(once).Has(EscapeKey(e)) && SockoptOf(once).fields[EscapeKey(e)] == EscapeValue(e))
            && (!OwnsSocket(stream) ==> SockoptOf(once) == SockoptOf(stream))
  {
    var sock, once := SockoptOf(stream), SockoptEscaped(stream, e);
    if OwnsSocket(stream) {
      EscapeKeepsDialer(sock.fields, e);
      var fields := sock.fields[EscapeKey(e) := EscapeValue(e)];
      assert once[SOCKOPT] == Obj(fields);
      assert fields[EscapeKey(e) := EscapeValue(e)] == fields;
      assert once[SOCKOPT := Obj(fields)] == once;
    } else if sock.Obj? {
      assert once[SOCKOPT] == sock;
      assert once[SOCKOPT := sock] == once;
    }
  }

  lemma EscapeKeepsDialer(sock: Fields, e: Escape)
    ensures Obj(sock[EscapeKey(e) := EscapeValue(e)]).TextOr("dialerProxy", "") == Obj(sock).TextOr("dialerProxy", "")
  {
    XrayKeysDiffer();
  }

  lemma LegEscapedOnce(leg: Json, e: Escape, ips: IpParser)
    ensures LegEscaped(LegEscaped(leg, e, ips), e, ips) == LegEscaped(leg, e, ips)
  {
    if leg.Obj? {
      XrayKeysDiffer();
      SockoptEscapedOnce(leg.fields, e);
    }
  }

  lemma ParentEscapedOnce(parent: Json, e: Escape, ips: IpParser)
    ensures ParentEscaped(ParentEscaped(parent, e, ips), e, ips) == ParentEscaped(parent, e, ips)
    ensures parent.Obj? == ParentEscaped(parent, e, ips).Obj?
    ensures parent.Obj? ==> forall k | k != LEG ::
              (parent.Has(k) <==> ParentEscaped(parent, e, ips).Has(k))
              && (parent.Has(k) ==> ParentEscaped(parent, e, ips).fields[k] == parent.fields[k])
  {
    if parent.Has(LEG) {
      LegEscapedOnce(parent.fields[LEG], e, ips);
      var leg := LegEscaped(parent.fields[LEG], e, ips);
      assert parent.fields[LEG := leg][LEG := leg] == parent.fields[LEG := leg];
    }
  }

  lemma XhttpEscapedOnce(xhttp: Json, e: Escape, ips: IpParser)
    ensures XhttpEscaped(XhttpEscaped(xhttp, e, ips), e, ips) == XhttpEscaped(xhttp, e, ips)
  {
    XrayKeysDiffer();
    var outer := ParentEscaped(xhttp, e, ips);
    ParentEscapedOnce(xhttp, e, ips);
    if outer.Has(EXTRA) {
      var x := outer.fields[EXTRA];
      ParentEscapedOnce(x, e, ips);
      var once := Obj(outer.fields[EXTRA := ParentEscaped(x, e, ips)]);
      assert XhttpEscaped(xhttp, e, ips) == once;
      ParentIgnoresExtra(outer, ParentEscaped(x, e, ips), e, ips);
      assert once.fields[EXTRA := once.fields[EXTRA]] == once.fields;
    }
  }

  lemma ParentIgnoresExtra(outer: Json, x: Json, e: Escape, ips: IpParser)
    requires outer.Obj? && ParentEscaped(outer, e, ips) == outer
    ensures var v := Obj(outer.fields[EXTRA := x]); ParentEscaped(v, e, ips) == v
  {
    XrayKeysDiffer();
    var v := Obj(outer.fields[EXTRA := x]);
    if outer.Has(LEG) {
      assert outer.fields[LEG := LegEscaped(outer.fields[LEG], e, ips)] == outer.fields;
      assert outer.fields[LEG := LegEscaped(outer.fields[LEG], e, ips)][LEG] == outer.fields[LEG];
      assert v.fields[LEG := v.fields[LEG]] == v.fields;
    }
  }

  /** Legs and socket options do not disturb each other. */
  lemma StreamEscapedOnce(stream: Fields, e: Escape, ips: IpParser)
    ensures var legs := LegsEscaped(stream, e, ips);
            && LegsEscaped(legs, e, ips) == legs
            && OwnsSocket(legs) == OwnsSocket(stream)
            && LegsEscaped(SockoptEscaped(legs, e), e, ips) == SockoptEscaped(legs, e)
  {
    XrayKeysDiffer();
    var legs := LegsEscaped(stream, e, ips);
    var both := SockoptEscaped(legs, e);
    SockoptEscapedOnce(legs, e);
    if XHTTP in stream {
      XhttpEscapedOnce(stream[XHTTP], e, ips);
      assert legs[XHTTP := legs[XHTTP]] == legs;
      assert both[XHTTP := both[XHTTP]] == both;
    }
  }

  lemma SameWay(a: Fields, b: Fields, ips: IpParser)
    requires forall k | k == "protocol" || k == "settings" || k == "proxySettings" ::
               (k in a <==> k in b) && (k in a ==> a[k] == b[k])
    ensures SendsOut(a, ips) == SendsOut(b, ips) && IsRelayed(a) == IsRelayed(b)
  {
    assert Obj(a).TextOr("protocol", "") == Obj(b).TextOr("protocol", "");
    assert XrayServers(a) == XrayServers(b);
  }

  lemma EscapedSendsAlike(ob: Fields, e: Escape, ips: IpParser)
    ensures SendsOut(Escaped(ob, e, ips), ips) == SendsOut(ob, ips) && IsRelayed(Escaped(ob, e, ips)) == IsRelayed(ob)
  {
    var once := Escaped(ob, e, ips);
    forall k | k == "protocol" || k == "settings" || k == "proxySettings"
      ensures (k in once <==> k in ob) && (k in ob ==> once[k] == ob[k])
    {
      EscapedKeeps(ob, e, ips, k);
    }
    SameWay(once, ob, ips);
  }

  lemma EscapedKeeps(ob: Fields, e: Escape, ips: IpParser, k: string)
    requires k == "protocol" || k == "settings" || k == "proxySettings"
    ensures var once := Escaped(ob, e, ips); (k in once <==> k in ob) && (k in ob ==> once[k] == ob[k])
  {
    var own := WithStream(ob);
    XrayKeysDiffer();
    if SendsOut(ob, ips) && STREAM in own && own[STREAM].Obj? {
      SettledKeeps(own, LegsEscaped(own[STREAM].fields, e, ips), IsRelayed(ob), e, k);
    }
  }

  lemma SettledKeeps(ob: Fields, stream: Fields, relayed: bool, e: Escape, k: string)
    requires k != STREAM && k != SEND
    ensures var done := Settled(ob, stream, relayed, e); (k in done <==> k in ob) && (k in ob ==> done[k] == ob[k])
  {}

  /** Escaping an outbound again changes nothing. */
  lemma EscapeIsIdempotent(ob: Fields, e: Escape, ips: IpParser)
    ensures Escaped(Escaped(ob, e, ips), e, ips) == Escaped(ob, e, ips)
  {
    XrayKeysDiffer();
    EscapedSendsAlike(ob, e, ips);
    var own, once := WithStream(ob), Escaped(ob, e, ips);
    if SendsOut(ob, ips) && STREAM in own && own[STREAM].Obj? {
      var stream := own[STREAM].fields;
      var legs := LegsEscaped(stream, e, ips);
      StreamEscapedOnce(stream, e, ips);
      SockoptEscapedOnce(legs, e);
      assert once[STREAM] == Obj(if IsRelayed(ob) then legs else SockoptEscaped(legs, e));
      assert WithStream(once) == once;
      assert once[STREAM := once[STREAM]] == once;
      if !IsRelayed(ob) && OwnsSocket(legs) && e.Bind? && e.source.v4.Some? {
        assert once[SEND] == Str(e.source.v4.value);
        assert once[SEND := once[SEND]] == once;
      }
    }
  }

  /** The settings of the socket an outbound opens itself, `None` where its stream
    * settings are not an object. */
  function OwnStream(ob: Fields): Option<Fields> {
    if STREAM !in ob then Some(map[]) else if ob[STREAM].Obj? then Some(ob[STREAM].fields) else None
  }

  ghost predicate CarriesEscape(ob: Fields, e: Escape) {
    OwnStream(ob).Some? && SockoptOf(OwnStream(ob).value).Has(EscapeKey(e))
    && SockoptOf(OwnStream(ob).value).fields[EscapeKey(e)] == EscapeValue(e)
  }

  /** An outbound that carried no escape carries it afterwards exactly when it sends
    * traffic off this device through a socket of its own. */
  lemma EscapedExactly(ob: Fields, e: Escape, ips: IpParser)
    requires !CarriesEscape(ob, e)
    ensures CarriesEscape(Escaped(ob, e, ips), e) <==>
            SendsOut(ob, ips) && !IsRelayed(ob) && OwnStream(ob).Some? && OwnsSocket(OwnStream(ob).value)
  {
    XrayKeysDiffer();
    var own := WithStream(ob);
    if SendsOut(ob, ips) && STREAM in own && own[STREAM].Obj? {
      var stream := own[STREAM].fields;
      StreamEscapedOnce(stream, e, ips);
      SockoptEscapedOnce(LegsEscaped(stream, e, ips), e);
      assert SockoptOf(LegsEscaped(stream, e, ips)) == SockoptOf(stream);
    }
  }

  /** A download leg of an outbound, direct or under `extra`. */
  ghost predicate IsLegOf(ob: Fields, leg: Fields) {
    && STREAM in ob && ob[STREAM].Has(XHTTP)
    && var xhttp := ob[STREAM].fields[XHTTP];
       || (xhttp.Has(LEG) && xhttp.fields[LEG] == Obj(leg))
       || (xhttp.Has(EXTRA) && xhttp.fields[EXTRA].Has(LEG) && xhttp.fields[EXTRA].fields[LEG] == Obj(leg))
  }

  /** A leg dials its own server even when its outbound is relayed, so every leg
    * that leaves this device through its own socket carries the escape. */
  lemma LegsEscape(ob: Fields, e: Escape, ips: IpParser, leg: Fields)
    requires SendsOut(ob, ips) && IsLegOf(Escaped(ob, e, ips), leg)
    requires !IsLoopbackLeg(leg, ips) && OwnsSocket(leg)
    ensures SockoptOf(leg).Has(EscapeKey(e)) && SockoptOf(leg).fields[EscapeKey(e)] == EscapeValue(e)
  {
    EscapeIsIdempotent(ob, e, ips);
    EscapedSendsAlike(ob, e, ips);
    EscapedLegs(Escaped(ob, e, ips), e, ips);
    var xhttp := Escaped(ob, e, ips)[STREAM].fields[XHTTP];
    XhttpLegs(xhttp, e, ips, leg);
    SockoptEscapedOnce(leg, e);
  }

  lemma EscapedLegs(ob: Fields, e: Escape, ips: IpParser)
    requires SendsOut(ob, ips) && Escaped(ob, e, ips) == ob && STREAM in ob && ob[STREAM].Has(XHTTP)
    ensures XhttpEscaped(ob[STREAM].fields[XHTTP], e, ips) == ob[STREAM].fields[XHTTP]
  {
    XrayKeysDiffer();
    var stream := ob[STREAM].fields;
    var legs := LegsEscaped(stream, e, ips);
    SockoptEscapedOnce(legs, e);
    assert Escaped(ob, e, ips)[STREAM].fields[XHTTP] == legs[XHTTP];
  }

  lemma XhttpLegs(xhttp: Json, e: Escape, ips: IpParser, leg: Fields)
    requires XhttpEscaped(xhttp, e, ips) == xhttp
    requires (xhttp.Has(LEG) && xhttp.fields[LEG] == Obj(leg))
          || (xhttp.Has(EXTRA) && xhttp.fields[EXTRA].Has(LEG) && xhttp.fields[EXTRA].fields[LEG] == Obj(leg))
    requires !IsLoopbackLeg(leg, ips)
    ensures SockoptEscaped(leg, e) == leg
  {
    XrayKeysDiffer();
    ParentEscapedOnce(xhttp, e, ips);
    if xhttp.Has(LEG) && xhttp.fields[LEG] == Obj(leg) {
      assert XhttpEscaped(xhttp, e, ips).fields[LEG] == LegEscaped(Obj(leg), e, ips);
    } else {
      var x := xhttp.fields[EXTRA];
      assert XhttpEscaped(xhttp, e, ips).fields[EXTRA] == ParentEscaped(x, e, ips);
      assert ParentEscaped(x, e, ips).fields[LEG] == LegEscaped(Obj(leg), e, ips);
    }
  }
}
