/** What escaping does to every field of an Xray outbound: which outbounds, legs and sockets
  * carry the escape, and that nothing else changes. */
module EscapeFields {
  import opened JsonValue
  import opened Wrappers
  import opened OutboundBind
  import opened XrayEscape

  // ---------- Which outbounds ----------

  /** An entry of the list at `list` of `m` has the text `s` at `key`. */
  ghost predicate Lists(m: Json, list: string, key: string, s: string) {
    m.Has(list) && m.fields[list].Arr? && exists p <- m.fields[list].items :: p.Has(key) && p.fields[key] == Str(s)
  }

  ghost predicate IsXrayServer(ob: Fields, s: string) {
    && "settings" in ob
    && var settings := ob["settings"];
       || Lists(settings, "vnext", "address", s) || Lists(settings, "servers", "address", s)
       || (settings.Has("address") && settings.fields["address"] == Str(s)) || Lists(settings, "peers", "endpoint", s)
  }

  lemma XrayServersAre(ob: Fields, s: string)
    ensures s in XrayServers(ob) <==> IsXrayServer(ob, s)
  {
    if "settings" in ob && ob["settings"].Obj? {
      var settings := ob["settings"].fields;
      TextsAre(ArrayAt(settings, "vnext"), "address", s);
      TextsAre(ArrayAt(settings, "servers"), "address", s);
      TextsAre(ArrayAt(settings, "peers"), "endpoint", s);
    }
  }

  /** The protocol sends traffic, and not only to servers on this device. */
  ghost predicate LeavesDevice(ob: Fields, ips: IpParser) {
    && "protocol" in ob && ob["protocol"].Str? && ob["protocol"].s !in ["", "blackhole", "loopback"]
    && ((forall s :: !IsXrayServer(ob, s)) || exists s :: IsXrayServer(ob, s) && LoopbackFamily(s, ips).None?)
  }

  lemma LeavesExactly(ob: Fields, ips: IpParser)
    ensures SendsOut(ob, ips) <==> LeavesDevice(ob, ips)
  {
    var servers := XrayServers(ob);
    forall s ensures s in servers <==> IsXrayServer(ob, s) {
      XrayServersAre(ob, s);
    }
    if servers != [] {
      assert IsXrayServer(ob, servers[0]);
    }
    forall i | 0 <= i < |servers| ensures IsXrayServer(ob, servers[i]) {
      assert servers[i] in servers;
    }
  }

  /** Another outbound carries its traffic. */
  predicate RidesAnother(ob: Fields) {
    && "proxySettings" in ob && ob["proxySettings"].Has("tag")
    && ob["proxySettings"].fields["tag"].Str? && ob["proxySettings"].fields["tag"].s != ""
  }

  // ---------- Sockets ----------

  /** `s` with what `from` has at every other field. */
  ghost predicate OthersStay(from: Fields, to: Fields, keys: set<string>) {
    forall k | k !in keys :: HasTextOrKeeps(from, to, k, None)
  }

  /** The socket options are missing, or an object that names no dialer. */
  predicate IsOwnSocket(stream: Fields) {
    "sockopt" in stream ==>
      && stream["sockopt"].Obj?
      && !(stream["sockopt"].Has("dialerProxy") && stream["sockopt"].fields["dialerProxy"].Str?
           && stream["sockopt"].fields["dialerProxy"].s != "")
  }

  /** The options gain the interface or the mark. */
  ghost predicate OptionsGain(from: Fields, to: Fields, e: Escape) {
    match e
    case Bind(iface, _) => "interface" in to && to["interface"] == Str(iface) && OthersStay(from, to, {"interface"})
    case Mark(mark) => "mark" in to && to["mark"] == Num(mark) && OthersStay(from, to, {"mark"})
  }

  /** The socket options of a stream, escaped where the socket is its own. */
  ghost predicate SocketEscapes(from: Fields, to: Fields, e: Escape) {
    && OthersStay(from, to, {"sockopt"})
    && if IsOwnSocket(from)
       then "sockopt" in to && to["sockopt"].Obj?
            && OptionsGain(if "sockopt" in from then from["sockopt"].fields else map[], to["sockopt"].fields, e)
       else to == from
  }

  lemma SocketEscapesExactly(stream: Fields, e: Escape)
    ensures SocketEscapes(stream, SockoptEscaped(stream, e), e) && (OwnsSocket(stream) <==> IsOwnSocket(stream))
  {
    var sock := SockoptOf(stream);
    if sock.Obj? && SOCKOPT in stream && !OwnsSocket(stream) {
      assert stream[SOCKOPT := sock] == stream;
    }
  }

  // ---------- Download legs ----------

  /** A leg that is an object and does not dial this device has its socket escaped. */
  ghost predicate LegEscapes(from: Json, to: Json, e: Escape, ips: IpParser) {
    if from.Obj? && !(from.Has("address") && from.fields["address"].Str?
                      && LoopbackFamily(from.fields["address"].s, ips).Some?)
    then to.Obj? && SocketEscapes(from.fields, to.fields, e)
    else to == from
  }

  ghost predicate ParentEscapes(from: Json, to: Json, e: Escape, ips: IpParser) {
    if from.Has("downloadSettings") then
      && to.Has("downloadSettings") && OthersStay(from.fields, to.fields, {"downloadSettings"})
      && LegEscapes(from.fields["downloadSettings"], to.fields["downloadSettings"], e, ips)
    else to == from
  }

  /** XHTTP settings with a leg of their own and one under `extra`. */
  ghost predicate XhttpEscapes(from: Json, to: Json, e: Escape, ips: IpParser) {
    if !from.Obj? then to == from
    else
      && to.Obj? && OthersStay(from.fields, to.fields, {"downloadSettings", "extra"})
      && (if from.Has("downloadSettings")
          then to.Has("downloadSettings")
               && LegEscapes(from.fields["downloadSettings"], to.fields["downloadSettings"], e, ips)
          else !to.Has("downloadSettings"))
      && (if from.Has("extra") then to.Has("extra") && ParentEscapes(from.fields["extra"], to.fields["extra"], e, ips)
          else !to.Has("extra"))
  }

  lemma LegEscapesExactly(leg: Json, e: Escape, ips: IpParser)
    ensures LegEscapes(leg, LegEscaped(leg, e, ips), e, ips)
  {
    if leg.Obj? {
      SocketEscapesExactly(leg.fields, e);
    }
  }

  lemma ParentEscapesExactly(parent: Json, e: Escape, ips: IpParser)
    ensures ParentEscapes(parent, ParentEscaped(parent, e, ips), e, ips)
  {
    if parent.Has(LEG) {
      LegEscapesExactly(parent.fields[LEG], e, ips);
    }
  }

  lemma XhttpEscapesExactly(xhttp: Json, e: Escape, ips: IpParser)
    ensures XhttpEscapes(xhttp, XhttpEscaped(xhttp, e, ips), e, ips)
  {
    XrayKeysDiffer();
    var outer := ParentEscaped(xhttp, e, ips);
    ParentEscapesExactly(xhttp, e, ips);
    if outer.Has(EXTRA) {
      ParentEscapesExactly(outer.fields[EXTRA], e, ips);
    }
  }

  // ---------- The whole outbound ----------

  /** The stream settings: the legs of XHTTP, and the stream's own socket unless another
    * outbound carries it. */
  ghost predicate StreamEscapes(from: Fields, to: Fields, rides: bool, e: Escape, ips: IpParser) {
    && OthersStay(from, to, {"sockopt", "xhttpSettings"})
    && (if "xhttpSettings" in from
        then "xhttpSettings" in to && XhttpEscapes(from["xhttpSettings"], to["xhttpSettings"], e, ips)
        else "xhttpSettings" !in to)
    && (if !rides && IsOwnSocket(from)
        then "sockopt" in to && to["sockopt"].Obj?
             && OptionsGain(if "sockopt" in from then from["sockopt"].fields else map[], to["sockopt"].fields, e)
        else HasTextOrKeeps(from, to, "sockopt", None))
  }

  ghost predicate OutboundEscapes(from: Fields, to: Fields, e: Escape, ips: IpParser) {
    var rides := RidesAnother(from);
    if !LeavesDevice(from, ips) || ("streamSettings" in from && !from["streamSettings"].Obj?)
       || (rides && "streamSettings" !in from)
    then to == from
    else
      var stream := if "streamSettings" in from then from["streamSettings"].fields else map[];
      && OthersStay(from, to, {"streamSettings", "sendThrough"})
      && "streamSettings" in to && to["streamSettings"].Obj?
      && StreamEscapes(stream, to["streamSettings"].fields, rides, e, ips)
      && HasTextOrKeeps(from, to, "sendThrough",
                        if !rides && IsOwnSocket(stream) && e.Bind? then e.source.v4 else None)
  }

  lemma LegsEscapeExactly(stream: Fields, e: Escape, ips: IpParser)
    ensures var legs := LegsEscaped(stream, e, ips);
            && OthersStay(stream, legs, {"xhttpSettings"})
            && (if "xhttpSettings" in stream
                then "xhttpSettings" in legs && XhttpEscapes(stream["xhttpSettings"], legs["xhttpSettings"], e, ips)
                else "xhttpSettings" !in legs)
  {
    if XHTTP in stream {
      XhttpEscapesExactly(stream[XHTTP], e, ips);
    }
  }

  lemma StreamEscapesExactly(stream: Fields, rides: bool, e: Escape, ips: IpParser)
    ensures var legs := LegsEscaped(stream, e, ips);
            && StreamEscapes(stream, if rides then legs else SockoptEscaped(legs, e), rides, e, ips)
            && (OwnsSocket(legs) <==> IsOwnSocket(stream))
  {
    XrayKeysDiffer();
    var legs := LegsEscaped(stream, e, ips);
    LegsEscapeExactly(stream, e, ips);
    SocketEscapesExactly(legs, e);
    assert SockoptOf(legs) == SockoptOf(stream);
  }

  lemma SettledExactly(ob: Fields, stream: Fields, rides: bool, e: Escape)
    ensures var done := Settled(ob, stream, rides, e);
            && OthersStay(ob, done, {"streamSettings", "sendThrough"})
            && "streamSettings" in done
            && done["streamSettings"] == Obj(if rides then stream else SockoptEscaped(stream, e))
            && HasTextOrKeeps(ob, done, "sendThrough",
                              if !rides && OwnsSocket(stream) && e.Bind? then e.source.v4 else None)
  {
    XrayKeysDiffer();
  }

  /** Every field of an escaped outbound, from its fields alone. */
  lemma OutboundEscapesExactly(ob: Fields, e: Escape, ips: IpParser)
    ensures OutboundEscapes(ob, Escaped(ob, e, ips), e, ips)
  {
    LeavesExactly(ob, ips);
    assert IsRelayed(ob) == RidesAnother(ob);
    var own := WithStream(ob);
    if SendsOut(ob, ips) && STREAM in own && own[STREAM].Obj? {
      StreamEscapesExactly(own[STREAM].fields, IsRelayed(ob), e, ips);
      SettledExactly(own, LegsEscaped(own[STREAM].fields, e, ips), IsRelayed(ob), e);
    }
  }
}
