/** What the sanitising passes do to a document, place by place: which keys go, which stay,
  * and when TLS counts as unpinned. */
module SanitizePlaces {
  import opened JsonValue
  import opened Wrappers
  import opened Places
  import opened Sanitize
  import Text

  predicate IsHeadersKey(k: string) {
    Text.SpellsLower(k, "headers")
  }

  predicate IsSockoptKey(k: string) {
    |k| >= 7 && Text.SpellsLower(k[|k| - 7..], "sockopt")
  }

  lemma HeadersAreSpelled(k: string)
    ensures IsHeaders(k) <==> IsHeadersKey(k)
  {
    Text.LowerSpells(k, "headers");
  }

  lemma SockoptsAreSpelled(k: string)
    ensures IsSockopt(k) <==> IsSockoptKey(k)
  {
    var tail := if |k| >= 7 then k[|k| - 7..] else k;
    Text.LowerSpells(tail, "sockopt");
    assert |k| >= 7 ==> Text.Lower(k)[|k| - 7..] == Text.Lower(tail);
  }

  // ---------- TLS that skips the certificate check ----------

  predicate SkipsCheck(tls: Json) {
    tls.Has("allowInsecure") && tls.fields["allowInsecure"] == Bool(true)
  }

  /** The pin is a text with more than whitespace in it. */
  predicate PinsCertificate(tls: Json) {
    && tls.Has("pinnedPeerCertSha256") && tls.fields["pinnedPeerCertSha256"].Str?
    && var pin := tls.fields["pinnedPeerCertSha256"].s; exists i | 0 <= i < |pin| :: !Text.IsWhitespace(pin[i])
  }

  lemma PinnedExactly(tls: Json)
    ensures AllowsInsecure(tls) == SkipsCheck(tls) && IsPinned(tls) == PinsCertificate(tls)
  {
    Text.BlankExactly(tls.TextOr(PINS, ""));
  }

  /** The place is that of a `tlsSettings`. */
  predicate IsTlsPlace(place: Place) {
    place != [] && place[|place| - 1] == Key("tlsSettings")
  }

  ghost predicate SkipsUnpinnedAt(v: Json, place: Place) {
    && IsTlsPlace(place) && At(v, place).Some?
    && SkipsCheck(At(v, place).value) && !PinsCertificate(At(v, place).value)
  }

  lemma {:induction false} CheckFinds(v: Json) returns (place: Place)
    requires HasUnpinnedAllowInsecure(v)
    ensures SkipsUnpinnedAt(v, place)
  {
    match v
    case Obj(m) =>
      var k :| k in m && ((k == TLS && AllowsInsecure(m[k]) && !IsPinned(m[k])) || HasUnpinnedAllowInsecure(m[k]));
      if k == TLS && AllowsInsecure(m[k]) && !IsPinned(m[k]) {
        PinnedExactly(m[k]);
        place := [Key(k)];
        AtKey(v, k, []);
        assert [Key(k)] + [] == place;
      } else {
        place := CheckFinds(m[k]);
        AtKey(v, k, place);
        place := [Key(k)] + place;
      }
    case Arr(a) =>
      var i :| 0 <= i < |a| && HasUnpinnedAllowInsecure(a[i]);
      place := CheckFinds(a[i]);
      AtIndex(v, i, place);
      place := [Index(i)] + place;
  }

  lemma {:induction false} CheckSees(v: Json, place: Place)
    requires SkipsUnpinnedAt(v, place)
    ensures HasUnpinnedAllowInsecure(v)
  {
    var rest := place[1..];
    match place[0]
    case Key(k) =>
      PinnedExactly(v.fields[k]);
      if rest != [] {
        CheckSees(v.fields[k], rest);
      }
    case Index(i) =>
      assert rest != [];
      CheckSees(v.items[i], rest);
  }

  /** The check is true exactly when some `tlsSettings`, anywhere, skips the check and pins
    * nothing. */
  lemma UnpinnedExactly(v: Json)
    ensures HasUnpinnedAllowInsecure(v) <==> exists place :: SkipsUnpinnedAt(v, place)
  {
    if HasUnpinnedAllowInsecure(v) {
      var place := CheckFinds(v);
    }
    if place :| SkipsUnpinnedAt(v, place) {
      CheckSees(v, place);
    }
  }

  // ---------- What dropping removes ----------

  /** No hop of the place goes through request headers. */
  predicate OutsideHeaders(place: Place) {
    forall i | 0 <= i < |place| && place[i].Key? :: !IsHeadersKey(place[i].key)
  }

  /** The place is the `allowInsecure` of a `tlsSettings`, outside headers, that pins its
    * certificate. */
  ghost predicate IsDropped(v: Json, place: Place) {
    && |place| >= 2 && place[|place| - 1] == Key("allowInsecure") && OutsideHeaders(place)
    && var above := place[..|place| - 1];
       IsTlsPlace(above) && At(v, above).Some? && SkipsCheck(At(v, above).value) && PinsCertificate(At(v, above).value)
  }

  /** The same, where `v` may itself be such a `tlsSettings`. */
  ghost predicate IsDroppedFrom(v: Json, unpin: bool, place: Place) {
    (unpin && place == [Key("allowInsecure")]) || IsDropped(v, place)
  }

  /** The place holds a value of the same shape before and after, or none. */
  ghost predicate StaysAt(v: Json, w: Json, place: Place) {
    At(v, place).Some? == At(w, place).Some?
    && (At(v, place).Some? ==> SameShape(At(v, place).value, At(w, place).value))
  }

  ghost predicate DropsAt(v: Json, w: Json, unpin: bool, place: Place) {
    if IsDroppedFrom(v, unpin, place) then At(w, place).None? else StaysAt(v, w, place)
  }

  lemma DroppedBelowKey(v: Json, k: string, rest: Place)
    requires v.Has(k) && !IsHeadersKey(k)
    ensures IsDropped(v, [Key(k)] + rest) <==> IsDroppedFrom(v.fields[k], Unpins(k, v.fields[k]), rest)
  {
    var place, child := [Key(k)] + rest, v.fields[k];
    PinnedExactly(child);
    if rest != [] {
      var above := place[..|place| - 1];
      assert above == [Key(k)] + rest[..|rest| - 1];
      AtKey(v, k, rest[..|rest| - 1]);
      assert forall i | 0 <= i < |rest| :: place[i + 1] == rest[i];
      assert OutsideHeaders(place) <==> OutsideHeaders(rest);
      if |rest| == 1 {
        assert rest[..0] == [];
        HeadersIsNotInsecure();
      }
    }
  }

  lemma HeadersIsNotInsecure()
    ensures !IsHeadersKey("allowInsecure")
  {
    assert |"allowInsecure"| == 13;
  }

  lemma DroppedBelowIndex(v: Json, i: nat, rest: Place)
    requires v.Arr? && i < |v.items|
    ensures IsDropped(v, [Index(i)] + rest) <==> IsDropped(v.items[i], rest)
  {
    var place := [Index(i)] + rest;
    if rest != [] {
      assert place[..|place| - 1] == [Index(i)] + rest[..|rest| - 1];
      AtIndex(v, i, rest[..|rest| - 1]);
      assert forall j | 0 <= j < |rest| :: place[j + 1] == rest[j];
      assert OutsideHeaders(place) <==> OutsideHeaders(rest);
      if |rest| == 1 {
        assert place[..1][0] == Index(i);
      }
    }
  }

  lemma DropKeepsHeaders(v: Json, unpin: bool, k: string, rest: Place)
    requires v.Has(k) && IsHeadersKey(k)
    ensures DropsAt(v, WithoutPinned(v, unpin), unpin, [Key(k)] + rest)
  {
    var place, w := [Key(k)] + rest, WithoutPinned(v, unpin);
    HeadersAreSpelled(k);
    HeadersIsNotInsecure();
    AtKey(v, k, rest);
    AtKey(w, k, rest);
    assert place[0] == Key(k) && !OutsideHeaders(place);
  }

  lemma DropBelowKey(v: Json, unpin: bool, k: string, rest: Place)
    requires v.Has(k) && !IsHeadersKey(k) && !(unpin && k == INSECURE)
    requires var c, u := v.fields[k], Unpins(k, v.fields[k]); DropsAt(c, WithoutPinned(c, u), u, rest)
    ensures DropsAt(v, WithoutPinned(v, unpin), unpin, [Key(k)] + rest)
  {
    var w := WithoutPinned(v, unpin);
    HeadersAreSpelled(k);
    DroppedBelowKey(v, k, rest);
    assert w.fields[k] == FieldWithoutPinned(k, v.fields[k]);
    AtKey(v, k, rest);
    AtKey(w, k, rest);
    assert ([Key(k)] + rest)[0] == Key(k);
  }

  lemma DropBelowIndex(v: Json, unpin: bool, i: nat, rest: Place)
    requires v.Arr? && i < |v.items| && DropsAt(v.items[i], WithoutPinned(v.items[i], false), false, rest)
    ensures DropsAt(v, WithoutPinned(v, unpin), unpin, [Index(i)] + rest)
  {
    var w := WithoutPinned(v, unpin);
    DroppedBelowIndex(v, i, rest);
    assert w == Arr(ItemsWithoutPinned(v.items, |v.items|));
    AtIndex(v, i, rest);
    AtIndex(w, i, rest);
    assert ([Index(i)] + rest)[0] == Index(i);
  }

  /** There is nothing at the place before or after. */
  lemma NothingThere(v: Json, unpin: bool, place: Place)
    requires place != [] && (unpin ==> AllowsInsecure(v))
    requires match place[0]
             case Key(k) => !v.Has(k) || (unpin && k == INSECURE)
             case Index(i) => !(v.Arr? && i < |v.items|)
    ensures DropsAt(v, WithoutPinned(v, unpin), unpin, place)
  {
    assert At(WithoutPinned(v, unpin), place).None?;
    if place[0].Key? && v.Has(place[0].key) {
      if |place| > 1 {
        assert At(v, place) == At(Bool(true), place[1..]);
      } else {
        assert place == [Key("allowInsecure")];
      }
    }
  }

  lemma {:induction false} DropsBelow(v: Json, unpin: bool, place: Place)
    requires unpin ==> AllowsInsecure(v)
    ensures DropsAt(v, WithoutPinned(v, unpin), unpin, place)
    decreases |place|
  {
    if place != [] {
      var rest := place[1..];
      assert place == [place[0]] + rest;
      match place[0]
      case Key(k) =>
        if !v.Has(k) || (unpin && k == INSECURE) {
          NothingThere(v, unpin, place);
        } else if IsHeadersKey(k) {
          DropKeepsHeaders(v, unpin, k, rest);
        } else {
          DropsBelow(v.fields[k], Unpins(k, v.fields[k]), rest);
          DropBelowKey(v, unpin, k, rest);
        }
      case Index(i) =>
        if v.Arr? && i < |v.items| {
          DropsBelow(v.items[i], false, rest);
          DropBelowIndex(v, unpin, i, rest);
        } else {
          NothingThere(v, unpin, place);
        }
    }
  }

  /** The pass removes the `allowInsecure` of every `tlsSettings` that pins its certificate,
    * outside headers, and nothing else. */
  lemma DropsExactly(v: Json, place: Place)
    ensures var w := WithoutPinned(v, false);
            if IsDropped(v, place) then At(v, place).Some? && At(w, place).None? else StaysAt(v, w, place)
  {
    DropsBelow(v, false, place);
    if IsDropped(v, place) {
      AtEnd(v, place);
    }
  }

  /** The last hop of a place. */
  lemma {:induction false} AtEnd(v: Json, place: Place)
    requires place != [] && place[|place| - 1].Key? && At(v, place[..|place| - 1]).Some?
    ensures var above := At(v, place[..|place| - 1]).value;
            At(v, place) == At(above, [place[|place| - 1]])
    decreases |place|
  {
    var above := place[..|place| - 1];
    if above == [] {
      assert place == [place[0]];
    } else {
      var next := match place[0] case Key(k) => v.fields[k] case Index(i) => v.items[i];
      assert above[1..] == place[1..][..|place| - 2];
      AtEnd(next, place[1..]);
    }
  }

  // ---------- What stripping removes ----------

  /** The place is a `masterKeyLog`, reached outside headers and socket options. */
  predicate IsFile(place: Place) {
    place != [] && place[|place| - 1] == Key("masterKeyLog") && OutsideOptions(place[..|place| - 1])
  }

  predicate OutsideOptions(place: Place) {
    forall i | 0 <= i < |place| && place[i].Key? :: !IsHeadersKey(place[i].key) && !IsSockoptKey(place[i].key)
  }

  predicate IsOption(k: string) {
    || k == "tcpFastOpen" || k == "tcpKeepAliveInterval" || k == "tcpKeepAliveIdle" || k == "tcpNoDelay"
    || k == "tcpcongestion" || k == "domainStrategy" || k == "happyEyeballs" || k == "dialerProxy"
  }

  /** The place is the socket options of some object, outside headers and other options. */
  predicate IsSockoptPlace(place: Place) {
    && place != [] && OutsideOptions(place[..|place| - 1])
    && place[|place| - 1].Key? && IsSockoptKey(place[|place| - 1].key)
  }

  /** The first `n` hops lead to a key that names a file, or the next hop is an option that
    * is not allowed. */
  predicate StripsHere(place: Place, n: nat)
    requires n <= |place|
  {
    || IsFile(place[..n])
    || (n < |place| && IsSockoptPlace(place[..n]) && !(place[n].Key? && IsOption(place[n].key)))
  }

  ghost predicate IsStripped(place: Place) {
    exists n | 0 < n <= |place| :: StripsHere(place, n)
  }

  /** Stripping removes those places and nothing else; socket options that are no object
    * become an empty one. */
  ghost predicate StripsAt(v: Json, w: Json, place: Place) {
    if IsStripped(place) then At(w, place).None?
    else
      && At(v, place).Some? == At(w, place).Some?
      && (At(v, place).Some? ==>
            if IsSockoptPlace(place) && !At(v, place).value.Obj? then At(w, place).value == Obj(map[])
            else SameShape(At(v, place).value, At(w, place).value))
  }

  lemma StripsHereBelow(hop: Hop, rest: Place, n: nat)
    requires 0 < n <= |rest| && (hop.Key? ==> !IsHeadersKey(hop.key) && !IsSockoptKey(hop.key))
    ensures StripsHere([hop] + rest, n + 1) <==> StripsHere(rest, n)
  {
    assert ([hop] + rest)[..n + 1] == [hop] + rest[..n];
    PlaceBelow(hop, rest[..n]);
  }

  lemma StrippedBelow(hop: Hop, rest: Place)
    requires hop.Key? ==> !IsHeadersKey(hop.key) && !IsSockoptKey(hop.key) && hop.key != "masterKeyLog"
    ensures IsStripped([hop] + rest) <==> IsStripped(rest)
    ensures IsSockoptPlace([hop] + rest) <==> IsSockoptPlace(rest)
  {
    var place := [hop] + rest;
    assert place[..1] == [hop] && !StripsHere(place, 1);
    forall n | 0 < n <= |rest| ensures StripsHere(place, n + 1) <==> StripsHere(rest, n) {
      StripsHereBelow(hop, rest, n);
    }
    if n :| 0 < n <= |place| && StripsHere(place, n) {
      assert n != 1 && StripsHere(rest, n - 1);
    }
    if n :| 0 < n <= |rest| && StripsHere(rest, n) {
      assert StripsHere(place, n + 1);
    }
    if rest == [] {
      assert place == [hop];
    } else {
      PlaceBelow(hop, rest);
    }
  }

  lemma PlaceBelow(hop: Hop, rest: Place)
    requires rest != [] && (hop.Key? ==> !IsHeadersKey(hop.key) && !IsSockoptKey(hop.key))
    ensures IsFile([hop] + rest) <==> IsFile(rest)
    ensures IsSockoptPlace([hop] + rest) <==> IsSockoptPlace(rest)
  {
    var place := [hop] + rest;
    var above := rest[..|rest| - 1];
    assert place[..|place| - 1] == [hop] + above;
    assert forall i | 0 <= i < |above| :: ([hop] + above)[i + 1] == above[i];
    assert OutsideOptions([hop] + above) <==> OutsideOptions(above);
  }

  lemma FilesAreOrdinary(k: string)
    requires k == "masterKeyLog"
    ensures !IsHeadersKey(k) && !IsSockoptKey(k)
  {
    assert |k| == 12 && k[5..][6] == k[11] == 'g';
  }

  lemma HeadersAreNoOptions(k: string)
    requires IsHeadersKey(k)
    ensures !IsSockoptKey(k)
  {
    assert |k| == 7 && k[0..][0] == k[0];
    assert k[0] == 'h' || k[0] as int + 32 == 'h' as int;
  }

  lemma OneHop(k: string)
    ensures IsHeadersKey(k) ==> !IsSockoptKey(k) && k != "masterKeyLog"
    ensures IsSockoptKey(k) ==> k != "masterKeyLog"
  {
    if k == "masterKeyLog" {
      FilesAreOrdinary(k);
    } else if IsHeadersKey(k) {
      HeadersAreNoOptions(k);
    }
  }

  /** Below headers and socket options nothing but the hop itself can strip. */
  lemma ShieldedBelow(k: string, rest: Place, n: nat)
    requires IsHeadersKey(k) || IsSockoptKey(k)
    requires 1 < n <= |rest| + 1
    ensures !StripsHere([Key(k)] + rest, n)
    ensures n == |rest| + 1 ==> !IsSockoptPlace([Key(k)] + rest)
  {
    var place := [Key(k)] + rest;
    assert place[..n][..n - 1][0] == Key(k);
    assert n == |place| ==> place[..|place| - 1][0] == Key(k);
  }

  lemma StripKeepsHeaders(v: Json, k: string, rest: Place)
    requires v.Has(k) && IsHeadersKey(k)
    ensures StripsAt(v, Stripped(v), [Key(k)] + rest)
  {
    var place := [Key(k)] + rest;
    OneHop(k);
    HeadersAreSpelled(k);
    AtKey(v, k, rest);
    AtKey(Stripped(v), k, rest);
    assert place[..1] == [Key(k)] && !StripsHere(place, 1);
    forall n | 1 < n <= |place| ensures !StripsHere(place, n) && !IsSockoptPlace(place) {
      ShieldedBelow(k, rest, n);
      ShieldedBelow(k, rest, |place|);
    }
    assert rest == [] ==> place == [Key(k)];
  }

  lemma StripRemovesFile(v: Json, rest: Place)
    ensures StripsAt(v, Stripped(v), [Key("masterKeyLog")] + rest)
  {
    var k := "masterKeyLog";
    var place := [Key(k)] + rest;
    HeadersAreSpelled(k);
    OneHop(k);
    assert place[..1] == [Key(k)] && [Key(k)][..0] == [];
    assert StripsHere(place, 1);
    assert !Stripped(v).Has(k);
  }

  /** A single hop to socket options strips nothing by itself. */
  lemma OptionsHere(k: string, rest: Place)
    requires IsSockoptKey(k)
    ensures var place := [Key(k)] + rest;
            && (IsStripped(place) <==> rest != [] && !(rest[0].Key? && IsOption(rest[0].key)))
            && (IsSockoptPlace(place) <==> rest == [])
  {
    var place := [Key(k)] + rest;
    OneHop(k);
    assert place[..1] == [Key(k)] && [Key(k)][..0] == [];
    assert !IsFile([Key(k)]) && IsSockoptPlace([Key(k)]);
    assert StripsHere(place, 1) <==> rest != [] && !(rest[0].Key? && IsOption(rest[0].key));
    forall n | 1 < n <= |place| ensures !StripsHere(place, n) && !IsSockoptPlace(place) {
      ShieldedBelow(k, rest, n);
      ShieldedBelow(k, rest, |place|);
    }
    assert rest == [] ==> place == [Key(k)];
  }

  lemma StripScreensOptions(v: Json, k: string, rest: Place)
    requires v.Has(k) && IsSockoptKey(k)
    ensures StripsAt(v, Stripped(v), [Key(k)] + rest)
  {
    OneHop(k);
    HeadersAreSpelled(k);
    SockoptsAreSpelled(k);
    AtKey(v, k, rest);
    AtKey(Stripped(v), k, rest);
    assert Stripped(v).fields[k] == SafeSockopt(v.fields[k]);
    OptionsHere(k, rest);
    if rest != [] {
      OptionsAreScreened(v.fields[k], rest);
    }
  }

  lemma OptionsAreScreened(child: Json, rest: Place)
    requires rest != []
    ensures if rest[0].Key? && IsOption(rest[0].key) then At(SafeSockopt(child), rest) == At(child, rest)
            else At(SafeSockopt(child), rest).None?
  {}

  lemma StripBelowKey(v: Json, k: string, rest: Place)
    requires v.Has(k) && !IsHeadersKey(k) && !IsSockoptKey(k) && k != "masterKeyLog"
    requires StripsAt(v.fields[k], Stripped(v.fields[k]), rest)
    ensures StripsAt(v, Stripped(v), [Key(k)] + rest)
  {
    HeadersAreSpelled(k);
    SockoptsAreSpelled(k);
    StrippedBelow(Key(k), rest);
    AtKey(v, k, rest);
    AtKey(Stripped(v), k, rest);
  }

  lemma StripBelowIndex(v: Json, i: nat, rest: Place)
    requires v.Arr? && i < |v.items| && StripsAt(v.items[i], Stripped(v.items[i]), rest)
    ensures StripsAt(v, Stripped(v), [Index(i)] + rest)
  {
    StrippedBelow(Index(i), rest);
    assert Stripped(v) == Arr(ItemsStripped(v.items, |v.items|));
    AtIndex(v, i, rest);
    AtIndex(Stripped(v), i, rest);
  }

  lemma {:induction false} StripsExactly(v: Json, place: Place)
    ensures StripsAt(v, Stripped(v), place)
    decreases |place|
  {
    if place != [] {
      var rest := place[1..];
      assert place == [place[0]] + rest;
      match place[0]
      case Key(k) =>
        if k == "masterKeyLog" {
          StripRemovesFile(v, rest);
        } else if !v.Has(k) {
          assert At(v, place).None? && At(Stripped(v), place).None?;
        } else if IsHeadersKey(k) {
          StripKeepsHeaders(v, k, rest);
        } else if IsSockoptKey(k) {
          StripScreensOptions(v, k, rest);
        } else {
          StripsExactly(v.fields[k], rest);
          StripBelowKey(v, k, rest);
        }
      case Index(i) =>
        if v.Arr? && i < |v.items| {
          StripsExactly(v.items[i], rest);
          StripBelowIndex(v, i, rest);
        } else {
          assert At(v, place).None? && At(Stripped(v), place).None?;
        }
    }
  }
}
