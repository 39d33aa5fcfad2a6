/** The paths the sanitising passes record, spelled from the places they change. */
module SanitizePaths {
  import opened JsonValue
  import opened Places
  import opened SanitizeRecords
  import opened Sanitize
  import opened SanitizePlaces
  import Text

  /** A place as the passes spell it: only indices and `tlsSettings` show. */
  function Spelled(path: string, place: Place): string
    decreases |place|
  {
    if place == [] then path else Spelled(SpelledHop(path, place[0]), place[1..])
  }

  function SpelledHop(path: string, hop: Hop): string {
    match hop
    case Key(k) => if k == "tlsSettings" then path + ".tlsSettings" else path
    case Index(i) => path + "[" + Text.Decimal(i) + "]"
  }

  lemma SpelledBelow(path: string, hop: Hop, rest: Place)
    ensures Spelled(path, [hop] + rest) == Spelled(SpelledHop(path, hop), rest)
    ensures hop.Key? ==> SpelledHop(path, hop) == TlsPath(path, hop.key)
    ensures hop.Index? ==> SpelledHop(path, hop) == ItemPath(path, hop.index)
  {
    assert ([hop] + rest)[1..] == rest;
  }

  function Above(place: Place): Place
    requires place != []
  {
    place[..|place| - 1]
  }

  lemma AboveBelow(hop: Hop, rest: Place)
    requires rest != []
    ensures Above([hop] + rest) == [hop] + Above(rest)
  {}

  // ---------- Dropped keys ----------

  ghost predicate NamesDropped(v: Json, path: string, q: string) {
    exists place :: IsDropped(v, place) && q == Spelled(path, Above(place)) + ".allowInsecure"
  }

  /** What the field `k` of an object adds. */
  ghost predicate FieldNames(k: string, child: Json, path: string, q: string) {
    !IsHeadersKey(k)
    && ((Unpins(k, child) && q == TlsPath(path, k) + ".allowInsecure") || NamesDropped(child, TlsPath(path, k), q))
  }

  lemma NamedBelow(m: map<string, Json>, k: string, path: string, rest: Place)
    requires k in m && !IsHeadersKey(k) && rest != [] && IsDroppedFrom(m[k], Unpins(k, m[k]), rest)
    ensures NamesDropped(Obj(m), path, Spelled(TlsPath(path, k), Above(rest)) + ".allowInsecure")
  {
    DroppedBelowKey(Obj(m), k, rest);
    AboveBelow(Key(k), rest);
    SpelledBelow(path, Key(k), Above(rest));
    assert IsDropped(Obj(m), [Key(k)] + rest);
  }

  lemma NamedInField(m: map<string, Json>, k: string, path: string, q: string)
    requires k in m && FieldNames(k, m[k], path, q)
    ensures NamesDropped(Obj(m), path, q)
  {
    if Unpins(k, m[k]) && q == TlsPath(path, k) + ".allowInsecure" {
      NamedBelow(m, k, path, [Key("allowInsecure")]);
      assert Above([Key("allowInsecure")]) == [];
    } else {
      var rest: Place :| IsDropped(m[k], rest) && q == Spelled(TlsPath(path, k), Above(rest)) + ".allowInsecure";
      NamedBelow(m, k, path, rest);
    }
  }

  lemma FieldOfNamed(m: map<string, Json>, path: string, q: string) returns (k: string)
    requires NamesDropped(Obj(m), path, q)
    ensures k in m && FieldNames(k, m[k], path, q)
  {
    var v := Obj(m);
    var place: Place :| IsDropped(v, place) && q == Spelled(path, Above(place)) + ".allowInsecure";
    var rest := place[1..];
    assert place == [place[0]] + rest && Above(place)[0] == place[0];
    k := place[0].key;
    DroppedBelowKey(v, k, rest);
    AboveBelow(Key(k), rest);
    SpelledBelow(path, Key(k), Above(rest));
    if rest == [Key("allowInsecure")] {
      assert Above(rest) == [];
    }
    assert Unpins(k, m[k]) || IsDropped(m[k], rest);
  }

  lemma NamedInItem(a: seq<Json>, i: nat, path: string, q: string)
    requires i < |a| && NamesDropped(a[i], ItemPath(path, i), q)
    ensures NamesDropped(Arr(a), path, q)
  {
    var rest :| IsDropped(a[i], rest) && q == Spelled(ItemPath(path, i), Above(rest)) + ".allowInsecure";
    DroppedBelowIndex(Arr(a), i, rest);
    AboveBelow(Index(i), rest);
    SpelledBelow(path, Index(i), Above(rest));
    assert IsDropped(Arr(a), [Index(i)] + rest);
  }

  lemma ItemOfNamed(a: seq<Json>, path: string, q: string) returns (i: nat)
    requires NamesDropped(Arr(a), path, q)
    ensures i < |a| && NamesDropped(a[i], ItemPath(path, i), q)
  {
    var v := Arr(a);
    var place: Place :| IsDropped(v, place) && q == Spelled(path, Above(place)) + ".allowInsecure";
    var rest := place[1..];
    assert place == [place[0]] + rest && Above(place)[0] == place[0];
    i := place[0].index;
    DroppedBelowIndex(v, i, rest);
    AboveBelow(Index(i), rest);
    SpelledBelow(path, Index(i), Above(rest));
  }

  lemma {:induction false} FieldsRecord(
      m: map<string, Json>, order: seq<string>, n: nat, path: string, dropped: seq<string>, q: string)
    requires n <= |order| && forall k <- order :: k in m
    ensures q in FieldsPinsRecorded(m, order, n, path, dropped)
            <==> q in dropped || exists i | 0 <= i < n :: FieldNames(order[i], m[order[i]], path, q)
    decreases Obj(m), 1, n
  {
    if n > 0 {
      FieldsRecord(m, order, n - 1, path, dropped, q);
      FieldRecords(order[n - 1], m[order[n - 1]], path, FieldsPinsRecorded(m, order, n - 1, path, dropped), q);
    }
  }

  lemma {:induction false} FieldRecords(k: string, child: Json, path: string, dropped: seq<string>, q: string)
    ensures q in FieldPinsRecorded(k, child, path, dropped) <==> q in dropped || FieldNames(k, child, path, q)
    decreases child, 3
  {
    HeadersAreSpelled(k);
    if !IsHeaders(k) {
      var childPath := TlsPath(path, k);
      DropRecordsExactly(child, childPath,
                         if Unpins(k, child) then dropped + [childPath + ".allowInsecure"] else dropped, q);
    }
  }

  ghost predicate SomeItemNames(a: seq<Json>, n: nat, path: string, q: string)
    requires n <= |a|
  {
    exists i | 0 <= i < n :: NamesDropped(a[i], ItemPath(path, i), q)
  }

  lemma OneMoreItem(a: seq<Json>, n: nat, path: string, q: string)
    requires 0 < n <= |a|
    ensures SomeItemNames(a, n, path, q)
            <==> SomeItemNames(a, n - 1, path, q) || NamesDropped(a[n - 1], ItemPath(path, n - 1), q)
  {}

  lemma {:induction false} ItemsRecord(a: seq<Json>, n: nat, path: string, dropped: seq<string>, q: string)
    requires n <= |a|
    ensures q in ItemsPinsRecorded(a, n, path, dropped) <==> q in dropped || SomeItemNames(a, n, path, q)
    decreases Arr(a), 1, n
  {
    if n > 0 {
      ItemsRecord(a, n - 1, path, dropped, q);
      DropRecordsExactly(a[n - 1], ItemPath(path, n - 1), ItemsPinsRecorded(a, n - 1, path, dropped), q);
      OneMoreItem(a, n, path, q);
    }
  }

  lemma ObjectNames(m: map<string, Json>, order: seq<string>, path: string, q: string)
    requires forall k :: k in order <==> k in m
    ensures NamesDropped(Obj(m), path, q) <==> exists i | 0 <= i < |order| :: FieldNames(order[i], m[order[i]], path, q)
  {
    if i :| 0 <= i < |order| && FieldNames(order[i], m[order[i]], path, q) {
      NamedInField(m, order[i], path, q);
    }
    if NamesDropped(Obj(m), path, q) {
      var k := FieldOfNamed(m, path, q);
      assert k in order;
    }
  }

  lemma ArrayNames(a: seq<Json>, path: string, q: string)
    ensures NamesDropped(Arr(a), path, q) <==> exists i | 0 <= i < |a| :: NamesDropped(a[i], ItemPath(path, i), q)
  {
    if i :| 0 <= i < |a| && NamesDropped(a[i], ItemPath(path, i), q) {
      NamedInItem(a, i, path, q);
    }
    if NamesDropped(Arr(a), path, q) {
      var i := ItemOfNamed(a, path, q);
    }
  }

  lemma PlainNames(v: Json, path: string, q: string)
    requires !v.Obj? && !v.Arr?
    ensures !NamesDropped(v, path, q)
  {
    forall place: Place ensures !IsDropped(v, place) {
      assert |place| >= 2 ==> Above(place)[0] == place[0];
    }
  }

  /** The pass adds to the list exactly the spellings of the places it drops. */
  lemma {:induction false} DropRecordsExactly(v: Json, path: string, dropped: seq<string>, q: string)
    ensures q in PinsRecorded(v, path, dropped) <==> q in dropped || NamesDropped(v, path, q)
    decreases v, 2
  {
    match v
    case Obj(m) =>
      var order := Text.Sorted(m.Keys);
      FieldsRecord(m, order, |m|, path, dropped, q);
      ObjectNames(m, order, path, q);
    case Arr(a) =>
      ItemsRecord(a, |a|, path, dropped, q);
      ArrayNames(a, path, q);
    case _ => PlainNames(v, path, q);
  }

  // ---------- Stripped keys ----------

  /** Socket options that do not come through as they are. */
  ghost predicate LosesOptions(v: Json) {
    !v.Obj? || exists o <- v.fields :: !IsOption(o)
  }

  /** The pass meets the place, not below a file key, has something to remove there and
    * spells it `q`. */
  ghost predicate StripsTo(v: Json, path: string, place: Place, q: string) {
    && place != [] && At(v, place).Some? && Key("masterKeyLog") !in Above(place)
    && ((IsFile(place) && q == Spelled(path, Above(place)) + ".masterKeyLog")
        || (IsSockoptPlace(place) && LosesOptions(At(v, place).value) && q == Spelled(path, Above(place)) + ".sockopt"))
  }

  ghost predicate NamesStripped(v: Json, path: string, q: string) {
    exists place :: StripsTo(v, path, place, q)
  }

  ghost predicate StripFieldNames(k: string, child: Json, path: string, q: string) {
    !IsHeadersKey(k)
    && if k == "masterKeyLog" then q == path + ".masterKeyLog"
       else if IsSockoptKey(k) then LosesOptions(child) && q == path + ".sockopt"
       else NamesStripped(child, TlsPath(path, k), q)
  }

  lemma StripsToBelow(v: Json, child: Json, path: string, hop: Hop, rest: Place, q: string)
    requires rest != [] && At(v, [hop] + rest) == At(child, rest)
    requires hop.Key? ==> !IsHeadersKey(hop.key) && !IsSockoptKey(hop.key) && hop.key != "masterKeyLog"
    ensures StripsTo(v, path, [hop] + rest, q) <==> StripsTo(child, SpelledHop(path, hop), rest, q)
  {
    PlaceBelow(hop, rest);
    AboveBelow(hop, rest);
    SpelledBelow(path, hop, Above(rest));
    assert Key("masterKeyLog") in [hop] + Above(rest) <==> Key("masterKeyLog") in Above(rest);
  }

  lemma StripsToHere(v: Json, path: string, k: string, q: string)
    requires v.Has(k) && (k == "masterKeyLog" || IsSockoptKey(k))
    ensures StripsTo(v, path, [Key(k)], q) <==> StripFieldNames(k, v.fields[k], path, q)
  {
    OneHop(k);
    assert Above([Key(k)]) == [];
    AtKey(v, k, []);
    assert [Key(k)] + [] == [Key(k)];
  }

  lemma StrippedInField(m: map<string, Json>, k: string, path: string, q: string)
    requires k in m && StripFieldNames(k, m[k], path, q)
    ensures NamesStripped(Obj(m), path, q)
  {
    var v := Obj(m);
    if k == "masterKeyLog" || IsSockoptKey(k) {
      StripsToHere(v, path, k, q);
    } else {
      var rest :| StripsTo(m[k], TlsPath(path, k), rest, q);
      AtKey(v, k, rest);
      SpelledBelow(path, Key(k), []);
      StripsToBelow(v, m[k], path, Key(k), rest, q);
    }
  }

  lemma FieldOfStripped(m: map<string, Json>, path: string, q: string) returns (k: string)
    requires NamesStripped(Obj(m), path, q)
    ensures k in m && StripFieldNames(k, m[k], path, q)
  {
    var place: Place :| StripsTo(Obj(m), path, place, q);
    k := place[0].key;
    assert place == [Key(k)] + place[1..];
    if place[1..] == [] {
      assert place == [Key(k)];
      StripsToHere(Obj(m), path, k, q);
    } else {
      StripsFurther(m, path, k, place[1..], q);
    }
  }

  lemma StripsFurther(m: map<string, Json>, path: string, k: string, rest: Place, q: string)
    requires rest != [] && StripsTo(Obj(m), path, [Key(k)] + rest, q)
    ensures k in m && StripFieldNames(k, m[k], path, q)
  {
    var place := [Key(k)] + rest;
    FilesAreLast(place);
    assert Above(place)[0] == Key(k) && Above(place)[0] in Above(place);
    AtKey(Obj(m), k, rest);
    SpelledBelow(path, Key(k), []);
    StripsToBelow(Obj(m), m[k], path, Key(k), rest, q);
    assert NamesStripped(m[k], TlsPath(path, k), q);
  }

  /** A key that names a file holds nothing a pass looks at. */
  lemma FilesAreLast(place: Place)
    requires |place| > 1 && (IsFile(place) || IsSockoptPlace(place))
    ensures place[0].Key? ==> !IsHeadersKey(place[0].key) && !IsSockoptKey(place[0].key)
  {
    assert Above(place)[0] == place[0];
  }

  lemma StrippedInItem(a: seq<Json>, i: nat, path: string, q: string)
    requires i < |a| && NamesStripped(a[i], ItemPath(path, i), q)
    ensures NamesStripped(Arr(a), path, q)
  {
    var rest: Place :| StripsTo(a[i], ItemPath(path, i), rest, q);
    AtIndex(Arr(a), i, rest);
    SpelledBelow(path, Index(i), []);
    StripsToBelow(Arr(a), a[i], path, Index(i), rest, q);
  }

  lemma ItemOfStripped(a: seq<Json>, path: string, q: string) returns (i: nat)
    requires NamesStripped(Arr(a), path, q)
    ensures i < |a| && NamesStripped(a[i], ItemPath(path, i), q)
  {
    var place: Place :| StripsTo(Arr(a), path, place, q);
    i := place[0].index;
    var rest := place[1..];
    assert place == [Index(i)] + rest;
    AtIndex(Arr(a), i, rest);
    SpelledBelow(path, Index(i), []);
    assert rest == [] ==> place == [Index(i)];
    StripsToBelow(Arr(a), a[i], path, Index(i), rest, q);
  }

  lemma {:induction false} KeysRecordOnce(
      order: seq<string>, n: nat, screen: Screen, path: string, dropped: seq<string>, q: string)
    requires n <= |order|
    ensures q in KeysRecorded(order, n, screen, path, dropped)
            <==> q in dropped || (q == path && exists i | 0 <= i < n :: screen.Rejects(order[i]))
  {
    if n > 0 {
      KeysRecordOnce(order, n - 1, screen, path, dropped, q);
    }
  }

  lemma OptionIsListed(o: string)
    ensures IsOption(o) <==> o in SOCKOPT_KEYS
  {}

  lemma SomeOptionIsLost(m: map<string, Json>, order: seq<string>)
    requires forall k :: k in order <==> k in m
    ensures (exists o <- m :: !IsOption(o)) <==> exists i | 0 <= i < |order| :: Options.Rejects(order[i])
  {
    if o :| o in m && !IsOption(o) {
      OptionIsListed(o);
      var i :| 0 <= i < |order| && order[i] == o;
      assert Options.Rejects(order[i]);
    }
    if i :| 0 <= i < |order| && Options.Rejects(order[i]) {
      OptionIsListed(order[i]);
      assert order[i] in order;
    }
  }

  lemma OptionsRecord(v: Json, path: string, dropped: seq<string>, q: string)
    ensures q in SockoptRecorded(v, path, dropped) <==> q in dropped || (q == path && LosesOptions(v))
  {
    if v.Obj? {
      var order := Text.Sorted(v.fields.Keys);
      KeysRecordOnce(order, |order|, Options, path, dropped, q);
      SomeOptionIsLost(v.fields, order);
    }
  }

  lemma FilesRecord(m: map<string, Json>, path: string, dropped: seq<string>, q: string)
    ensures var order, file := Text.Sorted(m.Keys), path + ".masterKeyLog";
            q in KeysRecorded(order, |m|, Files, file, dropped) <==> q in dropped || (q == file && "masterKeyLog" in m)
  {
    var order, file := Text.Sorted(m.Keys), path + ".masterKeyLog";
    KeysRecordOnce(order, |m|, Files, file, dropped, q);
    forall k ensures NamesFile(k) <==> k == "masterKeyLog" {
      HeadersAreSpelled(k);
      OneHop(k);
    }
    if "masterKeyLog" in m {
      assert "masterKeyLog" in order;
    }
    if i :| 0 <= i < |m| && Files.Rejects(order[i]) {
      assert order[i] in order;
    }
  }

  lemma {:induction false} StripFieldsRecord(
      m: map<string, Json>, order: seq<string>, n: nat, path: string, dropped: seq<string>, q: string)
    requires n <= |order| && forall k <- order :: k in m && k != "masterKeyLog"
    ensures q in FieldsStripRecorded(m, order, n, path, dropped)
            <==> q in dropped || exists i | 0 <= i < n :: StripFieldNames(order[i], m[order[i]], path, q)
    decreases Obj(m), 1, n
  {
    if n > 0 {
      StripFieldsRecord(m, order, n - 1, path, dropped, q);
      StripFieldRecords(order[n - 1], m[order[n - 1]], path, FieldsStripRecorded(m, order, n - 1, path, dropped), q);
    }
  }

  lemma {:induction false} StripFieldRecords(k: string, child: Json, path: string, dropped: seq<string>, q: string)
    requires k != "masterKeyLog"
    ensures q in FieldStripRecorded(k, child, path, dropped) <==> q in dropped || StripFieldNames(k, child, path, q)
    decreases child, 3
  {
    HeadersAreSpelled(k);
    SockoptsAreSpelled(k);
    if !IsHeaders(k) {
      if IsSockopt(k) {
        OptionsRecord(child, path + ".sockopt", dropped, q);
      } else {
        StripNamesExactly(child, TlsPath(path, k), dropped, q);
      }
    }
  }

  lemma {:induction false} StripItemsRecord(a: seq<Json>, n: nat, path: string, dropped: seq<string>, q: string)
    requires n <= |a|
    ensures q in ItemsStripRecorded(a, n, path, dropped)
            <==> q in dropped || exists i | 0 <= i < n :: NamesStripped(a[i], ItemPath(path, i), q)
    decreases Arr(a), 1, n
  {
    if n > 0 {
      StripItemsRecord(a, n - 1, path, dropped, q);
      StripNamesExactly(a[n - 1], ItemPath(path, n - 1), ItemsStripRecorded(a, n - 1, path, dropped), q);
    }
  }

  lemma StripObjectNames(m: map<string, Json>, order: seq<string>, path: string, q: string)
    requires forall k :: k in order <==> k in m && k != "masterKeyLog"
    ensures NamesStripped(Obj(m), path, q)
            <==> ("masterKeyLog" in m && q == path + ".masterKeyLog")
                 || exists i | 0 <= i < |order| :: StripFieldNames(order[i], m[order[i]], path, q)
  {
    if i :| 0 <= i < |order| && StripFieldNames(order[i], m[order[i]], path, q) {
      StrippedInField(m, order[i], path, q);
    }
    if "masterKeyLog" in m && q == path + ".masterKeyLog" {
      FilesAreOrdinary("masterKeyLog");
      StrippedInField(m, "masterKeyLog", path, q);
    }
    if NamesStripped(Obj(m), path, q) {
      var k := FieldOfStripped(m, path, q);
      assert k == "masterKeyLog" || k in order;
    }
  }

  lemma StripArrayNames(a: seq<Json>, path: string, q: string)
    ensures NamesStripped(Arr(a), path, q) <==> exists i | 0 <= i < |a| :: NamesStripped(a[i], ItemPath(path, i), q)
  {
    if i :| 0 <= i < |a| && NamesStripped(a[i], ItemPath(path, i), q) {
      StrippedInItem(a, i, path, q);
    }
    if NamesStripped(Arr(a), path, q) {
      var i := ItemOfStripped(a, path, q);
    }
  }

  ghost function AfterFiles(m: map<string, Json>, path: string, dropped: seq<string>): seq<string> {
    KeysRecorded(Text.Sorted(m.Keys), |m|, Files, path + ".masterKeyLog", dropped)
  }

  lemma StripObjectRecords(m: map<string, Json>, kept: set<string>, path: string, dropped: seq<string>, q: string)
    requires kept == set k <- m | !NamesFile(k)
    requires var order := Text.Sorted(kept);
             q in FieldsStripRecorded(m, order, |kept|, path, AfterFiles(m, path, dropped))
             <==> q in AfterFiles(m, path, dropped)
                  || exists i | 0 <= i < |kept| :: StripFieldNames(order[i], m[order[i]], path, q)
    ensures q in StripRecorded(Obj(m), path, dropped) <==> q in dropped || NamesStripped(Obj(m), path, q)
  {
    StripObjectIs(m, kept, path, dropped);
    KeptAreOthers(m, kept, Text.Sorted(kept));
    FilesRecord(m, path, dropped, q);
    StripObjectNames(m, Text.Sorted(kept), path, q);
  }

  lemma StripObjectIs(m: map<string, Json>, kept: set<string>, path: string, dropped: seq<string>)
    requires kept == set k <- m | !NamesFile(k)
    ensures StripRecorded(Obj(m), path, dropped)
            == FieldsStripRecorded(m, Text.Sorted(kept), |kept|, path, AfterFiles(m, path, dropped))
  {}

  /** The pass adds to the list exactly the spellings of the file keys and of the socket
    * options it meets and changes. */
  lemma {:induction false} StripNamesExactly(v: Json, path: string, dropped: seq<string>, q: string)
    ensures q in StripRecorded(v, path, dropped) <==> q in dropped || NamesStripped(v, path, q)
    decreases v, 2
  {
    match v
    case Obj(m) =>
      var kept := set k <- m | !NamesFile(k);
      KeptAreOthers(m, kept, Text.Sorted(kept));
      StripFieldsRecord(m, Text.Sorted(kept), |kept|, path, AfterFiles(m, path, dropped), q);
      StripObjectRecords(m, kept, path, dropped, q);
    case Arr(a) =>
      StripItemsRecord(a, |a|, path, dropped, q);
      StripArrayNames(a, path, q);
    case _ =>
  }

  lemma KeptAreOthers(m: map<string, Json>, kept: set<string>, order: seq<string>)
    requires kept == (set k <- m | !NamesFile(k)) && order == Text.Sorted(kept)
    ensures |order| == |kept| && forall k :: k in order <==> k in m && k != "masterKeyLog"
  {
    forall k ensures NamesFile(k) <==> k == "masterKeyLog" {
      HeadersAreSpelled(k);
      OneHop(k);
    }
  }

  /** What an outbound adds to the list before its stream settings: its own path when it is no
    * object or has unknown keys, and that of its freedom settings. */
  lemma OutboundRecordsExactly(ob: Outbound, i: nat, dropped: seq<string>, q: string)
    ensures var path := "outbounds[" + Text.Decimal(i) + "]";
            q in BeforeStream(ob, i, dropped)
            <==> || q in dropped || ((ob.NotAnObject? || ob.unknownKeys) && q == path)
                 || (ob.Kept? && ob.freedomKeys && q == path + ".settings.freedom")
  {
    assert OutboundPath(i) == "outbounds[" + Text.Decimal(i) + "]";
  }
}
