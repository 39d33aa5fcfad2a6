/** What the two passes record of what they drop, on the one list that all the
  * outbounds of a provider config share. */
module SanitizeRecords {
  import opened JsonValue
  import opened Wrappers
  import opened Sanitize
  import opened SanitizeProps
  import Text

  // ---------- Adding to a list of paths ----------

  /** `dropped` with the paths it does not hold yet. */
  ghost function AddAll(dropped: seq<string>, paths: seq<string>): seq<string> {
    if paths == [] then dropped else AddOnce(AddAll(dropped, paths[..|paths| - 1]), paths[|paths| - 1])
  }

  lemma {:induction false} AddedAre(dropped: seq<string>, paths: seq<string>)
    ensures dropped <= AddAll(dropped, paths)
    ensures forall q :: q in AddAll(dropped, paths) <==> q in dropped || q in paths
  {
    if paths != [] {
      AddedAre(dropped, paths[..|paths| - 1]);
      assert paths == paths[..|paths| - 1] + [paths[|paths| - 1]];
    }
  }

  lemma {:induction false} NothingAdded(dropped: seq<string>, paths: seq<string>)
    ensures AddAll(dropped, paths) == dropped <==> forall p <- paths :: p in dropped
    ensures AddAll(dropped, []) == dropped
  {
    AddedAre(dropped, paths);
    if paths != [] && forall p <- paths :: p in dropped {
      NothingAdded(dropped, paths[..|paths| - 1]);
      assert paths[|paths| - 1] in paths;
    }
  }

  lemma AddOnceThrough(dropped: seq<string>, paths: seq<string>, p: string)
    ensures AddAll(dropped, AddOnce(paths, p)) == AddOnce(AddAll(dropped, paths), p)
  {
    AddedAre(dropped, paths);
    if p !in paths {
      assert (paths + [p])[..|paths|] == paths;
    }
  }

  lemma {:induction false} AddAllThrough(dropped: seq<string>, a: seq<string>, b: seq<string>)
    ensures AddAll(dropped, AddAll(a, b)) == AddAll(AddAll(dropped, a), b)
  {
    if b != [] {
      AddAllThrough(dropped, a, b[..|b| - 1]);
      AddOnceThrough(dropped, AddAll(a, b[..|b| - 1]), b[|b| - 1]);
    }
  }

  // ---------- A pass adds what it adds to an empty list ----------

  lemma {:induction false} KeysAdd(order: seq<string>, n: nat, screen: Screen, path: string, dropped: seq<string>)
    requires n <= |order|
    ensures KeysRecorded(order, n, screen, path, dropped) == AddAll(dropped, KeysRecorded(order, n, screen, path, []))
  {
    if n > 0 {
      KeysAdd(order, n - 1, screen, path, dropped);
      AddOnceThrough(dropped, KeysRecorded(order, n - 1, screen, path, []), path);
    }
  }

  lemma SockoptAdds(v: Json, path: string, dropped: seq<string>)
    ensures SockoptRecorded(v, path, dropped) == AddAll(dropped, SockoptRecorded(v, path, []))
  {
    match v
    case Obj(m) => KeysAdd(Text.Sorted(m.Keys), |m|, Options, path, dropped);
    case _ =>
      NothingAdded(dropped, []);
      AddOnceThrough(dropped, [], path);
  }

  lemma {:induction false} FieldAdds(k: string, child: Json, path: string, dropped: seq<string>)
    ensures FieldStripRecorded(k, child, path, dropped) == AddAll(dropped, FieldStripRecorded(k, child, path, []))
    decreases child, 3
  {
    NothingAdded(dropped, []);
    if !IsHeaders(k) {
      if IsSockopt(k) {
        SockoptAdds(child, path + ".sockopt", dropped);
      } else {
        StripAdds(child, TlsPath(path, k), dropped);
      }
    }
  }

  lemma {:induction false} FieldsAdd(m: map<string, Json>, order: seq<string>, n: nat, path: string,
                                     dropped: seq<string>)
    requires n <= |order| && forall k <- order :: k in m
    ensures FieldsStripRecorded(m, order, n, path, dropped)
            == AddAll(dropped, FieldsStripRecorded(m, order, n, path, []))
    decreases Obj(m), 0, n
  {
    NothingAdded(dropped, []);
    if n > 0 {
      var k := order[n - 1];
      var before := FieldsStripRecorded(m, order, n - 1, path, []);
      FieldsAdd(m, order, n - 1, path, dropped);
      FieldAdds(k, m[k], path, before);
      FieldAdds(k, m[k], path, AddAll(dropped, before));
      AddAllThrough(dropped, before, FieldStripRecorded(k, m[k], path, []));
    }
  }

  lemma {:induction false} ItemsAdd(a: seq<Json>, n: nat, path: string, dropped: seq<string>)
    requires n <= |a|
    ensures ItemsStripRecorded(a, n, path, dropped) == AddAll(dropped, ItemsStripRecorded(a, n, path, []))
    decreases Arr(a), 0, n
  {
    NothingAdded(dropped, []);
    if n > 0 {
      var before := ItemsStripRecorded(a, n - 1, path, []);
      ItemsAdd(a, n - 1, path, dropped);
      StripAdds(a[n - 1], ItemPath(path, n - 1), before);
      StripAdds(a[n - 1], ItemPath(path, n - 1), AddAll(dropped, before));
      AddAllThrough(dropped, before, StripRecorded(a[n - 1], ItemPath(path, n - 1), []));
    }
  }

  /** Stripping adds to any list exactly what it records on an empty one. */
  lemma {:induction false} StripAdds(v: Json, path: string, dropped: seq<string>)
    ensures StripRecorded(v, path, dropped) == AddAll(dropped, StripRecorded(v, path, []))
    decreases v, 2
  {
    match v
    case Obj(m) =>
      var order, file := Text.Sorted(m.Keys), path + ".masterKeyLog";
      var kept := set k <- m | !NamesFile(k);
      var first := KeysRecorded(order, |m|, Files, file, []);
      KeysAdd(order, |m|, Files, file, dropped);
      FieldsAdd(m, Text.Sorted(kept), |kept|, path, first);
      FieldsAdd(m, Text.Sorted(kept), |kept|, path, AddAll(dropped, first));
      AddAllThrough(dropped, first, FieldsStripRecorded(m, Text.Sorted(kept), |kept|, path, []));
    case Arr(a) => ItemsAdd(a, |a|, path, dropped);
    case _ => NothingAdded(dropped, []);
  }

  lemma OnlyNothingAddsNothing(a: seq<string>, b: seq<string>)
    ensures AddAll(a, b) == [] <==> a == [] && b == []
  {
    AddedAre(a, b);
    NothingAdded(a, b);
    assert b != [] ==> b[0] in b;
  }

  // ---------- Nothing is recorded exactly when nothing changes ----------

  lemma {:induction false} KeysRecordNothing(order: seq<string>, n: nat, screen: Screen, path: string)
    requires n <= |order|
    ensures KeysRecorded(order, n, screen, path, []) == [] <==> forall i | 0 <= i < n :: !screen.Rejects(order[i])
  {
    if n > 0 {
      KeysRecordNothing(order, n - 1, screen, path);
    }
  }

  lemma AllKeysRecordNothing(m: map<string, Json>, screen: Screen, path: string)
    ensures KeysRecorded(Text.Sorted(m.Keys), |m|, screen, path, []) == [] <==> forall k <- m :: !screen.Rejects(k)
  {
    var order := Text.Sorted(m.Keys);
    KeysRecordNothing(order, |m|, screen, path);
    forall k <- m ensures exists i :: 0 <= i < |order| && order[i] == k {
      assert k in order;
    }
    forall i | 0 <= i < |order| ensures order[i] in m {
      assert order[i] in order;
    }
  }

  lemma SafeSame(m: map<string, Json>)
    ensures SafeSockopt(Obj(m)) == Obj(m) <==> forall k <- m :: k in SOCKOPT_KEYS
  {
    var safe := map k <- m | k in SOCKOPT_KEYS :: m[k];
    assert SafeSockopt(Obj(m)) == Obj(safe);
    assert safe == m <== forall k <- m :: k in SOCKOPT_KEYS;
    if safe == m {
      assert forall k <- m :: k in safe;
    }
  }

  lemma SockoptRecordsNothing(v: Json, path: string)
    ensures SockoptRecorded(v, path, []) == [] <==> SafeSockopt(v) == v
  {
    if v.Obj? {
      AllKeysRecordNothing(v.fields, Options, path);
      SafeSame(v.fields);
    }
  }

  lemma {:induction false} FieldRecordsNothing(k: string, child: Json, path: string)
    ensures FieldStripRecorded(k, child, path, []) == [] <==> FieldStripped(k, child) == child
    decreases child, 3
  {
    if IsSockopt(k) {
      SockoptRecordsNothing(child, path + ".sockopt");
    } else {
      StripRecordsWhatItChanges(child, TlsPath(path, k));
    }
  }

  lemma {:induction false} FieldsRecordNothing(m: map<string, Json>, order: seq<string>, n: nat, path: string)
    requires n <= |order| && forall k <- order :: k in m
    ensures FieldsStripRecorded(m, order, n, path, []) == []
            <==> forall i | 0 <= i < n :: FieldStripped(order[i], m[order[i]]) == m[order[i]]
    decreases Obj(m), 0, n
  {
    if n > 0 {
      var k := order[n - 1];
      var before := FieldsStripRecorded(m, order, n - 1, path, []);
      FieldsRecordNothing(m, order, n - 1, path);
      FieldRecordsNothing(k, m[k], path);
      FieldAdds(k, m[k], path, before);
      OnlyNothingAddsNothing(before, FieldStripRecorded(k, m[k], path, []));
    }
  }

  lemma {:induction false} ItemsRecordNothing(a: seq<Json>, n: nat, path: string)
    requires n <= |a|
    ensures ItemsStripRecorded(a, n, path, []) == [] <==> forall i | 0 <= i < n :: Stripped(a[i]) == a[i]
    decreases Arr(a), 0, n
  {
    if n > 0 {
      var before := ItemsStripRecorded(a, n - 1, path, []);
      ItemsRecordNothing(a, n - 1, path);
      StripRecordsWhatItChanges(a[n - 1], ItemPath(path, n - 1));
      StripAdds(a[n - 1], ItemPath(path, n - 1), before);
      OnlyNothingAddsNothing(before, StripRecorded(a[n - 1], ItemPath(path, n - 1), []));
    }
  }

  /** Which fields of `m` the pass leaves as they are, and when that is all of them. */
  lemma StrippedSame(m: map<string, Json>)
    ensures Stripped(Obj(m)) == Obj(m) <==> forall k <- m :: !NamesFile(k) && FieldStripped(k, m[k]) == m[k]
  {
    if Stripped(Obj(m)) == Obj(m) {
      StrippedFields(m);
    }
    if forall k <- m :: !NamesFile(k) && FieldStripped(k, m[k]) == m[k] {
      FieldsMakeStripped(m, m);
    }
  }

  lemma SameInOrder(m: map<string, Json>, kept: set<string>)
    requires kept <= m.Keys
    ensures var order := Text.Sorted(kept);
            (forall i | 0 <= i < |order| :: FieldStripped(order[i], m[order[i]]) == m[order[i]])
                    <==> (forall k <- kept :: FieldStripped(k, m[k]) == m[k])
  {
    var order := Text.Sorted(kept);
    if forall i | 0 <= i < |order| :: FieldStripped(order[i], m[order[i]]) == m[order[i]] {
      forall k <- kept ensures FieldStripped(k, m[k]) == m[k] {
        assert k in order;
        var i :| 0 <= i < |order| && order[i] == k;
      }
    }
    if forall k <- kept :: FieldStripped(k, m[k]) == m[k] {
      forall i | 0 <= i < |order| ensures FieldStripped(order[i], m[order[i]]) == m[order[i]] {
        assert order[i] in order;
      }
    }
  }

  lemma ObjectRecordsInTwo(m: map<string, Json>, kept: set<string>, path: string)
    requires kept == set k <- m | !NamesFile(k)
    ensures StripRecorded(Obj(m), path, []) == []
            <==> && KeysRecorded(Text.Sorted(m.Keys), |m|, Files, path + ".masterKeyLog", []) == []
                 && FieldsStripRecorded(m, Text.Sorted(kept), |kept|, path, []) == []
  {
    var first := KeysRecorded(Text.Sorted(m.Keys), |m|, Files, path + ".masterKeyLog", []);
    FieldsAdd(m, Text.Sorted(kept), |kept|, path, first);
    OnlyNothingAddsNothing(first, FieldsStripRecorded(m, Text.Sorted(kept), |kept|, path, []));
  }

  lemma {:induction false} ObjectRecordsNothing(m: map<string, Json>, path: string)
    ensures StripRecorded(Obj(m), path, []) == [] <==> Stripped(Obj(m)) == Obj(m)
    decreases Obj(m), 1
  {
    var kept := set k <- m | !NamesFile(k);
    AllKeysRecordNothing(m, Files, path + ".masterKeyLog");
    FieldsRecordNothing(m, Text.Sorted(kept), |kept|, path);
    ObjectRecordsInTwo(m, kept, path);
    StrippedSame(m);
    SameInOrder(m, kept);
  }

  /** Run on an empty list, the pass records nothing exactly when it changes nothing. */
  lemma {:induction false} StripRecordsWhatItChanges(v: Json, path: string)
    ensures StripRecorded(v, path, []) == [] <==> Stripped(v) == v
    decreases v, 2
  {
    match v
    case Obj(m) => ObjectRecordsNothing(m, path);
    case Arr(a) =>
      ItemsRecordNothing(a, |a|, path);
      var b := ItemsStripped(a, |a|);
      assert b == a <==> forall i | 0 <= i < |a| :: Stripped(a[i]) == a[i];
    case _ =>
  }

  /** On any list, the pass records nothing exactly when the paths of all it changes
    * are listed already; so a change goes unrecorded exactly on such a list. */
  lemma StripRecordsExactly(v: Json, path: string, dropped: seq<string>)
    ensures dropped <= StripRecorded(v, path, dropped)
    ensures StripRecorded(v, path, dropped) == dropped <==> forall p <- StripRecorded(v, path, []) :: p in dropped
    ensures Stripped(v) == v ==> StripRecorded(v, path, dropped) == dropped
  {
    StripAdds(v, path, dropped);
    AddedAre(dropped, StripRecorded(v, path, []));
    NothingAdded(dropped, StripRecorded(v, path, []));
    StripRecordsWhatItChanges(v, path);
  }

  ghost predicate NoRepeats(paths: seq<string>) {
    forall i, j | 0 <= i < j < |paths| :: paths[i] != paths[j]
  }

  /** A list without repeats stays one. */
  lemma {:induction false} PathsAreAddedOnce(dropped: seq<string>, paths: seq<string>)
    requires NoRepeats(dropped)
    ensures NoRepeats(AddAll(dropped, paths))
  {
    if paths != [] {
      PathsAreAddedOnce(dropped, paths[..|paths| - 1]);
      AddedOnce(AddAll(dropped, paths[..|paths| - 1]), paths[|paths| - 1]);
    }
  }

  lemma AddedOnce(dropped: seq<string>, p: string)
    requires NoRepeats(dropped)
    ensures NoRepeats(AddOnce(dropped, p))
  {
    forall i | 0 <= i < |dropped| && p !in dropped ensures dropped[i] != p {
      assert dropped[i] in dropped;
    }
  }

  /** Stripping lists no path twice. */
  lemma StripRecordsOnce(v: Json, path: string, dropped: seq<string>)
    requires NoRepeats(dropped)
    ensures NoRepeats(StripRecorded(v, path, dropped))
  {
    StripAdds(v, path, dropped);
    PathsAreAddedOnce(dropped, StripRecorded(v, path, []));
  }

  // ---------- Where the recorded paths lie ----------

  /** What is new in `after` lies under `path`. */
  ghost predicate AddsUnder(before: seq<string>, after: seq<string>, path: string) {
    forall q <- after :: q in before || path <= q
  }

  lemma {:induction false} KeysAddUnder(order: seq<string>, n: nat, screen: Screen, path: string, dropped: seq<string>)
    requires n <= |order|
    ensures AddsUnder(dropped, KeysRecorded(order, n, screen, path, dropped), path)
  {
    if n > 0 {
      KeysAddUnder(order, n - 1, screen, path, dropped);
    }
  }

  lemma AddsUnderHigher(before: seq<string>, after: seq<string>, path: string, below: string)
    requires AddsUnder(before, after, path + below)
    ensures AddsUnder(before, after, path)
  {}

  lemma {:induction false} StripAddsUnderField(k: string, child: Json, path: string, dropped: seq<string>)
    ensures AddsUnder(dropped, FieldStripRecorded(k, child, path, dropped), path)
    decreases child, 3
  {
    if !IsHeaders(k) {
      if IsSockopt(k) {
        if child.Obj? {
          KeysAddUnder(Text.Sorted(child.fields.Keys), |child.fields|, Options, path + ".sockopt", dropped);
        }
        AddsUnderHigher(dropped, SockoptRecorded(child, path + ".sockopt", dropped), path, ".sockopt");
      } else {
        StripAddsUnder(child, TlsPath(path, k), dropped);
        if k == TLS {
          AddsUnderHigher(dropped, StripRecorded(child, TlsPath(path, k), dropped), path, ".tlsSettings");
        }
      }
    }
  }

  lemma {:induction false} StripAddsUnderFields(
      m: map<string, Json>, order: seq<string>, n: nat, path: string, dropped: seq<string>)
    requires n <= |order| && forall k <- order :: k in m
    ensures AddsUnder(dropped, FieldsStripRecorded(m, order, n, path, dropped), path)
    decreases Obj(m), 0, n
  {
    if n > 0 {
      StripAddsUnderFields(m, order, n - 1, path, dropped);
      StripAddsUnderField(order[n - 1], m[order[n - 1]], path, FieldsStripRecorded(m, order, n - 1, path, dropped));
    }
  }

  lemma ItemPathIsBelow(path: string, i: nat)
    ensures ItemPath(path, i) == path + ("[" + Text.Decimal(i) + "]")
  {}

  lemma {:induction false} StripAddsUnderItems(a: seq<Json>, n: nat, path: string, dropped: seq<string>)
    requires n <= |a|
    ensures AddsUnder(dropped, ItemsStripRecorded(a, n, path, dropped), path)
    decreases Arr(a), 0, n
  {
    if n > 0 {
      var before := ItemsStripRecorded(a, n - 1, path, dropped);
      StripAddsUnderItems(a, n - 1, path, dropped);
      StripAddsUnder(a[n - 1], ItemPath(path, n - 1), before);
      ItemPathIsBelow(path, n - 1);
      AddsUnderHigher(before, ItemsStripRecorded(a, n, path, dropped), path, "[" + Text.Decimal(n - 1) + "]");
    }
  }

  lemma {:induction false} StripAddsUnder(v: Json, path: string, dropped: seq<string>)
    ensures AddsUnder(dropped, StripRecorded(v, path, dropped), path)
    decreases v, 2
  {
    match v
    case Obj(m) =>
      var file := path + ".masterKeyLog";
      var kept := set k <- m | !NamesFile(k);
      var first := KeysRecorded(Text.Sorted(m.Keys), |m|, Files, file, dropped);
      KeysAddUnder(Text.Sorted(m.Keys), |m|, Files, file, dropped);
      AddsUnderHigher(dropped, first, path, ".masterKeyLog");
      StripAddsUnderFields(m, Text.Sorted(kept), |kept|, path, first);
    case Arr(a) => StripAddsUnderItems(a, |a|, path, dropped);
    case _ =>
  }

  lemma {:induction false} DropAddsUnderField(k: string, child: Json, path: string, dropped: seq<string>)
    ensures AddsUnder(dropped, FieldPinsRecorded(k, child, path, dropped), path)
    decreases child, 3
  {
    if !IsHeaders(k) {
      var childPath := TlsPath(path, k);
      var before := if Unpins(k, child) then dropped + [childPath + ".allowInsecure"] else dropped;
      DropAddsUnder(child, childPath, before);
      assert AddsUnder(dropped, PinsRecorded(child, childPath, before), childPath);
      if k == TLS {
        AddsUnderHigher(dropped, PinsRecorded(child, childPath, before), path, ".tlsSettings");
      }
    }
  }

  lemma {:induction false} DropAddsUnderFields(
      m: map<string, Json>, order: seq<string>, n: nat, path: string, dropped: seq<string>)
    requires n <= |order| && forall k <- order :: k in m
    ensures AddsUnder(dropped, FieldsPinsRecorded(m, order, n, path, dropped), path)
    decreases Obj(m), 0, n
  {
    if n > 0 {
      DropAddsUnderFields(m, order, n - 1, path, dropped);
      DropAddsUnderField(order[n - 1], m[order[n - 1]], path, FieldsPinsRecorded(m, order, n - 1, path, dropped));
    }
  }

  lemma {:induction false} DropAddsUnderItems(a: seq<Json>, n: nat, path: string, dropped: seq<string>)
    requires n <= |a|
    ensures AddsUnder(dropped, ItemsPinsRecorded(a, n, path, dropped), path)
    decreases Arr(a), 0, n
  {
    if n > 0 {
      var before := ItemsPinsRecorded(a, n - 1, path, dropped);
      DropAddsUnderItems(a, n - 1, path, dropped);
      DropAddsUnder(a[n - 1], ItemPath(path, n - 1), before);
      ItemPathIsBelow(path, n - 1);
      AddsUnderHigher(before, ItemsPinsRecorded(a, n, path, dropped), path, "[" + Text.Decimal(n - 1) + "]");
    }
  }

  lemma {:induction false} DropAddsUnder(v: Json, path: string, dropped: seq<string>)
    ensures AddsUnder(dropped, PinsRecorded(v, path, dropped), path)
    decreases v, 2
  {
    match v
    case Obj(m) => DropAddsUnderFields(m, Text.Sorted(m.Keys), |m|, path, dropped);
    case Arr(a) => DropAddsUnderItems(a, |a|, path, dropped);
    case _ =>
  }

  // ---------- The outbounds of one config share the list ----------

  /** What of an outbound is recorded: that it is no object, that it has unknown keys
    * or freedom settings, and what its stream settings lose. */
  datatype Outbound = NotAnObject | Kept(unknownKeys: bool, freedomKeys: bool, stream: Option<Json>)

  function OutboundPath(i: nat): string {
    ItemPath("outbounds", i)
  }

  function StreamPath(i: nat): string {
    OutboundPath(i) + ".streamSettings"
  }

  /** The list as it is when the stream settings of an outbound are stripped. */
  function BeforeStream(ob: Outbound, i: nat, dropped: seq<string>): seq<string> {
    match ob
    case NotAnObject => dropped + [OutboundPath(i)]
    case Kept(unknownKeys, freedomKeys, _) =>
      var d := if unknownKeys then AddOnce(dropped, OutboundPath(i)) else dropped;
      if freedomKeys then AddOnce(d, OutboundPath(i) + ".settings.freedom") else d
  }

  ghost function AfterOutbound(ob: Outbound, i: nat, dropped: seq<string>): seq<string> {
    var before := BeforeStream(ob, i, dropped);
    if ob.Kept? && ob.stream.Some? then
      PinsRecorded(Stripped(ob.stream.value), StreamPath(i), StripRecorded(ob.stream.value, StreamPath(i), before))
    else before
  }

  /** The list after the first `n` outbounds; `top` lists the config's own unknown keys. */
  ghost function AfterOutbounds(top: seq<string>, obs: seq<Outbound>, n: nat): seq<string>
    requires n <= |obs|
  {
    if n == 0 then top else AfterOutbound(obs[n - 1], n - 1, AfterOutbounds(top, obs, n - 1))
  }

  method SanitizeStreams(top: seq<string>, obs: seq<Outbound>) returns (streams: seq<Json>, dropped: seq<string>)
    ensures dropped == AfterOutbounds(top, obs, |obs|)
    ensures |streams| == |obs|
    ensures forall i | 0 <= i < |obs| && obs[i].Kept? && obs[i].stream.Some? ::
              streams[i] == Sanitized(obs[i].stream.value)
  {
    streams, dropped := [], top;
    for i := 0 to |obs|
      invariant dropped == AfterOutbounds(top, obs, i) && |streams| == i
      invariant forall j | 0 <= j < i && obs[j].Kept? && obs[j].stream.Some? ::
                  streams[j] == Sanitized(obs[j].stream.value)
    {
      dropped := BeforeStream(obs[i], i, dropped);
      var stream := Null;
      if obs[i].Kept? && obs[i].stream.Some? {
        stream, dropped := StripHostFiles(obs[i].stream.value, StreamPath(i), dropped);
        stream, dropped := DropPinnedAllowInsecure(stream, false, StreamPath(i), dropped);
      }
      streams := streams + [stream];
    }
  }

  /** No text lies under the paths of two outbounds. */
  lemma OutboundPathsApart(i: nat, j: nat, q: string)
    requires OutboundPath(i) <= q && OutboundPath(j) <= q
    ensures i == j
  {
    var a, b := Text.Decimal(i), Text.Decimal(j);
    Text.ValueUndoesDecimal(i);
    Text.ValueUndoesDecimal(j);
    FirstBracket(i, q);
    FirstBracket(j, q);
    assert |a| == |b| by {
      assert q[10 + |a|] == ']' && q[10 + |b|] == ']';
    }
    assert a == b;
  }

  lemma FirstBracket(i: nat, q: string)
    requires OutboundPath(i) <= q
    ensures var a := Text.Decimal(i);
            |q| > 10 + |a| && q[10..10 + |a|] == a && q[10 + |a|] == ']' && forall k | 10 <= k < 10 + |a| :: q[k] != ']'
  {
    var a, path := Text.Decimal(i), OutboundPath(i);
    Text.ValueUndoesDecimal(i);
    assert path[10..10 + |a|] == a && path[10 + |a|] == ']';
    assert q[10..10 + |a|] == a;
    assert forall k | 10 <= k < 10 + |a| :: q[k] == a[k - 10];
  }

  lemma StreamPathIsBelow(i: nat, q: string)
    requires StreamPath(i) <= q
    ensures OutboundPath(i) <= q && q != OutboundPath(i) && q != OutboundPath(i) + ".settings.freedom"
  {
    var n := |OutboundPath(i)|;
    assert StreamPath(i)[..n] == OutboundPath(i) && StreamPath(i)[n + 2] == 't';
    assert (OutboundPath(i) + ".settings.freedom")[n + 2] == 'e';
    assert q[n + 2] == 't';
  }

  /** What the list holds after some outbounds is the config's own or theirs. */
  lemma {:induction false} ListedByWhom(top: seq<string>, obs: seq<Outbound>, n: nat, q: string)
    requires n <= |obs| && q in AfterOutbounds(top, obs, n)
    ensures q in top || exists j: nat :: j < n && OutboundPath(j) <= q
    decreases n
  {
    if n > 0 {
      var ob, dropped := obs[n - 1], AfterOutbounds(top, obs, n - 1);
      var before := BeforeStream(ob, n - 1, dropped);
      if q in dropped {
        ListedByWhom(top, obs, n - 1, q);
      } else if q !in before {
        var strip := StripRecorded(ob.stream.value, StreamPath(n - 1), before);
        StripAddsUnder(ob.stream.value, StreamPath(n - 1), before);
        DropAddsUnder(Stripped(ob.stream.value), StreamPath(n - 1), strip);
        StreamPathIsBelow(n - 1, q);
      }
    }
  }

  /** Where an outbound's stream settings are stripped, the list holds a path below them
    * only if the config has an unknown key that is spelled like it. */
  lemma ListedBelowStream(top: seq<string>, obs: seq<Outbound>, i: nat, q: string)
    requires i < |obs| && q in BeforeStream(obs[i], i, AfterOutbounds(top, obs, i)) && StreamPath(i) <= q
    ensures q in top
  {
    StreamPathIsBelow(i, q);
    ListedByWhom(top, obs, i, q);
    if j: nat :| j < i && OutboundPath(j) <= q {
      OutboundPathsApart(i, j, q);
    }
  }

  /** In a whole config, what the strip pass takes from an outbound's stream settings goes
    * unrecorded exactly when the config has unknown keys spelled like every one of the
    * paths, and what both passes take exactly when the second takes nothing besides. */
  lemma StreamRecordsExactly(top: seq<string>, obs: seq<Outbound>, i: nat)
    requires i < |obs| && obs[i].Kept? && obs[i].stream.Some?
    ensures var v, path := obs[i].stream.value, StreamPath(i);
            var before := BeforeStream(obs[i], i, AfterOutbounds(top, obs, i));
            var listed := forall p <- StripRecorded(v, path, []) :: p in top;
            && (StripRecorded(v, path, before) == before <==> listed)
            && (RecordsNothing(v, path, before) <==> listed && Sanitized(v) == Stripped(v))
            && (RecordsNothing(v, path, before) && Sanitized(v) != v
                <==> listed && Sanitized(v) == Stripped(v) && Stripped(v) != v)
  {
    var v, path := obs[i].stream.value, StreamPath(i);
    var before := BeforeStream(obs[i], i, AfterOutbounds(top, obs, i));
    StripRecordsExactly(v, path, before);
    BothRecordNothing(v, path, before);
    StripAddsUnder(v, path, []);
    forall p <- StripRecorded(v, path, []) ensures p in before <==> p in top {
      if p in before {
        ListedBelowStream(top, obs, i, p);
      }
      if p in top {
        TopStaysListed(top, obs, i, p);
      }
    }
  }

  /** The two passes over an outbound's stream settings leave the list as it was. */
  ghost predicate RecordsNothing(v: Json, path: string, before: seq<string>) {
    PinsRecorded(Stripped(v), path, StripRecorded(v, path, before)) == before
  }

  lemma BothRecordNothing(v: Json, path: string, before: seq<string>)
    ensures RecordsNothing(v, path, before) <==> StripRecorded(v, path, before) == before && Sanitized(v) == Stripped(v)
  {
    StripRecordsExactly(v, path, before);
    DropRecordsWhatItChanges(Stripped(v), path, StripRecorded(v, path, before));
  }

  lemma {:induction false} TopStaysListed(top: seq<string>, obs: seq<Outbound>, n: nat, q: string)
    requires n <= |obs| && q in top
    ensures q in AfterOutbounds(top, obs, n)
    ensures n < |obs| ==> q in BeforeStream(obs[n], n, AfterOutbounds(top, obs, n))
    decreases n
  {
    if n > 0 {
      TopStaysListed(top, obs, n - 1, q);
      var ob, dropped := obs[n - 1], AfterOutbounds(top, obs, n - 1);
      if ob.Kept? && ob.stream.Some? {
        var before := BeforeStream(ob, n - 1, dropped);
        StripRecordsExactly(ob.stream.value, StreamPath(n - 1), before);
        var strip := StripRecorded(ob.stream.value, StreamPath(n - 1), before);
        DropRecordsWhatItChanges(Stripped(ob.stream.value), StreamPath(n - 1), strip);
      }
    }
  }

  /** A config without such a key records exactly the outbounds it changes. */
  lemma OrdinaryConfigsRecordExactly(top: seq<string>, obs: seq<Outbound>, i: nat)
    requires i < |obs| && obs[i].Kept? && obs[i].stream.Some? && forall q <- top :: !(StreamPath(i) <= q)
    ensures var v, path := obs[i].stream.value, StreamPath(i);
            var before := BeforeStream(obs[i], i, AfterOutbounds(top, obs, i));
            && (StripRecorded(v, path, before) == before <==> Stripped(v) == v)
            && (RecordsNothing(v, path, before) <==> Sanitized(v) == v)
  {
    var v, path := obs[i].stream.value, StreamPath(i);
    StreamRecordsExactly(top, obs, i);
    StripRecordsWhatItChanges(v, path);
    StripAddsUnder(v, path, []);
    StripIsIdempotent(v);
    DropKeepsStripped(Stripped(v), false);
    var paths := StripRecorded(v, path, []);
    assert paths != [] ==> paths[0] in paths && path <= paths[0];
  }

  lemma FileIsStripped(k: string, file: Json, path: string)
    requires NamesFile(k)
    ensures Stripped(Obj(map[k := file])) == Obj(map[])
    ensures forall p <- StripRecorded(Obj(map[k := file]), path, []) :: p == path + ".masterKeyLog"
  {
    var m: map<string, Json> := map[k := file];
    var kept := set j <- m | !NamesFile(j);
    assert kept == {};
    FieldsMakeStripped(m, map[]);
    RecordsOnly(Text.Sorted(m.Keys), |m|, Files, path + ".masterKeyLog");
  }

  lemma {:induction false} RecordsOnly(order: seq<string>, n: nat, screen: Screen, path: string)
    requires n <= |order|
    ensures forall p <- KeysRecorded(order, n, screen, path, []) :: p == path
  {
    if n > 0 {
      RecordsOnly(order, n - 1, screen, path);
    }
  }

  lemma NothingToDrop(path: string, dropped: seq<string>)
    ensures PinsRecorded(Obj(map[]), path, dropped) == dropped
  {
    var none: map<string, Json> := map[];
    assert none.Keys == {} && Text.Sorted(none.Keys) == [];
  }

  /** Such a config exists: its only unknown key is spelled like the path of the file
    * that its only outbound names. */
  lemma UnrecordedExample(file: Json)
    ensures var v, top := Obj(map["masterKeyLog" := file]), [StreamPath(0) + ".masterKeyLog"];
            var obs := [Kept(false, false, Some(v))];
            Stripped(v) != v && AfterOutbounds(top, obs, 1) == top
  {
    var k := "masterKeyLog";
    assert |k| == 12;
    UnrecordedAt(k, file, StreamPath(0));
    var top, obs := [StreamPath(0) + ".masterKeyLog"], [Kept(false, false, Some(Obj(map[k := file])))];
    assert AfterOutbounds(top, obs, 0) == top;
    assert AfterOutbounds(top, obs, 1) == AfterOutbound(obs[0], 0, top);
  }

  lemma UnrecordedAt(k: string, file: Json, path: string)
    requires NamesFile(k)
    ensures var v, top := Obj(map[k := file]), [path + ".masterKeyLog"];
            Stripped(v) != v && PinsRecorded(Stripped(v), path, StripRecorded(v, path, top)) == top
  {
    var v, top := Obj(map[k := file]), [path + ".masterKeyLog"];
    FileIsStripped(k, file, path);
    StripRecordsExactly(v, path, top);
    NothingToDrop(path, top);
    assert k in v.fields;
  }
}
