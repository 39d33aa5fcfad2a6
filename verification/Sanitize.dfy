/** The passes over a provider's Xray config that remove what names host files or
  * what Xray refuses, and the check for TLS no core can run. */
module Sanitize {
  import opened JsonValue
  import Text

  const FILE_KEYS := {"masterKeyLog"}
  const SOCKOPT_KEYS := {
    "tcpFastOpen", "tcpKeepAliveInterval", "tcpKeepAliveIdle", "tcpNoDelay",
    "tcpcongestion", "domainStrategy", "happyEyeballs", "dialerProxy"}
  const TLS := "tlsSettings"
  const INSECURE := "allowInsecure"
  const PINS := "pinnedPeerCertSha256"

  /** Request headers are the provider's own text and are left as they are. */
  predicate IsHeaders(k: string) {
    Text.Lower(k) == "headers"
  }

  predicate IsSockopt(k: string) {
    Text.EndsWith(Text.Lower(k), "sockopt")
  }

  function ItemPath(path: string, i: nat): string {
    path + "[" + Text.Decimal(i) + "]"
  }

  // ---------- TLS that skips the certificate check ----------

  predicate AllowsInsecure(tls: Json) {
    tls.Has(INSECURE) && tls.fields[INSECURE] == Bool(true)
  }

  predicate IsPinned(tls: Json) {
    !Text.IsBlank(tls.TextOr(PINS, ""))
  }

  /** Some `tlsSettings` anywhere skips the check without pinning a certificate. */
  predicate HasUnpinnedAllowInsecure(v: Json) {
    match v
    case Obj(m) =>
      exists k <- m ::
        (k == TLS && AllowsInsecure(m[k]) && !IsPinned(m[k])) || HasUnpinnedAllowInsecure(m[k])
    case Arr(a) => exists i | 0 <= i < |a| :: HasUnpinnedAllowInsecure(a[i])
    case _ => false
  }

  predicate Unpins(k: string, child: Json) {
    k == TLS && AllowsInsecure(child) && IsPinned(child)
  }

  /** What the pass makes of `v`; `unpin` says that `v` is a `tlsSettings` whose
    * `allowInsecure` goes because it pins a certificate. */
  ghost function WithoutPinned(v: Json, unpin: bool): (r: Json)
    decreases v, 1
  {
    match v
    case Obj(m) => Obj(map k <- m | !(unpin && k == INSECURE) :: FieldWithoutPinned(k, m[k]))
    case Arr(a) => Arr(ItemsWithoutPinned(a, |a|))
    case _ => v
  }

  /** The first `n` fields of `order` after the pass, built up one by one. */
  ghost function FieldsWithoutPinned(m: map<string, Json>, order: seq<string>, n: nat, unpin: bool): map<string, Json>
    requires n <= |order| && forall k <- order :: k in m
  {
    if n == 0 then map[]
    else
      var k := order[n - 1];
      var before := FieldsWithoutPinned(m, order, n - 1, unpin);
      if unpin && k == INSECURE then before else before[k := FieldWithoutPinned(k, m[k])]
  }

  lemma {:induction false} FieldsWithoutPinnedAre(m: map<string, Json>, order: seq<string>, n: nat, unpin: bool)
    requires n <= |order| && forall k <- order :: k in m
    ensures var fields := FieldsWithoutPinned(m, order, n, unpin);
            && (forall k :: k in fields <==> k in order[..n] && !(unpin && k == INSECURE))
            && (forall k <- fields :: fields[k] == FieldWithoutPinned(k, m[k]))
  {
    if n > 0 {
      FieldsWithoutPinnedAre(m, order, n - 1, unpin);
      assert order[..n] == order[..n - 1] + [order[n - 1]];
    }
  }

  lemma FieldsMakeWithoutPinned(m: map<string, Json>, unpin: bool, fields: map<string, Json>)
    requires forall k :: k in fields <==> k in m && !(unpin && k == INSECURE)
    requires forall k <- fields :: fields[k] == FieldWithoutPinned(k, m[k])
    ensures WithoutPinned(Obj(m), unpin) == Obj(fields)
  {
    assert fields == map k <- m | !(unpin && k == INSECURE) :: FieldWithoutPinned(k, m[k]);
  }

  lemma AllFieldsWithoutPinned(m: map<string, Json>, unpin: bool)
    ensures WithoutPinned(Obj(m), unpin) == Obj(FieldsWithoutPinned(m, Text.Sorted(m.Keys), |m|, unpin))
  {
    var order := Text.Sorted(m.Keys);
    FieldsWithoutPinnedAre(m, order, |m|, unpin);
    assert order[..|m|] == order;
    FieldsMakeWithoutPinned(m, unpin, FieldsWithoutPinned(m, order, |m|, unpin));
  }

  ghost function FieldWithoutPinned(k: string, child: Json): Json
    decreases child, 2
  {
    if IsHeaders(k) then child else WithoutPinned(child, Unpins(k, child))
  }

  ghost function ItemsWithoutPinned(a: seq<Json>, n: nat): seq<Json>
    requires n <= |a|
    decreases Arr(a), 0
  {
    seq(n, i requires 0 <= i < n => WithoutPinned(a[i], false))
  }

  function TlsPath(path: string, k: string): string {
    if k == TLS then path + ".tlsSettings" else path
  }

  /** The list of dropped paths after the pass has added its own to `dropped`, in
    * the order it meets them: an object's keys come sorted, as the map of the
    * JSON library keeps them. */
  ghost function PinsRecorded(v: Json, path: string, dropped: seq<string>): seq<string>
    decreases v, 1
  {
    match v
    case Obj(m) => FieldsPinsRecorded(m, Text.Sorted(m.Keys), |m|, path, dropped)
    case Arr(a) => ItemsPinsRecorded(a, |a|, path, dropped)
    case _ => dropped
  }

  ghost function FieldPinsRecorded(k: string, child: Json, path: string, dropped: seq<string>): seq<string>
    decreases child, 2
  {
    if IsHeaders(k) then dropped
    else
      var childPath := TlsPath(path, k);
      PinsRecorded(child, childPath, if Unpins(k, child) then dropped + [childPath + ".allowInsecure"] else dropped)
  }

  ghost function FieldsPinsRecorded(
      m: map<string, Json>, order: seq<string>, n: nat, path: string, dropped: seq<string>): seq<string>
    requires n <= |order| && forall k <- order :: k in m
    decreases Obj(m), 0, n
  {
    if n == 0 then dropped
    else
      var k := order[n - 1];
      FieldPinsRecorded(k, m[k], path, FieldsPinsRecorded(m, order, n - 1, path, dropped))
  }

  ghost function ItemsPinsRecorded(a: seq<Json>, n: nat, path: string, dropped: seq<string>): seq<string>
    requires n <= |a|
    decreases Arr(a), 0, n
  {
    if n == 0 then dropped
    else PinsRecorded(a[n - 1], ItemPath(path, n - 1), ItemsPinsRecorded(a, n - 1, path, dropped))
  }

  /** Drop `allowInsecure` from every `tlsSettings` that pins the peer certificate. */
  method DropPinnedAllowInsecure(v: Json, unpin: bool, path: string, dropped: seq<string>)
    returns (r: Json, dropped': seq<string>)
    ensures r == WithoutPinned(v, unpin)
    ensures dropped' == PinsRecorded(v, path, dropped)
    decreases v, 1
  {
    dropped' := dropped;
    match v
    case Obj(m) =>
      var fields;
      fields, dropped' := DropPinnedInFields(m, unpin, path, dropped);
      AllFieldsWithoutPinned(m, unpin);
      r := Obj(fields);
    case Arr(a) =>
      var items: seq<Json> := [];
      for i := 0 to |a|
        invariant items == ItemsWithoutPinned(a, i)
        invariant dropped' == ItemsPinsRecorded(a, i, path, dropped)
      {
        var child;
        child, dropped' := DropPinnedAllowInsecure(a[i], false, ItemPath(path, i), dropped');
        items := items + [child];
      }
      r := Arr(items);
    case _ => r := v;
  }

  method DropPinnedInFields(m: map<string, Json>, unpin: bool, path: string, dropped: seq<string>)
    returns (fields: map<string, Json>, dropped': seq<string>)
    ensures fields == FieldsWithoutPinned(m, Text.Sorted(m.Keys), |m|, unpin)
    ensures dropped' == FieldsPinsRecorded(m, Text.Sorted(m.Keys), |m|, path, dropped)
    decreases Obj(m), 0, 1
  {
    fields, dropped' := map[], dropped;
    var order := Text.SortKeys(m.Keys);
    for i := 0 to |order|
      invariant fields == FieldsWithoutPinned(m, order, i, unpin)
      invariant dropped' == FieldsPinsRecorded(m, order, i, path, dropped)
    {
      fields, dropped' := DropPinnedInNext(m, order, i, unpin, fields, path, dropped', dropped);
    }
  }

  /** The field at place `i` of the order. */
  method DropPinnedInNext(m: map<string, Json>, order: seq<string>, i: nat, unpin: bool, before: map<string, Json>,
                          path: string, listed: seq<string>, ghost dropped: seq<string>)
    returns (fields: map<string, Json>, dropped': seq<string>)
    requires i < |order| && forall k <- order :: k in m
    requires before == FieldsWithoutPinned(m, order, i, unpin)
             && listed == FieldsPinsRecorded(m, order, i, path, dropped)
    ensures fields == FieldsWithoutPinned(m, order, i + 1, unpin)
    ensures dropped' == FieldsPinsRecorded(m, order, i + 1, path, dropped)
    decreases Obj(m), 0, 0
  {
    var k := order[i];
    var child;
    child, dropped' := DropPinnedInField(k, m[k], path, listed);
    fields := if unpin && k == INSECURE then before else before[k := child];
  }

  method DropPinnedInField(k: string, child: Json, path: string, dropped: seq<string>)
    returns (child': Json, dropped': seq<string>)
    ensures child' == FieldWithoutPinned(k, child)
    ensures dropped' == FieldPinsRecorded(k, child, path, dropped)
    decreases child, 2
  {
    child', dropped' := child, dropped;
    if !IsHeaders(k) {
      var childPath := TlsPath(path, k);
      var unpins := Unpins(k, child);
      if unpins {
        dropped' := dropped' + [childPath + ".allowInsecure"];
      }
      child', dropped' := DropPinnedAllowInsecure(child, unpins, childPath, dropped');
    }
  }

  // ---------- What names files on the host ----------

  predicate NamesFile(k: string) {
    !IsHeaders(k) && k in FILE_KEYS
  }

  /** What the pass makes of a socket options value: the allowed options only. */
  function SafeSockopt(v: Json): Json {
    match v
    case Obj(m) => Obj(map k <- m | k in SOCKOPT_KEYS :: m[k])
    case _ => Obj(map[])
  }

  ghost function Stripped(v: Json): (r: Json)
    decreases v, 1
  {
    match v
    case Obj(m) => Obj(map k <- m | !NamesFile(k) :: FieldStripped(k, m[k]))
    case Arr(a) => Arr(ItemsStripped(a, |a|))
    case _ => v
  }

  ghost function FieldStripped(k: string, child: Json): Json
    decreases child, 2
  {
    if IsHeaders(k) then child else if IsSockopt(k) then SafeSockopt(child) else Stripped(child)
  }

  ghost function ItemsStripped(a: seq<Json>, n: nat): seq<Json>
    requires n <= |a|
    decreases Arr(a), 0
  {
    seq(n, i requires 0 <= i < n => Stripped(a[i]))
  }

  function AddOnce(dropped: seq<string>, path: string): seq<string> {
    if path in dropped then dropped else dropped + [path]
  }

  /** Which keys a `retain` rejects: those that name files, or unlisted options. */
  datatype Screen = Files | Options {
    predicate Rejects(k: string) {
      match this
      case Files => NamesFile(k)
      case Options => k !in SOCKOPT_KEYS
    }
  }

  /** `path` is recorded once if any of the first `n` keys is one to drop. */
  ghost function KeysRecorded(
      order: seq<string>, n: nat, screen: Screen, path: string, dropped: seq<string>): seq<string>
    requires n <= |order|
  {
    if n == 0 then dropped
    else
      var before := KeysRecorded(order, n - 1, screen, path, dropped);
      if screen.Rejects(order[n - 1]) then AddOnce(before, path) else before
  }

  /** `m` without the keys to drop, which are recorded as `path`. */
  method Retain(m: map<string, Json>, screen: Screen, path: string, dropped: seq<string>)
    returns (kept: map<string, Json>, dropped': seq<string>)
    ensures kept == map k <- m | !screen.Rejects(k) :: m[k]
    ensures dropped' == KeysRecorded(Text.Sorted(m.Keys), |m|, screen, path, dropped)
  {
    dropped' := dropped;
    kept := map k <- m | !screen.Rejects(k) :: m[k];
    var order := Text.SortKeys(m.Keys);
    for i := 0 to |order|
      invariant dropped' == KeysRecorded(order, i, screen, path, dropped)
    {
      if screen.Rejects(order[i]) && path !in dropped' {
        dropped' := dropped' + [path];
      }
    }
  }

  ghost function SockoptRecorded(v: Json, path: string, dropped: seq<string>): seq<string> {
    match v
    case Obj(m) => KeysRecorded(Text.Sorted(m.Keys), |m|, Options, path, dropped)
    case _ => AddOnce(dropped, path)
  }

  /** The list of dropped paths after the pass: first the file keys of the object,
    * then what its other fields add. */
  ghost function StripRecorded(v: Json, path: string, dropped: seq<string>): seq<string>
    decreases v, 1
  {
    match v
    case Obj(m) =>
      var first := KeysRecorded(Text.Sorted(m.Keys), |m|, Files, path + ".masterKeyLog", dropped);
      var kept := set k <- m | !NamesFile(k);
      FieldsStripRecorded(m, Text.Sorted(kept), |kept|, path, first)
    case Arr(a) => ItemsStripRecorded(a, |a|, path, dropped)
    case _ => dropped
  }

  ghost function FieldStripRecorded(k: string, child: Json, path: string, dropped: seq<string>): seq<string>
    decreases child, 2
  {
    if IsHeaders(k) then dropped
    else if IsSockopt(k) then SockoptRecorded(child, path + ".sockopt", dropped)
    else StripRecorded(child, TlsPath(path, k), dropped)
  }

  ghost function FieldsStripRecorded(
      m: map<string, Json>, order: seq<string>, n: nat, path: string, dropped: seq<string>): seq<string>
    requires n <= |order| && forall k <- order :: k in m
    decreases Obj(m), 0, n
  {
    if n == 0 then dropped
    else
      var k := order[n - 1];
      FieldStripRecorded(k, m[k], path, FieldsStripRecorded(m, order, n - 1, path, dropped))
  }

  ghost function ItemsStripRecorded(a: seq<Json>, n: nat, path: string, dropped: seq<string>): seq<string>
    requires n <= |a|
    decreases Arr(a), 0, n
  {
    if n == 0 then dropped
    else StripRecorded(a[n - 1], ItemPath(path, n - 1), ItemsStripRecorded(a, n - 1, path, dropped))
  }

  ghost function FieldsStripped(m: map<string, Json>, order: seq<string>, n: nat): map<string, Json>
    requires n <= |order| && forall k <- order :: k in m
  {
    if n == 0 then map[]
    else FieldsStripped(m, order, n - 1)[order[n - 1] := FieldStripped(order[n - 1], m[order[n - 1]])]
  }

  lemma {:induction false} FieldsStrippedAre(m: map<string, Json>, order: seq<string>, n: nat)
    requires n <= |order| && forall k <- order :: k in m
    ensures var fields := FieldsStripped(m, order, n);
            && (forall k :: k in fields <==> k in order[..n])
            && (forall k <- fields :: fields[k] == FieldStripped(k, m[k]))
  {
    if n > 0 {
      FieldsStrippedAre(m, order, n - 1);
      assert order[..n] == order[..n - 1] + [order[n - 1]];
    }
  }

  lemma FieldsMakeStripped(m: map<string, Json>, fields: map<string, Json>)
    requires forall k :: k in fields <==> k in m && !NamesFile(k)
    requires forall k <- fields :: fields[k] == FieldStripped(k, m[k])
    ensures Stripped(Obj(m)) == Obj(fields)
  {
    assert fields == map k <- m | !NamesFile(k) :: FieldStripped(k, m[k]);
  }

  lemma AllFieldsStripped(m: map<string, Json>, kept: set<string>)
    requires kept == set k <- m | !NamesFile(k)
    ensures Stripped(Obj(m)) == Obj(FieldsStripped(m, Text.Sorted(kept), |kept|))
  {
    var order := Text.Sorted(kept);
    FieldsStrippedAre(m, order, |kept|);
    assert order[..|kept|] == order;
    FieldsMakeStripped(m, FieldsStripped(m, order, |kept|));
  }

  /** Remove what could read or write the user's files and sockets. */
  method StripHostFiles(v: Json, path: string, dropped: seq<string>) returns (r: Json, dropped': seq<string>)
    ensures r == Stripped(v)
    ensures dropped' == StripRecorded(v, path, dropped)
    decreases v, 1
  {
    dropped' := dropped;
    match v
    case Obj(m) => r, dropped' := StripObject(m, path, dropped);
    case Arr(a) =>
      var items: seq<Json> := [];
      for i := 0 to |a|
        invariant items == ItemsStripped(a, i)
        invariant dropped' == ItemsStripRecorded(a, i, path, dropped)
      {
        var child;
        child, dropped' := StripHostFiles(a[i], ItemPath(path, i), dropped');
        items := items + [child];
      }
      r := Arr(items);
    case _ => r := v;
  }

  method StripObject(m: map<string, Json>, path: string, dropped: seq<string>) returns (r: Json, dropped': seq<string>)
    ensures r == Stripped(Obj(m))
    ensures dropped' == StripRecorded(Obj(m), path, dropped)
    decreases Obj(m), 0, 1
  {
    var kept;
    kept, dropped' := Retain(m, Files, path + ".masterKeyLog", dropped);
    ObjectStripped(m, kept, path, dropped);
    var fields;
    fields, dropped' := StripFields(m, kept.Keys, path, dropped');
    r := Obj(fields);
  }

  lemma ObjectStripped(m: map<string, Json>, kept: map<string, Json>, path: string, dropped: seq<string>)
    requires kept == map k <- m | !Files.Rejects(k) :: m[k]
    ensures var order, n := Text.Sorted(kept.Keys), |kept.Keys|;
            var first := KeysRecorded(Text.Sorted(m.Keys), |m|, Files, path + ".masterKeyLog", dropped);
            && Stripped(Obj(m)) == Obj(FieldsStripped(m, order, n))
            && StripRecorded(Obj(m), path, dropped) == FieldsStripRecorded(m, order, n, path, first)
  {
    var keys := set k <- m | !NamesFile(k);
    assert kept.Keys == keys;
    AllFieldsStripped(m, keys);
  }

  method StripFields(m: map<string, Json>, kept: set<string>, path: string, dropped: seq<string>)
    returns (fields: map<string, Json>, dropped': seq<string>)
    requires kept <= m.Keys
    ensures fields == FieldsStripped(m, Text.Sorted(kept), |kept|)
    ensures dropped' == FieldsStripRecorded(m, Text.Sorted(kept), |kept|, path, dropped)
    decreases Obj(m), 0, 0
  {
    fields, dropped' := map[], dropped;
    var order := Text.SortKeys(kept);
    for i := 0 to |order|
      invariant fields == FieldsStripped(m, order, i)
      invariant dropped' == FieldsStripRecorded(m, order, i, path, dropped)
    {
      var k := order[i];
      var child;
      child, dropped' := StripField(k, m[k], path, dropped');
      fields := fields[k := child];
    }
  }

  method StripField(k: string, child: Json, path: string, dropped: seq<string>)
    returns (child': Json, dropped': seq<string>)
    ensures child' == FieldStripped(k, child)
    ensures dropped' == FieldStripRecorded(k, child, path, dropped)
    decreases child, 2
  {
    child', dropped' := child, dropped;
    if IsHeaders(k) {
      return;
    }
    if !IsSockopt(k) {
      child', dropped' := StripHostFiles(child, TlsPath(path, k), dropped);
      return;
    }
    var childPath := path + ".sockopt";
    if child.Obj? {
      var kept;
      kept, dropped' := Retain(child.fields, Options, childPath, dropped);
      child' := Obj(kept);
      assert kept == map sk <- child.fields | sk in SOCKOPT_KEYS :: child.fields[sk];
    } else {
      child' := Obj(map[]);
      if childPath !in dropped' {
        dropped' := dropped' + [childPath];
      }
    }
  }
}
