/** What the sanitising passes promise: they settle in one run, record exactly
  * when they change something, do not undo each other, and leave the check for
  * unpinned TLS with the same answer. */
module SanitizeProps {
  import opened JsonValue
  import opened Sanitize
  import Text

  // ---------- Dropping `allowInsecure` next to a pin ----------

  lemma InsecureIsOrdinary()
    ensures !IsHeaders(INSECURE) && !IsHeaders(PINS) && !IsHeaders(TLS)
    ensures !IsSockopt(INSECURE) && !IsSockopt(PINS) && !IsSockopt(TLS)
    ensures INSECURE != PINS && INSECURE != TLS && PINS != TLS
  {
    assert |INSECURE| == 13 && |PINS| == 20 && |TLS| == 11;
    assert Text.Lower(INSECURE)[12] == 'e' && Text.Lower(PINS)[19] == '6' && Text.Lower(TLS)[10] == 's';
    assert "sockopt"[6] == 't';
  }

  lemma PlainStays(x: Json, unpin: bool)
    ensures WithoutPinned(x, unpin).Bool? == x.Bool? && (x.Bool? ==> WithoutPinned(x, unpin) == x)
    ensures WithoutPinned(x, unpin).Str? == x.Str? && (x.Str? ==> WithoutPinned(x, unpin) == x)
  {
  }

  /** Inside a `tlsSettings` that stays, the pass leaves what makes it (un)pinned. */
  lemma KeepsWhatDecides(tls: Json, unpin: bool)
    ensures AllowsInsecure(WithoutPinned(tls, unpin)) == (AllowsInsecure(tls) && !unpin)
    ensures IsPinned(WithoutPinned(tls, unpin)) == IsPinned(tls)
  {
    InsecureIsOrdinary();
    if tls.Has(INSECURE) {
      PlainStays(tls.fields[INSECURE], false);
    }
    if tls.Has(PINS) {
      PlainStays(tls.fields[PINS], false);
    }
  }

  /** The pass never changes the answer of the check. */
  lemma {:induction false} DropKeepsUnpinned(v: Json, unpin: bool)
    requires unpin ==> AllowsInsecure(v)
    ensures HasUnpinnedAllowInsecure(WithoutPinned(v, unpin)) == HasUnpinnedAllowInsecure(v)
  {
    match v
    case Obj(m) =>
      var w := WithoutPinned(v, unpin).fields;
      forall k <- m ensures UnpinnedAt(k, FieldWithoutPinned(k, m[k])) == UnpinnedAt(k, m[k]) {
        if !IsHeaders(k) {
          DropKeepsUnpinned(m[k], Unpins(k, m[k]));
          KeepsWhatDecides(m[k], Unpins(k, m[k]));
        }
      }
      UnpinnedInFields(m);
      UnpinnedInFields(w);
      assert forall k <- w :: k in m && UnpinnedAt(k, w[k]) == UnpinnedAt(k, m[k]);
      if unpin {
        InsecureIsOrdinary();
        assert !UnpinnedAt(INSECURE, m[INSECURE]);
      }
    case Arr(a) =>
      forall i | 0 <= i < |a|
        ensures HasUnpinnedAllowInsecure(WithoutPinned(a[i], false)) == HasUnpinnedAllowInsecure(a[i])
      {
        DropKeepsUnpinned(a[i], false);
      }
      var b := ItemsWithoutPinned(a, |a|);
      assert WithoutPinned(v, unpin) == Arr(b);
      assert forall i | 0 <= i < |a| :: HasUnpinnedAllowInsecure(b[i]) == HasUnpinnedAllowInsecure(a[i]);
    case _ =>
  }

  ghost predicate UnpinnedAt(k: string, child: Json) {
    (k == TLS && AllowsInsecure(child) && !IsPinned(child)) || HasUnpinnedAllowInsecure(child)
  }

  lemma UnpinnedInFields(m: map<string, Json>)
    ensures HasUnpinnedAllowInsecure(Obj(m)) <==> exists k <- m :: UnpinnedAt(k, m[k])
  {
  }

  /** A second run of the pass finds nothing left to do. */
  lemma {:induction false} DropIsIdempotent(v: Json, unpin: bool)
    ensures WithoutPinned(WithoutPinned(v, unpin), false) == WithoutPinned(v, unpin)
  {
    match v
    case Obj(m) =>
      forall k <- m ensures FieldWithoutPinned(k, FieldWithoutPinned(k, m[k])) == FieldWithoutPinned(k, m[k]) {
        if !IsHeaders(k) {
          DropIsIdempotent(m[k], Unpins(k, m[k]));
          KeepsWhatDecides(m[k], Unpins(k, m[k]));
        }
      }
    case Arr(a) =>
      forall i | 0 <= i < |a| ensures WithoutPinned(WithoutPinned(a[i], false), false) == WithoutPinned(a[i], false) {
        DropIsIdempotent(a[i], false);
      }
    case _ =>
  }

  /** `allowInsecure` is set in some `tlsSettings` outside headers. */
  ghost predicate SetsInsecure(v: Json, unpinned: bool) {
    match v
    case Obj(m) =>
      exists k <- m :: !IsHeaders(k) &&
        ((k == TLS && AllowsInsecure(m[k]) && (unpinned ==> !IsPinned(m[k]))) || SetsInsecure(m[k], unpinned))
    case Arr(a) => exists i | 0 <= i < |a| :: SetsInsecure(a[i], unpinned)
    case _ => false
  }

  /** After the pass, outside headers, the key is left exactly where no pin is. */
  lemma {:induction false} DropLeavesOnlyUnpinned(v: Json, unpin: bool)
    requires unpin ==> AllowsInsecure(v)
    ensures SetsInsecure(WithoutPinned(v, unpin), false) <==> SetsInsecure(v, true)
  {
    match v
    case Obj(m) =>
      var w := WithoutPinned(v, unpin).fields;
      InsecureIsOrdinary();
      forall k <- m ensures SetsAt(k, FieldWithoutPinned(k, m[k]), false) == SetsAt(k, m[k], true) {
        if !IsHeaders(k) {
          DropLeavesOnlyUnpinned(m[k], Unpins(k, m[k]));
          KeepsWhatDecides(m[k], Unpins(k, m[k]));
        }
      }
      SetsInFields(m, true);
      SetsInFields(w, false);
      assert forall k <- w :: k in m && SetsAt(k, w[k], false) == SetsAt(k, m[k], true);
      assert unpin ==> !SetsAt(INSECURE, m[INSECURE], true);
    case Arr(a) =>
      forall i | 0 <= i < |a| ensures SetsInsecure(WithoutPinned(a[i], false), false) <==> SetsInsecure(a[i], true) {
        DropLeavesOnlyUnpinned(a[i], false);
      }
      var b := ItemsWithoutPinned(a, |a|);
      assert WithoutPinned(v, unpin) == Arr(b);
      assert forall i | 0 <= i < |a| :: SetsInsecure(b[i], false) == SetsInsecure(a[i], true);
    case _ =>
  }

  ghost predicate SetsAt(k: string, child: Json, unpinned: bool) {
    !IsHeaders(k) &&
    ((k == TLS && AllowsInsecure(child) && (unpinned ==> !IsPinned(child))) || SetsInsecure(child, unpinned))
  }

  lemma SetsInFields(m: map<string, Json>, unpinned: bool)
    ensures SetsInsecure(Obj(m), unpinned) <==> exists k <- m :: SetsAt(k, m[k], unpinned)
  {
  }

  // ---------- What the passes record ----------

  /** The pass only appends, and it appends exactly when it changes something. */
  lemma {:induction false} DropRecordsWhatItChanges(v: Json, path: string, dropped: seq<string>)
    ensures dropped <= PinsRecorded(v, path, dropped)
    ensures PinsRecorded(v, path, dropped) == dropped <==> WithoutPinned(v, false) == v
    decreases v, 2
  {
    match v
    case Obj(m) =>
      var order := Text.Sorted(m.Keys);
      DropRecordsInFields(m, order, |m|, path, dropped);
      FieldsSameIsSame(m);
      forall k <- m ensures exists i :: 0 <= i < |order| && order[i] == k {
        assert k in order;
      }
    case Arr(a) =>
      DropRecordsInItems(a, |a|, path, dropped);
      assert WithoutPinned(v, false) == Arr(ItemsWithoutPinned(a, |a|));
      assert ItemsWithoutPinned(a, |a|) == a <==> forall i | 0 <= i < |a| :: WithoutPinned(a[i], false) == a[i];
    case _ =>
  }

  lemma FieldsSameIsSame(m: map<string, Json>)
    ensures WithoutPinned(Obj(m), false) == Obj(m) <==> forall k <- m :: FieldWithoutPinned(k, m[k]) == m[k]
  {
    var w := map k <- m | !(false && k == INSECURE) :: FieldWithoutPinned(k, m[k]);
    assert WithoutPinned(Obj(m), false) == Obj(w);
    assert w == m <==> forall k <- m :: w[k] == m[k];
  }

  lemma {:induction false} DropRecordsInField(k: string, child: Json, path: string, dropped: seq<string>)
    ensures dropped <= FieldPinsRecorded(k, child, path, dropped)
    ensures FieldPinsRecorded(k, child, path, dropped) == dropped <==> FieldWithoutPinned(k, child) == child
    decreases child, 3
  {
    if !IsHeaders(k) {
      var childPath := TlsPath(path, k);
      if Unpins(k, child) {
        DropRecordsWhatItChanges(child, childPath, dropped + [childPath + ".allowInsecure"]);
        KeepsWhatDecides(child, true);
      } else {
        DropRecordsWhatItChanges(child, childPath, dropped);
      }
    }
  }

  lemma {:induction false} DropRecordsInFields(
      m: map<string, Json>, order: seq<string>, n: nat, path: string, dropped: seq<string>)
    requires n <= |order| && forall k <- order :: k in m
    ensures dropped <= FieldsPinsRecorded(m, order, n, path, dropped)
    ensures FieldsPinsRecorded(m, order, n, path, dropped) == dropped <==>
            forall i | 0 <= i < n :: FieldWithoutPinned(order[i], m[order[i]]) == m[order[i]]
    decreases Obj(m), 1, n
  {
    if n > 0 {
      DropRecordsInFields(m, order, n - 1, path, dropped);
      var k := order[n - 1];
      DropRecordsInField(k, m[k], path, FieldsPinsRecorded(m, order, n - 1, path, dropped));
    }
  }

  lemma {:induction false} DropRecordsInItems(a: seq<Json>, n: nat, path: string, dropped: seq<string>)
    requires n <= |a|
    ensures dropped <= ItemsPinsRecorded(a, n, path, dropped)
    ensures ItemsPinsRecorded(a, n, path, dropped) == dropped <==>
            forall i | 0 <= i < n :: WithoutPinned(a[i], false) == a[i]
    decreases Arr(a), 1, n
  {
    if n > 0 {
      DropRecordsInItems(a, n - 1, path, dropped);
      DropRecordsWhatItChanges(a[n - 1], ItemPath(path, n - 1), ItemsPinsRecorded(a, n - 1, path, dropped));
    }
  }

  // ---------- Stripping ----------

  lemma SafeSockoptIsSafe(v: Json)
    ensures SafeSockopt(SafeSockopt(v)) == SafeSockopt(v)
  {
  }

  /** A second run of the pass finds nothing left to do. */
  lemma {:induction false} StripIsIdempotent(v: Json)
    ensures Stripped(Stripped(v)) == Stripped(v)
  {
    match v
    case Obj(m) =>
      var w := map k <- m | !NamesFile(k) :: FieldStripped(k, m[k]);
      assert Stripped(v) == Obj(w);
      forall k <- m ensures FieldStripped(k, FieldStripped(k, m[k])) == FieldStripped(k, m[k]) {
        StripIsIdempotent(m[k]);
        SafeSockoptIsSafe(m[k]);
      }
      FieldsMakeStripped(w, w);
    case Arr(a) =>
      forall i | 0 <= i < |a| ensures Stripped(Stripped(a[i])) == Stripped(a[i]) {
        StripIsIdempotent(a[i]);
      }
      var b := ItemsStripped(a, |a|);
      assert Stripped(v) == Arr(b);
      assert ItemsStripped(b, |b|) == b;
    case _ =>
  }

  /** A stripped document stays stripped when `allowInsecure` keys are dropped, so
    * the two passes in this order settle in one run. */
  lemma {:induction false} DropKeepsStripped(v: Json, unpin: bool)
    requires Stripped(v) == v
    ensures Stripped(WithoutPinned(v, unpin)) == WithoutPinned(v, unpin)
  {
    match v
    case Obj(m) =>
      var w := map k <- m | !(unpin && k == INSECURE) :: FieldWithoutPinned(k, m[k]);
      assert WithoutPinned(v, unpin) == Obj(w);
      StrippedFields(m);
      forall k <- m ensures FieldStripped(k, FieldWithoutPinned(k, m[k])) == FieldWithoutPinned(k, m[k]) {
        if IsSockopt(k) && !IsHeaders(k) {
          DropKeepsSafe(m[k], Unpins(k, m[k]));
        } else if !IsHeaders(k) {
          DropKeepsStripped(m[k], Unpins(k, m[k]));
        }
      }
      FieldsMakeStripped(w, w);
    case Arr(a) =>
      assert ItemsStripped(a, |a|) == a;
      forall i | 0 <= i < |a| ensures Stripped(WithoutPinned(a[i], false)) == WithoutPinned(a[i], false) {
        assert ItemsStripped(a, |a|)[i] == a[i];
        DropKeepsStripped(a[i], false);
      }
      var b := ItemsWithoutPinned(a, |a|);
      assert WithoutPinned(v, unpin) == Arr(b);
      assert ItemsStripped(b, |b|) == b;
    case _ =>
  }

  lemma StrippedFields(m: map<string, Json>)
    requires Stripped(Obj(m)) == Obj(m)
    ensures forall k <- m :: !NamesFile(k) && FieldStripped(k, m[k]) == m[k]
  {
    var w := map k <- m | !NamesFile(k) :: FieldStripped(k, m[k]);
    assert Stripped(Obj(m)) == Obj(w);
    assert m == w;
    assert forall k <- m :: k in w;
  }

  lemma DropKeepsSafe(v: Json, unpin: bool)
    requires SafeSockopt(v) == v
    ensures SafeSockopt(WithoutPinned(v, unpin)) == WithoutPinned(v, unpin)
  {
    var m := v.fields;
    assert forall k <- m :: k in SOCKOPT_KEYS;
    var w := map k <- m | !(unpin && k == INSECURE) :: FieldWithoutPinned(k, m[k]);
    assert WithoutPinned(v, unpin) == Obj(w);
    assert w == map k <- w | k in SOCKOPT_KEYS :: w[k];
  }

  /** Both passes, as an outbound's stream settings go through them. */
  ghost function Sanitized(v: Json): Json {
    WithoutPinned(Stripped(v), false)
  }

  lemma SanitizeIsIdempotent(v: Json)
    ensures Sanitized(Sanitized(v)) == Sanitized(v)
  {
    StripIsIdempotent(v);
    DropKeepsStripped(Stripped(v), false);
    DropIsIdempotent(Stripped(v), false);
  }

  lemma StripKeepsPlain(x: Json)
    ensures Stripped(x).Bool? == x.Bool? && (x.Bool? ==> Stripped(x) == x)
    ensures Stripped(x).Str? == x.Str? && (x.Str? ==> Stripped(x) == x)
  {
  }

  lemma StripKeepsWhatDecides(tls: Json)
    ensures AllowsInsecure(Stripped(tls)) == AllowsInsecure(tls)
    ensures IsPinned(Stripped(tls)) == IsPinned(tls)
  {
    InsecureIsOrdinary();
    assert !NamesFile(INSECURE) && !NamesFile(PINS) by {
      assert |"masterKeyLog"| == 12 && |INSECURE| == 13 && |PINS| == 20;
    }
    if tls.Has(INSECURE) {
      StripKeepsPlain(tls.fields[INSECURE]);
    }
    if tls.Has(PINS) {
      StripKeepsPlain(tls.fields[PINS]);
    }
  }

  lemma SafeIsNoMoreUnpinned(v: Json)
    ensures HasUnpinnedAllowInsecure(SafeSockopt(v)) ==> HasUnpinnedAllowInsecure(v)
  {
    UnpinnedInFields(if v.Obj? then v.fields else map[]);
    UnpinnedInFields(SafeSockopt(v).fields);
  }

  /** Stripping never turns a runnable config into one no core can run. */
  lemma {:induction false} StripAddsNoUnpinned(v: Json)
    ensures HasUnpinnedAllowInsecure(Stripped(v)) ==> HasUnpinnedAllowInsecure(v)
  {
    match v
    case Obj(m) =>
      var w := map k <- m | !NamesFile(k) :: FieldStripped(k, m[k]);
      assert Stripped(v) == Obj(w);
      forall k <- m | UnpinnedAt(k, FieldStripped(k, m[k])) ensures UnpinnedAt(k, m[k]) {
        InsecureIsOrdinary();
        StripAddsNoUnpinned(m[k]);
        StripKeepsWhatDecides(m[k]);
        SafeIsNoMoreUnpinned(m[k]);
      }
      UnpinnedInFields(m);
      UnpinnedInFields(w);
    case Arr(a) =>
      forall i | 0 <= i < |a| ensures HasUnpinnedAllowInsecure(Stripped(a[i])) ==> HasUnpinnedAllowInsecure(a[i]) {
        StripAddsNoUnpinned(a[i]);
      }
      var b := ItemsStripped(a, |a|);
      assert Stripped(v) == Arr(b);
      assert forall i | 0 <= i < |a| :: HasUnpinnedAllowInsecure(b[i]) ==> HasUnpinnedAllowInsecure(a[i]);
    case _ =>
  }
}
