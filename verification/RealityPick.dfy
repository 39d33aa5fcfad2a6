/** Telling a provider config that only picked another REALITY server name or
  * short id from one that really changed. */
module RealityPick {
  import opened JsonValue
  import opened Wrappers
  import opened Places
  import Text

  const REALITY := "realitySettings"
  const PICK := {"serverName", "shortId"}

  predicate IsKept(k: string, inReality: bool) {
    !(inReality && k in PICK)
  }

  /** `v` without the pick of any `realitySettings` in it; `inReality` says that
    * `v` is itself one. */
  ghost function Forgotten(v: Json, inReality: bool): Json
    decreases v, 1
  {
    match v
    case Obj(m) => Obj(map k <- m | IsKept(k, inReality) :: Forgotten(m[k], k == REALITY))
    case Arr(a) => Arr(ItemsForgotten(a, |a|))
    case _ => v
  }

  ghost function ItemsForgotten(a: seq<Json>, n: nat): seq<Json>
    requires n <= |a|
    decreases Arr(a), 0
  {
    seq(n, i requires 0 <= i < n => Forgotten(a[i], false))
  }

  ghost function FieldsForgotten(m: map<string, Json>, order: seq<string>, n: nat, inReality: bool): map<string, Json>
    requires n <= |order| && forall k <- order :: k in m
  {
    if n == 0 then map[]
    else
      var k := order[n - 1];
      var before := FieldsForgotten(m, order, n - 1, inReality);
      if IsKept(k, inReality) then before[k := Forgotten(m[k], k == REALITY)] else before
  }

  lemma {:induction false} FieldsForgottenAre(m: map<string, Json>, order: seq<string>, n: nat, inReality: bool)
    requires n <= |order| && forall k <- order :: k in m
    ensures var fields := FieldsForgotten(m, order, n, inReality);
            && (forall k :: k in fields <==> k in order[..n] && IsKept(k, inReality))
            && (forall k <- fields :: fields[k] == Forgotten(m[k], k == REALITY))
  {
    if n > 0 {
      FieldsForgottenAre(m, order, n - 1, inReality);
      assert order[..n] == order[..n - 1] + [order[n - 1]];
    }
  }

  lemma FieldsMakeForgotten(m: map<string, Json>, inReality: bool, fields: map<string, Json>)
    requires forall k :: k in fields <==> k in m && IsKept(k, inReality)
    requires forall k <- fields :: fields[k] == Forgotten(m[k], k == REALITY)
    ensures Forgotten(Obj(m), inReality) == Obj(fields)
  {
    assert fields == map k <- m | IsKept(k, inReality) :: Forgotten(m[k], k == REALITY);
  }

  lemma AllFieldsForgotten(m: map<string, Json>, inReality: bool)
    ensures Forgotten(Obj(m), inReality) == Obj(FieldsForgotten(m, Text.Sorted(m.Keys), |m|, inReality))
  {
    var order := Text.Sorted(m.Keys);
    FieldsForgottenAre(m, order, |m|, inReality);
    assert order[..|m|] == order;
    FieldsMakeForgotten(m, inReality, FieldsForgotten(m, order, |m|, inReality));
  }

  method ForgetRealityPick(v: Json, inReality: bool) returns (r: Json)
    ensures r == Forgotten(v, inReality)
    decreases v, 1
  {
    match v
    case Obj(m) =>
      var fields := ForgetInFields(m, inReality);
      AllFieldsForgotten(m, inReality);
      r := Obj(fields);
    case Arr(a) =>
      var items: seq<Json> := [];
      for i := 0 to |a|
        invariant items == ItemsForgotten(a, i)
      {
        var child := ForgetRealityPick(a[i], false);
        items := items + [child];
      }
      r := Arr(items);
    case _ => r := v;
  }

  method ForgetInFields(m: map<string, Json>, inReality: bool) returns (fields: map<string, Json>)
    ensures fields == FieldsForgotten(m, Text.Sorted(m.Keys), |m|, inReality)
    decreases Obj(m), 0
  {
    fields := map[];
    var order := Text.SortKeys(m.Keys);
    for i := 0 to |order|
      invariant fields == FieldsForgotten(m, order, i, inReality)
    {
      var k := order[i];
      if IsKept(k, inReality) {
        var child := ForgetRealityPick(m[k], k == REALITY);
        fields := fields[k := child];
      }
    }
  }

  /** The same document but for picks, compared place by place. */
  ghost predicate SameButPick(a: Json, b: Json, inReality: bool) {
    match a
    case Obj(m) =>
      && b.Obj?
      && (forall k | IsKept(k, inReality) :: k in m <==> k in b.fields)
      && (forall k <- m | IsKept(k, inReality) :: k in b.fields && SameButPick(m[k], b.fields[k], k == REALITY))
    case Arr(s) => b.Arr? && |s| == |b.items| && forall i | 0 <= i < |s| :: SameButPick(s[i], b.items[i], false)
    case _ => a == b
  }

  ghost function KeptForgotten(m: map<string, Json>, inReality: bool): map<string, Json> {
    map k <- m | IsKept(k, inReality) :: Forgotten(m[k], k == REALITY)
  }

  lemma ForgottenKeepsRest(m: map<string, Json>, inReality: bool)
    ensures Forgotten(Obj(m), inReality) == Obj(KeptForgotten(m, inReality))
  {}

  lemma EqualFieldsAreSame(m: map<string, Json>, n: map<string, Json>, inReality: bool)
    requires forall k | k in m && k in n ::
      Forgotten(m[k], k == REALITY) == Forgotten(n[k], k == REALITY) <==> SameButPick(m[k], n[k], k == REALITY)
    requires KeptForgotten(m, inReality) == KeptForgotten(n, inReality)
    ensures SameButPick(Obj(m), Obj(n), inReality)
  {
    var f, g := KeptForgotten(m, inReality), KeptForgotten(n, inReality);
    forall k | IsKept(k, inReality) ensures k in m <==> k in n {
      assert k in f <==> k in g;
    }
    forall k <- m | IsKept(k, inReality) ensures k in n && SameButPick(m[k], n[k], k == REALITY) {
      assert k in f && k in g && f[k] == g[k];
    }
  }

  lemma SameFieldsAreEqual(m: map<string, Json>, n: map<string, Json>, inReality: bool)
    requires forall k | k in m && k in n ::
      Forgotten(m[k], k == REALITY) == Forgotten(n[k], k == REALITY) <==> SameButPick(m[k], n[k], k == REALITY)
    requires SameButPick(Obj(m), Obj(n), inReality)
    ensures KeptForgotten(m, inReality) == KeptForgotten(n, inReality)
  {
    var f, g := KeptForgotten(m, inReality), KeptForgotten(n, inReality);
    forall k ensures k in f <==> k in g {
      assert IsKept(k, inReality) ==> (k in m <==> k in n);
    }
    forall k | k in f ensures f[k] == g[k] {
      assert SameButPick(m[k], n[k], k == REALITY);
    }
  }

  lemma ForgottenFieldsEqual(m: map<string, Json>, n: map<string, Json>, inReality: bool)
    requires forall k | k in m && k in n ::
      Forgotten(m[k], k == REALITY) == Forgotten(n[k], k == REALITY) <==> SameButPick(m[k], n[k], k == REALITY)
    ensures Forgotten(Obj(m), inReality) == Forgotten(Obj(n), inReality) <==> SameButPick(Obj(m), Obj(n), inReality)
  {
    ForgottenKeepsRest(m, inReality);
    ForgottenKeepsRest(n, inReality);
    if KeptForgotten(m, inReality) == KeptForgotten(n, inReality) {
      EqualFieldsAreSame(m, n, inReality);
    }
    if SameButPick(Obj(m), Obj(n), inReality) {
      SameFieldsAreEqual(m, n, inReality);
    }
  }

  lemma ForgottenItemsEqual(s: seq<Json>, t: seq<Json>, inReality: bool)
    requires forall i | 0 <= i < |s| && i < |t| ::
      Forgotten(s[i], false) == Forgotten(t[i], false) <==> SameButPick(s[i], t[i], false)
    ensures Forgotten(Arr(s), inReality) == Forgotten(Arr(t), inReality) <==> SameButPick(Arr(s), Arr(t), inReality)
  {
    var p, q := ItemsForgotten(s, |s|), ItemsForgotten(t, |t|);
    assert Forgotten(Arr(s), inReality) == Arr(p) && Forgotten(Arr(t), inReality) == Arr(q);
    assert |p| == |s| && |q| == |t|;
    if p == q {
      forall i | 0 <= i < |s| ensures SameButPick(s[i], t[i], false) {
        assert p[i] == q[i];
      }
    }
    if SameButPick(Arr(s), Arr(t), inReality) {
      forall i | 0 <= i < |s| ensures p[i] == q[i] {
        assert SameButPick(s[i], t[i], false);
      }
      assert p == q;
    }
  }

  /** Forgetting the picks tells two documents apart exactly when they differ in
    * more than picks. */
  lemma {:induction false} ForgottenEqualIsSameButPick(a: Json, b: Json, inReality: bool)
    ensures Forgotten(a, inReality) == Forgotten(b, inReality) <==> SameButPick(a, b, inReality)
  {
    if a.Obj? && b.Obj? {
      forall k | k in a.fields && k in b.fields
        ensures Forgotten(a.fields[k], k == REALITY) == Forgotten(b.fields[k], k == REALITY)
                <==> SameButPick(a.fields[k], b.fields[k], k == REALITY)
      {
        ForgottenEqualIsSameButPick(a.fields[k], b.fields[k], k == REALITY);
      }
      ForgottenFieldsEqual(a.fields, b.fields, inReality);
    } else if a.Arr? && b.Arr? {
      forall i | 0 <= i < |a.items| && i < |b.items|
        ensures Forgotten(a.items[i], false) == Forgotten(b.items[i], false)
                <==> SameButPick(a.items[i], b.items[i], false)
      {
        ForgottenEqualIsSameButPick(a.items[i], b.items[i], false);
      }
      ForgottenItemsEqual(a.items, b.items, inReality);
    }
  }

  // ---------- Picks, place by place ----------

  /** The place goes through the server name or the short id of some REALITY settings. */
  predicate IsPickAt(place: Place, i: int) {
    && 0 <= i < |place| - 1 && place[i] == Key("realitySettings")
    && (place[i + 1] == Key("serverName") || place[i + 1] == Key("shortId"))
  }

  /** The same, where the place starts in REALITY settings if `inReality`. */
  ghost predicate IsPicked(place: Place, inReality: bool) {
    || (exists i :: IsPickAt(place, i))
    || (inReality && place != [] && (place[0] == Key("serverName") || place[0] == Key("shortId")))
  }

  lemma PickedBelow(hop: Hop, rest: Place)
    ensures (exists i :: IsPickAt([hop] + rest, i)) <==> IsPicked(rest, hop == Key("realitySettings"))
  {
    var place := [hop] + rest;
    assert forall i | 0 <= i < |rest| :: place[i + 1] == rest[i];
    forall i | i > 0 ensures IsPickAt(place, i) <==> IsPickAt(rest, i - 1) {}
    if i :| IsPickAt(place, i) {
      assert i > 0 ==> IsPickAt(rest, i - 1);
    }
    if i :| IsPickAt(rest, i) {
      assert IsPickAt(place, i + 1);
    }
    if IsPicked(rest, hop == Key("realitySettings")) && !exists i :: IsPickAt(rest, i) {
      assert IsPickAt(place, 0);
    }
  }

  /** Forgetting removes the picks and nothing else. */
  lemma {:induction false} ForgetsExactly(v: Json, inReality: bool, place: Place)
    ensures var w := Forgotten(v, inReality);
            if IsPicked(place, inReality) then At(w, place).None?
            else At(v, place).Some? == At(w, place).Some?
                 && (At(v, place).Some? ==> SameShape(At(v, place).value, At(w, place).value))
    decreases |place|
  {
    if place != [] {
      var w, rest := Forgotten(v, inReality), place[1..];
      assert place == [place[0]] + rest;
      PickedBelow(place[0], rest);
      match place[0]
      case Key(k) =>
        if v.Has(k) && IsKept(k, inReality) {
          ForgetsExactly(v.fields[k], k == REALITY, rest);
          AtKey(v, k, rest);
          AtKey(w, k, rest);
        }
      case Index(i) =>
        if v.Arr? && i < |v.items| {
          ForgetsExactly(v.items[i], false, rest);
          assert w == Arr(ItemsForgotten(v.items, |v.items|));
          AtIndex(v, i, rest);
          AtIndex(w, i, rest);
        }
    }
  }

  /** The same at every place that goes through no pick. */
  ghost predicate AgreeBesidesPicks(a: Json, b: Json, inReality: bool) {
    forall place | !IsPicked(place, inReality) ::
      At(a, place).Some? == At(b, place).Some?
      && (At(a, place).Some? ==> SameShape(At(a, place).value, At(b, place).value))
  }

  lemma AgreeBelowKey(a: Json, b: Json, inReality: bool, k: string)
    requires AgreeBesidesPicks(a, b, inReality) && IsKept(k, inReality)
    ensures a.Has(k) == b.Has(k)
    ensures a.Has(k) ==> AgreeBesidesPicks(a.fields[k], b.fields[k], k == REALITY)
  {
    var here: Place := [Key(k)];
    PickedBelow(Key(k), []);
    assert here == [Key(k)] + [] && !IsPicked(here, inReality);
    assert here[1..] == [] && At(a, here).Some? == a.Has(k) && At(b, here).Some? == b.Has(k);
    if a.Has(k) && b.Has(k) {
      forall rest | !IsPicked(rest, k == REALITY)
        ensures At(a.fields[k], rest).Some? == At(b.fields[k], rest).Some?
                && (At(a.fields[k], rest).Some? ==>
                      SameShape(At(a.fields[k], rest).value, At(b.fields[k], rest).value))
      {
        var place := [Key(k)] + rest;
        PickedBelow(Key(k), rest);
        AtKey(a, k, rest);
        AtKey(b, k, rest);
        assert place[0] == Key(k) && !IsPicked(place, inReality);
      }
    }
  }

  lemma AgreeBelowIndex(a: Json, b: Json, inReality: bool, i: nat)
    requires AgreeBesidesPicks(a, b, inReality) && a.Arr? && b.Arr? && i < |a.items| && i < |b.items|
    ensures AgreeBesidesPicks(a.items[i], b.items[i], false)
  {
    forall rest | !IsPicked(rest, false)
      ensures At(a.items[i], rest).Some? == At(b.items[i], rest).Some?
              && (At(a.items[i], rest).Some? ==> SameShape(At(a.items[i], rest).value, At(b.items[i], rest).value))
    {
      var place := [Index(i)] + rest;
      PickedBelow(Index(i), rest);
      AtIndex(a, i, rest);
      AtIndex(b, i, rest);
      assert place[0] == Index(i) && !IsPicked(place, inReality);
    }
  }

  lemma {:induction false} AgreeingIsSame(a: Json, b: Json, inReality: bool)
    requires AgreeBesidesPicks(a, b, inReality)
    ensures SameButPick(a, b, inReality)
  {
    assert !IsPicked([], inReality) && At(a, []) == Some(a) && At(b, []) == Some(b);
    match a
    case Obj(m) =>
      forall k | IsKept(k, inReality)
        ensures k in m <==> k in b.fields
        ensures k in m ==> SameButPick(m[k], b.fields[k], k == REALITY)
      {
        AgreeBelowKey(a, b, inReality, k);
        if k in m {
          AgreeingIsSame(m[k], b.fields[k], k == REALITY);
        }
      }
    case Arr(s) =>
      forall i | 0 <= i < |s| ensures SameButPick(s[i], b.items[i], false) {
        AgreeBelowIndex(a, b, inReality, i);
        AgreeingIsSame(s[i], b.items[i], false);
      }
    case _ =>
  }

  /** The comparison place by place is agreement at every place that goes through no pick. */
  lemma SameButPickExactly(a: Json, b: Json, inReality: bool)
    ensures SameButPick(a, b, inReality) <==> AgreeBesidesPicks(a, b, inReality)
  {
    ForgottenEqualIsSameButPick(a, b, inReality);
    if SameButPick(a, b, inReality) {
      forall place | !IsPicked(place, inReality)
        ensures At(a, place).Some? == At(b, place).Some?
                && (At(a, place).Some? ==> SameShape(At(a, place).value, At(b, place).value))
      {
        ForgetsExactly(a, inReality, place);
        ForgetsExactly(b, inReality, place);
      }
    }
    if AgreeBesidesPicks(a, b, inReality) {
      AgreeingIsSame(a, b, inReality);
    }
  }

  const OUTBOUNDS := "outbounds"

  /** Both parse, name outbounds, and agree on everything else. */
  predicate AgreeOutsideOutbounds(a: Option<Json>, b: Option<Json>) {
    && a.Some? && b.Some? && a.value.Has(OUTBOUNDS) && b.value.Has(OUTBOUNDS)
    && a.value.fields - {OUTBOUNDS} == b.value.fields - {OUTBOUNDS}
  }

  /** `a` and `b` are the parsed configs, `None` where the text is not JSON. */
  method DiffersOnlyInRealityPick(a: Option<Json>, b: Option<Json>) returns (same: bool)
    ensures same <==> AgreeOutsideOutbounds(a, b) && SameButPick(a.value.Get(OUTBOUNDS), b.value.Get(OUTBOUNDS), false)
  {
    if a.None? || b.None? || !a.value.Has(OUTBOUNDS) || !b.value.Has(OUTBOUNDS) {
      return false;
    }
    var m, n := a.value.fields, b.value.fields;
    var x := ForgetRealityPick(m[OUTBOUNDS], false);
    var y := ForgetRealityPick(n[OUTBOUNDS], false);
    ForgottenEqualIsSameButPick(m[OUTBOUNDS], n[OUTBOUNDS], false);
    var m', n' := m[OUTBOUNDS := x], n[OUTBOUNDS := y];
    same := m' == n';
    assert m' - {OUTBOUNDS} == m - {OUTBOUNDS} && n' - {OUTBOUNDS} == n - {OUTBOUNDS};
    assert m' == (m - {OUTBOUNDS})[OUTBOUNDS := x] && n' == (n - {OUTBOUNDS})[OUTBOUNDS := y];
    assert m' == n' ==> m'[OUTBOUNDS] == n'[OUTBOUNDS];
  }
}
