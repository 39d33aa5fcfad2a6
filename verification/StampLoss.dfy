/** Which documents come out the same when their stamp is lost and the ladder runs
  * again. */
module StampLoss {
  import opened JsonValue
  import opened Migrate
  import opened MigrateRules
  import opened MigrateProps
  import opened Wrappers
  import Text

  ghost function Unstamped(v: Json): Json {
    match v
    case Obj(m) => Obj(m - {STAMP})
    case _ => v
  }

  /** A flat profile of a protocol without transport that nevertheless carries an
    * untagged transport object: the first upgrade leaves that object as it is. */
  predicate CarriesReadyTransport(p: Json) {
    IsFlat(p) && !HasTransport(p.fields["protocol"].s) && p.Has("transport") && IsUntagged(p.fields["transport"])
  }

  predicate HoldsSubObject(v: Json) {
    v.Has(SUBSCRIPTIONS) && v.fields[SUBSCRIPTIONS].Arr? && exists s <- v.fields[SUBSCRIPTIONS].items :: s.Obj?
  }

  predicate HoldsReadyTransport(v: Json) {
    v.Has(PROFILES) && v.fields[PROFILES].Arr? && exists p <- v.fields[PROFILES].items :: CarriesReadyTransport(p)
  }

  lemma WithMetaKeeps(obj: map<string, Json>, rules: Rules)
    requires RulesOk(rules) && "meta" !in obj
    ensures var r := WithMeta(obj, rules); "meta" in r && SameBut(obj, r, "meta")
  {
    GroupNamesDiffer();
  }

  /** `r` holds what `obj` holds under the names the profile upgrade reads, but
    * for `group`. */
  ghost predicate SameBut(obj: map<string, Json>, r: map<string, Json>, group: string) {
    forall k | k == "protocol" || k == "transport" || k == "meta" ::
      k != group ==> ((k in r <==> k in obj) && (k in obj ==> r[k] == obj[k]))
  }

  lemma WithEndpointKeeps(obj: map<string, Json>, rules: Rules)
    requires RulesOk(rules)
    ensures SameBut(obj, WithEndpoint(obj, rules), "endpoint")
  {
    GroupNamesDiffer();
  }

  lemma WithTransportKeeps(obj: map<string, Json>, rules: Rules)
    requires RulesOk(rules)
    ensures var r := WithTransport(obj, rules);
            SameBut(obj, r, "transport") && "transport" in r && r["transport"].Has("kind")
  {
    GroupNamesDiffer();
  }

  lemma WithTlsKeeps(obj: map<string, Json>, rules: Rules)
    requires RulesOk(rules)
    ensures SameBut(obj, WithTls(obj, rules), "tls")
  {
    GroupNamesDiffer();
  }

  lemma WithReservedKeeps(obj: map<string, Json>, rules: Rules)
    requires RulesOk(rules)
    ensures SameBut(obj, WithReserved(obj, rules), "reserved")
  {
    GroupNamesDiffer();
  }

  lemma NestedKeeps(obj: map<string, Json>, protocol: string, rules: Rules)
    requires RulesOk(rules) && "meta" !in obj && "protocol" in obj
    ensures var r := Nested(obj, protocol, rules);
            && "meta" in r && "protocol" in r && r["protocol"] == obj["protocol"]
            && (HasTransport(protocol) ==> "transport" in r && r["transport"].Has("kind"))
            && (!HasTransport(protocol) ==>
                  ("transport" in r <==> "transport" in obj)
                          && ("transport" in obj ==> r["transport"] == obj["transport"]))
  {
    GroupNamesDiffer();
    var m := WithMeta(obj, rules);
    WithMetaKeeps(obj, rules);
    var e := if protocol != "custom" then WithEndpoint(m, rules) else m;
    WithEndpointKeeps(m, rules);
    var t := if HasTransport(protocol) then WithTransport(e, rules) else e;
    WithTransportKeeps(e, rules);
    var s := if HasTls(protocol) then WithTls(t, rules) else t;
    WithTlsKeeps(t, rules);
    WithReservedKeeps(s, rules);
  }

  /** Upgrading a profile again changes it exactly when it carried a ready-made
    * transport that the first upgrade passed over. */
  lemma ProfileSettles(p: Json, rules: Rules)
    requires RulesOk(rules)
    ensures var q := ProfileMigrated(p, rules);
            && !IsFlat(q)
            && (ProfileMigrated(q, rules) == q <==> !CarriesReadyTransport(p))
            && (CarriesReadyTransport(p) ==>
                  && q.Has("transport") && IsUntagged(q.fields["transport"])
                  && q.Has("protocol") && q.fields["protocol"].Str?)
  {
    var q := ProfileMigrated(p, rules);
    if IsFlat(p) {
      NestedKeeps(p.fields, p.fields["protocol"].s, rules);
      TaggingChanges(q, rules);
    } else if p.Has("protocol") && p.fields["protocol"].Str? {
      GroupNamesDiffer();
      TaggingChanges(p, rules);
    }
  }

  lemma TaggingChanges(p: Json, rules: Rules)
    requires RulesOk(rules)
    ensures Tagged(p, rules) == p <==> !(p.Has("transport") && IsUntagged(p.fields["transport"]))
    ensures Tagged(Tagged(p, rules), rules) == Tagged(p, rules)
  {
    if p.Has("transport") && IsUntagged(p.fields["transport"]) {
      var t := p.fields["transport"];
      assert rules.nest(t.fields).Has("kind");
      assert Tagged(p, rules).fields["transport"] == rules.nest(t.fields);
    }
  }

  lemma StrayTlsGoesOnce(p: Json)
    ensures WithoutStrayTls(WithoutStrayTls(p)) == WithoutStrayTls(p)
    ensures var q := WithoutStrayTls(p);
            && q.Has("protocol") == p.Has("protocol")
                    && (p.Has("protocol") ==> q.fields["protocol"] == p.fields["protocol"])
            && q.Has("meta") == p.Has("meta") && q.Has("id") == p.Has("id")
            && q.Has("transport") == p.Has("transport")
                    && (p.Has("transport") ==> q.fields["transport"] == p.fields["transport"])
  {
    GroupNamesDiffer();
    assert |"id"| == 2 && |"none"| == 4 && |"tls"| == 3;
  }

  /** The profile part of a whole second ladder, run from version zero. */
  lemma FinalProfileAgain(p: Json, rules: Rules)
    requires RulesOk(rules)
    ensures FinalProfile(FinalProfile(p, 0, rules), 0, rules) == FinalProfile(p, 0, rules)
            <==> !CarriesReadyTransport(p)
  {
    var q := ProfileMigrated(p, rules);
    var w := WithoutStrayTls(q);
    ProfileSettles(p, rules);
    StrayTlsGoesOnce(q);
    if CarriesReadyTransport(p) {
      var x := ProfileMigrated(w, rules);
      StrayTlsGoesOnce(x);
      TaggingChanges(w, rules);
      assert x == Tagged(w, rules);
      assert rules.nest(w.fields["transport"].fields).Has("kind");
      assert WithoutStrayTls(x).fields["transport"] == x.fields["transport"];
      assert x.fields["transport"].Has("kind") && !w.fields["transport"].Has("kind");
    } else {
      TaggingChanges(q, rules);
      TaggingChanges(w, rules);
    }
  }

  lemma OptedOutOnce(s: Json)
    ensures OptedOut(OptedOut(s)) == OptedOut(s)
    ensures OptedOut(s).Obj? == s.Obj? && OptedOut(s).Has(MANUAL) == s.Has(MANUAL)
  {
    assert |"request"| == 7 && |"userAgent"| == 9 && |MANUAL| == 11 && |"sendHwid"| == 8;
  }

  // ---------- What a second ladder changes ----------

  /** The version the ladder first runs from. */
  function From(v: Json): nat {
    AtMost(StoredVersion(v), SCHEMA_VERSION)
  }

  /** The version the result is dated at once its stamp is lost: the steps mark every
    * subscription they number, and later ones keep the marks. */
  ghost function Again(v: Json): nat {
    if HasIdentity(v) then 3
    else if (if From(v) <= 1 then HoldsSubObject(v) else HasMarkedSub(v)) then 2
    else 0
  }

  /** The first step still has something to do for the profile. */
  predicate IsOld(p: Json) {
    IsFlat(p)
      || (p.Has("protocol") && p.fields["protocol"].Str? && p.Has("transport") && IsUntagged(p.fields["transport"]))
  }

  /** The user typed a user agent, and nothing says whether to send the device id. */
  predicate MissesOptOut(s: Json) {
    && s.Obj? && !Text.IsBlank(s.TextOr("userAgent", ""))
    && ("request" !in s.fields || (s.fields["request"].Obj? && "sendHwid" !in s.fields["request"].fields))
  }

  /** A second ladder changes what the first made of the profile: from zero one that is
    * old still, and otherwise one with stray TLS that the first never looked at. */
  predicate ProfileShows(p: Json, from: nat, again: nat) {
    if again == 0 && from == 0 then CarriesReadyTransport(p)
    else (again == 0 && IsOld(p)) || (from == 4 && CarriesStrayTls(p))
  }

  /** The same for a subscription: from zero any object that got no mark, and from two
    * one that never got the chance to opt out. */
  predicate SubShows(s: Json, from: nat, again: nat) {
    (again == 0 && from >= 2 && s.Obj?) || (again == 2 && from >= 3 && MissesOptOut(s))
  }

  ghost predicate ProfilesShow(v: Json) {
    v.Has(PROFILES) && v.fields[PROFILES].Arr?
    && exists p <- v.fields[PROFILES].items :: ProfileShows(p, From(v), Again(v))
  }

  ghost predicate SubsShow(v: Json) {
    v.Has(SUBSCRIPTIONS) && v.fields[SUBSCRIPTIONS].Arr?
    && exists s <- v.fields[SUBSCRIPTIONS].items :: SubShows(s, From(v), Again(v))
  }

  lemma MigratingChangesOld(p: Json, rules: Rules)
    requires RulesOk(rules)
    ensures ProfileMigrated(p, rules) == p <==> !IsOld(p)
    ensures IsFlat(p) ==> ProfileMigrated(p, rules).Has("meta")
  {
    if IsFlat(p) {
      NestedKeeps(p.fields, p.fields["protocol"].s, rules);
    } else {
      TaggingChanges(p, rules);
    }
  }

  lemma StrayTlsGoes(p: Json)
    ensures WithoutStrayTls(p) == p <==> !CarriesStrayTls(p)
  {
    assert |"none"| == 4 && |"tls"| == 3;
    if CarriesStrayTls(p) {
      assert WithoutStrayTls(p).fields["tls"].TextOr("security", "tls") == "none";
    }
  }

  lemma FinalProfileChanges(p: Json, rules: Rules)
    requires RulesOk(rules)
    ensures FinalProfile(p, 0, rules) == p <==> !IsOld(p) && !CarriesStrayTls(p)
  {
    var q := ProfileMigrated(p, rules);
    MigratingChangesOld(p, rules);
    StrayTlsGoesOnce(q);
    StrayTlsGoes(q);
    if IsOld(p) && !IsFlat(p) {
      assert rules.nest(p.fields["transport"].fields).Has("kind");
      assert q.fields["transport"].Has("kind") && !p.fields["transport"].Has("kind");
    }
  }

  lemma StrayKeepsAge(p: Json)
    ensures IsOld(WithoutStrayTls(p)) == IsOld(p) && !CarriesStrayTls(WithoutStrayTls(p))
  {
    StrayTlsGoesOnce(p);
    StrayTlsGoes(WithoutStrayTls(p));
  }

  lemma ProfileAgain(p: Json, from: nat, again: nat, rules: Rules)
    requires RulesOk(rules) && from <= 4 && (again == 0 || again == 2 || again == 3)
    ensures FinalProfile(FinalProfile(p, from, rules), again, rules) == FinalProfile(p, from, rules)
            <==> !ProfileShows(p, from, again)
  {
    var q := FinalProfile(p, from, rules);
    if from == 0 && again == 0 {
      FinalProfileAgain(p, rules);
    } else if again == 0 {
      StrayKeepsAge(p);
      FinalProfileChanges(q, rules);
    } else {
      StrayKeepsAge(if from == 0 then ProfileMigrated(p, rules) else p);
      StrayTlsGoes(q);
    }
  }

  lemma OptingOutChanges(s: Json)
    ensures OptedOut(s) == s <==> !MissesOptOut(s)
  {
    if MissesOptOut(s) {
      var r := OptedOut(s).fields["request"];
      assert r.Obj? && "sendHwid" in r.fields;
    } else if s.Obj? && !Text.IsBlank(s.TextOr("userAgent", "")) {
      assert s.fields["request" := s.fields["request"]] == s.fields;
    }
  }

  /** The mark that dates a document survives the later steps. */
  lemma MarkSurvives(s: Json, from: nat, converted: bool, rules: Rules)
    ensures from <= 1 && s.Obj? ==> FinalSub(s, from, converted, rules).Has(MANUAL)
    ensures FinalSub(s, from, converted, rules).Obj? == s.Obj?
    ensures from >= 2 ==> FinalSub(s, from, converted, rules).Has(MANUAL) == s.Has(MANUAL)
  {
    var m := if converted then s else InMinutes(s);
    OptedOutOnce(Marked(m, rules));
    OptedOutOnce(Marked(s, rules));
    OptedOutOnce(s);
  }

  lemma SubAgain(s: Json, from: nat, again: nat, converted: bool, rules: Rules)
    requires again == 0 || again == 2 || again == 3
    requires again == 0 ==> !FinalSub(s, from, converted, rules).Has(MANUAL)
    ensures FinalSub(FinalSub(s, from, converted, rules), again, converted, rules)
            == FinalSub(s, from, converted, rules)
            <==> !SubShows(s, from, again)
  {
    var t := FinalSub(s, from, converted, rules);
    MarkSurvives(s, from, converted, rules);
    MarkSurvives(t, again, converted, rules);
    if again == 2 {
      OptingOutChanges(t);
      if from <= 2 {
        var m := if converted then s else InMinutes(s);
        OptedOutOnce(if from == 0 then Marked(m, rules) else if from == 1 then Marked(s, rules) else s);
      }
    }
  }

  lemma ProfilesAgain(x: Json, from: nat, again: nat, rules: Rules)
    requires RulesOk(rules) && from <= 4 && (again == 0 || again == 2 || again == 3)
    ensures FinalProfiles(FinalProfiles(x, from, rules), again, rules) == FinalProfiles(x, from, rules)
            <==> !(x.Arr? && exists p <- x.items :: ProfileShows(p, from, again))
  {
    if x.Arr? {
      var once := FinalProfiles(x, from, rules).items;
      var twice := FinalProfiles(Arr(once), again, rules).items;
      forall i | 0 <= i < |x.items| ensures twice[i] == once[i] <==> !ProfileShows(x.items[i], from, again) {
        ProfileAgain(x.items[i], from, again, rules);
      }
      SameUnlessShown(x.items, once, twice, p => ProfileShows(p, from, again));
    }
  }

  lemma SubsAgain(x: Json, from: nat, again: nat, converted: bool, rules: Rules)
    requires again == 0 || again == 2 || again == 3
    requires again == 0 && x.Arr? ==> forall s <- FinalSubs(x, from, converted, rules).items :: !s.Has(MANUAL)
    ensures FinalSubs(FinalSubs(x, from, converted, rules), again, converted, rules)
            == FinalSubs(x, from, converted, rules)
            <==> !(x.Arr? && exists s <- x.items :: SubShows(s, from, again))
  {
    if x.Arr? {
      var once := FinalSubs(x, from, converted, rules).items;
      var twice := FinalSubs(Arr(once), again, converted, rules).items;
      forall i | 0 <= i < |x.items| ensures twice[i] == once[i] <==> !SubShows(x.items[i], from, again) {
        assert once[i] in once;
        SubAgain(x.items[i], from, again, converted, rules);
      }
      SameUnlessShown(x.items, once, twice, s => SubShows(s, from, again));
    }
  }

  lemma SameUnlessShown(items: seq<Json>, once: seq<Json>, twice: seq<Json>, shows: Json -> bool)
    requires |items| == |once| == |twice|
    requires forall i | 0 <= i < |items| :: twice[i] == once[i] <==> !shows(items[i])
    ensures twice == once <==> !exists e <- items :: shows(e)
  {
    if e :| e in items && shows(e) {
      var i :| 0 <= i < |items| && items[i] == e;
      assert twice[i] != once[i];
    } else {
      assert forall i | 0 <= i < |items| :: items[i] in items;
      assert twice == once;
    }
  }

  // ---------- The whole document ----------

  lemma MarkedExactly(a: seq<Json>, b: seq<Json>, early: bool)
    requires |a| == |b|
    requires forall i | 0 <= i < |a| :: b[i].Has(MANUAL) <==> if early then a[i].Obj? else a[i].Has(MANUAL)
    ensures (exists s <- b :: s.Has(MANUAL)) <==> exists s <- a :: if early then s.Obj? else s.Has(MANUAL)
  {
    if s :| s in b && s.Has(MANUAL) {
      var i :| 0 <= i < |b| && b[i] == s;
      assert a[i] in a;
    }
    if s :| s in a && if early then s.Obj? else s.Has(MANUAL) {
      var i :| 0 <= i < |a| && a[i] == s;
      assert b[i] in b;
    }
  }

  /** What the first ladder and the loss of the stamp leave. */
  ghost predicate IsLeft(v: Json, u: Json, rules: Rules) {
    v.Obj? && u.Obj? && STAMP !in u.fields && FinalIs(Unstamped(v), u, From(v), rules)
  }

  lemma DatedAgain(v: Json, u: Json, rules: Rules)
    requires IsLeft(v, u, rules)
    ensures StoredVersion(u) == Again(v)
  {
    KeysDiffer();
    if !HasIdentity(v) && SUBSCRIPTIONS in v.fields && v.fields[SUBSCRIPTIONS].Arr? {
      var a, b := v.fields[SUBSCRIPTIONS].items, u.fields[SUBSCRIPTIONS].items;
      forall i | 0 <= i < |a| ensures b[i].Has(MANUAL) <==> if From(v) <= 1 then a[i].Obj? else a[i].Has(MANUAL) {
        MarkSurvives(a[i], From(v), IsConverted(v), rules);
      }
      MarkedExactly(a, b, From(v) <= 1);
    }
  }

  ghost predicate SameBesidesProfiles(a: Json, b: Json) {
    if a.Obj? && b.Obj? then a.fields - {PROFILES} == b.fields - {PROFILES} else a == b
  }

  lemma StampedEqual(x: Json, u: Json)
    requires x.Obj? && u.Obj? && x.fields.Keys == u.fields.Keys && STAMP !in u.fields
    requires forall k | k in u.fields && k != PROFILES && k != SUBSCRIPTIONS :: x.fields[k] == u.fields[k]
    ensures var subs := SUBSCRIPTIONS in u.fields ==> x.fields[SUBSCRIPTIONS] == u.fields[SUBSCRIPTIONS];
            && (SameBesidesProfiles(Stamped(x, SCHEMA_VERSION), Stamped(u, SCHEMA_VERSION)) <==> subs)
            && (Stamped(x, SCHEMA_VERSION) == Stamped(u, SCHEMA_VERSION)
                <==> subs && (PROFILES in u.fields ==> x.fields[PROFILES] == u.fields[PROFILES]))
  {
    KeysDiffer();
    var a, b := x.fields[STAMP := Num(SCHEMA_VERSION)], u.fields[STAMP := Num(SCHEMA_VERSION)];
    if a - {PROFILES} == b - {PROFILES} && SUBSCRIPTIONS in u.fields {
      assert (a - {PROFILES})[SUBSCRIPTIONS] == (b - {PROFILES})[SUBSCRIPTIONS];
    }
    if a == b {
      assert a - {PROFILES} == b - {PROFILES};
      assert PROFILES in u.fields ==> a[PROFILES] == b[PROFILES];
    }
    if SUBSCRIPTIONS in u.fields ==> x.fields[SUBSCRIPTIONS] == u.fields[SUBSCRIPTIONS] {
      assert a - {PROFILES} == b - {PROFILES};
      if PROFILES in u.fields ==> x.fields[PROFILES] == u.fields[PROFILES] {
        assert a == b;
      }
    }
  }

  /** The second ladder on what is left. */
  lemma FieldsAgain(v: Json, u: Json, x: Json, rules: Rules)
    requires RulesOk(rules) && IsLeft(v, u, rules) && FinalIs(u, x, Again(v), rules) && StoredVersion(u) == Again(v)
    ensures SameBesidesProfiles(Stamped(x, SCHEMA_VERSION), Stamped(u, SCHEMA_VERSION)) <==> !SubsShow(v)
    ensures Stamped(x, SCHEMA_VERSION) == Stamped(u, SCHEMA_VERSION) <==> !SubsShow(v) && !ProfilesShow(v)
  {
    KeysDiffer();
    ConvertedStays(Unstamped(v), u);
    assert IsConverted(u) == IsConverted(v) == IsConverted(Unstamped(v));
    if PROFILES in v.fields {
      ProfilesAgain(v.fields[PROFILES], From(v), Again(v), rules);
    }
    if SUBSCRIPTIONS in v.fields {
      assert Again(v) == 0 && u.fields[SUBSCRIPTIONS].Arr?
             ==> forall s <- u.fields[SUBSCRIPTIONS].items :: !s.Has(MANUAL);
      SubsAgain(v.fields[SUBSCRIPTIONS], From(v), Again(v), IsConverted(v), rules);
    }
    StampedEqual(x, u);
  }

  /** What is left of an object, and that it is what the result was but for the stamp. */
  lemma Leaves(v: Json, rules: Rules)
    requires v.Obj?
    ensures var once := Migrated(v, rules);
            IsLeft(v, Unstamped(once), rules) && once == Stamped(Unstamped(once), SCHEMA_VERSION)
  {
    KeysDiffer();
    var w := Lifted(v, From(v), SCHEMA_VERSION, rules);
    LiftedIsFinal(v, From(v), rules);
    var once := Stamped(w, SCHEMA_VERSION);
    assert (once.fields - {STAMP})[STAMP := Num(SCHEMA_VERSION)] == once.fields;
    assert IsConverted(Unstamped(v)) == IsConverted(v);
  }

  /** A document whose result the loss of its stamp changes. */
  ghost predicate LossShows(v: Json) {
    SubsShow(v) || ProfilesShow(v)
  }

  /** Upgrade a document, lose the stamp and upgrade again: the result is the same exactly
    * when the second ladder has nothing left to do for any entry, and outside the
    * profiles exactly when it has nothing to do for any subscription. */
  lemma StampLossIsHarmless(v: Json, rules: Rules)
    requires RulesOk(rules)
    ensures Migrated(Unstamped(Migrated(v, rules)), rules) == Migrated(v, rules) <==> !LossShows(v)
    ensures SameBesidesProfiles(Migrated(Unstamped(Migrated(v, rules)), rules), Migrated(v, rules)) <==> !SubsShow(v)
  {
    if v.Obj? {
      var u := Unstamped(Migrated(v, rules));
      Leaves(v, rules);
      DatedAgain(v, u, rules);
      LiftedIsFinal(u, Again(v), rules);
      FieldsAgain(v, u, Lifted(u, Again(v), SCHEMA_VERSION, rules), rules);
    } else {
      NothingToLift(v, 0, SCHEMA_VERSION, rules);
    }
  }

  lemma {:induction false} NothingToLift(v: Json, from: nat, to: nat, rules: Rules)
    requires !v.Obj? && from <= to
    ensures Lifted(v, from, to, rules) == v
    decreases (to as int) - from
  {
    if from < to {
      NothingToLift(v, from + 1, to, rules);
    }
  }

  /** The same, for the rules the application upgrades with. */
  lemma SourceStampLossIsHarmless(v: Json, parsers: Parsers)
    ensures var rules := SourceRules(parsers);
            var once := Migrated(v, rules);
            && (Migrated(Unstamped(once), rules) == once <==> !LossShows(v))
            && (SameBesidesProfiles(Migrated(Unstamped(once), rules), once) <==> !SubsShow(v))
  {
    SourceRulesOk(parsers);
    StampLossIsHarmless(v, SourceRules(parsers));
  }

  // ---------- The documents there are ----------

  /** A document that came without a stamp is dated again no earlier than at first, so
    * the loss shows only when nothing dates it either time and some profile carries a
    * ready-made transport. */
  lemma UnstampedDocuments(v: Json)
    requires PositiveStamp(v) == 0
    ensures !SubsShow(v)
    ensures LossShows(v) <==> StoredVersion(v) == 0 && !HoldsSubObject(v) && HoldsReadyTransport(v)
  {
    assert From(v) == 0 || (From(v) == 2 && Again(v) == 2) || (From(v) == 3 && Again(v) == 3);
    if From(v) == 0 {
      assert Again(v) == if HoldsSubObject(v) then 2 else 0;
      if Again(v) == 0 && HoldsReadyTransport(v) {
        var p :| p in v.fields[PROFILES].items && CarriesReadyTransport(p);
        assert ProfileShows(p, From(v), Again(v));
      }
    }
  }

  /** What the application stores today and exports without the stamp: importing it gives
    * it back exactly when no Shadowsocks profile on TCP has TLS switched on. */
  lemma CurrentBackups(v: Json, rules: Rules)
    requires RulesOk(rules) && PositiveStamp(v) == SCHEMA_VERSION && HasIdentity(v)
    ensures Migrated(Unstamped(v), rules) == v
            <==> !(v.Has(PROFILES) && v.fields[PROFILES].Arr?
                   && exists p <- v.fields[PROFILES].items :: CarriesStrayTls(p))
  {
    CurrentIsUntouched(v, rules);
    StampLossIsHarmless(v, rules);
    assert From(v) == 4 && Again(v) == 3;
    if v.Has(PROFILES) && v.fields[PROFILES].Arr? {
      assert forall p <- v.fields[PROFILES].items :: ProfileShows(p, From(v), Again(v)) == CarriesStrayTls(p);
      if p :| p in v.fields[PROFILES].items && CarriesStrayTls(p) {
        assert ProfileShows(p, From(v), Again(v));
      }
    }
  }

  // ---------- Intervals ----------

  function Interval(s: Json): Option<Json> {
    if s.Has("interval") then Some(s.fields["interval"]) else None
  }

  function IntervalsOf(subs: seq<Json>): seq<Option<Json>> {
    seq(|subs|, i requires 0 <= i < |subs| => Interval(subs[i]))
  }

  function Intervals(v: Json): seq<Option<Json>> {
    if v.Has(SUBSCRIPTIONS) && v.fields[SUBSCRIPTIONS].Arr? then IntervalsOf(v.fields[SUBSCRIPTIONS].items) else []
  }

  lemma IntervalOfFinal(s: Json, from: nat, converted: bool, rules: Rules)
    ensures Interval(FinalSub(s, from, converted, rules))
            == Interval(if from == 0 && !converted then InMinutes(s) else s)
    ensures Interval(InMinutes(s)) == Interval(s) <==> InMinutes(s) == s
  {
    assert |"request"| == 7 && |"interval"| == 8 && |MANUAL| == 11;
    assert InMinutes(s).Has("interval") == s.Has("interval");
    if InMinutes(s) != s {
      assert InMinutes(s).fields["interval"] != s.fields["interval"];
    }
  }

  /** Some subscription of a document that was past the first step, and that nothing dates
    * any more, holds hours that are no minutes yet. */
  ghost predicate ConvertsAgain(v: Json) {
    && From(v) >= 2 && Again(v) == 0 && !IsConverted(v)
    && v.Has(SUBSCRIPTIONS) && v.fields[SUBSCRIPTIONS].Arr?
    && exists s <- v.fields[SUBSCRIPTIONS].items :: InMinutes(s) != s
  }

  /** The intervals come out the same unless the second ladder takes minutes for hours. */
  lemma IntervalsConvertOnce(v: Json, rules: Rules)
    ensures Intervals(Migrated(Unstamped(Migrated(v, rules)), rules)) == Intervals(Migrated(v, rules))
            <==> !ConvertsAgain(v)
  {
    if v.Obj? {
      var u := Unstamped(Migrated(v, rules));
      Leaves(v, rules);
      DatedAgain(v, u, rules);
      LiftedIsFinal(u, Again(v), rules);
      IntervalsAgain(v, u, Lifted(u, Again(v), SCHEMA_VERSION, rules), rules);
      IntervalsStamped(u);
      IntervalsStamped(Lifted(u, Again(v), SCHEMA_VERSION, rules));
    } else {
      NothingToLift(v, 0, SCHEMA_VERSION, rules);
    }
  }

  lemma IntervalsStamped(v: Json)
    ensures Intervals(Stamped(v, SCHEMA_VERSION)) == Intervals(v)
  {
    KeysDiffer();
  }

  lemma IntervalsAgain(v: Json, u: Json, x: Json, rules: Rules)
    requires IsLeft(v, u, rules) && FinalIs(u, x, Again(v), rules) && StoredVersion(u) == Again(v)
    ensures Intervals(x) == Intervals(u) <==> !ConvertsAgain(v)
  {
    KeysDiffer();
    ConvertedStays(Unstamped(v), u);
    assert IsConverted(u) == IsConverted(v);
    if v.Has(SUBSCRIPTIONS) && v.fields[SUBSCRIPTIONS].Arr? {
      var a, b, c := v.fields[SUBSCRIPTIONS].items, u.fields[SUBSCRIPTIONS].items, x.fields[SUBSCRIPTIONS].items;
      IntervalsOfFinal(a, b, c, From(v), Again(v), IsConverted(v), rules);
    }
  }

  lemma IntervalAgain(s: Json, t: Json, u: Json, from: nat, again: nat, converted: bool, rules: Rules)
    requires t == FinalSub(s, from, converted, rules) && u == FinalSub(t, again, converted, rules)
    requires again == 0 && from < 2 ==> !s.Obj?
    ensures Interval(u) == Interval(t) <==> !(from >= 2 && again == 0 && !converted && InMinutes(s) != s)
  {
    IntervalOfFinal(s, from, converted, rules);
    IntervalOfFinal(t, again, converted, rules);
  }

  lemma IntervalsOfFinal(a: seq<Json>, b: seq<Json>, c: seq<Json>, from: nat, again: nat, converted: bool, rules: Rules)
    requires |a| == |b| == |c|
    requires forall i | 0 <= i < |a| :: b[i] == FinalSub(a[i], from, converted, rules)
    requires forall i | 0 <= i < |a| :: c[i] == FinalSub(b[i], again, converted, rules)
    requires again == 0 && from < 2 ==> forall s <- a :: !s.Obj?
    ensures IntervalsOf(c) == IntervalsOf(b)
            <==> !(from >= 2 && again == 0 && !converted && exists s <- a :: InMinutes(s) != s)
  {
    forall i | 0 <= i < |a|
      ensures Interval(c[i]) == Interval(b[i])
              <==> !(from >= 2 && again == 0 && !converted && InMinutes(a[i]) != a[i])
    {
      assert a[i] in a;
      IntervalAgain(a[i], b[i], c[i], from, again, converted, rules);
    }
    if from >= 2 && again == 0 && !converted && exists s <- a :: InMinutes(s) != s {
      var s :| s in a && InMinutes(s) != s;
      var i :| 0 <= i < |a| && a[i] == s;
      assert IntervalsOf(c)[i] != IntervalsOf(b)[i];
    } else {
      assert forall i | 0 <= i < |a| :: a[i] in a;
      assert IntervalsOf(c) == IntervalsOf(b);
    }
  }

  // ---------- None of the families is empty ----------

  /** A WireGuard profile with a ready-made transport, never stamped. */
  lemma ReadyTransportExample(v: Json, p: Json, t: Json)
    requires t == Obj(map["network" := Str("ws")])
    requires p == Obj(map["protocol" := Str("wireguard"), "id" := Str("a"), "transport" := t])
    requires v == Obj(map[PROFILES := Arr([p])])
    ensures LossShows(v) && !SubsShow(v)
  {
    GroupNamesDiffer();
    KeysDiffer();
    assert |"id"| == 2 && |"kind"| == 4 && |"network"| == 7 && |"wireguard"| == 9;
    assert |"vless"| == 5 && |"vmess"| == 5 && |"trojan"| == 6 && |"shadowsocks"| == 11;
    assert IsUntagged(t);
    assert CarriesReadyTransport(p);
    assert p in v.fields[PROFILES].items;
    UnstampedDocuments(v);
  }

  /** A stamped document with a single unmarked subscription: its interval is multiplied
    * once more. */
  lemma HoursAgainExample(v: Json, s: Json, rules: Rules)
    requires s == Obj(map["interval" := Num(6)])
    requires v == Obj(map[STAMP := Num(SCHEMA_VERSION), SUBSCRIPTIONS := Arr([s])])
    ensures Migrated(v, rules) == v && Intervals(Migrated(Unstamped(v), rules)) != Intervals(v)
  {
    KeysDiffer();
    assert |"interval"| == 8 && |MANUAL| == 11;
    assert v.fields[STAMP] == Num(SCHEMA_VERSION);
    CurrentIsUntouched(v, rules);
    assert s in v.fields[SUBSCRIPTIONS].items;
    assert v.fields[SUBSCRIPTIONS].items == [s] && !s.Has(MANUAL);
    assert InMinutes(s).fields["interval"] == Num(360);
    assert |"version"| == 7 && !v.Has("version") && !HasIdentity(v);
    assert ConvertsAgain(v);
    IntervalsConvertOnce(v, rules);
  }
}
