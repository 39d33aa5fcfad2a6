/** What an upgrade does to a stored state, field by field: which version it is dated at,
  * and what becomes of every field of every subscription and profile. */
module MigrateFields {
  import opened JsonValue
  import opened Wrappers
  import opened Migrate
  import opened MigrateRules
  import opened MigrateProps
  import Text

  // ---------- One subscription ----------

  /** The interval is a number of hours whose minutes are still a 64-bit number. */
  predicate HasHours(s: Json) {
    && s.Has("interval") && s.fields["interval"].Num?
    && -0x8000_0000_0000_0000 <= 60 * s.fields["interval"].n < 0x8000_0000_0000_0000
  }

  lemma MinutesOfHours(s: Json)
    ensures InMinutes(s).Obj? == s.Obj?
    ensures HasHours(s) ==> InMinutes(s).Has("interval")
                            && InMinutes(s).fields["interval"] == Num(60 * s.fields["interval"].n)
    ensures !HasHours(s) ==> InMinutes(s) == s
    ensures forall k | k != "interval" :: SameField(s, InMinutes(s), k)
  {}

  /** The name is neither blank nor what the user interface calls a subscription that
    * was left unnamed: the host of its URL, or the URL where there is no host. */
  ghost predicate IsNamed(s: Json, parsers: Parsers) {
    && s.Has("remarks") && s.fields["remarks"].Str? && !Text.IsBlank(s.fields["remarks"].s)
    && var url := Text.Trim(if s.Has("url") && s.fields["url"].Str? then s.fields["url"].s else "");
       var host := parsers.host(url);
       Text.Trim(s.fields["remarks"].s) != if host.Some? && host.value != "" then host.value else url
  }

  lemma MarkTellsNaming(s: Json, parsers: Parsers)
    ensures var r := Marked(s, SourceRules(parsers));
            && r.Obj? == s.Obj? && (!s.Obj? ==> r == s)
            && (s.Obj? ==> r.Has("manualTitle") && r.fields["manualTitle"] == Bool(IsNamed(s, parsers)))
            && forall k | k != "manualTitle" :: SameField(s, r, k)
  {
    if s.Obj? {
      var remarks := s.TextOr("remarks", "");
      assert Obj(s.fields) == s;
      Text.BlankTrims(remarks);
    }
  }

  /** The user typed a user agent and never chose whether to send the device id. */
  predicate StartsOptedOut(s: Json) {
    && s.Has("userAgent") && s.fields["userAgent"].Str? && !Text.IsBlank(s.fields["userAgent"].s)
    && (!s.Has("request") || (s.fields["request"].Obj? && !s.fields["request"].Has("sendHwid")))
  }

  /** `r` is the request settings of `s` with the device id not sent. */
  ghost predicate WithoutHwid(s: Json, r: Json) {
    && r.Has("sendHwid") && r.fields["sendHwid"] == Bool(false)
    && forall k | k != "sendHwid" ::
         if s.Has("request") && s.fields["request"].Has(k) then r.Has(k) && r.fields[k] == s.fields["request"].fields[k]
         else !r.Has(k)
  }

  lemma OptedOutExactly(s: Json)
    ensures var r := OptedOut(s);
            && r.Obj? == s.Obj?
            && (StartsOptedOut(s) ==> r.Has("request") && WithoutHwid(s, r.fields["request"]))
            && (!StartsOptedOut(s) ==> r == s)
            && forall k | k != "request" :: SameField(s, r, k)
  {
    var r := OptedOut(s);
    assert Text.IsBlank("");
    if s.Obj? && s.Has("request") && !StartsOptedOut(s) {
      assert s.fields["request" := s.fields["request"]] == s.fields;
    }
  }

  /** What becomes of a subscription of a state dated at `from`. */
  ghost predicate IsUpgradedSub(s: Json, r: Json, from: nat, converted: bool, parsers: Parsers) {
    if !s.Obj? then r == s
    else
      && r.Obj?
      && (if from == 0 && !converted && HasHours(s)
          then r.Has("interval") && r.fields["interval"] == Num(60 * s.fields["interval"].n)
          else SameField(s, r, "interval"))
      && (if from <= 1 then r.Has("manualTitle") && r.fields["manualTitle"] == Bool(IsNamed(s, parsers))
          else SameField(s, r, "manualTitle"))
      && (if from <= 2 && StartsOptedOut(s) then r.Has("request") && WithoutHwid(s, r.fields["request"])
          else SameField(s, r, "request"))
      && forall k | k != "interval" && k != "manualTitle" && k != "request" :: SameField(s, r, k)
  }

  lemma SubKeysDiffer()
    ensures "interval" != "manualTitle" && "interval" != "request" && "manualTitle" != "request"
    ensures "remarks" != "interval" && "url" != "interval"
    ensures "userAgent" != "interval" && "userAgent" != "manualTitle"
  {
    assert |"interval"| == 8 && |"manualTitle"| == 11 && |"request"| == 7;
    assert |"remarks"| == 7 && |"url"| == 3 && |"userAgent"| == 9;
  }

  lemma SameNaming(s: Json, r: Json, parsers: Parsers)
    requires SameField(s, r, "remarks") && SameField(s, r, "url")
    ensures IsNamed(s, parsers) == IsNamed(r, parsers)
  {}

  lemma SameChoice(s: Json, r: Json)
    requires SameField(s, r, "userAgent") && SameField(s, r, "request")
    ensures StartsOptedOut(s) == StartsOptedOut(r)
    ensures forall x :: WithoutHwid(s, x) == WithoutHwid(r, x)
  {}

  /** The second and third step on a subscription whose interval is done. */
  lemma NamedAndOptedOut(m: Json, from: nat, parsers: Parsers)
    requires m.Obj?
    ensures var n := if from <= 1 then Marked(m, SourceRules(parsers)) else m;
            IsUpgradedSub(m, if from <= 2 then OptedOut(n) else n, if from == 0 then 1 else from, true, parsers)
  {
    SubKeysDiffer();
    var n := if from <= 1 then Marked(m, SourceRules(parsers)) else m;
    MarkTellsNaming(m, parsers);
    SameChoice(m, n);
    OptedOutExactly(n);
  }

  lemma SubIsUpgraded(s: Json, from: nat, converted: bool, parsers: Parsers)
    ensures IsUpgradedSub(s, FinalSub(s, from, converted, SourceRules(parsers)), from, converted, parsers)
  {
    if s.Obj? {
      SubKeysDiffer();
      var m := if from == 0 && !converted then InMinutes(s) else s;
      MinutesOfHours(s);
      NamedAndOptedOut(m, from, parsers);
      SameNaming(s, m, parsers);
      SameChoice(s, m);
    }
  }

  // ---------- One profile ----------

  /** A Shadowsocks profile without a transport other than TCP, with TLS on, which is what
    * it has when nothing is said. */
  predicate IsPlainWithTls(p: Json) {
    && p.Has("protocol") && p.fields["protocol"] == Str("shadowsocks")
    && (p.Has("transport") && p.fields["transport"].Has("kind") && p.fields["transport"].fields["kind"].Str?
        ==> p.fields["transport"].fields["kind"].s == "tcp")
    && p.Has("tls") && p.fields["tls"].Obj?
    && (p.fields["tls"].Has("security") && p.fields["tls"].fields["security"].Str?
        ==> p.fields["tls"].fields["security"].s == "tls")
  }

  /** `r` is `p` with TLS switched off where a plain Shadowsocks profile has it on. */
  ghost predicate HasTlsOff(p: Json, r: Json) {
    if !IsPlainWithTls(p) then r == p
    else
      && (forall k | k != "tls" :: SameField(p, r, k))
      && r.Has("tls") && r.fields["tls"].Has("security") && r.fields["tls"].fields["security"] == Str("none")
      && forall k | k != "security" :: SameField(p.fields["tls"], r.fields["tls"], k)
  }

  lemma StrayTlsGoesExactly(p: Json)
    ensures HasTlsOff(p, WithoutStrayTls(p))
  {
    assert |"shadowsocks"| == 11 && |"tcp"| == 3 && |"tls"| == 3;
  }

  ghost predicate IsUpgradedProfile(p: Json, r: Json, from: nat, parsers: Parsers) {
    var q := if from == 0 then ProfileMigrated(p, SourceRules(parsers)) else p;
    if from <= 3 then HasTlsOff(q, r) else r == p
  }

  // ---------- The whole state ----------

  /** The version a state is dated at, no later than the current one. */
  predicate IsDated(v: Json, from: nat) {
    if v.Has("schemaVersion") && v.fields["schemaVersion"].Num?
       && 1 <= v.fields["schemaVersion"].n <= 0xFFFF_FFFF_FFFF_FFFF
    then from == if v.fields["schemaVersion"].n < 4 then v.fields["schemaVersion"].n else 4
    else if v.Has("settings") && v.fields["settings"].Has("requestIdentity") then from == 3
    else if v.Has("subscriptions") && v.fields["subscriptions"].Arr?
            && exists s <- v.fields["subscriptions"].items :: s.Has("manualTitle")
    then from == 2
    else from == 0
  }

  /** The state says which build wrote it, so its intervals are minutes already. */
  predicate NamesItsBuild(v: Json) {
    v.Has("version") && v.fields["version"].Str? && v.fields["version"].s != ""
  }

  /** Every field of a migrated state, from the fields of the state alone. */
  lemma MigratedExactly(v: Json, parsers: Parsers) returns (from: nat)
    requires v.Obj?
    ensures IsDated(v, from)
    ensures var w := Migrated(v, SourceRules(parsers));
            && w.Has("schemaVersion") && w.fields["schemaVersion"] == Num(4)
            && ListBecomes(v, w, "profiles", (p, r) => IsUpgradedProfile(p, r, from, parsers))
            && ListBecomes(v, w, "subscriptions", (s, r) => IsUpgradedSub(s, r, from, NamesItsBuild(v), parsers))
            && forall k | k != "schemaVersion" && k != "profiles" && k != "subscriptions" :: SameField(v, w, k)
  {
    from := DatedAt(v);
    LiftedIsFinal(v, from, SourceRules(parsers));
    var u := Lifted(v, from, SCHEMA_VERSION, SourceRules(parsers));
    ProfilesBecome(v, u, from, parsers);
    SubsBecome(v, u, from, parsers);
    OthersStay(v, u, from, SourceRules(parsers));
  }

  lemma DatedAt(v: Json) returns (from: nat)
    ensures IsDated(v, from) && from == AtMost(StoredVersion(v), SCHEMA_VERSION)
  {
    from := AtMost(StoredVersion(v), SCHEMA_VERSION);
  }

  lemma OthersStay(v: Json, u: Json, from: nat, rules: Rules)
    requires v.Obj? && FinalIs(v, u, from, rules)
    ensures var w := Stamped(u, SCHEMA_VERSION);
            && w.Has("schemaVersion") && w.fields["schemaVersion"] == Num(4)
            && SameField(u, w, "profiles") && SameField(u, w, "subscriptions")
            && forall k | k != "schemaVersion" && k != "profiles" && k != "subscriptions" :: SameField(v, w, k)
  {
    KeysDiffer();
  }

  lemma ProfilesBecome(v: Json, u: Json, from: nat, parsers: Parsers)
    requires v.Obj? && FinalIs(v, u, from, SourceRules(parsers))
    ensures ListBecomes(v, u, "profiles", (p, r) => IsUpgradedProfile(p, r, from, parsers))
  {
    if v.Has("profiles") && v.fields["profiles"].Arr? {
      var a := v.fields["profiles"].items;
      forall i | 0 <= i < |a|
        ensures IsUpgradedProfile(a[i], FinalProfile(a[i], from, SourceRules(parsers)), from, parsers)
      {
        StrayTlsGoesExactly(if from == 0 then ProfileMigrated(a[i], SourceRules(parsers)) else a[i]);
      }
    }
  }

  lemma SubsBecome(v: Json, u: Json, from: nat, parsers: Parsers)
    requires v.Obj? && FinalIs(v, u, from, SourceRules(parsers))
    ensures ListBecomes(v, u, "subscriptions", (s, r) => IsUpgradedSub(s, r, from, NamesItsBuild(v), parsers))
  {
    if v.Has("subscriptions") && v.fields["subscriptions"].Arr? {
      var a := v.fields["subscriptions"].items;
      assert IsConverted(v) == NamesItsBuild(v);
      forall i | 0 <= i < |a|
        ensures IsUpgradedSub(a[i], FinalSub(a[i], from, NamesItsBuild(v), SourceRules(parsers)), from,
                              NamesItsBuild(v),
                              parsers)
      {
        SubIsUpgraded(a[i], from, NamesItsBuild(v), parsers);
      }
    }
  }

  // ---------- The steps one by one ----------

  ghost predicate BecomesMinutes(s: Json, r: Json) {
    && (forall k | k != "interval" :: SameField(s, r, k))
    && if HasHours(s) then r.Has("interval") && r.fields["interval"] == Num(60 * s.fields["interval"].n) else r == s
  }

  ghost predicate BecomesMarked(s: Json, r: Json, parsers: Parsers) {
    && (forall k | k != "manualTitle" :: SameField(s, r, k))
    && if s.Obj? then r.Has("manualTitle") && r.fields["manualTitle"] == Bool(IsNamed(s, parsers)) else r == s
  }

  ghost predicate BecomesOptedOut(s: Json, r: Json) {
    && (forall k | k != "request" :: SameField(s, r, k))
    && if StartsOptedOut(s) then r.Has("request") && WithoutHwid(s, r.fields["request"]) else r == s
  }

  lemma TwoListsBecome(
      v: Json, f: Json -> Json, g: Json -> Json, becomes: (Json, Json) -> bool, becomesToo: (Json, Json) -> bool)
    requires forall x :: becomes(x, f(x)) && becomesToo(x, g(x))
    ensures var once := EachItem(v, PROFILES, f);
            var w := if NamesItsBuild(v) then once else EachItem(once, SUBSCRIPTIONS, g);
            && NamesItsBuild(once) == NamesItsBuild(v)
            && ListBecomes(v, w, PROFILES, becomes)
            && (if NamesItsBuild(v) then SameField(v, w, SUBSCRIPTIONS)
                else ListBecomes(v, w, SUBSCRIPTIONS, becomesToo))
            && forall k | k != PROFILES && k != SUBSCRIPTIONS :: SameField(v, w, k)
  {
    KeysDiffer();
    ItemsBecome(v, PROFILES, f, becomes);
    ItemsBecome(EachItem(v, PROFILES, f), SUBSCRIPTIONS, g, becomesToo);
    assert SameField(v, EachItem(v, PROFILES, f), "version");
  }

  lemma FirstStepExactly(v: Json, rules: Rules)
    ensures var w := V0ToV1(v, rules);
            && ListBecomes(v, w, "profiles", (p, r) => r == ProfileMigrated(p, rules))
            && (if NamesItsBuild(v) then SameField(v, w, "subscriptions")
                else ListBecomes(v, w, "subscriptions", (s, r) => BecomesMinutes(s, r)))
            && forall k | k != "profiles" && k != "subscriptions" :: SameField(v, w, k)
  {
    forall s ensures BecomesMinutes(s, InMinutes(s)) {
      MinutesOfHours(s);
    }
    TwoListsBecome(v, p => ProfileMigrated(p, rules), s => InMinutes(s),
                   (p, r) => r == ProfileMigrated(p, rules), (s, r) => BecomesMinutes(s, r));
  }

  lemma SecondStepExactly(v: Json, parsers: Parsers)
    ensures var w := V1ToV2(v, SourceRules(parsers));
            && ListBecomes(v, w, "subscriptions", (s, r) => BecomesMarked(s, r, parsers))
            && forall k | k != "subscriptions" :: SameField(v, w, k)
  {
    forall s ensures BecomesMarked(s, Marked(s, SourceRules(parsers)), parsers) {
      MarkTellsNaming(s, parsers);
    }
    ItemsBecome(v, SUBSCRIPTIONS, s => Marked(s, SourceRules(parsers)), (s, r) => BecomesMarked(s, r, parsers));
  }

  lemma ThirdStepExactly(v: Json)
    ensures var w := V2ToV3(v);
            && ListBecomes(v, w, "subscriptions", (s, r) => BecomesOptedOut(s, r))
            && forall k | k != "subscriptions" :: SameField(v, w, k)
  {
    forall s ensures BecomesOptedOut(s, OptedOut(s)) {
      OptedOutExactly(s);
    }
    ItemsBecome(v, SUBSCRIPTIONS, s => OptedOut(s), (s, r) => BecomesOptedOut(s, r));
  }

  lemma FourthStepExactly(v: Json)
    ensures var w := V3ToV4(v);
            && ListBecomes(v, w, "profiles", (p, r) => HasTlsOff(p, r))
            && forall k | k != "profiles" :: SameField(v, w, k)
  {
    forall p ensures HasTlsOff(p, WithoutStrayTls(p)) {
      StrayTlsGoesExactly(p);
    }
    ItemsBecome(v, PROFILES, p => WithoutStrayTls(p), (p, r) => HasTlsOff(p, r));
  }
}
