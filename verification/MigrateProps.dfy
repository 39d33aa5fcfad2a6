/** What the upgrade ladder promises: it composes, leaves a current document alone, and
  * amounts to one rewrite of every entry. */
module MigrateProps {
  import opened JsonValue
  import opened Migrate

  lemma KeysDiffer()
    ensures STAMP != PROFILES && STAMP != SUBSCRIPTIONS && PROFILES != SUBSCRIPTIONS
    ensures "version" != STAMP && "version" != PROFILES && "version" != SUBSCRIPTIONS
    ensures "settings" != STAMP && "settings" != PROFILES && "settings" != SUBSCRIPTIONS
  {
    assert |STAMP| == 13 && |PROFILES| == 8 && |SUBSCRIPTIONS| == 13 && |"version"| == 7 && |"settings"| == 8;
    assert STAMP[1] == 'c' && SUBSCRIPTIONS[1] == 'u';
    assert PROFILES[0] == 'p' && "settings"[0] == 's';
  }

  // ---------- The ladder composes ----------

  lemma EachItemStamped(v: Json, n: nat, key: string, f: Json -> Json)
    requires key != STAMP
    ensures EachItem(Stamped(v, n), key, f) == Stamped(EachItem(v, key, f), n)
  {
    if v.Obj? && v.Has(key) && v.fields[key].Arr? {
      var x := Arr(Mapped(v.fields[key].items, f));
      assert v.fields[STAMP := Num(n)][key := x] == v.fields[key := x][STAMP := Num(n)];
    }
  }

  /** No step looks at the stamp. */
  lemma StepStamped(v: Json, n: nat, version: nat, rules: Rules)
    ensures Step(Stamped(v, n), version, rules) == Stamped(Step(v, version, rules), n)
  {
    KeysDiffer();
    match version
    case 0 =>
      var f := p => ProfileMigrated(p, rules);
      var g := s => InMinutes(s);
      EachItemStamped(v, n, PROFILES, f);
      EachItemStamped(EachItem(v, PROFILES, f), n, SUBSCRIPTIONS, g);
    case 1 => EachItemStamped(v, n, SUBSCRIPTIONS, s => Marked(s, rules));
    case 2 => EachItemStamped(v, n, SUBSCRIPTIONS, s => OptedOut(s));
    case _ => EachItemStamped(v, n, PROFILES, p => WithoutStrayTls(p));
  }

  lemma {:induction false} LiftedStamped(v: Json, n: nat, from: nat, to: nat, rules: Rules)
    requires from <= to
    ensures Lifted(Stamped(v, n), from, to, rules) == Stamped(Lifted(v, from, to, rules), n)
    decreases (to as int) - from
  {
    if from < to {
      StepStamped(v, n, from, rules);
      LiftedStamped(Step(v, from, rules), n, from + 1, to, rules);
    }
  }

  lemma {:induction false} LiftedSplit(v: Json, from: nat, mid: nat, to: nat, rules: Rules)
    requires from <= mid <= to
    ensures Lifted(v, from, to, rules) == Lifted(Lifted(v, from, mid, rules), mid, to, rules)
    decreases (mid as int) - from
  {
    if from < mid {
      LiftedSplit(Step(v, from, rules), from + 1, mid, to, rules);
    }
  }

  lemma StampedTwice(v: Json, m: nat, n: nat)
    ensures Stamped(Stamped(v, m), n) == Stamped(v, n)
  {
    if v.Obj? {
      assert v.fields[STAMP := Num(m)][STAMP := Num(n)] == v.fields[STAMP := Num(n)];
    }
  }

  /** Stopping at any later version, stamping the document with it and resuming
    * gives what one full upgrade gives. */
  lemma LadderComposes(v: Json, m: nat, rules: Rules)
    requires v.Obj? && 1 <= m <= SCHEMA_VERSION && StoredVersion(v) <= m
    ensures Migrated(Stamped(Lifted(v, StoredVersion(v), m, rules), m), rules) == Migrated(v, rules)
  {
    var from := StoredVersion(v);
    var mid := Lifted(v, from, m, rules);
    LiftedStaysObject(v, from, m, rules);
    LiftedStamped(mid, m, m, SCHEMA_VERSION, rules);
    LiftedSplit(v, from, m, SCHEMA_VERSION, rules);
    StampedTwice(Lifted(v, from, SCHEMA_VERSION, rules), m, SCHEMA_VERSION);
  }

  lemma {:induction false} LiftedStaysObject(v: Json, from: nat, to: nat, rules: Rules)
    requires from <= to
    ensures Lifted(v, from, to, rules).Obj? == v.Obj?
    decreases (to as int) - from
  {
    if from < to {
      LiftedStaysObject(Step(v, from, rules), from + 1, to, rules);
    }
  }

  /** A document stamped with the current version is left as it is. */
  lemma CurrentIsUntouched(v: Json, rules: Rules)
    requires PositiveStamp(v) == SCHEMA_VERSION
    ensures Migrated(v, rules) == v
  {
    assert v.fields[STAMP := Num(SCHEMA_VERSION)] == v.fields;
  }

  // ---------- What the whole ladder does to each entry ----------

  ghost function FinalProfile(p: Json, from: nat, rules: Rules): Json {
    if from == 0 then WithoutStrayTls(ProfileMigrated(p, rules))
    else if from <= 3 then WithoutStrayTls(p)
    else p
  }

  ghost function FinalSub(s: Json, from: nat, converted: bool, rules: Rules): Json {
    if from == 0 then OptedOut(Marked(if converted then s else InMinutes(s), rules))
    else if from == 1 then OptedOut(Marked(s, rules))
    else if from == 2 then OptedOut(s)
    else s
  }

  ghost function FinalProfiles(x: Json, from: nat, rules: Rules): Json {
    match x
    case Arr(a) => Arr(seq(|a|, i requires 0 <= i < |a| => FinalProfile(a[i], from, rules)))
    case _ => x
  }

  ghost function FinalSubs(x: Json, from: nat, converted: bool, rules: Rules): Json {
    match x
    case Arr(a) => Arr(seq(|a|, i requires 0 <= i < |a| => FinalSub(a[i], from, converted, rules)))
    case _ => x
  }

  ghost predicate FinalIs(v: Json, w: Json, from: nat, rules: Rules)
    requires v.Obj?
  {
    && w.Obj? && w.fields.Keys == v.fields.Keys
    && (forall k <- v.fields | k != PROFILES && k != SUBSCRIPTIONS :: w.fields[k] == v.fields[k])
    && (PROFILES in v.fields ==> w.fields[PROFILES] == FinalProfiles(v.fields[PROFILES], from, rules))
    && (SUBSCRIPTIONS in v.fields ==>
          w.fields[SUBSCRIPTIONS] == FinalSubs(v.fields[SUBSCRIPTIONS], from, IsConverted(v), rules))
  }

  ghost function OnItems(x: Json, f: Json -> Json): Json {
    match x
    case Arr(a) => Arr(Mapped(a, f))
    case _ => x
  }

  lemma EachItemFields(v: Json, key: string, f: Json -> Json)
    requires v.Obj?
    ensures var w := EachItem(v, key, f);
            && w.Obj? && w.fields.Keys == v.fields.Keys
            && (forall k <- v.fields | k != key :: w.fields[k] == v.fields[k])
            && (key in v.fields ==> w.fields[key] == OnItems(v.fields[key], f))
  {
  }

  lemma LiftedOnce(v: Json, from: nat, rules: Rules)
    requires from < SCHEMA_VERSION
    ensures Lifted(v, from, SCHEMA_VERSION, rules) == Lifted(Step(v, from, rules), from + 1, SCHEMA_VERSION, rules)
  {
  }

  lemma LastVersionsLeaveAlone(rules: Rules)
    ensures forall x :: FinalProfiles(x, 4, rules) == x
    ensures forall x, c, n: nat | n >= 3 :: FinalSubs(x, n, c, rules) == x
  {
  }

  lemma Final4(v: Json, rules: Rules)
    requires v.Obj?
    ensures FinalIs(v, Lifted(v, 4, SCHEMA_VERSION, rules), 4, rules)
  {
    LastVersionsLeaveAlone(rules);
  }

  lemma ProfilesAt3(rules: Rules)
    ensures forall x :: FinalProfiles(x, 3, rules) == OnItems(x, p => WithoutStrayTls(p))
  {
    var f := p => WithoutStrayTls(p);
    forall x ensures FinalProfiles(x, 3, rules) == OnItems(x, f) {
      if x.Arr? {
        assert FinalProfiles(x, 3, rules).items == Mapped(x.items, f);
      }
    }
  }

  lemma Final3(v: Json, rules: Rules)
    requires v.Obj?
    ensures FinalIs(v, Lifted(v, 3, SCHEMA_VERSION, rules), 3, rules)
  {
    KeysDiffer();
    EachItemFields(v, PROFILES, p => WithoutStrayTls(p));
    LiftedOnce(v, 3, rules);
    ProfilesAt3(rules);
    LastVersionsLeaveAlone(rules);
  }

  lemma Final2(v: Json, rules: Rules)
    requires v.Obj?
    ensures FinalIs(v, Lifted(v, 2, SCHEMA_VERSION, rules), 2, rules)
  {
    var f := s => OptedOut(s);
    KeysDiffer();
    EachItemFields(v, SUBSCRIPTIONS, f);
    LiftedOnce(v, 2, rules);
    var w := V2ToV3(v);
    Final3(w, rules);
    FinalSubsAfter(v, w, 2, rules, f);
    FinalProfilesSame(3, 2, rules);
  }

  lemma FinalProfilesSame(a: nat, b: nat, rules: Rules)
    requires 1 <= a <= 3 && 1 <= b <= 3
    ensures forall x :: FinalProfiles(x, a, rules) == FinalProfiles(x, b, rules)
  {
  }

  lemma FinalSubsAfter(v: Json, w: Json, from: nat, rules: Rules, f: Json -> Json)
    requires v.Obj? && w.Obj?
    requires SUBSCRIPTIONS in v.fields
            ==> SUBSCRIPTIONS in w.fields && w.fields[SUBSCRIPTIONS] == OnItems(v.fields[SUBSCRIPTIONS], f)
    requires forall s, c :: FinalSub(f(s), from + 1, c, rules) == FinalSub(s, from, c, rules)
    ensures SUBSCRIPTIONS in v.fields ==> forall c ::
              FinalSubs(w.fields[SUBSCRIPTIONS], from + 1, c, rules)
                == FinalSubs(v.fields[SUBSCRIPTIONS], from, c, rules)
  {
  }

  lemma Final1(v: Json, rules: Rules)
    requires v.Obj?
    ensures FinalIs(v, Lifted(v, 1, SCHEMA_VERSION, rules), 1, rules)
  {
    var f := s => Marked(s, rules);
    KeysDiffer();
    EachItemFields(v, SUBSCRIPTIONS, f);
    LiftedOnce(v, 1, rules);
    var w := V1ToV2(v, rules);
    Final2(w, rules);
    FinalSubsAfter(v, w, 1, rules, f);
    FinalProfilesSame(2, 1, rules);
  }

  lemma ConvertedStays(v: Json, w: Json)
    requires v.Obj? && w.Obj? && w.fields.Keys == v.fields.Keys
    requires "version" in v.fields ==> w.fields["version"] == v.fields["version"]
    ensures IsConverted(w) == IsConverted(v)
  {
  }

  lemma ProfilesAt0(v: Json, w: Json, rules: Rules)
    requires v.Obj? && w.Obj?
    requires PROFILES in v.fields ==>
      PROFILES in w.fields && w.fields[PROFILES] == OnItems(v.fields[PROFILES], p => ProfileMigrated(p, rules))
    ensures PROFILES in v.fields
            ==> FinalProfiles(w.fields[PROFILES], 1, rules) == FinalProfiles(v.fields[PROFILES], 0, rules)
  {
  }

  lemma SubsAt0(v: Json, w: Json, converted: bool, rules: Rules)
    requires v.Obj? && w.Obj?
    requires SUBSCRIPTIONS in v.fields ==> SUBSCRIPTIONS in w.fields
    requires SUBSCRIPTIONS in v.fields && converted ==> w.fields[SUBSCRIPTIONS] == v.fields[SUBSCRIPTIONS]
    requires SUBSCRIPTIONS in v.fields && !converted ==>
      w.fields[SUBSCRIPTIONS] == OnItems(v.fields[SUBSCRIPTIONS], s => InMinutes(s))
    ensures SUBSCRIPTIONS in v.fields ==>
      FinalSubs(w.fields[SUBSCRIPTIONS], 1, converted, rules) == FinalSubs(v.fields[SUBSCRIPTIONS], 0, converted, rules)
  {
  }

  lemma Final0(v: Json, rules: Rules)
    requires v.Obj?
    ensures FinalIs(v, Lifted(v, 0, SCHEMA_VERSION, rules), 0, rules)
  {
    var f, g := p => ProfileMigrated(p, rules), s => InMinutes(s);
    KeysDiffer();
    var w1 := EachItem(v, PROFILES, f);
    EachItemFields(v, PROFILES, f);
    ConvertedStays(v, w1);
    EachItemFields(w1, SUBSCRIPTIONS, g);
    var w := V0ToV1(v, rules);
    ConvertedStays(v, w);
    LiftedOnce(v, 0, rules);
    Final1(w, rules);
    ProfilesAt0(v, w, rules);
    SubsAt0(v, w, IsConverted(v), rules);
  }

  lemma LiftedIsFinal(v: Json, from: nat, rules: Rules)
    requires v.Obj? && from <= SCHEMA_VERSION
    ensures FinalIs(v, Lifted(v, from, SCHEMA_VERSION, rules), from, rules)
  {
    if from == 0 {
      Final0(v, rules);
    } else if from == 1 {
      Final1(v, rules);
    } else if from == 2 {
      Final2(v, rules);
    } else if from == 3 {
      Final3(v, rules);
    } else {
      Final4(v, rules);
    }
  }
}
