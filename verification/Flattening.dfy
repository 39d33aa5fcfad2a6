/** What becomes of every field of a flat profile when it is nested: which group it
  * lands in, under which name, and which fields are lost. */
module Flattening {
  import opened JsonValue
  import opened Wrappers
  import opened Migrate
  import opened MigrateRules
  import opened FieldValues
  import Text

  // ---------- The groups and what stays outside them ----------

  ghost function InEndpoint(protocol: string, rules: Rules): seq<string> {
    if protocol != "custom" then rules.layout.endpoint else []
  }

  ghost function InTransport(protocol: string, rules: Rules): seq<string> {
    if HasTransport(protocol) then rules.layout.transport else []
  }

  ghost function InTls(protocol: string, rules: Rules): seq<string> {
    if HasTls(protocol) then rules.layout.tls else []
  }

  /** The protocol has a group of that name. */
  ghost predicate HasGroup(protocol: string, k: string) {
    || k == "meta" || (k == "endpoint" && protocol != "custom")
    || (k == "transport" && HasTransport(protocol)) || (k == "tls" && HasTls(protocol))
  }

  /** The key moves into one of the groups the protocol has. */
  ghost predicate Moves(k: string, protocol: string, rules: Rules) {
    k in rules.layout.meta || k in InEndpoint(protocol, rules) || k in InTransport(protocol, rules)
            || k in InTls(protocol, rules)
  }

  /** Each group holds exactly the fields of its list, with what they held. */
  ghost predicate GroupsHold(obj: map<string, Json>, r: map<string, Json>, protocol: string, rules: Rules) {
    && "meta" in r && r["meta"] == Obj(rules.fixMeta(Taken(obj, rules.layout.meta)))
    && (protocol != "custom" ==> "endpoint" in r && r["endpoint"] == Obj(Taken(obj, rules.layout.endpoint)))
    && (HasTransport(protocol) ==> "transport" in r && r["transport"] == rules.nest(Taken(obj, rules.layout.transport)))
    && (HasTls(protocol) ==> "tls" in r && r["tls"] == Obj(rules.fixTls(Taken(obj, rules.layout.tls))))
  }

  /** Every other field stays where it was; only WireGuard's reserved bytes change. */
  ghost predicate OthersStay(obj: map<string, Json>, r: map<string, Json>, protocol: string, rules: Rules) {
    forall k | k in obj && !Moves(k, protocol, rules) && !HasGroup(protocol, k) ::
      k in r && r[k] == if protocol == "wireguard" && k == "reserved" then rules.bytes(obj[k]) else obj[k]
  }

  ghost predicate MovedAreGone(obj: map<string, Json>, r: map<string, Json>, protocol: string, rules: Rules) {
    forall k | Moves(k, protocol, rules) :: k !in r
  }

  /** What one grouping step does, seen from the fields. */
  ghost predicate Grouped(obj: map<string, Json>, r: map<string, Json>, group: string, keys: seq<string>) {
    && group in r
    && (forall k | k in r ::
          k == group || (k in obj && k !in keys && r[k] == obj[k]) || (k == "muxEnabled" && k !in obj))
    && (forall k | k in obj && k !in keys && k != group :: k in r && r[k] == obj[k])
  }

  lemma TakenAfter(obj: map<string, Json>, r: map<string, Json>, group: string, keys: seq<string>, later: seq<string>)
    requires Grouped(obj, r, group, keys) && Apart(keys, later) && group !in later && "muxEnabled" !in later
    ensures Taken(r, later) == Taken(obj, later)
  {
    assert forall k | k in later :: k !in keys;
    assert forall k | k in later :: k in r <==> k in obj;
  }

  lemma GroupedSteps(obj: map<string, Json>, rules: Rules)
    requires RulesOk(rules)
    ensures Grouped(obj, WithMeta(obj, rules), "meta", rules.layout.meta)
    ensures Grouped(obj, WithEndpoint(obj, rules), "endpoint", rules.layout.endpoint)
    ensures Grouped(obj, WithTls(obj, rules), "tls", rules.layout.tls)
    ensures WithMeta(obj, rules)["meta"] == Obj(rules.fixMeta(Taken(obj, rules.layout.meta)))
    ensures WithEndpoint(obj, rules)["endpoint"] == Obj(Taken(obj, rules.layout.endpoint))
    ensures WithTls(obj, rules)["tls"] == Obj(rules.fixTls(Taken(obj, rules.layout.tls)))
  {
  }

  lemma GroupedTransport(obj: map<string, Json>, rules: Rules)
    requires RulesOk(rules)
    ensures Grouped(obj, WithTransport(obj, rules), "transport", rules.layout.transport)
    ensures WithTransport(obj, rules)["transport"] == rules.nest(Taken(obj, rules.layout.transport))
  {
    GroupNamesDiffer();
  }

  /** One stage: a grouping step, or nothing where the protocol has no such group. */
  ghost predicate Stage(obj: map<string, Json>, r: map<string, Json>, has: bool, group: string, keys: seq<string>) {
    if has then Grouped(obj, r, group, keys) else r == obj
  }

  ghost predicate Stages(
      obj: map<string, Json>, m: map<string, Json>, e: map<string, Json>, t: map<string, Json>, s: map<string, Json>,
      protocol: string, rules: Rules)
  {
    && Stage(obj, m, true, "meta", rules.layout.meta)
    && Stage(m, e, protocol != "custom", "endpoint", rules.layout.endpoint)
    && Stage(e, t, HasTransport(protocol), "transport", rules.layout.transport)
    && Stage(t, s, HasTls(protocol), "tls", rules.layout.tls)
  }

  lemma TakenThrough(obj: map<string, Json>, r: map<string, Json>, has: bool, group: string, keys: seq<string>,
          later: seq<string>)
    requires Stage(obj, r, has, group, keys) && Apart(keys, later) && group !in later && "muxEnabled" !in later
    ensures Taken(r, later) == Taken(obj, later)
  {
    if has {
      TakenAfter(obj, r, group, keys, later);
    }
  }

  /** An entry that a stage neither moves nor makes is still there after it. */
  lemma StaysThrough(obj: map<string, Json>, r: map<string, Json>, has: bool, group: string, keys: seq<string>,
                     k: string)
    requires Stage(obj, r, has, group, keys) && k in obj && (has ==> k != group && k !in keys)
    ensures k in r && r[k] == obj[k]
  {
  }

  lemma GoneThrough(obj: map<string, Json>, r: map<string, Json>, has: bool, group: string, keys: seq<string>,
                    k: string)
    requires Stage(obj, r, has, group, keys) && k != group && k != "muxEnabled" && (k !in obj || (has && k in keys))
    ensures k !in r
  {
  }

  lemma OthersStayThrough(
      obj: map<string, Json>, m: map<string, Json>, e: map<string, Json>, t: map<string, Json>, s: map<string, Json>,
      protocol: string, rules: Rules, k: string)
    requires Stages(obj, m, e, t, s, protocol, rules)
    requires k in obj && !Moves(k, protocol, rules) && !HasGroup(protocol, k)
    ensures k in s && s[k] == obj[k]
  {
    StaysThrough(obj, m, true, "meta", rules.layout.meta, k);
    StaysThrough(m, e, protocol != "custom", "endpoint", rules.layout.endpoint, k);
    StaysThrough(e, t, HasTransport(protocol), "transport", rules.layout.transport, k);
    StaysThrough(t, s, HasTls(protocol), "tls", rules.layout.tls, k);
  }

  lemma MovedGoThrough(
      obj: map<string, Json>, m: map<string, Json>, e: map<string, Json>, t: map<string, Json>, s: map<string, Json>,
      protocol: string, rules: Rules, k: string)
    requires RulesOk(rules) && Stages(obj, m, e, t, s, protocol, rules) && Moves(k, protocol, rules)
    ensures k !in s && k != "reserved"
  {
    assert !HasGroup(protocol, k) && k != "muxEnabled" && k != "reserved";
    if k in rules.layout.meta || k !in obj {
      GoneThrough(obj, m, true, "meta", rules.layout.meta, k);
    }
    if k !in m || k in InEndpoint(protocol, rules) {
      GoneThrough(m, e, protocol != "custom", "endpoint", rules.layout.endpoint, k);
    }
    if k !in e || k in InTransport(protocol, rules) {
      GoneThrough(e, t, HasTransport(protocol), "transport", rules.layout.transport, k);
    }
    GoneThrough(t, s, HasTls(protocol), "tls", rules.layout.tls, k);
  }

  lemma GroupsHoldThrough(
      obj: map<string, Json>, m: map<string, Json>, e: map<string, Json>, t: map<string, Json>, s: map<string, Json>,
      protocol: string, rules: Rules)
    requires RulesOk(rules) && Stages(obj, m, e, t, s, protocol, rules)
    requires m["meta"] == Obj(rules.fixMeta(Taken(obj, rules.layout.meta)))
    requires protocol != "custom" ==> e["endpoint"] == Obj(Taken(m, rules.layout.endpoint))
    requires HasTransport(protocol) ==> t["transport"] == rules.nest(Taken(e, rules.layout.transport))
    requires HasTls(protocol) ==> s["tls"] == Obj(rules.fixTls(Taken(t, rules.layout.tls)))
    ensures GroupsHold(obj, s, protocol, rules)
  {
    GroupNamesDiffer();
    var l := rules.layout;
    TakenThrough(obj, m, true, "meta", l.meta, l.endpoint);
    TakenThrough(obj, m, true, "meta", l.meta, l.transport);
    TakenThrough(obj, m, true, "meta", l.meta, l.tls);
    TakenThrough(m, e, protocol != "custom", "endpoint", l.endpoint, l.transport);
    TakenThrough(m, e, protocol != "custom", "endpoint", l.endpoint, l.tls);
    TakenThrough(e, t, HasTransport(protocol), "transport", l.transport, l.tls);
    StaysThrough(m, e, protocol != "custom", "endpoint", l.endpoint, "meta");
    StaysThrough(e, t, HasTransport(protocol), "transport", l.transport, "meta");
    StaysThrough(t, s, HasTls(protocol), "tls", l.tls, "meta");
    if protocol != "custom" {
      StaysThrough(e, t, HasTransport(protocol), "transport", l.transport, "endpoint");
      StaysThrough(t, s, HasTls(protocol), "tls", l.tls, "endpoint");
    }
    if HasTransport(protocol) {
      StaysThrough(t, s, HasTls(protocol), "tls", l.tls, "transport");
    }
  }

  /** Upgrading a flat profile takes the fields of every applicable list from the top,
    * shapes each group from the fields of its list alone, and leaves the others. */
  lemma GroupsAreTaken(p: Json, rules: Rules)
    requires RulesOk(rules) && IsFlat(p)
    ensures var protocol := p.fields["protocol"].s;
            var q := ProfileMigrated(p, rules);
            && q.Obj?
            && GroupsHold(p.fields, q.fields, protocol, rules)
            && OthersStay(p.fields, q.fields, protocol, rules)
            && MovedAreGone(p.fields, q.fields, protocol, rules)
  {
    var obj, protocol := p.fields, p.fields["protocol"].s;
    GroupNamesDiffer();
    var m := WithMeta(obj, rules);
    GroupedSteps(obj, rules);
    var e := if protocol != "custom" then WithEndpoint(m, rules) else m;
    GroupedSteps(m, rules);
    var t := if HasTransport(protocol) then WithTransport(e, rules) else e;
    GroupedTransport(e, rules);
    var s := if HasTls(protocol) then WithTls(t, rules) else t;
    GroupedSteps(t, rules);
    GroupsHoldThrough(obj, m, e, t, s, protocol, rules);
    FinishReserved(obj, m, e, t, s, protocol, rules);
  }

  lemma FinishReserved(
      obj: map<string, Json>, m: map<string, Json>, e: map<string, Json>, t: map<string, Json>, s: map<string, Json>,
      protocol: string, rules: Rules)
    requires RulesOk(rules) && Stages(obj, m, e, t, s, protocol, rules) && GroupsHold(obj, s, protocol, rules)
    ensures var r := if protocol == "wireguard" then WithReserved(s, rules) else s;
            && GroupsHold(obj, r, protocol, rules) && OthersStay(obj, r, protocol, rules)
            && MovedAreGone(obj, r, protocol, rules)
  {
    GroupNamesDiffer();
    forall k | k in obj && !Moves(k, protocol, rules) && !HasGroup(protocol, k) ensures k in s && s[k] == obj[k] {
      OthersStayThrough(obj, m, e, t, s, protocol, rules, k);
    }
    forall k | Moves(k, protocol, rules) ensures k !in s && k != "reserved" {
      MovedGoThrough(obj, m, e, t, s, protocol, rules, k);
    }
  }

  // ---------- Where the fields of a flat transport go ----------

  function HomeIn(moves: Moves, n: nat, k: string): Option<string>
    requires n <= |moves|
  {
    if n == 0 then None else if moves[n - 1].1 == k then Some(moves[n - 1].0) else HomeIn(moves, n - 1, k)
  }

  /** The field is a text with something in it. */
  predicate IsFilled(flat: map<string, Json>, k: string) {
    k in flat && flat[k].Str? && flat[k].s != ""
  }

  /** The name under which the nested transport holds a flat field. gRPC takes a text
    * only, and the second choice only where the first is none. */
  function Home(flat: map<string, Json>, k: string): Option<string> {
    var kind := KindOf(flat);
    if kind == "grpc" && (k == "serviceName" || (k == "path" && !IsFilled(flat, "serviceName"))) && IsFilled(flat, k)
    then Some("serviceName")
    else if kind == "grpc" && (k == "authority" || (k == "host" && !IsFilled(flat, "authority"))) && IsFilled(flat, k)
    then Some("authority")
    else TakenAs(kind, k)
  }

  ghost predicate DistinctMoves(moves: Moves) {
    && (forall i, j | 0 <= i < j < |moves| :: moves[i].0 != moves[j].0)
    && (forall i, j | 0 <= i < j < |moves| :: moves[i].1 != moves[j].1)
  }

  lemma {:induction false} HomeIsAMove(moves: Moves, n: nat, k: string) returns (i: nat)
    requires n <= |moves| && HomeIn(moves, n, k).Some?
    ensures i < n && moves[i] == (HomeIn(moves, n, k).value, k)
  {
    if moves[n - 1].1 == k {
      i := n - 1;
    } else {
      i := HomeIsAMove(moves, n - 1, k);
    }
  }

  lemma {:induction false} PutAllPuts(o: map<string, Json>, moves: Moves, n: nat, flat: map<string, Json>, k: string)
    requires n <= |moves| && DistinctMoves(moves) && k in flat && HomeIn(moves, n, k).Some?
    ensures var r, h := PutAll(o, moves, n, flat), HomeIn(moves, n, k).value; h in r && r[h] == flat[k]
  {
    if moves[n - 1].1 != k {
      PutAllPuts(o, moves, n - 1, flat, k);
      var i := HomeIsAMove(moves, n - 1, k);
    }
  }

  lemma {:induction false} PutAllForgets(o: map<string, Json>, moves: Moves, n: nat, flat: map<string, Json>, k: string)
    requires n <= |moves| && HomeIn(moves, n, k).None?
    ensures PutAll(o, moves, n, flat - {k}) == PutAll(o, moves, n, flat)
  {
    if n > 0 {
      PutAllForgets(o, moves, n - 1, flat, k);
    }
  }

  lemma {:induction false} PutAllOnly(o: map<string, Json>, moves: Moves, n: nat, flat: map<string, Json>, h: string)
    requires n <= |moves| && DistinctMoves(moves) && h in PutAll(o, moves, n, flat)
    ensures var r := PutAll(o, moves, n, flat);
            || (h in o && r[h] == o[h])
            || exists i | 0 <= i < n :: moves[i].0 == h && moves[i].1 in flat && r[h] == flat[moves[i].1]
  {
    if n > 0 && !(moves[n - 1].0 == h && moves[n - 1].1 in flat) {
      PutAllOnly(o, moves, n - 1, flat, h);
    }
  }

  lemma MovesAreDistinct(kind: string)
    ensures DistinctMoves(MovesOf(kind))
  {
    NamesAreApart(kind);
    SourcesAreApart(kind);
  }

  lemma {:induction false} HomeOfMove(moves: Moves, n: nat, i: nat)
    requires i < n <= |moves| && DistinctMoves(moves)
    ensures HomeIn(moves, n, moves[i].1) == Some(moves[i].0)
  {
    if i < n - 1 {
      HomeOfMove(moves, n - 1, i);
    }
  }

  /** The table of moves, read field by field. */
  lemma HomeIsTakenAs(flat: map<string, Json>, k: string)
    ensures var moves := MovesOf(KindOf(flat)); HomeIn(moves, |moves|, k) == TakenAs(KindOf(flat), k)
  {
    var kind := KindOf(flat);
    var moves := MovesOf(kind);
    MovesAreDistinct(kind);
    if HomeIn(moves, |moves|, k).Some? {
      var i := HomeIsAMove(moves, |moves|, k);
      MovesAreNamed(kind, moves[i].0, k);
    }
    if TakenAs(kind, k).Some? {
      MovesAreNamed(kind, TakenAs(kind, k).value, k);
      var i :| 0 <= i < |moves| && moves[i] == (TakenAs(kind, k).value, k);
      HomeOfMove(moves, |moves|, i);
    }
  }

  /** The fields that decide what is put before the moves. */
  lemma BaseLooksAtFew(flat: map<string, Json>, k: string, parsers: Parsers)
    requires k in flat && k != "network" && (k != "wsHeaders" || !HasHeaders(KindOf(flat))) && Home(flat, k).None?
    ensures KindOf(flat - {k}) == KindOf(flat) && NestBase(flat - {k}, parsers) == NestBase(flat, parsers)
  {
    var rest := flat - {k};
    assert forall j | j != k :: Obj(rest).TextOr(j, "") == Obj(flat).TextOr(j, "");
    assert Obj(rest).TextOr("network", "tcp") == Obj(flat).TextOr("network", "tcp");
    if HasHeaders(KindOf(flat)) {
      assert WsHeaders(rest, parsers) == WsHeaders(flat, parsers);
    }
    if KindOf(flat) == "grpc" {
      assert k == "serviceName" ==> !HasText(flat, k);
      assert k == "authority" ==> !HasText(flat, k);
      assert k == "path" ==> HasText(flat, "serviceName") || !HasText(flat, k);
      assert k == "host" ==> HasText(flat, "authority") || !HasText(flat, k);
      FirstLooksAtFew(map["kind" := Str("grpc")], "serviceName", flat, "serviceName", "path", k);
      var o := PutFirst(map["kind" := Str("grpc")], "serviceName", flat, "serviceName", "path");
      FirstLooksAtFew(o, "authority", flat, "authority", "host", k);
    }
  }

  lemma FirstLooksAtFew(o: map<string, Json>, key: string, flat: map<string, Json>, a: string, b: string, k: string)
    requires a != b && (k == a ==> !HasText(flat, a)) && (k == b ==> HasText(flat, a) || !HasText(flat, b))
    ensures PutFirst(o, key, flat - {k}, a, b) == PutFirst(o, key, flat, a, b)
  {
    var rest := flat - {k};
    assert forall j | j != k :: HasText(rest, j) == HasText(flat, j);
    assert !HasText(rest, k);
  }

  /** A field of a flat transport survives under its new name if it has one, and
    * otherwise leaves no trace: the nested transport is the same without it. */
  lemma TransportFieldSurvives(flat: map<string, Json>, k: string, parsers: Parsers)
    requires k in flat && k != "network" && (k != "wsHeaders" || !TakesUpgrade(KindOf(flat)))
    ensures match Home(flat, k)
            case Some(h) => NestTransport(flat, parsers).Has(h) && NestTransport(flat, parsers).fields[h] == flat[k]
            case None => NestTransport(flat - {k}, parsers) == NestTransport(flat, parsers)
  {
    var kind, base := KindOf(flat), NestBase(flat, parsers);
    var moves := MovesOf(kind);
    MovesAreDistinct(kind);
    HomeIsTakenAs(flat, k);
    if HomeIn(moves, |moves|, k).Some? && Home(flat, k) == HomeIn(moves, |moves|, k) {
      PutAllPuts(base, moves, |moves|, flat, k);
    } else if Home(flat, k).Some? {
      BaseIsKept(flat, parsers, Home(flat, k).value);
    } else {
      BaseLooksAtFew(flat, k, parsers);
      PutAllForgets(base, moves, |moves|, flat, k);
    }
  }

  /** What is put before the moves stays. */
  lemma BaseIsKept(flat: map<string, Json>, parsers: Parsers, h: string)
    requires h == "kind" || h == "headers" || h == "serviceName" || h == "authority"
    ensures var r, base := NestTransport(flat, parsers).fields, NestBase(flat, parsers);
            (h in r <==> h in base) && (h in base ==> r[h] == base[h])
  {
    var moves := MovesOf(KindOf(flat));
    NamesAreApart(KindOf(flat));
    PutAllKeeps(NestBase(flat, parsers), moves, |moves|, flat, h);
  }

  /** The flat transport's header text parses to an object that holds the text `x` under
    * the name `k`. */
  predicate NamesHeader(flat: map<string, Json>, parsers: Parsers, k: string, x: Json) {
    && x.Str? && "wsHeaders" in flat && flat["wsHeaders"].Str? && !Text.IsBlank(flat["wsHeaders"].s)
    && var parsed := parsers.json(flat["wsHeaders"].s);
    parsed.Some? && parsed.value.Has(k) && parsed.value.fields[k] == x
  }

  /** Where the network has request headers, exactly the entries of their text that are
    * texts survive. */
  lemma HeadersSurvive(flat: map<string, Json>, parsers: Parsers)
    requires TakesUpgrade(KindOf(flat))
    ensures NestTransport(flat, parsers).Has("headers")
    ensures var headers := NestTransport(flat, parsers).fields["headers"];
            && headers.Obj?
            && forall k, x :: headers.Has(k) && headers.fields[k] == x <==> NamesHeader(flat, parsers, k, x)
  {
    BaseIsKept(flat, parsers, "headers");
    assert Text.IsBlank("");
  }

  /** The nested transport holds the network's name, its headers and surviving fields,
    * and nothing else. */
  lemma NothingElseIsNested(flat: map<string, Json>, parsers: Parsers, h: string)
    requires NestTransport(flat, parsers).Has(h)
    ensures h == "kind" || (h == "headers" && TakesUpgrade(KindOf(flat)))
            || exists k <- flat :: Home(flat, k) == Some(h) && NestTransport(flat, parsers).fields[h] == flat[k]
  {
    if h == "headers" {
      NoOtherHeaders(flat, parsers);
    } else if h != "kind" {
      var k := HolderOf(flat, parsers, h);
    }
  }

  lemma NoOtherHeaders(flat: map<string, Json>, parsers: Parsers)
    ensures NestTransport(flat, parsers).Has("headers") ==> TakesUpgrade(KindOf(flat))
  {
    BaseIsKept(flat, parsers, "headers");
    assert |"headers"| == 7 && |"kind"| == 4 && |"serviceName"| == 11 && |"authority"| == 9;
  }

  /** The field that an entry of the nested transport came from. */
  lemma HolderOf(flat: map<string, Json>, parsers: Parsers, h: string) returns (k: string)
    requires NestTransport(flat, parsers).Has(h) && h != "kind" && h != "headers"
    ensures k in flat && Home(flat, k) == Some(h) && NestTransport(flat, parsers).fields[h] == flat[k]
  {
    var moves, base := MovesOf(KindOf(flat)), NestBase(flat, parsers);
    MovesAreDistinct(KindOf(flat));
    if h in base {
      k := ChosenIsHome(flat, parsers, h);
    } else {
      var i := MovedHere(base, moves, flat, h);
      MoveIsHome(flat, i);
      k := moves[i].1;
    }
  }

  lemma MovedHere(base: map<string, Json>, moves: Moves, flat: map<string, Json>, h: string) returns (i: nat)
    requires DistinctMoves(moves) && h !in base && h in PutAll(base, moves, |moves|, flat)
    ensures i < |moves| && moves[i].0 == h && moves[i].1 in flat
            && PutAll(base, moves, |moves|, flat)[h] == flat[moves[i].1]
  {
    PutAllOnly(base, moves, |moves|, flat, h);
    i :| 0 <= i < |moves| && moves[i].0 == h && moves[i].1 in flat
         && PutAll(base, moves, |moves|, flat)[h] == flat[moves[i].1];
  }

  lemma ChosenIsHome(flat: map<string, Json>, parsers: Parsers, h: string) returns (k: string)
    requires h in NestBase(flat, parsers) && h != "kind" && h != "headers"
    ensures k in flat && Home(flat, k) == Some(h) && NestTransport(flat, parsers).Has(h)
    ensures NestTransport(flat, parsers).fields[h] == flat[k]
  {
    var a := if h == "serviceName" then "serviceName" else "authority";
    var b := if h == "serviceName" then "path" else "host";
    k := if HasText(flat, a) then a else b;
    assert |"serviceName"| == 11 && |"authority"| == 9 && |"path"| == 4 && |"host"| == 4;
    BaseIsKept(flat, parsers, h);
  }

  lemma MoveIsHome(flat: map<string, Json>, i: nat)
    requires i < |MovesOf(KindOf(flat))|
    ensures var (h, k) := MovesOf(KindOf(flat))[i]; Home(flat, k) == Some(h)
  {
    var moves := MovesOf(KindOf(flat));
    MovesAreDistinct(KindOf(flat));
    HomeOfMove(moves, |moves|, i);
    HomeIsTakenAs(flat, moves[i].1);
    if KindOf(flat) == "grpc" {
      MovesAreNotChoices(KindOf(flat), i);
    }
  }

  lemma MovesAreNotChoices(kind: string, i: nat)
    requires i < |MovesOf(kind)| && kind == "grpc"
    ensures var k := MovesOf(kind)[i].1; k != "serviceName" && k != "path" && k != "authority" && k != "host"
  {}

  /** A QUIC profile loses its host. */
  lemma LostFieldExample(host: Json, parsers: Parsers)
    ensures NestTransport(map["network" := Str("quic"), "host" := host], parsers) == Obj(map["kind" := Str("quic")])
  {
    var flat := map["network" := Str("quic"), "host" := host];
    assert |"network"| == 7 && |"host"| == 4 && |"headerType"| == 10 && |"quic"| == 4;
    assert "quic"[0] == 'q' && "grpc"[0] == 'g' && "xhttp"[0] == 'x';
    assert Obj(flat).TextOr("network", "tcp") == "quic" && KindOf(flat) == "quic";
    assert MovesOf("quic") == [("headerType", "headerType")];
    assert PutAll(map["kind" := Str("quic")], MovesOf("quic"), 1, flat) == map["kind" := Str("quic")];
  }

  // ---------- Every field of a flat profile ----------

  predicate IsMetaField(k: string) {
    k in {"id", "remarks", "groupId", "subId", "coreType"}
  }

  predicate IsEndpointField(k: string) {
    k == "address" || k == "port"
  }

  predicate IsTlsField(k: string) {
    || k in {"security", "sni", "disableSni", "fingerprint", "alpn", "ech", "cert", "disableSystemRoot"}
    || k in {"tlsMinVersion", "tlsMaxVersion", "tlsCipherSuites", "tlsCurvePreferences"}
    || k in {"allowInsecure", "rejectUnknownSni", "enableSessionResumption", "vcn", "pcs", "pqv"}
    || k in {"publicKey", "shortId", "spiderX"}
  }

  predicate IsTransportField(k: string) {
    || k in {"network", "headerType", "host", "path", "serviceName", "authority", "userAgent", "acceptProxyProtocol"}
    || k in {"wsEarlyData", "wsEarlyDataHeader", "wsHeartbeatPeriod", "wsHeaders", "xhttpMode", "xhttpExtra"}
    || k in {"grpcMode", "grpcIdleTimeout", "grpcHealthCheckTimeout", "grpcPingTimeout", "grpcPermitWithoutStream"}
    || k in {"grpcInitialWindowsSize", "kcpSeed", "kcpMtu", "kcpTti", "kcpUplink", "kcpDownlink"}
    || k in {"kcpCwndMultiplier", "kcpMaxSendingWindow"}
  }

  lemma SmallListsAreFields(k: string)
    ensures k in META_KEYS <==> IsMetaField(k)
    ensures k in ENDPOINT_KEYS <==> IsEndpointField(k)
  {}

  lemma TlsListIsFields(k: string)
    ensures k in TLS_KEYS <==> IsTlsField(k)
  {}

  lemma TransportListIsFields(k: string)
    ensures k in TRANSPORT_KEYS <==> IsTransportField(k)
  {}

  /** The protocols that dial through a transport, and those that may run over TLS. */
  lemma GroupsOfProtocols(protocol: string)
    ensures HasTransport(protocol) <==> protocol in {"vless", "vmess", "trojan", "shadowsocks"}
    ensures HasTls(protocol)
            <==> HasTransport(protocol)
                 || protocol in {"http", "hysteria2", "tuic", "anytls", "naive", "shadowtls"}
  {}


  /** `k` is in the group, in no other group of shared names, and not at the top. */
  ghost predicate OnlyIn(q: map<string, Json>, protocol: string, group: string, k: string, v: Json) {
    && k !in q && group in q && q[group].Has(k) && q[group].fields[k] == v
    && forall other | other != group && other != "transport" && HasGroup(protocol, other) ::
         other in q && !q[other].Has(k)
  }

  /** A core the user chose; every other text meant the global one. */
  function CoreTypeOf(v: Json): Json {
    if v == Str("xray") || v == Str("sing-box") then v else Null
  }

  predicate IsList(k: string) {
    k == "alpn" || k == "tlsCipherSuites" || k == "tlsCurvePreferences"
  }

  ghost predicate SharedGroupsHold(obj: map<string, Json>, q: map<string, Json>, protocol: string) {
    && "meta" in q && q["meta"] == Obj(FixMeta(Taken(obj, META_KEYS)))
    && (protocol != "custom" ==> "endpoint" in q && q["endpoint"] == Obj(Taken(obj, ENDPOINT_KEYS)))
    && (HasTls(protocol) ==> "tls" in q && q["tls"] == Obj(FixTls(Taken(obj, TLS_KEYS))))
  }

  lemma MetaLands(obj: map<string, Json>, q: map<string, Json>, protocol: string, k: string)
    requires SharedGroupsHold(obj, q, protocol) && k in obj && k in META_KEYS && k !in q
    ensures OnlyIn(q, protocol, "meta", k, if k == "coreType" then CoreTypeOf(obj[k]) else obj[k])
  {
    MetaKeysApart();
    MetaAndTlsKeysApart();
    var meta := Taken(obj, META_KEYS);
    assert k in meta && meta[k] == obj[k];
    assert k == "coreType" ==> FixMeta(meta)[k] == CoreTypeOf(obj[k]) by {
      assert |"xray"| == 4 && |"sing-box"| == 8;
    }
  }

  lemma EndpointLands(obj: map<string, Json>, q: map<string, Json>, protocol: string, k: string)
    requires SharedGroupsHold(obj, q, protocol) && k in obj && k in ENDPOINT_KEYS && protocol != "custom" && k !in q
    ensures OnlyIn(q, protocol, "endpoint", k, obj[k])
  {
    MetaKeysApart();
    EndpointKeysApart();
    CoreTypeIsMeta();
  }

  lemma TlsLands(obj: map<string, Json>, q: map<string, Json>, protocol: string, k: string)
    requires SharedGroupsHold(obj, q, protocol) && k in obj && k in TLS_KEYS && HasTls(protocol) && k !in q
    ensures OnlyIn(q, protocol, "tls", k, if IsList(k) then CsvToArray(obj[k]) else obj[k])
  {
    MetaAndTlsKeysApart();
    EndpointKeysApart();
    CoreTypeIsMeta();
  }

  lemma CoreTypeIsMeta()
    ensures "coreType" in META_KEYS
  {
    assert META_KEYS[4] == "coreType";
  }

  /** Where each field of a flat profile is after the upgrade the application runs. */
  lemma EveryFieldLands(p: Json, k: string, parsers: Parsers)
    requires IsFlat(p) && k in p.fields
    ensures ProfileMigrated(p, SourceRules(parsers)).Obj?
    ensures var q, v := ProfileMigrated(p, SourceRules(parsers)).fields, p.fields[k];
            var protocol, flat := p.fields["protocol"].s, Taken(p.fields, TRANSPORT_KEYS);
            if k in META_KEYS then OnlyIn(q, protocol, "meta", k, if k == "coreType" then CoreTypeOf(v) else v)
            else if k in ENDPOINT_KEYS && protocol != "custom" then OnlyIn(q, protocol, "endpoint", k, v)
            else if k in TLS_KEYS && HasTls(protocol)
            then OnlyIn(q, protocol, "tls", k, if IsList(k) then CsvToArray(v) else v)
            else if k in TRANSPORT_KEYS && HasTransport(protocol)
            then k !in q && k in flat && flat[k] == v && "transport" in q
              && q["transport"] == NestTransport(flat, parsers)
            else if HasGroup(protocol, k)
            then ProfileMigrated(Obj(p.fields - {k}), SourceRules(parsers)) == Obj(q)
            else k in q && q[k] == if protocol == "wireguard" && k == "reserved" then ReservedToBytes(v) else v
  {
    var rules := SourceRules(parsers);
    var protocol := p.fields["protocol"].s;
    SourceRulesOk(parsers);
    GroupsAreTaken(p, rules);
    var q := ProfileMigrated(p, rules).fields;
    assert SharedGroupsHold(p.fields, q, protocol);
    if k in META_KEYS {
      MetaLands(p.fields, q, protocol, k);
    } else if k in ENDPOINT_KEYS && protocol != "custom" {
      EndpointLands(p.fields, q, protocol, k);
    } else if k in TLS_KEYS && HasTls(protocol) {
      TlsLands(p.fields, q, protocol, k);
    } else if HasGroup(protocol, k) {
      GroupNamesAreLost(p, k, rules);
    }
  }

  /** The upgrade makes nothing but the groups, and a default for the multiplexing that
    * moved out of the transport; the groups hold fields of their own lists alone. */
  lemma NothingElseIsMade(p: Json, h: string, parsers: Parsers)
    requires IsFlat(p)
    ensures var q, protocol := ProfileMigrated(p, SourceRules(parsers)).fields, p.fields["protocol"].s;
            && (h in q && h !in p.fields ==> HasGroup(protocol, h) || (h == "muxEnabled" && q[h] == Bool(false)))
            && ("muxEnabled" !in p.fields ==> ("muxEnabled" in q <==> HasTransport(protocol)))
            && "meta" in q && q["meta"].Obj?
            && (q["meta"].Has(h)
                ==> (h in p.fields && h in META_KEYS) || (h == "coreType" && q["meta"].fields[h] == Null))
            && q["meta"].Has("coreType")
            && ("endpoint" in q && q["endpoint"].Has(h) && protocol != "custom" ==> h in p.fields && h in ENDPOINT_KEYS)
            && ("tls" in q && q["tls"].Has(h) && HasTls(protocol) ==> h in p.fields && h in TLS_KEYS)
  {
    var rules, protocol := SourceRules(parsers), p.fields["protocol"].s;
    SourceRulesOk(parsers);
    GroupsAreTaken(p, rules);
    TopIsMade(p.fields, protocol, h, rules);
    TopIsMade(p.fields, protocol, "muxEnabled", rules);
    CoreTypeIsMeta();
  }

  lemma TopIsMade(obj: map<string, Json>, protocol: string, h: string, rules: Rules)
    requires RulesOk(rules)
    ensures var r := Nested(obj, protocol, rules);
            && (h in r && h !in obj ==>
                  HasGroup(protocol, h) || (h == "muxEnabled" && HasTransport(protocol) && r[h] == Bool(false)))
            && ("muxEnabled" !in obj && HasTransport(protocol) ==> "muxEnabled" in r)
  {
    GroupNamesDiffer();
  }

  /** A profile that is nested already is left alone, but for an untagged transport. */
  lemma NestedProfilesKeep(p: Json, parsers: Parsers)
    requires !IsFlat(p)
    ensures var q := ProfileMigrated(p, SourceRules(parsers));
            if p.Has("protocol") && p.fields["protocol"].Str? && p.Has("transport") && p.fields["transport"].Obj?
               && !p.fields["transport"].Has("kind") && p.fields["transport"].Has("network")
            then q == Obj(p.fields["transport" := NestTransport(p.fields["transport"].fields, parsers)])
            else q == p
  {}

  /** A step neither looks at a field nor makes it. */
  lemma MetaPassesBy(obj: map<string, Json>, k: string, rules: Rules)
    requires RulesOk(rules) && (k == "endpoint" || k == "transport" || k == "tls")
    ensures WithMeta(obj - {k}, rules) == WithMeta(obj, rules) - {k}
  {
    GroupNamesDiffer();
    var rest := obj - {k};
    assert (map j <- rest | j in rules.layout.meta :: rest[j]) == (map j <- obj | j in rules.layout.meta :: obj[j]);
  }

  lemma EndpointPassesBy(obj: map<string, Json>, k: string, rules: Rules)
    requires RulesOk(rules) && (k == "transport" || k == "tls")
    ensures WithEndpoint(obj - {k}, rules) == WithEndpoint(obj, rules) - {k}
  {
    GroupNamesDiffer();
    var rest := obj - {k};
    assert (map j <- rest | j in rules.layout.endpoint :: rest[j])
           == (map j <- obj | j in rules.layout.endpoint :: obj[j]);
  }

  lemma TransportPassesBy(obj: map<string, Json>, rules: Rules)
    requires RulesOk(rules)
    ensures WithTransport(obj - {"tls"}, rules) == WithTransport(obj, rules) - {"tls"}
  {
    GroupNamesDiffer();
    var rest := obj - {"tls"};
    assert (map j <- rest | j in rules.layout.transport :: rest[j])
           == (map j <- obj | j in rules.layout.transport :: obj[j]);
  }

  /** A step overwrites the field named like its group. */
  lemma StepsOverwrite(obj: map<string, Json>, rules: Rules)
    requires RulesOk(rules)
    ensures WithEndpoint(obj - {"endpoint"}, rules) == WithEndpoint(obj, rules)
    ensures WithTransport(obj - {"transport"}, rules) == WithTransport(obj, rules)
    ensures WithTls(obj - {"tls"}, rules) == WithTls(obj, rules)
  {
    GroupNamesDiffer();
    var e, t, s := obj - {"endpoint"}, obj - {"transport"}, obj - {"tls"};
    assert (map j <- e | j in rules.layout.endpoint :: e[j]) == (map j <- obj | j in rules.layout.endpoint :: obj[j]);
    assert (map j <- t | j in rules.layout.transport :: t[j]) == (map j <- obj | j in rules.layout.transport :: obj[j]);
    assert (map j <- s | j in rules.layout.tls :: s[j]) == (map j <- obj | j in rules.layout.tls :: obj[j]);
  }

  lemma EndpointIsLost(obj: map<string, Json>, protocol: string, rules: Rules)
    requires RulesOk(rules) && protocol != "custom"
    ensures Nested(obj - {"endpoint"}, protocol, rules) == Nested(obj, protocol, rules)
  {
    MetaPassesBy(obj, "endpoint", rules);
    StepsOverwrite(WithMeta(obj, rules), rules);
  }

  lemma TransportIsLost(obj: map<string, Json>, protocol: string, rules: Rules)
    requires RulesOk(rules) && HasTransport(protocol)
    ensures Nested(obj - {"transport"}, protocol, rules) == Nested(obj, protocol, rules)
  {
    var m := WithMeta(obj, rules);
    MetaPassesBy(obj, "transport", rules);
    EndpointPassesBy(m, "transport", rules);
    StepsOverwrite(if protocol != "custom" then WithEndpoint(m, rules) else m, rules);
  }

  lemma TlsIsLost(obj: map<string, Json>, protocol: string, rules: Rules)
    requires RulesOk(rules) && HasTls(protocol)
    ensures Nested(obj - {"tls"}, protocol, rules) == Nested(obj, protocol, rules)
  {
    var m := WithMeta(obj, rules);
    var e := if protocol != "custom" then WithEndpoint(m, rules) else m;
    MetaPassesBy(obj, "tls", rules);
    EndpointPassesBy(m, "tls", rules);
    TransportPassesBy(e, rules);
    StepsOverwrite(if HasTransport(protocol) then WithTransport(e, rules) else e, rules);
  }

  /** A field that a flat profile has under the name of one of its groups is lost: the
    * upgrade is the same without it. */
  lemma GroupNamesAreLost(p: Json, k: string, rules: Rules)
    requires RulesOk(rules) && IsFlat(p) && k in p.fields && HasGroup(p.fields["protocol"].s, k)
    ensures ProfileMigrated(Obj(p.fields - {k}), rules) == ProfileMigrated(p, rules)
  {
    var obj, protocol := p.fields, p.fields["protocol"].s;
    if k == "endpoint" {
      EndpointIsLost(obj, protocol, rules);
    } else if k == "transport" {
      TransportIsLost(obj, protocol, rules);
    } else {
      TlsIsLost(obj, protocol, rules);
    }
    GroupNamesDiffer();
    IdIsNoGroup();
    assert IsFlat(Obj(obj - {k})) && (obj - {k})["protocol"] == obj["protocol"];
  }

  lemma IdIsNoGroup()
    ensures forall protocol :: !HasGroup(protocol, "id")
  {
    assert |"id"| == 2 && |"tls"| == 3;
  }
}
