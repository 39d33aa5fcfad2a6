/** Proxy chains: a profile dials its server through the profile its `via` names,
  * that one through its own `via`, and so on. */
module Chain {
  import opened Profiles
  import opened Wrappers

  datatype ChainError = Loops(id: string) | NotFound(id: string) | CustomHop(id: string)
  type Hops = Result<seq<Profile>, ChainError>

  // ---------- Looking profiles up ----------

  /** The first profile with that id. */
  function Find(ps: seq<Profile>, id: string): (r: Option<Profile>)
    ensures r.Some? ==> r.value in ps && r.value.meta.id == id
    ensures r.None? <==> forall p <- ps :: p.meta.id != id
  {
    if ps == [] then None
    else if ps[0].meta.id == id then Some(ps[0])
    else Find(ps[1..], id)
  }

  ghost predicate UniqueIds(ps: seq<Profile>) {
    forall i, j | 0 <= i < j < |ps| :: ps[i].meta.id != ps[j].meta.id
  }

  lemma {:induction false} FindUnique(ps: seq<Profile>, k: nat)
    requires UniqueIds(ps) && k < |ps|
    ensures Find(ps, ps[k].meta.id) == Some(ps[k])
  {
    var r := Find(ps, ps[k].meta.id);
    assert ps[k] in ps;
    var i :| 0 <= i < |ps| && ps[i] == r.value;
  }

  /** Two lists that hold the same profiles under unique ids look alike. */
  lemma FindSameMembers(ps: seq<Profile>, qs: seq<Profile>, id: string)
    requires UniqueIds(ps) && UniqueIds(qs) && forall p :: p in ps <==> p in qs
    ensures Find(ps, id) == Find(qs, id)
  {
    var r := Find(ps, id);
    if r.Some? {
      var k :| 0 <= k < |qs| && qs[k] == r.value;
      FindUnique(qs, k);
    }
  }

  // ---------- Walking the chain ----------

  ghost function Ids(ps: seq<Profile>): set<string> {
    set p <- ps :: p.meta.id
  }

  /** What the walk from `next` gives when it must not come back to `seen`. */
  ghost function HopsFrom(ps: seq<Profile>, next: Option<string>, seen: seq<string>): (r: Hops)
    decreases Ids(ps) - set s <- seen
  {
    match next
    case None => Ok([])
    case Some(id) =>
      if id in seen then Err(Loops(id))
      else
        match Find(ps, id)
        case None => Err(NotFound(id))
        case Some(hop) =>
          if hop.IsCustom() then Err(CustomHop(id))
          else
            assert id in Ids(ps) - set s <- seen;
            assert id !in Ids(ps) - set s <- seen + [id];
            match HopsFrom(ps, hop.meta.via, seen + [id])
            case Ok(rest) => Ok([hop] + rest)
            case Err(e) => Err(e)
  }

  /** The walk of `p` itself: its hops, or why there are none. */
  ghost function ChainOf(p: Profile, ps: seq<Profile>): (r: Hops) {
    HopsFrom(ps, p.meta.via, [p.meta.id])
  }

  ghost function Prepend(hops: seq<Profile>, r: Hops): Hops {
    match r
    case Ok(rest) => Ok(hops + rest)
    case Err(e) => Err(e)
  }

  method ChainHops(p: Profile, ps: seq<Profile>) returns (r: Hops)
    ensures r == ChainOf(p, ps)
  {
    var hops: seq<Profile> := [];
    var seen := [p.meta.id];
    var next := p.meta.via;
    PrependNothing(ChainOf(p, ps));
    while next.Some?
      invariant ChainOf(p, ps) == Prepend(hops, HopsFrom(ps, next, seen))
      decreases Ids(ps) - set s <- seen
    {
      var id := next.value;
      ghost var from, before := HopsFrom(ps, next, seen), hops;
      if id in seen {
        return Err(Loops(id));
      }
      var found := Find(ps, id);
      if found.None? {
        return Err(NotFound(id));
      }
      var hop := found.value;
      if hop.IsCustom() {
        return Err(CustomHop(id));
      }
      assert id in Ids(ps) - set s <- seen;
      assert id !in Ids(ps) - set s <- seen + [id];
      seen := seen + [id];
      hops := hops + [hop];
      next := hop.meta.via;
      ghost var rest := HopsFrom(ps, next, seen);
      assert rest.Ok? ==> before + ([hop] + rest.value) == hops + rest.value;
    }
    assert hops + [] == hops;
    return Ok(hops);
  }

  lemma PrependNothing(r: Hops)
    ensures Prepend([], r) == r
  {
    assert r.Ok? ==> [] + r.value == r.value;
  }

  // ---------- What a chain is ----------

  /** `hops` follows `via` links from `next` until a profile that connects directly. */
  ghost predicate Walk(ps: seq<Profile>, next: Option<string>, hops: seq<Profile>)
    decreases |hops|
  {
    match next
    case None => hops == []
    case Some(id) =>
      && hops != []
      && Find(ps, id) == Some(hops[0])
      && !hops[0].IsCustom()
      && Walk(ps, hops[0].meta.via, hops[1..])
  }

  lemma {:induction false} WalkUnique(ps: seq<Profile>, next: Option<string>, a: seq<Profile>, b: seq<Profile>)
    requires Walk(ps, next, a) && Walk(ps, next, b)
    ensures a == b
    decreases |a|
  {
    if next.Some? {
      WalkUnique(ps, a[0].meta.via, a[1..], b[1..]);
      assert a == [a[0]] + a[1..] && b == [b[0]] + b[1..];
    }
  }

  /** The rest of a walk is the walk of the hop it starts after. */
  lemma {:induction false} WalkSuffix(ps: seq<Profile>, next: Option<string>, hops: seq<Profile>, k: nat)
    requires Walk(ps, next, hops) && k < |hops|
    ensures Find(ps, hops[k].meta.id) == Some(hops[k]) && !hops[k].IsCustom()
    ensures Walk(ps, hops[k].meta.via, hops[k + 1..])
    decreases k
  {
    if k > 0 {
      WalkSuffix(ps, hops[0].meta.via, hops[1..], k - 1);
      assert hops[1..][k..] == hops[k + 1..];
    }
  }

  /** A walk that ends never meets the same profile twice. */
  lemma WalkNoRepeat(ps: seq<Profile>, next: Option<string>, hops: seq<Profile>, i: nat, j: nat)
    requires Walk(ps, next, hops) && i < j < |hops|
    ensures hops[i].meta.id != hops[j].meta.id
  {
    WalkSuffix(ps, next, hops, i);
    WalkSuffix(ps, next, hops, j);
    if hops[i].meta.id == hops[j].meta.id {
      WalkUnique(ps, hops[i].meta.via, hops[i + 1..], hops[j + 1..]);
      assert false;
    }
  }

  /** The walk of a stored profile never comes back to that profile. */
  lemma WalkAvoidsItself(ps: seq<Profile>, p: Profile, hops: seq<Profile>)
    requires Find(ps, p.meta.id) == Some(p) && Walk(ps, p.meta.via, hops)
    ensures forall h <- hops :: h.meta.id != p.meta.id
  {
    forall h <- hops ensures h.meta.id != p.meta.id {
      var k :| 0 <= k < |hops| && hops[k] == h;
      if h.meta.id == p.meta.id {
        WalkSuffix(ps, p.meta.via, hops, k);
        WalkUnique(ps, p.meta.via, hops, hops[k + 1..]);
        assert false;
      }
    }
  }

  lemma {:induction false} HopsAreAWalk(ps: seq<Profile>, next: Option<string>, seen: seq<string>)
    ensures var r := HopsFrom(ps, next, seen);
            r.Ok? ==> Walk(ps, next, r.value) && forall h <- r.value :: h.meta.id !in seen
    decreases Ids(ps) - set s <- seen
  {
    if next.Some? && next.value !in seen {
      var id := next.value;
      var found := Find(ps, id);
      if found.Some? && !found.value.IsCustom() {
        assert id in Ids(ps) - set s <- seen;
        assert id !in Ids(ps) - set s <- seen + [id];
        HopsAreAWalk(ps, found.value.meta.via, seen + [id]);
      }
    }
  }

  lemma {:induction false} WalkIsFound(ps: seq<Profile>, next: Option<string>, seen: seq<string>, hops: seq<Profile>)
    requires Walk(ps, next, hops) && forall h <- hops :: h.meta.id !in seen
    ensures HopsFrom(ps, next, seen) == Ok(hops)
    decreases |hops|
  {
    if next.Some? {
      var id := next.value;
      forall h <- hops[1..] ensures h.meta.id !in seen + [id] {
        var k :| 0 <= k < |hops[1..]| && hops[1..][k] == h;
        assert hops[k + 1] == h && hops[k + 1] in hops;
        WalkNoRepeat(ps, next, hops, 0, k + 1);
      }
      assert hops[0] in hops;
      WalkIsFound(ps, hops[0].meta.via, seen + [id], hops[1..]);
      assert hops == [hops[0]] + hops[1..];
    }
  }

  /** A chain is accepted exactly when following `via` from the profile ends,
    * finds every hop, meets no custom profile and never meets the profile itself;
    * the accepted hops are those of that walk. */
  lemma ChainIsTheWalk(p: Profile, ps: seq<Profile>, hops: seq<Profile>)
    ensures ChainOf(p, ps) == Ok(hops) <==>
            Walk(ps, p.meta.via, hops) && forall h <- hops :: h.meta.id != p.meta.id
  {
    HopsAreAWalk(ps, p.meta.via, [p.meta.id]);
    if Walk(ps, p.meta.via, hops) && forall h <- hops :: h.meta.id != p.meta.id {
      WalkIsFound(ps, p.meta.via, [p.meta.id], hops);
    }
  }

  /** `hops` follows `via` links from `next` as far as `last`, through no custom profile and
    * nothing in `seen`, and through no profile twice. */
  ghost predicate Follows(ps: seq<Profile>, next: Option<string>, seen: seq<string>, hops: seq<Profile>, last: string)
    decreases |hops|
  {
    if hops == [] then next == Some(last)
    else
      && next.Some? && next.value !in seen && Find(ps, next.value) == Some(hops[0]) && !hops[0].IsCustom()
      && Follows(ps, hops[0].meta.via, seen + [next.value], hops[1..], last)
  }

  /** What is wrong with `id` as the next hop. */
  ghost predicate IsWrong(ps: seq<Profile>, id: string, seen: bool, e: ChainError) {
    match e
    case Loops(at) => at == id && seen
    case NotFound(at) => at == id && !seen && forall q <- ps :: q.meta.id != id
    case CustomHop(at) => at == id && !seen && Find(ps, id).Some? && Find(ps, id).value.IsCustom()
  }

  lemma {:induction false} WalkStops(ps: seq<Profile>, next: Option<string>, seen: seq<string>)
    returns (hops: seq<Profile>, id: string)
    requires HopsFrom(ps, next, seen).Err?
    ensures Follows(ps, next, seen, hops, id)
    ensures IsWrong(ps, id, id in seen || id in Ids(hops), HopsFrom(ps, next, seen).error)
    decreases Ids(ps) - set s <- seen
  {
    id := next.value;
    hops := [];
    var found := Find(ps, id);
    if id !in seen && found.Some? && !found.value.IsCustom() {
      assert id in Ids(ps) - set s <- seen;
      assert id !in Ids(ps) - set s <- seen + [id];
      var rest, stop := WalkStops(ps, found.value.meta.via, seen + [id]);
      hops, id := [found.value] + rest, stop;
      assert hops[1..] == rest;
      assert Ids(hops) == {found.value.meta.id} + Ids(rest) by {
        assert forall h :: h in hops <==> h == found.value || h in rest;
      }
    }
  }

  /** Why a chain is refused: the walk gets as far as an id that it has met before, that
    * nobody has, or that a custom profile has. */
  lemma RefusedAtTheHop(p: Profile, ps: seq<Profile>) returns (hops: seq<Profile>, id: string)
    requires ChainOf(p, ps).Err?
    ensures Follows(ps, p.meta.via, [p.meta.id], hops, id)
    ensures IsWrong(ps, id, id == p.meta.id || id in Ids(hops), ChainOf(p, ps).error)
  {
    hops, id := WalkStops(ps, p.meta.via, [p.meta.id]);
  }

  ghost predicate ChainValid(p: Profile, ps: seq<Profile>) {
    ChainOf(p, ps).Ok?
  }

  ghost predicate AllValid(ps: seq<Profile>) {
    forall p <- ps :: ChainValid(p, ps)
  }

  /** Every hop of an accepted chain of a stored profile has an accepted chain itself. */
  lemma HopsAreValid(p: Profile, ps: seq<Profile>, k: nat)
    requires ChainValid(p, ps) && k < |ChainOf(p, ps).value|
    ensures var hops := ChainOf(p, ps).value; ChainOf(hops[k], ps) == Ok(hops[k + 1..])
  {
    var hops := ChainOf(p, ps).value;
    ChainIsTheWalk(p, ps, hops);
    WalkSuffix(ps, p.meta.via, hops, k);
    WalkAvoidsItself(ps, hops[k], hops[k + 1..]);
    ChainIsTheWalk(hops[k], ps, hops[k + 1..]);
  }

  // ---------- The picker ----------

  /** The profiles but those with that id. */
  function Others(ps: seq<Profile>, id: string): (r: seq<Profile>)
    ensures forall p :: p in r <==> p in ps && p.meta.id != id
  {
    if ps == [] then []
    else (if ps[0].meta.id != id then [ps[0]] else []) + Others(ps[1..], id)
  }

  lemma {:induction false} OthersUnique(ps: seq<Profile>, id: string)
    requires UniqueIds(ps)
    ensures UniqueIds(Others(ps, id))
  {
    if ps != [] {
      OthersUnique(ps[1..], id);
      forall q <- Others(ps[1..], id) ensures q.meta.id != ps[0].meta.id {
        var i :| 0 <= i < |ps[1..]| && ps[1..][i] == q;
        assert q == ps[i + 1];
      }
    }
  }

  /** Whether the picker offers `id` to `p`: with `p` standing in for its stored
    * copy and dialling through `id`, its chain is accepted. */
  ghost predicate Offers(p: Profile, ps: seq<Profile>, id: string) {
    var draft := p.Via(Some(id));
    ChainValid(draft, Others(ps, p.meta.id) + [draft])
  }

  /** The offered ids among the first `n` profiles, in list order. */
  ghost function Candidates(p: Profile, ps: seq<Profile>, n: nat): (ids: seq<string>)
    requires n <= |ps|
  {
    if n == 0 then []
    else
      var id := ps[n - 1].meta.id;
      Candidates(p, ps, n - 1) + if Offers(p, ps, id) then [id] else []
  }

  lemma {:induction false} CandidatesAreOffered(p: Profile, ps: seq<Profile>, n: nat, id: string)
    requires n <= |ps|
    ensures id in Candidates(p, ps, n) <==> Offers(p, ps, id) && Listed(ps, n, id)
  {
    if n > 0 {
      CandidatesAreOffered(p, ps, n - 1, id);
      assert Listed(ps, n, id) <==> ps[n - 1].meta.id == id || Listed(ps, n - 1, id);
    }
  }

  ghost predicate Listed(ps: seq<Profile>, n: nat, id: string)
    requires n <= |ps|
  {
    exists k | 0 <= k < n :: ps[k].meta.id == id
  }

  method ChainCandidates(p: Profile, ps: seq<Profile>) returns (ids: seq<string>)
    ensures ids == Candidates(p, ps, |ps|)
  {
    var state := Others(ps, p.meta.id);
    ghost var others := state;
    var draft := p;
    state := state + [draft];
    var draftIdx := |state| - 1;
    ids := [];
    for i := 0 to |ps|
      invariant draftIdx == |others| && state == others + [draft]
      invariant draft == p.Via(draft.meta.via)
      invariant ids == Candidates(p, ps, i)
    {
      var id := ps[i].meta.id;
      draft := draft.Via(Some(id));
      state := state[draftIdx := draft];
      assert state == others + [draft];
      var r := ChainHops(draft, state);
      if r.Ok? {
        ids := ids + [id];
      }
    }
  }

  lemma {:induction false} SameFindSameHops(ps: seq<Profile>, qs: seq<Profile>, next: Option<string>, seen: seq<string>)
    requires forall id :: Find(ps, id) == Find(qs, id)
    ensures HopsFrom(ps, next, seen) == HopsFrom(qs, next, seen)
    decreases Ids(ps) - set s <- seen
  {
    if next.Some? && next.value !in seen && Find(ps, next.value).Some? && !Find(ps, next.value).value.IsCustom() {
      var id := next.value;
      assert id in Ids(ps) - set s <- seen;
      assert id !in Ids(ps) - set s <- seen + [id];
      SameFindSameHops(ps, qs, Find(ps, id).value.meta.via, seen + [id]);
    }
  }

  lemma StandInLooksStored(p: Profile, ps: seq<Profile>, k: nat)
    requires UniqueIds(ps) && k < |ps| && ps[k].meta.id == p.meta.id
    ensures UniqueIds(ps[k := p])
    ensures forall id :: Find(Others(ps, p.meta.id) + [p], id) == Find(ps[k := p], id)
  {
    var qs, rs := Others(ps, p.meta.id) + [p], ps[k := p];
    OthersUnique(ps, p.meta.id);
    forall q ensures q in qs <==> q in rs {
      if q in rs && q != p {
        var i :| 0 <= i < |rs| && rs[i] == q;
        assert ps[i] == q;
      }
      if q in qs && q != p {
        var i :| 0 <= i < |ps| && ps[i] == q;
        assert rs[i] == q;
      }
      if q == p {
        assert rs[k] == p;
      }
    }
    forall id ensures Find(qs, id) == Find(rs, id) {
      FindSameMembers(qs, rs, id);
    }
  }

  /** The picker offers exactly the ids that, stored as the profile's `via`, give
    * it a chain the config builders accept; every other id is an error there. */
  lemma PickerIsExact(p: Profile, ps: seq<Profile>, k: nat, id: string)
    requires UniqueIds(ps) && k < |ps| && ps[k].meta.id == p.meta.id
    ensures id in Candidates(p, ps, |ps|) <==> ChainValid(p.Via(Some(id)), ps[k := p.Via(Some(id))])
  {
    var draft := p.Via(Some(id));
    var stored := ps[k := draft];
    CandidatesAreOffered(p, ps, |ps|, id);
    StandInLooksStored(draft, ps, k);
    SameFindSameHops(Others(ps, p.meta.id) + [draft], stored, draft.meta.via, [draft.meta.id]);
    if ChainValid(draft, stored) {
      var hop := Find(stored, id).value;
      var i :| 0 <= i < |stored| && stored[i] == hop;
      assert ps[i].meta.id == id;
    }
  }

  lemma FindElsewhere(ps: seq<Profile>, k: nat, p: Profile, id: string)
    requires UniqueIds(ps) && k < |ps| && ps[k].meta.id == p.meta.id
    ensures Find(ps[k := p], id) == if id == p.meta.id then Some(p) else Find(ps, id)
  {
    var qs := ps[k := p];
    assert UniqueIds(qs);
    FindUnique(qs, k);
    assert qs[k] == p;
    if id != p.meta.id {
      var r := Find(ps, id);
      if r.Some? {
        var i :| 0 <= i < |ps| && ps[i] == r.value;
        FindUnique(qs, i);
      } else {
        assert forall q <- qs :: q.meta.id != id;
      }
    }
  }

  /** Replacing one stored profile reroutes a walk at that profile and nowhere else. */
  lemma {:induction false} Rerouted(
      ps: seq<Profile>, k: nat, p: Profile, onward: seq<Profile>, next: Option<string>, hops: seq<Profile>)
    returns (hops': seq<Profile>)
    requires UniqueIds(ps) && k < |ps| && ps[k].meta.id == p.meta.id && (p.IsCustom() ==> ps[k].IsCustom())
    requires Walk(ps, next, hops) && Walk(ps[k := p], p.meta.via, onward)
    ensures Walk(ps[k := p], next, hops')
    decreases |hops|
  {
    if next.None? {
      hops' := [];
    } else {
      FindElsewhere(ps, k, p, next.value);
      if next.value == p.meta.id {
        FindUnique(ps, k);
        hops' := [p] + onward;
      } else {
        var rest := Rerouted(ps, k, p, onward, hops[0].meta.via, hops[1..]);
        hops' := [hops[0]] + rest;
      }
      assert hops'[1..] == if next.value == p.meta.id then onward else hops'[1..];
    }
  }

  /** With every stored chain accepted, taking an offered hop keeps every chain
    * accepted, also those that dial through the changed profile. */
  lemma PickerKeepsAllValid(p: Profile, ps: seq<Profile>, k: nat, id: string)
    requires UniqueIds(ps) && AllValid(ps)
    requires k < |ps| && ps[k].meta.id == p.meta.id && (p.IsCustom() ==> ps[k].IsCustom())
    requires id in Candidates(p, ps, |ps|)
    ensures AllValid(ps[k := p.Via(Some(id))])
  {
    var draft := p.Via(Some(id));
    var stored := ps[k := draft];
    PickerIsExact(p, ps, k, id);
    forall q <- stored ensures ChainValid(q, stored) {
      if q != draft {
        var j :| 0 <= j < |stored| && stored[j] == q;
        OtherChainStaysValid(ps, k, draft, j);
      }
    }
  }

  lemma OtherChainStaysValid(ps: seq<Profile>, k: nat, p: Profile, j: nat)
    requires UniqueIds(ps) && AllValid(ps) && k < |ps| && j < |ps| && j != k
    requires ps[k].meta.id == p.meta.id && (p.IsCustom() ==> ps[k].IsCustom()) && ChainValid(p, ps[k := p])
    ensures ChainValid(ps[j], ps[k := p])
  {
    var stored, q := ps[k := p], ps[j];
    assert q in ps;
    var hops, onward := ChainOf(q, ps).value, ChainOf(p, stored).value;
    ChainIsTheWalk(q, ps, hops);
    ChainIsTheWalk(p, stored, onward);
    var hops' := Rerouted(ps, k, p, onward, q.meta.via, hops);
    FindElsewhere(ps, k, p, q.meta.id);
    FindUnique(ps, j);
    WalkAvoidsItself(stored, q, hops');
    ChainIsTheWalk(q, stored, hops');
  }

  // ---------- The fix-up after deletions ----------

  ghost function FixedOne(p: Profile, ids: set<string>): (r: Profile) {
    if p.meta.via.Some? && (p.meta.via.value == p.meta.id || p.meta.via.value !in ids) then p.Via(None) else p
  }

  ghost function FixedFor(ps: seq<Profile>, ids: set<string>): (r: seq<Profile>)
    ensures |r| == |ps| && forall i | 0 <= i < |ps| :: r[i] == FixedOne(ps[i], ids)
  {
    if ps == [] then [] else [FixedOne(ps[0], ids)] + FixedFor(ps[1..], ids)
  }

  /** Every profile, connecting directly where its `via` names itself or nobody. */
  ghost function Fixed(ps: seq<Profile>): seq<Profile> {
    FixedFor(ps, Ids(ps))
  }

  class AppState {
    var profiles: seq<Profile>

    constructor (ps: seq<Profile>)
      ensures profiles == ps
    {
      profiles := ps;
    }

    method FixupDanglingVia()
      modifies this
      ensures profiles == Fixed(old(profiles))
    {
      ghost var was := profiles;
      var ids: seq<string> := [];
      for i := 0 to |profiles|
        invariant profiles == was && |ids| == i
        invariant forall j | 0 <= j < i :: ids[j] == was[j].meta.id
      {
        ids := ids + [profiles[i].meta.id];
      }
      assert forall id :: id in ids <==> id in Ids(was) by {
        forall id ensures id in ids <==> id in Ids(was) {
          if id in Ids(was) {
            var p :| p in was && p.meta.id == id;
            var j :| 0 <= j < |was| && was[j] == p;
            assert ids[j] == id;
          }
        }
      }
      for i := 0 to |profiles|
        invariant |profiles| == |was|
        invariant forall j | 0 <= j < i :: profiles[j] == FixedOne(was[j], Ids(was))
        invariant forall j | i <= j < |was| :: profiles[j] == was[j]
      {
        var p := profiles[i];
        if p.meta.via.Some? && (p.meta.via.value == p.meta.id || p.meta.via.value !in ids) {
          profiles := profiles[i := p.Via(None)];
        }
      }
    }
  }

  lemma FixedKeepsIds(ps: seq<Profile>, ids: set<string>)
    ensures Ids(FixedFor(ps, ids)) == Ids(ps)
  {
    var qs := FixedFor(ps, ids);
    forall id | id in Ids(ps) ensures id in Ids(qs) {
      var i :| 0 <= i < |ps| && ps[i].meta.id == id;
      assert qs[i] in qs;
    }
    forall id | id in Ids(qs) ensures id in Ids(ps) {
      var i :| 0 <= i < |qs| && qs[i].meta.id == id;
      assert ps[i] in ps;
    }
  }

  /** Fixing a fixed state changes nothing. */
  lemma FixupIsIdempotent(ps: seq<Profile>)
    ensures Fixed(Fixed(ps)) == Fixed(ps)
  {
    FixedKeepsIds(ps, Ids(ps));
  }

  lemma {:induction false} FindFixed(ps: seq<Profile>, ids: set<string>, id: string)
    ensures var r := Find(ps, id);
            Find(FixedFor(ps, ids), id) == if r.Some? then Some(FixedOne(r.value, ids)) else None
  {
    if ps != [] {
      FindFixed(ps[1..], ids, id);
      assert FixedFor(ps, ids)[1..] == FixedFor(ps[1..], ids);
    }
  }

  /** After the fix-up no chain, in any state, ends at a profile that is not there. */
  lemma {:induction false} FixedNeverNotFound(ps: seq<Profile>, next: Option<string>, seen: seq<string>)
    requires next.Some? ==> next.value in Ids(ps)
    ensures var r := HopsFrom(Fixed(ps), next, seen); r.Ok? || !r.error.NotFound?
    decreases Ids(ps) - set s <- seen
  {
    if next.Some? && next.value !in seen {
      var id := next.value;
      FindFixed(ps, Ids(ps), id);
      assert Find(ps, id).Some?;
      var hop := FixedOne(Find(ps, id).value, Ids(ps));
      assert id in Ids(ps) - set s <- seen;
      assert id !in Ids(ps) - set s <- seen + [id];
      FixedNeverNotFound(ps, hop.meta.via, seen + [id]);
    }
  }

  /** The profiles left once those with an id in `gone` are deleted. */
  ghost function Without(ps: seq<Profile>, gone: set<string>): (r: seq<Profile>)
    ensures forall p :: p in r <==> p in ps && p.meta.id !in gone
  {
    if ps == [] then []
    else if ps[0].meta.id in gone then Without(ps[1..], gone)
    else [ps[0]] + Without(ps[1..], gone)
  }

  lemma {:induction false} FindWithout(ps: seq<Profile>, gone: set<string>, id: string)
    ensures Find(Without(ps, gone), id) == if id in gone then None else Find(ps, id)
  {
    if ps != [] {
      FindWithout(ps[1..], gone, id);
      assert ([ps[0]] + Without(ps[1..], gone))[1..] == Without(ps[1..], gone);
    }
  }

  /** `now` is `was` cut right before the first hop that was deleted. */
  ghost predicate CutBefore(gone: set<string>, now: seq<Profile>, was: seq<Profile>) {
    && |now| <= |was|
    && (forall i | 0 <= i < |now| :: now[i].meta.id == was[i].meta.id && was[i].meta.id !in gone)
    && (|now| < |was| ==> was[|now|].meta.id in gone)
  }

  lemma CutOnlyAtDeleted(ps: seq<Profile>, gone: set<string>, p: Profile, hops: seq<Profile>)
    requires Find(ps, p.meta.id) == Some(p) && Walk(ps, p.meta.via, hops)
    ensures FixedOne(p, Ids(Without(ps, gone))).meta.via.None? && hops != [] ==> hops[0].meta.id in gone
    ensures FixedOne(p, Ids(Without(ps, gone))).meta.via.Some? ==> p.meta.via.value in Ids(Without(ps, gone))
  {
    WalkAvoidsItself(ps, p, hops);
    if hops != [] {
      assert hops[0] in hops;
      assert hops[0] in ps;
    }
  }

  lemma LeftHop(ps: seq<Profile>, gone: set<string>, id: string)
    requires id in Ids(Without(ps, gone))
    ensures var qs := Without(ps, gone); var r := Find(ps, id);
            r.Some? && Find(Fixed(qs), id) == Some(FixedOne(r.value, Ids(qs)))
  {
    var qs := Without(ps, gone);
    FindWithout(ps, gone, id);
    FindFixed(qs, Ids(qs), id);
  }

  /** What is left of a walk after the deletion and the fix-up. */
  lemma {:induction false} WalkShortened(ps: seq<Profile>, gone: set<string>, p: Profile, hops: seq<Profile>)
    returns (left: seq<Profile>)
    requires Find(ps, p.meta.id) == Some(p) && Walk(ps, p.meta.via, hops)
    ensures var qs := Without(ps, gone); Walk(Fixed(qs), FixedOne(p, Ids(qs)).meta.via, left)
    ensures CutBefore(gone, left, hops)
    decreases |hops|
  {
    var qs := Without(ps, gone);
    left := [];
    CutOnlyAtDeleted(ps, gone, p, hops);
    if FixedOne(p, Ids(qs)).meta.via.Some? {
      WalkSuffix(ps, p.meta.via, hops, 0);
      LeftHop(ps, gone, p.meta.via.value);
      FindWithout(ps, gone, hops[0].meta.id);
      var rest := WalkShortened(ps, gone, hops[0], hops[1..]);
      left := [FixedOne(hops[0], Ids(qs))] + rest;
      assert left[1..] == rest;
      CutBeforeExtends(gone, left, hops);
    }
  }

  lemma CutBeforeExtends(gone: set<string>, now: seq<Profile>, was: seq<Profile>)
    requires now != [] && was != [] && now[0].meta.id == was[0].meta.id && was[0].meta.id !in gone
    requires CutBefore(gone, now[1..], was[1..])
    ensures CutBefore(gone, now, was)
  {
    forall i | 0 <= i < |now| ensures now[i].meta.id == was[i].meta.id && was[i].meta.id !in gone {
      if i > 0 {
        assert now[1..][i - 1] == now[i] && was[1..][i - 1] == was[i];
      }
    }
  }

  ghost predicate BothAcceptedAndCut(gone: set<string>, now: Hops, was: Hops) {
    now.Ok? && was.Ok? && CutBefore(gone, now.value, was.value)
  }

  lemma ChainAfterDeleting(ps: seq<Profile>, gone: set<string>, k: nat)
    requires UniqueIds(ps) && k < |ps| && ChainValid(ps[k], ps)
    ensures var qs := Without(ps, gone);
            BothAcceptedAndCut(gone, ChainOf(FixedOne(ps[k], Ids(qs)), Fixed(qs)), ChainOf(ps[k], ps))
  {
    var q, qs := ps[k], Without(ps, gone);
    var was := ChainOf(q, ps).value;
    ChainIsTheWalk(q, ps, was);
    FindUnique(ps, k);
    var left := WalkShortened(ps, gone, q, was);
    forall h <- left ensures h.meta.id != q.meta.id {
      var j :| 0 <= j < |left| && left[j] == h;
      assert was[j] in was;
    }
    ChainIsTheWalk(FixedOne(q, Ids(qs)), Fixed(qs), left);
  }

  /** Deleting any set of profiles from a state whose chains are all accepted and
    * then fixing it up leaves every chain accepted, each cut where the first
    * deleted hop was. */
  lemma DeletingKeepsAllValid(ps: seq<Profile>, gone: set<string>)
    requires UniqueIds(ps) && AllValid(ps)
    ensures AllValid(Fixed(Without(ps, gone)))
    ensures var qs := Without(ps, gone);
            forall i | 0 <= i < |qs| ::
              BothAcceptedAndCut(gone, ChainOf(Fixed(qs)[i], Fixed(qs)), ChainOf(qs[i], ps))
  {
    var qs := Without(ps, gone);
    forall i | 0 <= i < |qs|
      ensures BothAcceptedAndCut(gone, ChainOf(Fixed(qs)[i], Fixed(qs)), ChainOf(qs[i], ps))
    {
      assert qs[i] in qs;
      var k :| 0 <= k < |ps| && ps[k] == qs[i];
      ChainAfterDeleting(ps, gone, k);
    }
  }
}
