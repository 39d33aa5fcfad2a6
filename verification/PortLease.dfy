/** Leases of consecutive local ports for concurrent test cores: a first-fit
  * allocator over one shared set. Each method runs under the set's lock, so an
  * interleaving of tests is a sequence of calls. */
module PortLease {

  type u16 = x: int | 0 <= x < 0x1_0000

  const LAST_BASE: u16 := 65000
  const TEST_PORT_BASE: u16 := 19000
  const TEST_PORT_SPAN: u16 := 3

  /** The widest span whose ports all fit above the last base. */
  const MAX_SPAN: u16 := 536

  datatype Lease = Lease(base: u16, span: u16)

  function Block(base: int, span: nat): (ports: set<int>)
    ensures forall p :: p in ports <==> base <= p < base + span
  {
    if span == 0 then {} else Block(base, span - 1) + {base + span - 1}
  }

  function Ports(l: Lease): set<int> {
    Block(l.base, l.span)
  }

  predicate IsFree(base: int, span: nat, taken: set<int>) {
    Block(base, span) !! taken
  }

  /** `base` is the least admissible one. */
  ghost predicate IsFirstFit(base: int, start: int, span: nat, taken: set<int>) {
    && start <= base <= LAST_BASE && IsFree(base, span, taken)
    && forall p | start <= p < base :: !IsFree(p, span, taken)
  }

  ghost predicate NoneFree(start: int, span: nat, taken: set<int>) {
    forall p | start <= p <= LAST_BASE :: !IsFree(p, span, taken)
  }

  // ---------- What the live leases cover ----------

  ghost function Covered(live: seq<Lease>): set<int> {
    if live == [] then {} else Covered(live[..|live| - 1]) + Ports(live[|live| - 1])
  }

  ghost predicate Disjoint(live: seq<Lease>) {
    forall i, j | 0 <= i < j < |live| :: Ports(live[i]) !! Ports(live[j])
  }

  ghost predicate InRange(live: seq<Lease>) {
    forall l <- live :: l.base + l.span <= 0x1_0000
  }

  ghost function Dropped(live: seq<Lease>, i: nat): seq<Lease>
    requires i < |live|
  {
    live[..i] + live[i + 1..]
  }

  lemma {:induction false} CoveredAre(live: seq<Lease>, p: int)
    ensures p in Covered(live) <==> exists l <- live :: p in Ports(l)
  {
    if live != [] {
      var front, last := live[..|live| - 1], live[|live| - 1];
      CoveredAre(front, p);
      assert live == front + [last];
    }
  }

  lemma CoversEach(live: seq<Lease>, l: Lease)
    requires l in live
    ensures Ports(l) <= Covered(live)
  {
    forall p | p in Ports(l) ensures p in Covered(live) {
      CoveredAre(live, p);
    }
  }

  lemma HasDropped(live: seq<Lease>, i: nat, l: Lease)
    requires i < |live|
    ensures l in live ==> l == live[i] || l in Dropped(live, i)
    ensures l in Dropped(live, i) ==> exists j | 0 <= j < |live| && j != i :: live[j] == l
  {
    var rest := Dropped(live, i);
    if j :| 0 <= j < |live| && live[j] == l && j != i {
      assert rest[if j < i then j else j - 1] == l;
    }
    if j :| 0 <= j < |rest| && rest[j] == l {
      assert live[if j < i then j else j + 1] == l;
    }
  }

  lemma CoveredDropped(live: seq<Lease>, i: nat)
    requires i < |live| && Disjoint(live)
    ensures Covered(Dropped(live, i)) == Covered(live) - Ports(live[i])
  {
    forall p ensures p in Covered(Dropped(live, i)) <==> p in Covered(live) && p !in Ports(live[i]) {
      CoveredAre(Dropped(live, i), p);
      CoveredAre(live, p);
      if l :| l in live && p in Ports(l) {
        HasDropped(live, i, l);
      }
      if l :| l in Dropped(live, i) && p in Ports(l) {
        HasDropped(live, i, l);
        var j :| 0 <= j < |live| && j != i && live[j] == l;
        assert Ports(live[j]) !! Ports(live[i]);
      }
    }
  }

  lemma DisjointDropped(live: seq<Lease>, i: nat)
    requires i < |live| && Disjoint(live)
    ensures Disjoint(Dropped(live, i))
  {}

  lemma TidyAppend(live: seq<Lease>, l: Lease)
    requires Disjoint(live) && Ports(l) !! Covered(live)
    ensures Disjoint(live + [l]) && Covered(live + [l]) == Covered(live) + Ports(l)
    ensures forall other <- live :: Ports(l) !! Ports(other)
  {
    assert (live + [l])[..|live|] == live;
    forall other | other in live ensures Ports(l) !! Ports(other) {
      CoversEach(live, other);
    }
  }

  // ---------- The allocator ----------

  class PortLeases {
    var leased: set<int>
    /** The leases not dropped yet. */
    ghost var live: seq<Lease>
    /** No lease fell back to its start for want of a free block. */
    ghost var clean: bool

    /** As long as no lease fell back, the set is exactly the live leases, which do
      * not overlap. */
    ghost predicate Valid()
      reads this
    {
      InRange(live) && (clean ==> leased == Covered(live) && Disjoint(live))
    }

    constructor ()
      ensures Valid() && clean && live == []
    {
      leased, live, clean := {}, [], true;
    }

    /** Whether the `span` ports from `port` are all unused; no sum leaves 16 bits. */
    method AllFree(port: u16, span: u16, used: set<int>) returns (free: bool)
      requires port + span <= 0x1_0000
      ensures free <==> IsFree(port, span, used + leased)
    {
      for i := 0 to span
        invariant forall p | port <= p < port + i :: p !in used + leased
      {
        var at: u16 := port + i;
        if at in used || at in leased {
          assert at in Block(port, span);
          return false;
        }
      }
      return true;
    }

    method Reserve(used: set<int>, start: u16, span: u16) returns (base: u16)
      requires span <= MAX_SPAN && start + span <= 0x1_0000
      modifies this`leased
      ensures leased == old(leased) + Block(base, span)
      ensures if NoneFree(start, span, used + old(leased)) then base == start
              else IsFirstFit(base, start, span, used + old(leased))
    {
      var port: u16 := start;
      while port <= LAST_BASE
        invariant start <= port && (start <= LAST_BASE ==> port <= LAST_BASE + 1)
        invariant leased == old(leased) && forall p | start <= p < port :: !IsFree(p, span, used + leased)
        decreases LAST_BASE + 1 - port
      {
        var free := AllFree(port, span, used);
        if free {
          break;
        }
        port := port + 1;
      }
      base := if port <= LAST_BASE then port else start;
      ghost var was := leased;
      for i := 0 to span
        invariant leased == was + Block(base, i)
      {
        var at: u16 := base + i;
        leased := leased + {at};
      }
    }

    /** Take the first free block. While no lease fell back it is clear of the used
      * ports and of every live lease. With no other port in use, leases of one start
      * and span never fall back while fewer are live than the pool has tiles. */
    method LeasePorts(used: set<int>, start: u16, span: u16) returns (lease: Lease)
      requires Valid() && span <= MAX_SPAN && start + span <= 0x1_0000
      modifies this
      ensures Valid() && live == old(live) + [lease] && lease.span == span
      ensures clean <==> old(clean) && !NoneFree(start, span, used + old(leased))
      ensures clean ==> IsFirstFit(lease.base, start, span, used + Covered(old(live)))
      ensures clean ==> Ports(lease) !! used && forall l <- old(live) :: Ports(lease) !! Ports(l)
      ensures old(clean) && used == {} && 0 < span && start <= LAST_BASE
              && Tiled(old(live), start, span) && |old(live)| < Capacity(start, span)
              ==> clean && Tiled(live, start, span)
    {
      var base := Reserve(used, start, span);
      lease := Lease(base, span);
      ghost var taken := used + old(leased);
      if clean && used == {} && 0 < span && start <= LAST_BASE && Tiled(live, start, span)
              && |live| < Capacity(start, span) {
        assert taken == Covered(live);
        RoomBelowCapacity(live, start, span);
        FirstFitIsSlot(live, start, span, base);
      }
      clean := clean && !NoneFree(start, span, taken);
      if clean {
        TidyAppend(live, lease);
      }
      live := live + [lease];
    }

    /** Give the ports of a lease back, one by one. */
    method Drop(ghost i: nat, lease: Lease)
      requires Valid() && i < |live| && live[i] == lease
      modifies this
      ensures Valid() && live == Dropped(old(live), i) && clean == old(clean)
      ensures leased == old(leased) - Ports(lease)
      ensures forall start, span: nat | Tiled(old(live), start, span) :: Tiled(live, start, span)
    {
      ghost var was := leased;
      for k := 0 to lease.span
        invariant leased == was - Block(lease.base, k) && live == old(live) && clean == old(clean)
      {
        var at: u16 := lease.base + k;
        leased := leased - {at};
      }
      if clean {
        CoveredDropped(live, i);
        DisjointDropped(live, i);
      }
      live := Dropped(live, i);
    }
  }

  // ---------- First fit never fragments ----------

  function Slot(start: int, span: nat, k: nat): int {
    start + span * k
  }

  ghost predicate IsSlot(base: int, start: int, span: nat) {
    exists k: nat :: base == Slot(start, span, k)
  }

  /** Every live lease is one of the blocks that tile the ports from `start`. */
  ghost predicate Tiled(live: seq<Lease>, start: int, span: nat) {
    forall l <- live :: l.span == span && IsSlot(l.base, start, span)
  }

  ghost predicate IsLive(live: seq<Lease>, base: int) {
    exists l <- live :: l.base == base
  }

  lemma SlotsApart(start: int, span: nat, j: nat, k: nat)
    requires span > 0 && j < k
    ensures Slot(start, span, j) + span <= Slot(start, span, k)
  {
    assert span * (j + 1) == span * j + span;
    MulGrows(span, j + 1, k);
  }

  lemma {:induction false} MulGrows(span: nat, j: nat, k: nat)
    requires j <= k
    ensures span * j <= span * k
    decreases k - j
  {
    if j < k {
      MulGrows(span, j + 1, k);
      assert span * (j + 1) == span * j + span;
    }
  }

  /** A slot that is not live is free. */
  lemma SlotIsFree(live: seq<Lease>, start: int, span: nat, k: nat)
    requires span > 0 && Tiled(live, start, span) && !IsLive(live, Slot(start, span, k))
    ensures IsFree(Slot(start, span, k), span, Covered(live))
  {
    forall p | p in Block(Slot(start, span, k), span) ensures p !in Covered(live) {
      CoveredAre(live, p);
      if l :| l in live && p in Ports(l) {
        var j: nat :| l.base == Slot(start, span, j);
        if j < k {
          SlotsApart(start, span, j, k);
        } else if j > k {
          SlotsApart(start, span, k, j);
        }
        assert false;
      }
    }
  }

  lemma LiveIsNotFree(live: seq<Lease>, start: int, span: nat, base: int)
    requires span > 0 && Tiled(live, start, span) && IsLive(live, base)
    ensures base in Covered(live) && !IsFree(base, span, Covered(live))
    ensures Block(base, span) <= Covered(live)
  {
    var l :| l in live && l.base == base;
    CoversEach(live, l);
    assert base in Block(base, span);
  }

  /** First fit among tiled leases picks a tile. */
  lemma FirstFitIsSlot(live: seq<Lease>, start: int, span: nat, base: int)
    requires span > 0 && Tiled(live, start, span) && IsFirstFit(base, start, span, Covered(live))
    ensures IsSlot(base, start, span)
  {
    var k := (base - start) / span;
    var slot := Slot(start, span, k);
    assert slot <= base < slot + span by {
      assert base - start == span * k + (base - start) % span;
    }
    assert base in Block(slot, span) && base in Block(base, span) && base !in Covered(live);
    if IsLive(live, slot) {
      LiveIsNotFree(live, start, span, slot);
    } else {
      SlotIsFree(live, start, span, k);
    }
  }

  /** With no other port in use, no block is free exactly when every tile up to the
    * last base is live. */
  lemma FallsBackExactly(live: seq<Lease>, start: int, span: nat)
    requires span > 0 && Tiled(live, start, span)
    ensures NoneFree(start, span, Covered(live))
            <==> forall k: nat | Slot(start, span, k) <= LAST_BASE :: IsLive(live, Slot(start, span, k))
  {
    if NoneFree(start, span, Covered(live)) {
      forall k: nat | Slot(start, span, k) <= LAST_BASE ensures IsLive(live, Slot(start, span, k)) {
        if !IsLive(live, Slot(start, span, k)) {
          SlotIsFree(live, start, span, k);
          MulGrows(span, 0, k);
        }
      }
    } else {
      var free :| start <= free <= LAST_BASE && IsFree(free, span, Covered(live));
      var base := FirstFrom(start, span, Covered(live), start, free);
      FirstFitIsSlot(live, start, span, base);
      var k: nat :| base == Slot(start, span, k);
      if IsLive(live, base) {
        LiveIsNotFree(live, start, span, base);
      }
    }
  }

  lemma {:induction false} FirstFrom(start: int, span: nat, taken: set<int>, from: int, free: int) returns (base: int)
    requires start <= from <= free <= LAST_BASE && IsFree(free, span, taken)
    requires forall p | start <= p < from :: !IsFree(p, span, taken)
    ensures IsFirstFit(base, start, span, taken)
    decreases free - from
  {
    if IsFree(from, span, taken) {
      base := from;
    } else {
      base := FirstFrom(start, span, taken, from + 1, free);
    }
  }

  /** The tiles of the pool. */
  function Capacity(start: int, span: nat): nat
    requires span > 0 && start <= LAST_BASE
  {
    (LAST_BASE - start) / span + 1
  }

  ghost function FirstSlots(start: int, span: nat, n: nat): set<int> {
    if n == 0 then {} else FirstSlots(start, span, n - 1) + {Slot(start, span, n - 1)}
  }

  ghost predicate IsSlotBelow(base: int, start: int, span: nat, n: nat) {
    exists k: nat :: k < n && base == Slot(start, span, k)
  }

  lemma {:induction false} FirstSlotsAre(start: int, span: nat, n: nat)
    requires span > 0
    ensures |FirstSlots(start, span, n)| == n
    ensures forall b | b in FirstSlots(start, span, n) :: IsSlotBelow(b, start, span, n)
  {
    if n > 0 {
      FirstSlotsAre(start, span, n - 1);
      if Slot(start, span, n - 1) in FirstSlots(start, span, n - 1) {
        var k: nat :| k < n - 1 && Slot(start, span, n - 1) == Slot(start, span, k);
        SlotsApart(start, span, k, n - 1);
      }
    }
  }

  ghost function Bases(live: seq<Lease>): set<int> {
    if live == [] then {} else Bases(live[..|live| - 1]) + {live[|live| - 1].base}
  }

  lemma {:induction false} BasesAre(live: seq<Lease>)
    ensures |Bases(live)| <= |live|
    ensures forall b | IsLive(live, b) :: b in Bases(live)
  {
    if live != [] {
      var front := live[..|live| - 1];
      BasesAre(front);
      forall b | IsLive(live, b) ensures b in Bases(live) {
        var l :| l in live && l.base == b;
        assert l in front || l == live[|live| - 1];
      }
    }
  }

  lemma {:induction false} SubsetIsNoLarger<T>(a: set<T>, b: set<T>)
    requires a <= b
    ensures |a| <= |b|
  {
    if |a| > 0 {
      var x :| x in a;
      SubsetIsNoLarger(a - {x}, b - {x});
    }
  }

  /** A pool with fewer live leases than tiles has a free one. */
  lemma RoomBelowCapacity(live: seq<Lease>, start: int, span: nat)
    requires span > 0 && start <= LAST_BASE && Tiled(live, start, span) && |live| < Capacity(start, span)
    ensures !NoneFree(start, span, Covered(live))
  {
    if NoneFree(start, span, Covered(live)) {
      FallsBackExactly(live, start, span);
      var n := Capacity(start, span);
      FirstSlotsAre(start, span, n);
      BasesAre(live);
      forall b | b in FirstSlots(start, span, n) ensures b in Bases(live) {
        assert IsSlotBelow(b, start, span, n);
        var k: nat :| k < n && b == Slot(start, span, k);
        SlotIsInPool(start, span, k);
        assert IsLive(live, b);
      }
      SubsetIsNoLarger(FirstSlots(start, span, n), Bases(live));
      assert false;
    }
  }

  lemma SlotIsInPool(start: int, span: nat, k: nat)
    requires span > 0 && start <= LAST_BASE && k < Capacity(start, span)
    ensures Slot(start, span, k) <= LAST_BASE
  {
    MulGrows(span, k, (LAST_BASE - start) / span);
    assert LAST_BASE - start == span * ((LAST_BASE - start) / span) + (LAST_BASE - start) % span;
  }

  /** The tests lease three ports at a time from 19000 on, in blocks that start no later than
    * port 65000; they have room for 15334 at a time. */
  lemma TestPoolCapacity()
    ensures Capacity(TEST_PORT_BASE, TEST_PORT_SPAN) == 15334
    ensures Slot(TEST_PORT_BASE, TEST_PORT_SPAN, 1) == 19003
    ensures NoneFree(65000, 1, {65000}) && !NoneFree(65000, 1, {65001}) && forall taken :: NoneFree(65001, 1, taken)
  {
    assert 65000 in Block(65000, 1) && Block(65000, 1) == {65000};
    assert IsFree(65000, 1, {65001});
  }
}
