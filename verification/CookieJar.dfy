/** The cookie jar that subscription fetches share: two maps that must agree, and
  * a cap that pushes out the cookies set first. */
module CookieJar {
  import opened Wrappers

  const MAX_COOKIES: nat := 300
  const MAX_COOKIE_BYTES: nat := 4096

  datatype Key = Key(domain: string, path: string, name: string)

  datatype Cookie = Cookie(value: string, expires: Option<int>) {
    predicate IsExpired(now: int) {
      expires.Some? && expires.value <= now
    }
  }

  /** What the cookie store answers to an insertion. */
  datatype StoreAction = Inserted | UpdatedExisting | ExpiredExisting | Refused

  /** A `Set-Cookie` header: its text, the identity the cookie gets for the fetched
    * URL (`None` where it gets none), and what the store will answer. */
  datatype Header =
    | Unreadable
    | Parsed(name: string, value: string, key: Option<Key>, cookie: Cookie, action: StoreAction)

  // ---------- The queue the jar stands for ----------

  datatype Entry = Entry(key: Key, cookie: Cookie)

  function Keys(queue: seq<Entry>): set<Key> {
    set i | 0 <= i < |queue| :: queue[i].key
  }

  function Replaced(queue: seq<Entry>, e: Entry): seq<Entry> {
    seq(|queue|, i requires 0 <= i < |queue| => if queue[i].key == e.key then e else queue[i])
  }

  /** Replace the cookie where it stands, or join the end. */
  function Put(queue: seq<Entry>, e: Entry): seq<Entry> {
    if e.key in Keys(queue) then Replaced(queue, e) else queue + [e]
  }

  ghost function Without(queue: seq<Entry>, keys: set<Key>): seq<Entry> {
    if queue == [] then []
    else
      var rest := Without(queue[..|queue| - 1], keys);
      var last := queue[|queue| - 1];
      if last.key in keys then rest else rest + [last]
  }

  ghost function Capped(queue: seq<Entry>): seq<Entry> {
    if |queue| > MAX_COOKIES then queue[|queue| - MAX_COOKIES..] else queue
  }

  /** The header sets a cookie the jar takes. */
  predicate Stores(h: Header) {
    h.Parsed? && |h.name| + |h.value| <= MAX_COOKIE_BYTES && h.key.Some?
            && (h.action.Inserted? || h.action.UpdatedExisting?)
  }

  predicate Expires(h: Header) {
    h.Parsed? && |h.name| + |h.value| <= MAX_COOKIE_BYTES && h.key.Some? && h.action.ExpiredExisting?
  }

  ghost function AfterHeader(queue: seq<Entry>, h: Header): seq<Entry> {
    if Stores(h) then Capped(Put(queue, Entry(h.key.value, h.cookie)))
    else if Expires(h) then Without(queue, {h.key.value})
    else queue
  }

  /** The queue after the first `n` headers. */
  ghost function AfterHeaders(queue: seq<Entry>, headers: seq<Header>, n: nat): seq<Entry>
    requires n <= |headers|
  {
    if n == 0 then queue else AfterHeader(AfterHeaders(queue, headers, n - 1), headers[n - 1])
  }

  ghost function ExpiredKeys(queue: seq<Entry>, now: int): set<Key> {
    set i | 0 <= i < |queue| && queue[i].cookie.IsExpired(now) :: queue[i].key
  }

  // ---------- The two maps hold the queue ----------

  /** Each entry is stored and dated, the dates in the queue's order. */
  ghost predicate Dated(queue: seq<Entry>, store: map<Key, Cookie>, created: map<Key, nat>) {
    queue == [] ||
    var front, last := queue[..|queue| - 1], queue[|queue| - 1];
    && Dated(front, store, created)
    && last.key in store && store[last.key] == last.cookie && last.key in created
    && Keys(front) <= created.Keys && forall k | k in Keys(front) :: created[k] < created[last.key]
  }

  /** The two maps have the queue's keys, its cookies and dates before `next`. */
  ghost predicate Holds(queue: seq<Entry>, store: map<Key, Cookie>, created: map<Key, nat>, next: nat) {
    && Dated(queue, store, created)
    && store.Keys == created.Keys == Keys(queue)
    && forall k | k in created :: created[k] < next
  }

  lemma KeysOfFront(queue: seq<Entry>)
    requires queue != []
    ensures Keys(queue) == Keys(queue[..|queue| - 1]) + {queue[|queue| - 1].key}
  {
    var front := queue[..|queue| - 1];
    forall k | k in Keys(queue) ensures k in Keys(front) + {queue[|queue| - 1].key} {
      var i :| 0 <= i < |queue| && queue[i].key == k;
      assert i < |front| ==> front[i].key == k;
    }
    forall k | k in Keys(front) ensures k in Keys(queue) {
      var i :| 0 <= i < |front| && front[i].key == k;
      assert queue[i].key == k;
    }
  }

  lemma KeysEmpty(queue: seq<Entry>)
    ensures Keys(queue) == {} <==> queue == []
  {
    if queue != [] {
      assert queue[0].key in Keys(queue);
    }
  }

  lemma KeysOfAppend(queue: seq<Entry>, e: Entry)
    ensures Keys(queue + [e]) == Keys(queue) + {e.key}
  {
    KeysOfFront(queue + [e]);
    assert (queue + [e])[..|queue|] == queue;
  }

  lemma LastIsNewest(queue: seq<Entry>, store: map<Key, Cookie>, created: map<Key, nat>, k: Key)
    requires Dated(queue, store, created) && k in Keys(queue)
    ensures k in created && created[k] <= created[queue[|queue| - 1].key]
    ensures created[k] == created[queue[|queue| - 1].key] ==> k == queue[|queue| - 1].key
    ensures queue[|queue| - 1].key !in Keys(queue[..|queue| - 1])
  {
    KeysOfFront(queue);
  }

  lemma NewestAgree(a: seq<Entry>, b: seq<Entry>, store: map<Key, Cookie>, created: map<Key, nat>)
    requires Dated(a, store, created) && Dated(b, store, created) && Keys(a) == Keys(b) && a != [] && b != []
    ensures a[|a| - 1] == b[|b| - 1] && Keys(a[..|a| - 1]) == Keys(b[..|b| - 1])
  {
    var last, end := a[|a| - 1], b[|b| - 1];
    assert last.key in Keys(b) && end.key in Keys(a);
    LastIsNewest(b, store, created, last.key);
    LastIsNewest(a, store, created, end.key);
    KeysOfFront(a);
    KeysOfFront(b);
  }

  /** The queue is read off the maps: no other queue fits them. */
  lemma {:induction false} MapsHoldOneQueue(a: seq<Entry>, b: seq<Entry>, store: map<Key, Cookie>,
                                            created: map<Key, nat>)
    requires Dated(a, store, created) && Dated(b, store, created) && Keys(a) == Keys(b)
    ensures a == b
    decreases |a|
  {
    if a == [] || b == [] {
      KeysEmpty(a);
      KeysEmpty(b);
    } else {
      NewestAgree(a, b, store, created);
      MapsHoldOneQueue(a[..|a| - 1], b[..|b| - 1], store, created);
      assert a == a[..|a| - 1] + [a[|a| - 1]] && b == b[..|b| - 1] + [b[|b| - 1]];
    }
  }

  lemma {:induction false} AsManyKeys(queue: seq<Entry>, store: map<Key, Cookie>, created: map<Key, nat>)
    requires Dated(queue, store, created)
    ensures |Keys(queue)| == |queue|
    decreases |queue|
  {
    if queue != [] {
      AsManyKeys(queue[..|queue| - 1], store, created);
      KeysOfFront(queue);
      LastIsNewest(queue, store, created, queue[|queue| - 1].key);
    }
  }

  lemma {:induction false} KeysWithout(queue: seq<Entry>, keys: set<Key>)
    ensures Keys(Without(queue, keys)) == Keys(queue) - keys
  {
    if queue != [] {
      var front, last := queue[..|queue| - 1], queue[|queue| - 1];
      KeysWithout(front, keys);
      KeysOfFront(queue);
      KeysOfAppend(Without(front, keys), last);
    }
  }

  lemma {:induction false} DatedWithout(queue: seq<Entry>, keys: set<Key>, store: map<Key, Cookie>,
          created: map<Key, nat>)
    requires Dated(queue, store, created)
    ensures Dated(Without(queue, keys), store - keys, created - keys) && |Without(queue, keys)| <= |queue|
  {
    if queue != [] {
      var front, last := queue[..|queue| - 1], queue[|queue| - 1];
      var rest := Without(front, keys);
      DatedWithout(front, keys, store, created);
      KeysWithout(front, keys);
      assert (rest + [last])[..|rest|] == rest;
    }
  }

  lemma HoldsWithout(queue: seq<Entry>, store: map<Key, Cookie>, created: map<Key, nat>, next: nat, k: Key)
    requires Holds(queue, store, created, next)
    ensures Holds(Without(queue, {k}), store - {k}, created - {k}, next) && |Without(queue, {k})| <= |queue|
  {
    DatedWithout(queue, {k}, store, created);
    KeysWithout(queue, {k});
  }

  lemma {:induction false} WithoutTwice(queue: seq<Entry>, a: set<Key>, b: set<Key>)
    ensures Without(Without(queue, a), b) == Without(queue, a + b)
  {
    if queue != [] {
      var front, last := queue[..|queue| - 1], queue[|queue| - 1];
      WithoutTwice(front, a, b);
      var rest := Without(front, a);
      assert (rest + [last])[..|rest|] == rest;
    }
  }

  lemma {:induction false} WithoutNone(queue: seq<Entry>, keys: set<Key>)
    requires Keys(queue) !! keys
    ensures Without(queue, keys) == queue
  {
    if queue != [] {
      KeysOfFront(queue);
      WithoutNone(queue[..|queue| - 1], keys);
    }
  }

  /** Dropping the cookie dated first drops the head. */
  lemma {:induction false} WithoutHead(queue: seq<Entry>, store: map<Key, Cookie>, created: map<Key, nat>)
    requires Dated(queue, store, created) && queue != []
    ensures Without(queue, {queue[0].key}) == queue[1..]
    decreases |queue|
  {
    var front := queue[..|queue| - 1];
    if |queue| > 1 {
      WithoutHead(front, store, created);
      assert queue[1..] == front[1..] + [queue[|queue| - 1]];
    } else {
      assert Without(front, {queue[0].key}) == [];
    }
  }

  lemma {:induction false} HeadIsOldest(queue: seq<Entry>, store: map<Key, Cookie>, created: map<Key, nat>)
    requires Dated(queue, store, created) && queue != []
    ensures Keys(queue) <= created.Keys && queue[0].key in Keys(queue)
    ensures forall k | k in Keys(queue) && k != queue[0].key :: created[queue[0].key] < created[k]
    decreases |queue|
  {
    KeysOfFront(queue);
    if |queue| > 1 {
      HeadIsOldest(queue[..|queue| - 1], store, created);
    }
  }

  lemma KeysOfReplaced(queue: seq<Entry>, e: Entry)
    ensures Keys(Replaced(queue, e)) == Keys(queue)
  {
    var put := Replaced(queue, e);
    assert forall i | 0 <= i < |queue| :: put[i].key == queue[i].key;
    forall k | k in Keys(queue) ensures k in Keys(put) {
      var i :| 0 <= i < |queue| && queue[i].key == k;
      assert put[i].key == k;
    }
    forall k | k in Keys(put) ensures k in Keys(queue) {
      var i :| 0 <= i < |put| && put[i].key == k;
      assert queue[i].key == k;
    }
  }

  lemma {:induction false} DatedReplaced(queue: seq<Entry>, store: map<Key, Cookie>, created: map<Key, nat>, e: Entry)
    requires Dated(queue, store, created)
    ensures Dated(Replaced(queue, e), store[e.key := e.cookie], created)
    decreases |queue|
  {
    if queue != [] {
      var front := queue[..|queue| - 1];
      DatedReplaced(front, store, created, e);
      KeysOfReplaced(front, e);
      assert Replaced(queue, e)[..|queue| - 1] == Replaced(front, e);
    }
  }

  lemma {:induction false} DatedBeside(queue: seq<Entry>, store: map<Key, Cookie>, created: map<Key, nat>,
          e: Entry, age: nat)
    requires Dated(queue, store, created) && e.key !in Keys(queue)
    ensures Dated(queue, store[e.key := e.cookie], created[e.key := age])
    decreases |queue|
  {
    if queue != [] {
      KeysOfFront(queue);
      DatedBeside(queue[..|queue| - 1], store, created, e, age);
    }
  }

  /** A replaced cookie keeps its date, a new one gets `next`. */
  function Redated(created: map<Key, nat>, key: Key, next: nat): map<Key, nat> {
    if key in created then created else created[key := next]
  }

  lemma HoldsPut(queue: seq<Entry>, store: map<Key, Cookie>, created: map<Key, nat>, next: nat, e: Entry)
    requires Holds(queue, store, created, next)
    ensures Holds(Put(queue, e), store[e.key := e.cookie], Redated(created, e.key, next), next + 1)
  {
    if e.key in Keys(queue) {
      DatedReplaced(queue, store, created, e);
      KeysOfReplaced(queue, e);
    } else {
      DatedBeside(queue, store, created, e, next);
      KeysOfAppend(queue, e);
      assert (queue + [e])[..|queue|] == queue;
    }
  }

  lemma AsManyAges(queue: seq<Entry>, store: map<Key, Cookie>, created: map<Key, nat>, next: nat)
    requires Holds(queue, store, created, next)
    ensures |created| == |queue|
  {
    AsManyKeys(queue, store, created);
    assert |created| == |created.Keys|;
  }

  lemma CappedTail(queue: seq<Entry>)
    requires |queue| > MAX_COOKIES
    ensures Capped(queue[1..]) == Capped(queue)
  {
    assert queue[1..][|queue| - 1 - MAX_COOKIES..] == queue[|queue| - MAX_COOKIES..];
  }

  // ---------- The jar ----------

  class Jar {
    var store: map<Key, Cookie>
    var created: map<Key, nat>
    var next: nat
    ghost var queue: seq<Entry>

    ghost predicate Valid()
      reads this
    {
      Holds(queue, store, created, next) && |queue| <= MAX_COOKIES
    }

    constructor ()
      ensures Valid() && queue == []
    {
      store, created, next, queue := map[], map[], 0, [];
    }

    method Remove(key: Key)
      requires Holds(queue, store, created, next)
      modifies this
      ensures Holds(queue, store, created, next)
      ensures queue == Without(old(queue), {key}) && |queue| <= |old(queue)| && store == old(store) - {key}
              && next == old(next)
    {
      HoldsWithout(queue, store, created, next, key);
      store := store - {key};
      created := created - {key};
      queue := Without(queue, {key});
    }

    /** A replaced cookie keeps its age, a new one is the youngest. */
    method Keep(key: Key, cookie: Cookie)
      requires Holds(queue, store, created, next)
      modifies this
      ensures Holds(queue, store, created, next) && queue == Put(old(queue), Entry(key, cookie))
    {
      HoldsPut(queue, store, created, next, Entry(key, cookie));
      store := store[key := cookie];
      created := Redated(created, key, next);
      next := next + 1;
      queue := Put(queue, Entry(key, cookie));
    }

    method Insert(raw: Header)
      requires Valid() && raw.Parsed?
      modifies this
      ensures Valid() && queue == AfterHeader(old(queue), raw)
    {
      if |raw.name| + |raw.value| > MAX_COOKIE_BYTES {
        return;
      }
      if raw.key.None? {
        return;
      }
      var key := raw.key.value;
      match raw.action {
        case Inserted | UpdatedExisting =>
          Keep(key, raw.cookie);
        case ExpiredExisting =>
          Remove(key);
        case Refused =>
      }
      Evict();
    }

    /** Drop the oldest cookies until no more than the cap are left. */
    method Evict()
      requires Holds(queue, store, created, next)
      modifies this
      ensures Valid() && queue == Capped(old(queue))
    {
      ghost var was := queue;
      AsManyAges(queue, store, created, next);
      while |created| > MAX_COOKIES
        invariant Holds(queue, store, created, next) && |created| == |queue|
        invariant Capped(queue) == Capped(was)
        decreases |queue|
      {
        CappedTail(queue);
        RemoveOldest();
        AsManyAges(queue, store, created, next);
      }
    }

    method RemoveOldest()
      requires Holds(queue, store, created, next) && queue != []
      modifies this
      ensures Holds(queue, store, created, next) && queue == old(queue)[1..]
    {
      HeadIsOldest(queue, store, created);
      var oldest :| oldest in created && forall k | k in created :: created[oldest] <= created[k];
      WithoutHead(queue, store, created);
      Remove(oldest);
    }

    method RemoveExpired(now: int)
      requires Valid()
      modifies this
      ensures Valid() && queue == Without(old(queue), ExpiredKeys(old(queue), now))
    {
      ghost var was, all := queue, ExpiredKeys(queue, now);
      ExpiredAreStored(queue, store, created, now);
      var expired := set k | k in store && store[k].IsExpired(now);
      WithoutNone(was, {});
      assert all - expired == {};
      while expired != {}
        invariant Valid() && expired <= all && queue == Without(was, all - expired)
        decreases |expired|
      {
        var key :| key in expired;
        WithoutTwice(was, all - expired, {key});
        assert all - expired + {key} == all - (expired - {key});
        Remove(key);
        expired := expired - {key};
      }
      assert all - expired == all;
    }

    method SetCookies(headers: seq<Header>, now: int)
      requires Valid()
      modifies this
      ensures Valid()
      ensures queue == AfterHeaders(Without(old(queue), ExpiredKeys(old(queue), now)), headers, |headers|)
    {
      RemoveExpired(now);
      ghost var was := queue;
      for i := 0 to |headers|
        invariant Valid() && queue == AfterHeaders(was, headers, i)
      {
        if headers[i].Parsed? {
          Insert(headers[i]);
        }
      }
    }
  }

  lemma {:induction false} ExpiredAreStored(queue: seq<Entry>, store: map<Key, Cookie>, created: map<Key, nat>,
                                            now: int)
    requires Dated(queue, store, created)
    ensures Keys(queue) <= store.Keys
    ensures ExpiredKeys(queue, now) == set k | k in Keys(queue) && store[k].IsExpired(now)
    decreases |queue|
  {
    if queue != [] {
      var front, last := queue[..|queue| - 1], queue[|queue| - 1];
      KeysOfFront(queue);
      ExpiredAreStored(front, store, created, now);
      assert ExpiredKeys(queue, now) == ExpiredKeys(front, now)
             + if last.cookie.IsExpired(now) then {last.key} else {} by {
        forall k | k in ExpiredKeys(front, now) ensures k in ExpiredKeys(queue, now) {
          var i :| 0 <= i < |front| && front[i].cookie.IsExpired(now) && front[i].key == k;
          assert queue[i].key == k;
        }
      }
    }
  }

  // ---------- What a call does to the cookies ----------

  /** The header names a cookie the jar may touch: readable, with at most 4096 bytes of name
    * and value, for the fetched URL. */
  predicate IsTaken(h: Header) {
    h.Parsed? && |h.name| + |h.value| <= 4096 && h.key.Some?
  }

  ghost predicate IsAt(queue: seq<Entry>, key: Key, i: nat) {
    i < |queue| && queue[i].key == key
  }

  /** The queue after a header: a cookie it sets replaces the old one in its place or joins
    * the end, pushing the head out of a jar of 300; one it expires leaves. */
  lemma HeaderExactly(queue: seq<Entry>, h: Header, i: nat)
    requires Distinct(queue) && |queue| <= 300
    requires IsTaken(h) ==> IsAt(queue, h.key.value, i) || forall j: nat :: !IsAt(queue, h.key.value, j)
    ensures var after := AfterHeader(queue, h);
            if IsTaken(h) && (h.action.Inserted? || h.action.UpdatedExisting?) then
              var e := Entry(h.key.value, h.cookie);
              after == if IsAt(queue, e.key, i) then queue[i := e]
                       else if |queue| < 300 then queue + [e]
                       else queue[1..] + [e]
            else if IsTaken(h) && h.action.ExpiredExisting? && IsAt(queue, h.key.value, i) then
              after == queue[..i] + queue[i + 1..]
            else after == queue
  {
    if IsTaken(h) {
      PutExactly(queue, Entry(h.key.value, h.cookie), i);
      WithoutOne(queue, h.key.value);
      AbsentKey(queue, h.key.value, i);
    }
  }

  lemma AbsentKey(queue: seq<Entry>, key: Key, i: nat)
    requires IsAt(queue, key, i) || forall j: nat :: !IsAt(queue, key, j)
    ensures key in Keys(queue) <==> IsAt(queue, key, i)
  {
    if j :| 0 <= j < |queue| && queue[j].key == key {
      assert IsAt(queue, key, j);
    }
  }

  lemma PutExactly(queue: seq<Entry>, e: Entry, i: nat)
    requires Distinct(queue) && |queue| <= 300
    requires IsAt(queue, e.key, i) || forall j: nat :: !IsAt(queue, e.key, j)
    ensures Capped(Put(queue, e)) == if IsAt(queue, e.key, i) then queue[i := e]
                                     else if |queue| < 300 then queue + [e]
                                     else queue[1..] + [e]
  {
    AbsentKey(queue, e.key, i);
    if IsAt(queue, e.key, i) {
      assert Replaced(queue, e) == queue[i := e];
    }
  }

  lemma {:induction false} WithoutExactly(queue: seq<Entry>, keys: set<Key>, e: Entry)
    ensures e in Without(queue, keys) <==> e in queue && e.key !in keys
  {
    if queue != [] {
      var front, last := queue[..|queue| - 1], queue[|queue| - 1];
      WithoutExactly(front, keys, e);
      assert queue == front + [last];
    }
  }

  /** Exactly the cookies whose time has come leave before the headers are looked at. */
  lemma ExpiredExactly(queue: seq<Entry>, now: int, e: Entry)
    requires Distinct(queue)
    ensures e in Without(queue, ExpiredKeys(queue, now))
            <==> e in queue && !(e.cookie.expires.Some? && e.cookie.expires.value <= now)
  {
    WithoutExactly(queue, ExpiredKeys(queue, now), e);
    if i :| 0 <= i < |queue| && queue[i] == e {
      if j :| 0 <= j < |queue| && queue[j].cookie.IsExpired(now) && queue[j].key == e.key {
        assert i == j;
      }
      assert e.cookie.IsExpired(now) ==> queue[i].key in ExpiredKeys(queue, now);
    }
  }

  // ---------- First in, first out ----------

  ghost predicate Distinct(queue: seq<Entry>) {
    forall i, j | 0 <= i < j < |queue| :: queue[i].key != queue[j].key
  }

  /** The queue of a jar has every key once. */
  lemma {:induction false} DatedIsDistinct(queue: seq<Entry>, store: map<Key, Cookie>, created: map<Key, nat>)
    requires Dated(queue, store, created)
    ensures Distinct(queue)
  {
    if queue != [] {
      var front := queue[..|queue| - 1];
      DatedIsDistinct(front, store, created);
      KeysOfFront(queue);
      LastIsNewest(queue, store, created, queue[|queue| - 1].key);
      forall i | 0 <= i < |front| ensures queue[i].key in Keys(front) {
        assert front[i].key == queue[i].key;
      }
    }
  }

  /** The header sets a cookie the jar does not hold. */
  ghost predicate Joins(queue: seq<Entry>, h: Header) {
    Stores(h) && h.key.value !in Keys(queue)
  }

  /** `other` stands behind `k`. */
  ghost predicate Behind(queue: seq<Entry>, k: Key, other: Key) {
    exists i, j | 0 <= i < j < |queue| :: queue[i].key == k && queue[j].key == other
  }

  /** The header expires a cookie that stands behind `k`. */
  ghost predicate FreesBehind(queue: seq<Entry>, k: Key, h: Header) {
    Expires(h) && Behind(queue, k, h.key.value)
  }

  /** How many of the first `n` headers join the queue. */
  ghost function Newcomers(queue: seq<Entry>, headers: seq<Header>, n: nat): nat
    requires n <= |headers|
  {
    if n == 0 then 0
    else Newcomers(queue, headers, n - 1) + if Joins(AfterHeaders(queue, headers, n - 1), headers[n - 1]) then 1 else 0
  }

  /** How many of the first `n` headers free a place behind `k`. */
  ghost function FreedBehind(queue: seq<Entry>, k: Key, headers: seq<Header>, n: nat): nat
    requires n <= |headers|
  {
    if n == 0 then 0
    else
      FreedBehind(queue, k, headers, n - 1)
      + if FreesBehind(AfterHeaders(queue, headers, n - 1), k, headers[n - 1]) then 1 else 0
  }

  /** `k` is the key of exactly the entry with `left` pushes to go, or of none when
    * there are none left. */
  ghost predicate AtPlace(queue: seq<Entry>, k: Key, left: int) {
    var p := left - MAX_COOKIES + |queue|;
    && |queue| <= MAX_COOKIES && Distinct(queue)
    && (left >= 0 ==> 0 <= p < |queue| && queue[p].key == k)
    && (forall i | 0 <= i < |queue| && (left < 0 || i != p) :: queue[i].key != k)
  }

  function Pushes(joins: bool, frees: bool): int {
    (if joins then 1 else 0) - (if frees then 1 else 0)
  }

  lemma PlaceAfterPut(queue: seq<Entry>, k: Key, left: int, e: Entry)
    requires AtPlace(queue, k, left) && e.key != k
    ensures AtPlace(Capped(Put(queue, e)), k, left - if e.key in Keys(queue) then 0 else 1)
  {}

  /** Taking a cookie out closes the gap. */
  lemma {:induction false} WithoutOne(queue: seq<Entry>, key: Key)
    requires Distinct(queue)
    ensures key !in Keys(queue) ==> Without(queue, {key}) == queue
    ensures forall j | 0 <= j < |queue| && queue[j].key == key :: Without(queue, {key}) == queue[..j] + queue[j + 1..]
  {
    if queue != [] {
      var h := |queue| - 1;
      var front := queue[..h];
      WithoutOne(front, key);
      KeysOfFront(queue);
      if queue[h].key == key {
        forall i | 0 <= i < h ensures front[i].key != key {
          assert front[i] == queue[i];
        }
        assert key !in Keys(front);
        assert queue[h + 1..] == [] && queue[..h] + [] == front;
      }
      forall j | 0 <= j < |queue| && queue[j].key == key ensures Without(queue, {key}) == queue[..j] + queue[j + 1..] {
        if j < h {
          assert front[j] == queue[j];
          assert front[..j] + front[j + 1..] + [queue[h]] == queue[..j] + queue[j + 1..];
        }
      }
    }
  }

  lemma PlaceAfterWithout(queue: seq<Entry>, k: Key, left: int, key: Key)
    requires AtPlace(queue, k, left) && key != k
    ensures AtPlace(Without(queue, {key}), k, left + if Behind(queue, k, key) then 1 else 0)
  {
    WithoutOne(queue, key);
    if j :| 0 <= j < |queue| && queue[j].key == key {
      assert Behind(queue, k, key) <==> left >= 0 && left - MAX_COOKIES + |queue| < j;
    } else {
      assert key !in Keys(queue);
    }
  }

  lemma PlaceStep(queue: seq<Entry>, k: Key, left: int, h: Header)
    requires AtPlace(queue, k, left) && (Stores(h) || Expires(h) ==> h.key.value != k)
    ensures AtPlace(AfterHeader(queue, h), k, left - Pushes(Joins(queue, h), FreesBehind(queue, k, h)))
  {
    if Stores(h) {
      PlaceAfterPut(queue, k, left, Entry(h.key.value, h.cookie));
    } else if Expires(h) {
      PlaceAfterWithout(queue, k, left, h.key.value);
    }
  }

  lemma {:induction false} PlaceAfter(queue: seq<Entry>, k: Key, left: int, headers: seq<Header>, n: nat)
    requires AtPlace(queue, k, left) && n <= |headers|
    requires forall h <- headers :: Stores(h) || Expires(h) ==> h.key.value != k
    ensures AtPlace(AfterHeaders(queue, headers, n), k,
              left - Newcomers(queue, headers, n) + FreedBehind(queue, k, headers, n))
  {
    if n > 0 {
      PlaceAfter(queue, k, left, headers, n - 1);
      var was, h := AfterHeaders(queue, headers, n - 1), headers[n - 1];
      var before := left - Newcomers(queue, headers, n - 1) + FreedBehind(queue, k, headers, n - 1);
      assert h in headers;
      var after := before - Pushes(Joins(was, h), FreesBehind(was, k, h));
      assert AfterHeaders(queue, headers, n) == AfterHeader(was, h);
      assert left - Newcomers(queue, headers, n) + FreedBehind(queue, k, headers, n) == after;
      PlaceStep(was, k, before, h);
    }
  }

  /** The cookie at place `p` of the queue outlives headers that neither set nor expire
    * it exactly as long as the newcomers fit in the free room, the places ahead of it
    * and those that expiries free behind it; a replaced cookie takes no new place. */
  lemma PushedOutExactly(queue: seq<Entry>, p: nat, headers: seq<Header>)
    requires Distinct(queue) && p < |queue| <= MAX_COOKIES
    requires forall h <- headers :: Stores(h) || Expires(h) ==> h.key.value != queue[p].key
    ensures queue[p].key in Keys(AfterHeaders(queue, headers, |headers|))
            <==> Newcomers(queue, headers, |headers|)
                 <= MAX_COOKIES - |queue| + p + FreedBehind(queue, queue[p].key, headers, |headers|)
  {
    PlaceAfter(queue, queue[p].key, MAX_COOKIES - |queue| + p, headers, |headers|);
  }
}
