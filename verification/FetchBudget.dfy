/** A subscription fetch against one deadline: proxy then direct, retries, and the
  * fallback URL. An attempt ends within the limit it is given, and time passes
  * only in attempts. */
module FetchBudget {
  import opened Wrappers

  // Times and durations are in nanoseconds.
  const SECOND: nat := 1_000_000_000
  const DEFAULT_TIMEOUT: nat := 30 * SECOND
  const FETCH_BUDGET: nat := 60 * SECOND

  datatype Mode = Auto | Proxy | Direct

  /** `Transport` is any failure of the HTTP client itself, a timeout included. */
  datatype AttemptError = Transport(reset: bool) | Status(code: int) | BodyTooLarge

  datatype FetchError = OutOfTime | NoProxy | Failed(attempt: AttemptError)

  datatype Response = Response(status: int, body: string)

  type Outcome = Result<Response, FetchError>
  type Answer = Result<Response, AttemptError>

  datatype RetryCause = ConnectionReset | TimeoutOrIo

  datatype Options = Options(
    mode: Mode, proxy: Option<bool>, timeout: Option<nat>, deadline: Option<nat>,
    headers: seq<(string, string)>, ipv4Only: bool, redirectGuard: bool)

  datatype Retry = Retry(headers: seq<(string, string)>, ipv4Only: bool)

  datatype Request = Request(retries: nat, retry: RetryCause -> Retry)

  /** What an attempt asks for. */
  datatype Query = Query(url: string, proxied: bool, headers: seq<(string, string)>, ipv4Only: bool, guarded: bool)

  datatype Attempt = Attempt(query: Query, limit: nat, started: nat, ended: nat, answer: Answer)

  /** What the network does with the n-th attempt when nothing cuts it short. */
  datatype Reply = Reply(after: nat, answer: Answer)

  type Network = (nat, Query) -> Reply

  predicate IsRunning(opts: Options) {
    opts.proxy == Some(true)
  }

  predicate TriesProxy(opts: Options) {
    opts.mode.Proxy? || (opts.mode.Auto? && IsRunning(opts))
  }

  function DeadlineOf(opts: Options, now: nat): nat {
    if opts.deadline.Some? then opts.deadline.value else now + FETCH_BUDGET
  }

  /** The limit of an attempt that starts now, `None` when no time is left. */
  function LimitAt(opts: Options, deadline: nat, now: nat): Option<nat> {
    var timeout := if opts.timeout.Some? then opts.timeout.value else DEFAULT_TIMEOUT;
    if now >= deadline then None else Some(if timeout < deadline - now then timeout else deadline - now)
  }

  function QueryOf(url: string, opts: Options, proxied: bool): Query {
    Query(url, proxied, opts.headers, opts.ipv4Only, opts.redirectGuard)
  }

  function Reported(answer: Answer): Outcome {
    match answer case Ok(response) => Ok(response) case Err(e) => Err(Failed(e))
  }

  /** Only a failure of the HTTP client is retried. */
  function CauseOf(outcome: Outcome): Option<RetryCause> {
    match outcome
    case Err(Failed(Transport(reset))) => Some(if reset then ConnectionReset else TimeoutOrIo)
    case _ => None
  }

  function Retried(opts: Options, retry: Retry): Options {
    opts.(headers := retry.headers, ipv4Only := retry.ipv4Only)
  }

  // ---------- What a fetch may do ----------

  /** One fetch: the attempts it made and how it ended. */
  datatype Round = Round(opts: Options, before: nat, after: nat, attempts: seq<Attempt>, outcome: Outcome)

  /** `a` started with time left and was limited to it. */
  ghost predicate IsAttempt(a: Attempt, url: string, opts: Options, proxied: bool, start: nat, deadline: nat) {
    && a.query == QueryOf(url, opts, proxied) && a.started == start
    && LimitAt(opts, deadline, start) == Some(a.limit) && a.started <= a.ended <= a.started + a.limit
  }

  ghost predicate MadeNone(r: Round, e: FetchError) {
    r.attempts == [] && r.after == r.before && r.outcome == Err(e)
  }

  ghost predicate EndedWith(r: Round, a: Attempt) {
    r.after == a.ended && r.outcome == Reported(a.answer)
  }

  /** The proxy first where the mode asks for one, then the direct attempt unless the
    * mode forbids it or no time is left. */
  ghost predicate IsFetch(r: Round, url: string) {
    var deadline := DeadlineOf(r.opts, r.before);
    if TriesProxy(r.opts) && !IsRunning(r.opts) then MadeNone(r, NoProxy)
    else if r.before >= deadline then MadeNone(r, OutOfTime)
    else
      && r.attempts != []
      && var first := r.attempts[0];
      && IsAttempt(first, url, r.opts, TriesProxy(r.opts), r.before, deadline)
      && if TriesProxy(r.opts) && first.answer.Err? && r.opts.mode.Auto? && first.ended < deadline
         then |r.attempts| == 2 && IsAttempt(r.attempts[1], url, r.opts, false, first.ended, deadline)
                 && EndedWith(r, r.attempts[1])
         else |r.attempts| == 1 && EndedWith(r, first)
  }

  ghost predicate IsOutOfTime(deadline: Option<nat>, now: nat) {
    deadline.Some? && now >= deadline.value
  }

  /** `next` retries `last`, shaped by its failure. */
  ghost predicate Retries(last: Round, next: Round, opts: Options, request: Request) {
    && CauseOf(last.outcome).Some? && !IsOutOfTime(opts.deadline, last.after)
    && next.before == last.after
    && next.opts == Retried(opts, request.retry(CauseOf(last.outcome).value))
  }

  /** The rounds of a fetch with retries. */
  ghost predicate AreRounds(rounds: seq<Round>, url: string, opts: Options, request: Request, start: nat) {
    && rounds != []
    && var front, last := rounds[..|rounds| - 1], rounds[|rounds| - 1];
    && IsFetch(last, url)
    && if front == [] then last.opts == opts && last.before == start
       else AreRounds(front, url, opts, request, start) && Retries(front[|front| - 1], last, opts, request)
  }

  /** There was no reason or no room for another round. */
  ghost predicate IsOver(rounds: seq<Round>, opts: Options, request: Request)
    requires rounds != []
  {
    var last := rounds[|rounds| - 1];
    |rounds| <= request.retries + 1
            && (|rounds| == request.retries + 1 || CauseOf(last.outcome).None?
                || IsOutOfTime(opts.deadline, last.after))
  }

  ghost function AttemptsOf(rounds: seq<Round>): seq<Attempt> {
    if rounds == [] then [] else AttemptsOf(rounds[..|rounds| - 1]) + rounds[|rounds| - 1].attempts
  }

  lemma FirstRound(round: Round, url: string, opts: Options, request: Request)
    requires IsFetch(round, url) && round.opts == opts
    ensures AreRounds([round], url, opts, request, round.before) && AttemptsOf([round]) == round.attempts
  {
    assert [round][..0] == [] && AttemptsOf([]) == [];
  }

  lemma AnotherRound(rounds: seq<Round>, next: Round, url: string, opts: Options, request: Request, start: nat,
                     made: seq<Attempt>)
    requires AreRounds(rounds, url, opts, request, start) && IsFetch(next, url)
    requires Retries(rounds[|rounds| - 1], next, opts, request)
    ensures AreRounds(rounds + [next], url, opts, request, start)
    ensures made + AttemptsOf(rounds + [next]) == made + AttemptsOf(rounds) + next.attempts
  {
    assert (rounds + [next])[..|rounds|] == rounds;
  }

  // ---------- The client ----------

  datatype MergeMode = Full | Partial

  datatype Fetched = Fetched(response: Response, merge: MergeMode, usedFallback: bool)

  ghost function LastRound(primary: seq<Round>, second: seq<Round>): Round
    requires primary != []
  {
    if second == [] then primary[|primary| - 1] else second[|second| - 1]
  }

  /** The rounds on the primary URL, and those on the fallback, guarded, when the first
    * failed and there is one. */
  ghost predicate IsSubscription(primary: seq<Round>, second: seq<Round>, url: string, fallback: Option<string>,
                                 opts: Options, request: Request, start: nat) {
    var shared := opts.(deadline := Some(start + FETCH_BUDGET));
    && AreRounds(primary, url, shared, request, start) && IsOver(primary, shared, request)
    && var last := primary[|primary| - 1];
       if last.outcome.Ok? || fallback.None? then second == []
       else AreRounds(second, fallback.value, shared.(redirectGuard := true), request, last.after)
            && IsOver(second, shared.(redirectGuard := true), request)
  }

  /** The attempt ended as the network had it, or timed out at its limit. */
  ghost predicate IsAnswered(a: Attempt, reply: Reply) {
    if reply.after < a.limit then a.ended == a.started + reply.after && a.answer == reply.answer
    else a.ended == a.started + a.limit && a.answer == Err(Transport(false))
  }

  class Client {
    const network: Network
    var clock: nat
    var attempts: seq<Attempt>

    ghost predicate Valid()
      reads this
    {
      forall i: nat | i < |attempts| :: IsAnswered(attempts[i], network(i, attempts[i].query))
    }

    constructor (network: Network, now: nat)
      ensures Valid() && this.network == network && clock == now && attempts == []
    {
      this.network, clock, attempts := network, now, [];
    }

    /** One attempt, cut short at its limit. */
    method FetchOnce(url: string, opts: Options, proxied: bool, limit: nat, ghost deadline: nat)
        returns (outcome: Outcome)
      requires Valid() && LimitAt(opts, deadline, clock) == Some(limit)
      modifies this
      ensures Valid()
      ensures |attempts| == |old(attempts)| + 1 && attempts[..|old(attempts)|] == old(attempts)
      ensures var a := attempts[|old(attempts)|];
              IsAttempt(a, url, opts, proxied, old(clock), deadline) && clock == a.ended
                && outcome == Reported(a.answer)
    {
      var query := QueryOf(url, opts, proxied);
      var reply := network(|attempts|, query);
      var answer := if reply.after < limit then reply.answer else Err(Transport(false));
      var ended := clock + if reply.after < limit then reply.after else limit;
      attempts := attempts + [Attempt(query, limit, clock, ended, answer)];
      clock, outcome := ended, Reported(answer);
    }

    method Fetch(url: string, opts: Options) returns (outcome: Outcome, ghost round: Round)
      requires Valid()
      modifies this
      ensures Valid()
      ensures IsFetch(round, url) && round.opts == opts && round.before == old(clock) && round.after == clock
      ensures round.outcome == outcome && attempts == old(attempts) + round.attempts
    {
      ghost var before, made := clock, attempts;
      var deadline := DeadlineOf(opts, clock);
      if opts.mode.Proxy? || (opts.mode.Auto? && IsRunning(opts)) {
        if !IsRunning(opts) {
          return Err(NoProxy), Round(opts, before, clock, [], Err(NoProxy));
        }
        var limit := LimitAt(opts, deadline, clock);
        if limit.None? {
          return Err(OutOfTime), Round(opts, before, clock, [], Err(OutOfTime));
        }
        outcome := FetchOnce(url, opts, true, limit.value, deadline);
        ghost var first := attempts[|made|];
        assert attempts == made + [first];
        if outcome.Ok? || opts.mode.Proxy? || LimitAt(opts, deadline, clock).None? {
          return outcome, Round(opts, before, clock, [first], outcome);
        }
        limit := LimitAt(opts, deadline, clock);
        outcome := FetchOnce(url, opts, false, limit.value, deadline);
        assert attempts == made + [first, attempts[|made| + 1]];
        round := Round(opts, before, clock, [first, attempts[|made| + 1]], outcome);
      } else {
        var limit := LimitAt(opts, deadline, clock);
        if limit.None? {
          return Err(OutOfTime), Round(opts, before, clock, [], Err(OutOfTime));
        }
        outcome := FetchOnce(url, opts, false, limit.value, deadline);
        assert attempts == made + [attempts[|made|]];
        round := Round(opts, before, clock, [attempts[|made|]], outcome);
      }
    }

    method FetchLikeHapp(url: string, opts: Options, request: Request)
        returns (outcome: Outcome, ghost rounds: seq<Round>)
      requires Valid()
      modifies this
      ensures Valid()
      ensures AreRounds(rounds, url, opts, request, old(clock)) && IsOver(rounds, opts, request)
      ensures outcome == rounds[|rounds| - 1].outcome && clock == rounds[|rounds| - 1].after
      ensures attempts == old(attempts) + AttemptsOf(rounds)
    {
      ghost var round;
      outcome, round := Fetch(url, opts);
      rounds := [round];
      FirstRound(round, url, opts, request);
      for i := 0 to request.retries
        invariant Valid() && |rounds| == i + 1 && AreRounds(rounds, url, opts, request, old(clock))
        invariant outcome == rounds[|rounds| - 1].outcome && clock == rounds[|rounds| - 1].after
        invariant attempts == old(attempts) + AttemptsOf(rounds)
      {
        var cause := CauseOf(outcome);
        if cause.None? {
          break;
        }
        if opts.deadline.Some? && clock >= opts.deadline.value {
          break;
        }
        outcome, round := Fetch(url, Retried(opts, request.retry(cause.value)));
        AnotherRound(rounds, round, url, opts, request, old(clock), old(attempts));
        rounds := rounds + [round];
      }
    }

    /** The primary URL, then the fallback the user accepted, in one budget. */
    method FetchSubscription(url: string, fallback: Option<string>, opts: Options, request: Request, merge: MergeMode)
      returns (fetched: Result<Fetched, FetchError>, ghost primary: seq<Round>, ghost second: seq<Round>)
      requires Valid()
      modifies this
      ensures Valid() && IsSubscription(primary, second, url, fallback, opts, request, old(clock))
      ensures attempts == old(attempts) + AttemptsOf(primary) + AttemptsOf(second)
      ensures clock == LastRound(primary, second).after
      ensures match primary[|primary| - 1].outcome
              case Ok(response) => fetched == Ok(Fetched(response, merge, false))
              case Err(e) =>
                if second != [] && second[|second| - 1].outcome.Ok?
                then fetched == Ok(Fetched(second[|second| - 1].outcome.value, Partial, true))
                else fetched == Err(e)
    {
      var outcome;
      var shared := opts.(deadline := Some(clock + FETCH_BUDGET));
      second := [];
      outcome, primary := FetchLikeHapp(url, shared, request);
      if outcome.Ok? {
        fetched := Ok(Fetched(outcome.value, merge, false));
      } else if fallback.None? {
        fetched := Err(outcome.error);
      } else {
        var again;
        again, second := FetchLikeHapp(fallback.value, shared.(redirectGuard := true), request);
        fetched := if again.Ok? then Ok(Fetched(again.value, Partial, true)) else Err(outcome.error);
      }
    }
  }

  // ---------- What a fetch does, field by field ----------

  /** The attempt asks for the URL as the options say, and may take the time the options
    * allow or what is left, whichever is shorter. */
  ghost predicate AsksFor(a: Attempt, url: string, opts: Options, proxied: bool, start: nat, deadline: nat) {
    && a.query == Query(url, proxied, opts.headers, opts.ipv4Only, opts.redirectGuard)
    && a.started == start < deadline && start <= a.ended <= start + a.limit
    && var timeout := if opts.timeout.Some? then opts.timeout.value else 30_000_000_000;
       a.limit == if start + timeout <= deadline then timeout else deadline - start
  }

  /** The reply of an attempt, or its failure. */
  ghost predicate ReportsAttempt(outcome: Outcome, a: Attempt) {
    match a.answer
    case Ok(response) => outcome == Ok(response)
    case Err(e) => outcome == Err(Failed(e))
  }

  /** Every way a fetch can go, from the options and the clock. */
  lemma FetchExactly(r: Round, url: string)
    requires IsFetch(r, url)
    ensures var deadline := if r.opts.deadline.Some? then r.opts.deadline.value else r.before + 60_000_000_000;
            var running := r.opts.proxy == Some(true);
            if r.opts.mode.Proxy? && !running then r.attempts == [] && r.outcome == Err(NoProxy)
            else if r.before >= deadline then r.attempts == [] && r.outcome == Err(OutOfTime)
            else
              var proxied := running && !r.opts.mode.Direct?;
              && 1 <= |r.attempts| <= 2
              && AsksFor(r.attempts[0], url, r.opts, proxied, r.before, deadline)
              && (|r.attempts| == 2
                  <==> proxied && r.opts.mode.Auto? && r.attempts[0].answer.Err? && r.attempts[0].ended < deadline)
              && (|r.attempts| == 2 ==> AsksFor(r.attempts[1], url, r.opts, false, r.attempts[0].ended, deadline))
              && ReportsAttempt(r.outcome, r.attempts[|r.attempts| - 1])
              && r.after == r.attempts[|r.attempts| - 1].ended
    ensures r.attempts == [] ==> r.after == r.before
  {}

  /** A round follows another exactly as the failure before it asks: a reset connection and
    * any other failure of the client have a shape of their own. */
  ghost predicate Follows(last: Round, next: Round, opts: Options, request: Request) {
    && last.outcome.Err? && last.outcome.error.Failed? && last.outcome.error.attempt.Transport?
    && (opts.deadline.Some? ==> last.after < opts.deadline.value)
    && next.before == last.after
    && var retry := request.retry(if last.outcome.error.attempt.reset then ConnectionReset else TimeoutOrIo);
       next.opts == Options(opts.mode, opts.proxy, opts.timeout, opts.deadline, retry.headers, retry.ipv4Only,
                            opts.redirectGuard)
  }

  /** All rounds of a fetch: each is a fetch, the first with the options given, the others
    * shaped by the failure before. */
  lemma {:induction false} RoundsExactly(rounds: seq<Round>, url: string, opts: Options, request: Request, start: nat)
    requires AreRounds(rounds, url, opts, request, start)
    ensures rounds[0].opts == opts && rounds[0].before == start
    ensures forall i | 0 <= i < |rounds| :: IsFetch(rounds[i], url)
    ensures forall i | 0 < i < |rounds| :: Follows(rounds[i - 1], rounds[i], opts, request)
    decreases |rounds|
  {
    var front := rounds[..|rounds| - 1];
    if front != [] {
      RoundsExactly(front, url, opts, request, start);
      assert forall i | 0 <= i < |front| :: rounds[i] == front[i];
    }
  }

  /** The rounds end with a reply, with a failure that is not the client's, with the deadline,
    * or with the last round allowed. */
  lemma OverExactly(rounds: seq<Round>, opts: Options, request: Request)
    requires rounds != [] && IsOver(rounds, opts, request)
    ensures var last := rounds[|rounds| - 1];
            && |rounds| <= request.retries + 1
            && (|rounds| == request.retries + 1
                || !(last.outcome.Err? && last.outcome.error.Failed? && last.outcome.error.attempt.Transport?)
                || (opts.deadline.Some? && opts.deadline.value <= last.after))
  {}

  // ---------- Everything ends by the deadline ----------

  lemma FetchEndsInTime(r: Round, url: string)
    requires IsFetch(r, url)
    ensures var deadline := DeadlineOf(r.opts, r.before);
            && r.before <= r.after && (r.before < deadline ==> r.after <= deadline)
            && (r.before >= deadline ==> r.after == r.before)
            && |r.attempts| <= 2
            && forall a <- r.attempts :: a.started < deadline && a.ended <= deadline && a.query.url == url
                                         && a.query.guarded == r.opts.redirectGuard
  {}

  /** With a shared deadline, the first attempt, its retries and their proxy and direct
    * tries all end by it, and no attempt starts once it has passed. */
  lemma {:induction false} RoundsEndInTime(rounds: seq<Round>, url: string, opts: Options, request: Request, start: nat)
    requires AreRounds(rounds, url, opts, request, start) && opts.deadline.Some?
    ensures forall a <- AttemptsOf(rounds) ::
              a.started < opts.deadline.value && a.ended <= opts.deadline.value && a.query.url == url
              && a.query.guarded == opts.redirectGuard
    ensures var after := rounds[|rounds| - 1].after;
            if start < opts.deadline.value then after <= opts.deadline.value else after == start
    ensures |AttemptsOf(rounds)| <= 2 * |rounds|
    decreases |rounds|
  {
    var front, last := rounds[..|rounds| - 1], rounds[|rounds| - 1];
    if |rounds| == 1 {
      assert AttemptsOf(front) == [];
    } else {
      assert front[|front| - 1] == rounds[|rounds| - 2];
      RoundsEndInTime(front, url, opts, request, start);
    }
    FetchEndsInTime(last, url);
  }

  /** The last attempt decides, and running out of time is only reported when there
    * was no attempt at all: it never replaces the error of an earlier attempt. */
  lemma {:induction false} RealErrorStays(rounds: seq<Round>, url: string, opts: Options, request: Request, start: nat)
    requires AreRounds(rounds, url, opts, request, start)
    ensures var made, outcome := AttemptsOf(rounds), rounds[|rounds| - 1].outcome;
            && (made != [] ==> outcome == Reported(made[|made| - 1].answer))
            && (made == []
                ==> outcome == Err(NoProxy) || (outcome == Err(OutOfTime) && IsOutOfTime(opts.deadline, start)))
            && (|rounds| > 1 ==> rounds[|rounds| - 1].attempts != [])
  {
    var front, last := rounds[..|rounds| - 1], rounds[|rounds| - 1];
    if |rounds| == 1 {
      assert AttemptsOf(front) == [];
    } else {
      assert CauseOf(rounds[|rounds| - 2].outcome).Some?;
    }
  }

  /** Everything a subscription fetch does ends within the budget, and the error it keeps
    * is never that time ran out. */
  lemma SubscriptionKeepsItsBudget(primary: seq<Round>, second: seq<Round>, url: string, fallback: Option<string>,
                                   opts: Options, request: Request, start: nat)
    requires IsSubscription(primary, second, url, fallback, opts, request, start)
    ensures forall a <- AttemptsOf(primary) + AttemptsOf(second) :: a.ended <= start + FETCH_BUDGET
    ensures LastRound(primary, second).after <= start + FETCH_BUDGET
    ensures primary[|primary| - 1].outcome != Err(OutOfTime)
    ensures forall a <- AttemptsOf(second) :: a.query.guarded && Some(a.query.url) == fallback
  {
    var shared := opts.(deadline := Some(start + FETCH_BUDGET));
    RoundsEndInTime(primary, url, shared, request, start);
    RealErrorStays(primary, url, shared, request, start);
    if second != [] {
      RoundsEndInTime(second, fallback.value, shared.(redirectGuard := true), request, primary[|primary| - 1].after);
    }
  }
}
