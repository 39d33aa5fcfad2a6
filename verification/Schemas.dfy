/** The ordering of generated schema declarations: the word scanner that finds
  * what a declaration refers to, and the iterative depth-first search that puts
  * every declaration after the ones it refers to. */
module Schemas {
  import Text

  // ---------- The dependency graph ----------

  /** Each name with the names its declaration refers to. */
  type Graph = map<string, seq<string>>

  ghost predicate Closed(g: Graph) {
    forall n <- g :: forall d <- g[n] :: d in g
  }

  ghost predicate IsPath(g: Graph, p: seq<string>) {
    && p != []
    && (forall i | 0 <= i < |p| :: p[i] in g)
    && (forall i | 0 < i < |p| :: p[i] in g[p[i - 1]])
  }

  ghost predicate Reaches(g: Graph, a: string, b: string) {
    exists p :: IsPath(g, p) && p[0] == a && p[|p| - 1] == b
  }

  /** No name leads back to itself along one or more references. */
  ghost predicate Acyclic(g: Graph) {
    forall n <- g :: forall d <- g[n] :: d in g ==> !Reaches(g, d, n)
  }

  ghost predicate NoDuplicates(s: seq<string>) {
    forall i, j | 0 <= i < j < |s| :: s[i] != s[j]
  }

  /** `s` lists every name of `g` exactly once. */
  ghost predicate Lists(g: Graph, s: seq<string>) {
    && NoDuplicates(s)
    && (forall n :: n in s <==> n in g)
  }

  /** Every name in `s` comes after the names it refers to. */
  ghost predicate DependenciesFirst(g: Graph, s: seq<string>) {
    forall i | 0 <= i < |s| && s[i] in g :: forall d <- g[s[i]] :: d in s[..i]
  }

  /** As `DependenciesFirst`, except for references that close a cycle. */
  ghost predicate DependenciesFirstOffCycles(g: Graph, s: seq<string>) {
    forall i | 0 <= i < |s| && s[i] in g :: forall d <- g[s[i]] :: d in s[..i] || Reaches(g, d, s[i])
  }

  /** An order with every dependency first exists only without cycles: along a
    * path the positions in that order strictly decrease. */
  lemma {:induction false} PositionsDecrease(g: Graph, s: seq<string>, p: seq<string>, i: nat)
    requires Lists(g, s) && DependenciesFirst(g, s)
    requires IsPath(g, p) && i < |s| && s[i] == p[0]
    ensures exists j | 0 <= j <= i :: s[j] == p[|p| - 1]
    decreases |p|
  {
    if |p| > 1 {
      assert p[1] in g[p[0]];
      var j :| 0 <= j < i && s[j] == p[1];
      assert forall k | 0 < k < |p[1..]| :: p[1..][k] == p[k + 1] && p[1..][k - 1] == p[k];
      PositionsDecrease(g, s, p[1..], j);
    }
  }

  lemma OrderedOnlyIfAcyclic(g: Graph, s: seq<string>)
    requires Lists(g, s) && DependenciesFirst(g, s)
    ensures Acyclic(g)
  {
    forall n <- g, d <- g[n] | d in g && Reaches(g, d, n)
      ensures false
    {
      var p :| IsPath(g, p) && p[0] == d && p[|p| - 1] == n;
      var i :| 0 <= i < |s| && s[i] == n;
      var j :| 0 <= j < i && s[j] == d;
      PositionsDecrease(g, s, p, j);
    }
  }

  lemma OffCyclesIsEverywhere(g: Graph, s: seq<string>)
    requires Closed(g) && Lists(g, s) && Acyclic(g) && DependenciesFirstOffCycles(g, s)
    ensures DependenciesFirst(g, s)
  {
  }

  // ---------- The search ----------

  type Stack = seq<(string, bool)>

  /** The names on the stack that are entered and not yet left, oldest first. */
  ghost function Trail(stack: Stack): (p: seq<string>) {
    if stack == [] then []
    else
      var top := stack[|stack| - 1];
      Trail(stack[..|stack| - 1]) + if top.1 then [top.0] else []
  }

  lemma {:induction false} TrailHoldsEntered(stack: Stack, n: string)
    ensures n in Trail(stack) <==> (n, true) in stack
    decreases |stack|
  {
    if stack != [] {
      var below := stack[..|stack| - 1];
      TrailHoldsEntered(below, n);
      assert stack == below + [stack[|stack| - 1]];
    }
  }

  lemma TrailPush(stack: Stack, n: string, entered: bool)
    ensures Trail(stack + [(n, entered)]) == Trail(stack) + if entered then [n] else []
  {
    assert (stack + [(n, entered)])[..|stack|] == stack;
  }

  /** Every entry above the bottom was pushed for the innermost entered name below it. */
  ghost predicate Linked(g: Graph, stack: Stack) {
    && (forall e <- stack :: e.0 in g)
    && forall j | 0 < j < |stack| :: NextOf(g, Trail(stack[..j]), stack[j].0)
  }

  ghost predicate NextOf(g: Graph, p: seq<string>, n: string) {
    p != [] && p[|p| - 1] in g && n in g[p[|p| - 1]]
  }

  lemma PathExtends(g: Graph, p: seq<string>, n: string)
    requires n in g
    requires p != [] ==> IsPath(g, p) && n in g[p[|p| - 1]]
    ensures IsPath(g, p + [n])
  {
    var q := p + [n];
    forall i | 0 < i < |q| ensures q[i] in g[q[i - 1]] {
      if i < |p| {
        assert q[i] == p[i] && q[i - 1] == p[i - 1];
      }
    }
  }

  lemma LinkedBelow(g: Graph, stack: Stack, n: nat)
    requires Linked(g, stack) && n <= |stack|
    ensures Linked(g, stack[..n])
  {
    assert forall j | 0 < j < n :: stack[..n][..j] == stack[..j];
  }

  lemma {:induction false} TrailIsPath(g: Graph, stack: Stack)
    requires Linked(g, stack)
    ensures Trail(stack) != [] ==> IsPath(g, Trail(stack))
    decreases |stack|
  {
    if stack != [] {
      var n := |stack| - 1;
      LinkedBelow(g, stack, n);
      TrailIsPath(g, stack[..n]);
      assert stack[n] in stack;
      if stack[n].1 {
        PathExtends(g, Trail(stack[..n]), stack[n].0);
      }
    }
  }

  /** On the trail, an earlier name reaches every later one. */
  lemma TrailReaches(g: Graph, stack: Stack, i: nat, k: nat)
    requires Linked(g, stack) && i <= k < |stack| && stack[i].1 && stack[k].1
    ensures Reaches(g, stack[i].0, stack[k].0)
  {
    var upto := stack[..k + 1];
    LinkedBelow(g, stack, k + 1);
    TrailIsPath(g, upto);
    var p := Trail(upto);
    assert upto[..k] == stack[..k];
    assert p[|p| - 1] == stack[k].0;
    TrailHoldsEntered(upto, stack[i].0);
    assert upto[i] == (stack[i].0, true);
    var s :| 0 <= s < |p| && p[s] == stack[i].0;
    assert IsPath(g, p[s..]);
  }

  const ENTERED := 1
  const LEFT := 2

  ghost predicate IsLeft(state: map<string, int>, n: string) {
    n in state && state[n] == LEFT
  }

  /** The dependency `d` of the entered name at `i` is out, on a cycle with that
    * name, or still to be looked at further up the stack. */
  ghost predicate Awaited(g: Graph, stack: Stack, state: map<string, int>, i: nat, d: string)
    requires i < |stack|
  {
    || IsLeft(state, d)
    || Reaches(g, d, stack[i].0)
    || exists j | i < j < |stack| :: stack[j].0 == d
  }

  ghost predicate Frontier(g: Graph, stack: Stack, state: map<string, int>) {
    forall i | 0 <= i < |stack| && stack[i].1 && stack[i].0 in g ::
      forall d <- g[stack[i].0] :: Awaited(g, stack, state, i, d)
  }

  ghost predicate EnteredOnce(stack: Stack) {
    forall i, j | 0 <= i < j < |stack| && stack[i].1 && stack[j].1 :: stack[i].0 != stack[j].0
  }

  ghost predicate Marked(g: Graph, state: map<string, int>) {
    forall n <- state :: n in g && (state[n] == ENTERED || state[n] == LEFT)
  }

  ghost predicate OutWhenLeft(state: map<string, int>, emitted: seq<string>) {
    NoDuplicates(emitted) && forall n :: n in emitted <==> IsLeft(state, n)
  }

  ghost predicate EnteredOnStack(stack: Stack, state: map<string, int>) {
    && EnteredOnce(stack)
    && forall n :: (n, true) in stack <==> n in state && state[n] == ENTERED
  }

  /** What holds before and after every iteration of the search loop. */
  ghost predicate SearchState(g: Graph, stack: Stack, state: map<string, int>, emitted: seq<string>) {
    && Closed(g)
    && Marked(g, state)
    && OutWhenLeft(state, emitted)
    && Linked(g, stack)
    && EnteredOnStack(stack, state)
    && Frontier(g, stack, state)
    && DependenciesFirstOffCycles(g, emitted)
  }

  lemma EnteredBelow(stack: Stack, state: map<string, int>)
    requires EnteredOnStack(stack, state) && stack != [] && !stack[|stack| - 1].1
    ensures EnteredOnStack(stack[..|stack| - 1], state)
  {
    assert stack == stack[..|stack| - 1] + [stack[|stack| - 1]];
  }

  lemma SkipFrontier(g: Graph, stack: Stack, state: map<string, int>)
    requires Linked(g, stack) && EnteredOnStack(stack, state) && Frontier(g, stack, state) && Marked(g, state)
    requires stack != [] && !stack[|stack| - 1].1 && stack[|stack| - 1].0 in state
    ensures Frontier(g, stack[..|stack| - 1], state)
  {
    var n := |stack| - 1;
    var below := stack[..n];
    forall i, d | 0 <= i < n && below[i].1 && below[i].0 in g && d in g[below[i].0]
      ensures Awaited(g, below, state, i, d)
    {
      assert Awaited(g, stack, state, i, d);
      if !IsLeft(state, d) && !Reaches(g, d, stack[i].0) {
        var j :| i < j < |stack| && stack[j].0 == d;
        if j == n {
          EnteredIsBelow(stack, state, n);
          var k :| 0 <= k < n && stack[k] == (d, true);
          if k <= i {
            TrailReaches(g, stack, k, i);
          } else {
            assert below[k].0 == d;
          }
        } else {
          assert below[j].0 == d;
        }
      }
    }
  }

  lemma EnteredIsBelow(stack: Stack, state: map<string, int>, n: nat)
    requires EnteredOnStack(stack, state) && n == |stack| - 1 && !stack[n].1
    requires stack[n].0 in state && state[stack[n].0] == ENTERED
    ensures exists k | 0 <= k < n :: stack[k] == (stack[n].0, true)
  {
    assert (stack[n].0, true) in stack;
  }

  /** Dropping an unentered top entry whose name is entered or left. */
  lemma SkipKeeps(g: Graph, stack: Stack, state: map<string, int>, emitted: seq<string>)
    requires SearchState(g, stack, state, emitted)
    requires stack != [] && !stack[|stack| - 1].1 && stack[|stack| - 1].0 in state
    ensures SearchState(g, stack[..|stack| - 1], state, emitted)
  {
    LinkedBelow(g, stack, |stack| - 1);
    EnteredBelow(stack, state);
    SkipFrontier(g, stack, state);
  }

  lemma LeaveFrontier(g: Graph, stack: Stack, state: map<string, int>)
    requires Frontier(g, stack, state) && stack != []
    ensures Frontier(g, stack[..|stack| - 1], state[stack[|stack| - 1].0 := LEFT])
  {
    var h := |stack| - 1;
    var below, state' := stack[..h], state[stack[h].0 := LEFT];
    forall i, d | 0 <= i < h && below[i].1 && below[i].0 in g && d in g[below[i].0]
      ensures Awaited(g, below, state', i, d)
    {
      assert Awaited(g, stack, state, i, d);
      if !IsLeft(state', d) && !Reaches(g, d, stack[i].0) {
        var j :| i < j < |stack| && stack[j].0 == d;
        assert below[j].0 == d;
      }
    }
  }

  lemma LeaveOrder(g: Graph, stack: Stack, state: map<string, int>, emitted: seq<string>)
    requires Frontier(g, stack, state) && stack != [] && stack[|stack| - 1].1
    requires OutWhenLeft(state, emitted) && DependenciesFirstOffCycles(g, emitted)
    ensures DependenciesFirstOffCycles(g, emitted + [stack[|stack| - 1].0])
  {
    var h := |stack| - 1;
    var out := emitted + [stack[h].0];
    forall i, d | 0 <= i < |out| && out[i] in g && d in g[out[i]]
      ensures d in out[..i] || Reaches(g, d, out[i])
    {
      if i < |emitted| {
        assert out[..i] == emitted[..i];
      } else {
        assert out[..i] == emitted;
        assert Awaited(g, stack, state, h, d);
      }
    }
  }

  lemma LeaveMarks(stack: Stack, state: map<string, int>, emitted: seq<string>)
    requires EnteredOnStack(stack, state) && OutWhenLeft(state, emitted)
    requires stack != [] && stack[|stack| - 1].1
    ensures var n := stack[|stack| - 1].0;
            && EnteredOnStack(stack[..|stack| - 1], state[n := LEFT])
            && OutWhenLeft(state[n := LEFT], emitted + [n])
  {
    var h := |stack| - 1;
    var n := stack[h].0;
    assert (n, true) in stack;
    assert stack == stack[..h] + [(n, true)];
    assert n !in emitted;
    forall m ensures (m, true) in stack[..h] <==> m in state[n := LEFT] && state[n := LEFT][m] == ENTERED {
      assert m != n ==> ((m, true) in stack[..h] <==> (m, true) in stack);
    }
  }

  /** Leaving the entered name on top of the stack. */
  lemma LeaveKeeps(g: Graph, stack: Stack, state: map<string, int>, emitted: seq<string>)
    requires SearchState(g, stack, state, emitted)
    requires stack != [] && stack[|stack| - 1].1
    ensures var n := stack[|stack| - 1].0;
            n !in emitted && SearchState(g, stack[..|stack| - 1], state[n := LEFT], emitted + [n])
  {
    assert stack[|stack| - 1] in stack;
    assert (stack[|stack| - 1].0, true) in stack;
    LinkedBelow(g, stack, |stack| - 1);
    LeaveFrontier(g, stack, state);
    LeaveOrder(g, stack, state, emitted);
    LeaveMarks(stack, state, emitted);
  }

  /** The entries pushed for the dependencies `ds`: those not left yet, in order. */
  function Pending(ds: seq<string>, state: map<string, int>): (stack: Stack) {
    if ds == [] then []
    else
      var d := ds[|ds| - 1];
      Pending(ds[..|ds| - 1], state) + if d in state && state[d] == LEFT then [] else [(d, false)]
  }

  lemma {:induction false} PendingHolds(ds: seq<string>, state: map<string, int>)
    ensures forall e <- Pending(ds, state) :: !e.1 && e.0 in ds
    ensures forall d <- ds :: IsLeft(state, d) || (d, false) in Pending(ds, state)
    decreases |ds|
  {
    if ds != [] {
      PendingHolds(ds[..|ds| - 1], state);
      assert ds == ds[..|ds| - 1] + [ds[|ds| - 1]];
    }
  }

  lemma {:induction false} PendingKeepsTrail(stack: Stack, more: Stack)
    requires forall e <- more :: !e.1
    ensures Trail(stack + more) == Trail(stack)
    decreases |more|
  {
    if more == [] {
      assert stack + more == stack;
    } else {
      var h := |more| - 1;
      PendingKeepsTrail(stack, more[..h]);
      assert stack + more == (stack + more[..h]) + [more[h]];
      TrailPush(stack + more[..h], more[h].0, more[h].1);
    }
  }

  /** Pushing unentered entries for dependencies of the innermost entered name. */
  lemma LinkedPush(g: Graph, stack: Stack, more: Stack)
    requires Closed(g) && Linked(g, stack) && stack != []
    requires forall e <- more :: !e.1 && NextOf(g, Trail(stack), e.0)
    ensures Linked(g, stack + more)
  {
    var s := stack + more;
    forall j | 0 < j < |s| ensures NextOf(g, Trail(s[..j]), s[j].0) {
      if j < |stack| {
        assert s[..j] == stack[..j];
      } else {
        var k := j - |stack|;
        assert s[..j] == stack + more[..k];
        PendingKeepsTrail(stack, more[..k]);
        assert more[k] in more;
      }
    }
    forall e <- s ensures e.0 in g {
      assert e in stack || e in more;
    }
  }

  lemma LinkedEnter(g: Graph, stack: Stack)
    requires Linked(g, stack) && stack != []
    ensures Linked(g, stack[..|stack| - 1] + [(stack[|stack| - 1].0, true)])
  {
    var h := |stack| - 1;
    var next := stack[..h] + [(stack[h].0, true)];
    forall j | 0 < j < |next| ensures NextOf(g, Trail(next[..j]), next[j].0) {
      assert next[..j] == stack[..j] && next[j].0 == stack[j].0;
    }
    forall e <- next ensures e.0 in g {
      assert stack[h] in stack && (e == next[h] || e in stack);
    }
  }

  /** The stack after its top name is entered: that name again, below the
    * dependencies that are still to be visited. */
  function Entered(g: Graph, stack: Stack, state: map<string, int>): (next: Stack)
    requires stack != [] && stack[|stack| - 1].0 in g
  {
    var n := stack[|stack| - 1].0;
    stack[..|stack| - 1] + [(n, true)] + Pending(g[n], state[n := ENTERED])
  }

  lemma EnterLinked(g: Graph, stack: Stack, state: map<string, int>)
    requires Closed(g) && Linked(g, stack) && stack != [] && stack[|stack| - 1].0 in g
    ensures Linked(g, Entered(g, stack, state))
  {
    var n := stack[|stack| - 1].0;
    var mid := stack[..|stack| - 1] + [(n, true)];
    LinkedEnter(g, stack);
    TrailPush(stack[..|stack| - 1], n, true);
    PendingHolds(g[n], state[n := ENTERED]);
    LinkedPush(g, mid, Pending(g[n], state[n := ENTERED]));
  }

  lemma EnterMarks(g: Graph, stack: Stack, state: map<string, int>)
    requires EnteredOnStack(stack, state) && stack != [] && !stack[|stack| - 1].1
    requires stack[|stack| - 1].0 in g && stack[|stack| - 1].0 !in state
    ensures EnteredOnStack(Entered(g, stack, state), state[stack[|stack| - 1].0 := ENTERED])
  {
    var h := |stack| - 1;
    var n := stack[h].0;
    var below, state' := stack[..h], state[n := ENTERED];
    var more, next := Pending(g[n], state'), Entered(g, stack, state);
    PendingHolds(g[n], state');
    assert stack == below + [(n, false)];
    assert (n, true) !in stack;
    assert next == below + [(n, true)] + more;
    assert forall j | h < j < |next| :: next[j] in more;
    forall m ensures (m, true) in next <==> m in state' && state'[m] == ENTERED {
      assert (m, true) in next <==> (m, true) in below || m == n;
      assert (m, true) in stack <==> (m, true) in below;
    }
    forall i, j | 0 <= i < j < |next| && next[i].1 && next[j].1 ensures next[i].0 != next[j].0 {
      assert next[i] == stack[i];
      assert stack[i] in stack;
    }
  }

  lemma AwaitedStays(g: Graph, stack: Stack, state: map<string, int>, i: nat, d: string)
    requires i < |stack| - 1 && stack[|stack| - 1].0 in g && stack[|stack| - 1].0 !in state
    requires Awaited(g, stack, state, i, d)
    ensures Awaited(g, Entered(g, stack, state), state[stack[|stack| - 1].0 := ENTERED], i, d)
  {
    var next := Entered(g, stack, state);
    assert forall j | 0 <= j < |stack| :: next[j].0 == stack[j].0;
    if !IsLeft(state, d) && !Reaches(g, d, stack[i].0) {
      var j :| i < j < |stack| && stack[j].0 == d;
      assert next[j].0 == d;
    }
  }

  lemma AwaitedPushed(g: Graph, stack: Stack, state: map<string, int>, d: string)
    requires stack != [] && stack[|stack| - 1].0 in g && d in g[stack[|stack| - 1].0]
    ensures Awaited(g, Entered(g, stack, state), state[stack[|stack| - 1].0 := ENTERED], |stack| - 1, d)
  {
    var n := stack[|stack| - 1].0;
    var state' := state[n := ENTERED];
    var more := Pending(g[n], state');
    PendingHolds(g[n], state');
    if !IsLeft(state', d) {
      var k :| 0 <= k < |more| && more[k] == (d, false);
      assert Entered(g, stack, state)[|stack| + k].0 == d;
    }
  }

  lemma EnterFrontier(g: Graph, stack: Stack, state: map<string, int>)
    requires Frontier(g, stack, state) && stack != [] && stack[|stack| - 1].0 in g && stack[|stack| - 1].0 !in state
    ensures Frontier(g, Entered(g, stack, state), state[stack[|stack| - 1].0 := ENTERED])
  {
    var h := |stack| - 1;
    var n := stack[h].0;
    var next := Entered(g, stack, state);
    PendingHolds(g[n], state[n := ENTERED]);
    assert forall j | h < j < |next| :: next[j] in Pending(g[n], state[n := ENTERED]);
    forall i, d | 0 <= i < |next| && next[i].1 && next[i].0 in g && d in g[next[i].0]
      ensures Awaited(g, next, state[n := ENTERED], i, d)
    {
      if i < h {
        assert next[i] == stack[i];
        AwaitedStays(g, stack, state, i, d);
      } else {
        AwaitedPushed(g, stack, state, d);
      }
    }
  }

  /** Entering the name on top of the stack. */
  lemma EnterKeeps(g: Graph, stack: Stack, state: map<string, int>, emitted: seq<string>)
    requires SearchState(g, stack, state, emitted)
    requires stack != [] && !stack[|stack| - 1].1 && stack[|stack| - 1].0 !in state
    ensures var n := stack[|stack| - 1].0;
            n in g && SearchState(g, Entered(g, stack, state), state[n := ENTERED], emitted)
  {
    assert stack[|stack| - 1] in stack;
    EnterLinked(g, stack, state);
    EnterMarks(g, stack, state);
    EnterFrontier(g, stack, state);
  }

  /** One iteration of the search: what the entry on top of the stack leads to. */
  method Step(g: Graph, stack: Stack, state: map<string, int>, emitted: seq<string>)
    returns (next: Stack, state': map<string, int>, emitted': seq<string>)
    requires SearchState(g, stack, state, emitted) && stack != []
    ensures SearchState(g, next, state', emitted')
    ensures var (node, processed) := stack[|stack| - 1];
            && node in g
            && (processed ==> next == stack[..|stack| - 1] && state' == state[node := LEFT]
                              && emitted' == emitted + [node] && node !in emitted)
            && (!processed && node in state ==>
                  next == stack[..|stack| - 1] && state' == state && emitted' == emitted)
            && (!processed && node !in state ==>
                  next == Entered(g, stack, state) && state' == state[node := ENTERED] && emitted' == emitted)
    ensures state.Keys <= state'.Keys
    ensures state.Keys == state'.Keys ==> |next| < |stack|
    ensures stack[|stack| - 1].1 ==> stack[|stack| - 1].0 in state
  {
    var h := |stack| - 1;
    var (node, processed) := stack[h];
    assert stack[h] in stack;
    assert processed ==> (node, true) in stack;
    next, state', emitted' := stack[..h], state, emitted;
    if node in state && state[node] == LEFT {
      SkipKeeps(g, stack, state, emitted);
      return;
    }
    if node in state && state[node] == ENTERED && !processed {
      SkipKeeps(g, stack, state, emitted);
      return;
    }
    if processed {
      LeaveKeeps(g, stack, state, emitted);
      state' := state[node := LEFT];
      emitted' := emitted + [node];
      return;
    }
    EnterKeeps(g, stack, state, emitted);
    state' := state[node := ENTERED];
    next := PushPending(next + [(node, true)], g[node], state');
  }

  /** The inner loop: push every dependency that is not out yet. */
  method PushPending(stack: Stack, ds: seq<string>, state: map<string, int>) returns (next: Stack)
    ensures next == stack + Pending(ds, state)
  {
    next := stack;
    for i := 0 to |ds|
      invariant next == stack + Pending(ds[..i], state)
    {
      var dep := ds[i];
      assert ds[..i + 1][..i] == ds[..i];
      if !(dep in state && state[dep] == LEFT) {
        next := next + [(dep, false)];
      }
    }
    assert ds[..|ds|] == ds;
  }

  ghost predicate AllLeft(state: map<string, int>) {
    forall n <- state :: state[n] == LEFT
  }

  /** Visit everything reachable from one root that is not out yet. */
  method Visit(g: Graph, root: string, seen: map<string, int>, out: seq<string>)
    returns (state: map<string, int>, emitted: seq<string>)
    requires SearchState(g, [], seen, out) && AllLeft(seen) && root in g
    ensures SearchState(g, [], state, emitted) && AllLeft(state)
    ensures IsLeft(state, root) && seen.Keys <= state.Keys
    ensures root !in seen && (forall d <- g[root] :: d in out) ==> emitted == out + [root]
  {
    state, emitted := seen, out;
    var stack: Stack := [(root, false)];
    StartKeeps(g, root, seen, out);
    ghost var direct := root !in seen && forall d <- g[root] :: d in out;
    while stack != []
      invariant SearchState(g, stack, state, emitted)
      invariant seen.Keys <= state.Keys
      invariant root in state || (stack == [(root, false)] && state == seen && emitted == out)
      invariant direct ==>
        || (stack == [(root, false)] && state == seen && emitted == out)
        || (stack == [(root, true)] && emitted == out)
        || (stack == [] && emitted == out + [root])
      decreases g.Keys - state.Keys, |stack|
    {
      if direct && stack == [(root, false)] {
        AllLeftPushesNothing(g[root], state[root := ENTERED]);
      }
      stack, state, emitted := Step(g, stack, state, emitted);
    }
    assert forall n :: (n, true) !in stack;
  }

  lemma StartKeeps(g: Graph, root: string, seen: map<string, int>, out: seq<string>)
    requires SearchState(g, [], seen, out) && AllLeft(seen) && root in g
    ensures SearchState(g, [(root, false)], seen, out)
  {
    assert forall n :: (n, true) !in [(root, false)];
  }

  lemma {:induction false} AllLeftPushesNothing(ds: seq<string>, state: map<string, int>)
    requires forall d <- ds :: IsLeft(state, d)
    ensures Pending(ds, state) == []
    decreases |ds|
  {
    if ds != [] {
      assert IsLeft(state, ds[|ds| - 1]);
      AllLeftPushesNothing(ds[..|ds| - 1], state);
    }
  }

  /** Visit every root in turn. */
  method Search(g: Graph, roots: seq<string>) returns (emitted: seq<string>)
    requires Closed(g) && NoDuplicates(roots) && forall n :: n in roots <==> n in g
    ensures Lists(g, emitted)
    ensures DependenciesFirstOffCycles(g, emitted)
    ensures DependenciesFirst(g, roots) ==> emitted == roots
  {
    emitted := [];
    var state: map<string, int> := map[];
    for i := 0 to |roots|
      invariant SearchState(g, [], state, emitted) && AllLeft(state)
      invariant forall n <- roots[..i] :: IsLeft(state, n)
      invariant DependenciesFirst(g, roots) ==> emitted == roots[..i]
    {
      ghost var before := emitted;
      assert roots[i] in roots;
      assert roots[..i + 1] == roots[..i] + [roots[i]];
      assert DependenciesFirst(g, roots) ==> roots[i] !in emitted;
      state, emitted := Visit(g, roots[i], state, emitted);
    }
    assert roots[..|roots|] == roots;
  }

  // ---------- What a declaration refers to ----------

  const SUFFIX := "Schema"

  predicate IsWord(c: char) {
    'a' <= c <= 'z' || 'A' <= c <= 'Z' || '0' <= c <= '9' || c == '_'
  }

  /** `s[a..b]` is a run of word characters that cannot be extended either way. */
  ghost predicate MaximalWord(s: string, a: nat, b: nat) {
    && a < b <= |s|
    && (forall i | a <= i < b :: IsWord(s[i]))
    && (a == 0 || !IsWord(s[a - 1]))
    && (b == |s| || !IsWord(s[b]))
  }

  predicate IsSchemaName(w: string) {
    |w| >= |SUFFIX| && w[|w| - |SUFFIX|..] == SUFFIX
  }

  ghost predicate MentionsBefore(s: string, w: string, end: nat) {
    IsSchemaName(w) && exists a: nat, b: nat :: MaximalWord(s, a, b) && b <= end && s[a..b] == w
  }

  /** The whole word `w` occurs in `s` and names a schema. */
  ghost predicate Mentions(s: string, w: string) {
    MentionsBefore(s, w, |s|)
  }

  /** A letter, a digit or an underscore. */
  predicate IsIdentifierChar(c: char) {
    c == '_' || '0' <= c <= '9' || 'A' <= c <= 'Z' || 'a' <= c <= 'z'
  }

  /** `w` stands in `s` between `before` and `after`, made of identifier characters and next
    * to none, and ends in `Schema`. */
  ghost predicate StandsIn(s: string, before: string, w: string, after: string) {
    && s == before + w + after && |w| >= 6 && w[|w| - 6..] == "Schema"
    && (forall i | 0 <= i < |w| :: IsIdentifierChar(w[i]))
    && (before != "" ==> !IsIdentifierChar(before[|before| - 1]))
    && (after != "" ==> !IsIdentifierChar(after[0]))
  }

  lemma MaximalStands(s: string, a: nat, b: nat)
    requires MaximalWord(s, a, b) && IsSchemaName(s[a..b])
    ensures StandsIn(s, s[..a], s[a..b], s[b..])
  {
    var w := s[a..b];
    assert s == s[..a] + w + s[b..];
    assert forall i | 0 <= i < |w| :: w[i] == s[a + i];
  }

  lemma StandingIsMaximal(s: string, before: string, w: string, after: string)
    requires StandsIn(s, before, w, after)
    ensures IsSchemaName(w) && MaximalWord(s, |before|, |before| + |w|) && s[|before|..|before| + |w|] == w
  {
    var a, b := |before|, |before| + |w|;
    assert s[a..b] == w && s[..a] == before && s[b..] == after;
    assert forall i | a <= i < b :: s[i] == w[i - a];
    assert a > 0 ==> s[a - 1] == before[a - 1];
    assert b < |s| ==> s[b] == after[0];
  }

  /** A text mentions exactly the whole words in it that end in `Schema`. */
  lemma MentionsExactly(s: string, w: string)
    ensures Mentions(s, w) <==> exists before, after :: StandsIn(s, before, w, after)
  {
    if Mentions(s, w) {
      var a: nat, b: nat :| MaximalWord(s, a, b) && s[a..b] == w;
      MaximalStands(s, a, b);
    }
    if before, after :| StandsIn(s, before, w, after) {
      StandingIsMaximal(s, before, w, after);
    }
  }

  method SchemaIdents(s: string) returns (out: seq<string>)
    ensures forall w :: w in out <==> Mentions(s, w)
  {
    out := [];
    var i := 0;
    assert forall w :: !MentionsBefore(s, w, 0);
    while i < |s|
      invariant i <= |s|
      invariant 0 < i < |s| ==> !IsWord(s[i - 1]) || !IsWord(s[i])
      invariant forall w :: w in out <==> MentionsBefore(s, w, i)
    {
      ghost var from, old_out := i, out;
      if IsWord(s[i]) && (i == 0 || !IsWord(s[i - 1])) {
        var start := i;
        while i < |s| && IsWord(s[i])
          invariant start <= i <= |s|
          invariant forall j | start <= j < i :: IsWord(s[j])
          invariant out == old_out
        {
          i := i + 1;
        }
        var word := s[start..i];
        assert MaximalWord(s, start, i);
        if IsSchemaName(word) {
          out := out + [word];
        }
        forall w ensures w in out <==> MentionsBefore(s, w, i) {
          if MentionsBefore(s, w, i) && !MentionsBefore(s, w, from) {
            var a: nat, b: nat :| MaximalWord(s, a, b) && b <= i && s[a..b] == w;
            assert a == start && b == i by {
              assert IsWord(s[b - 1]);
            }
          }
        }
      } else {
        i := i + 1;
        NoWordEndsAfter(s, from);
      }
    }
  }

  lemma NoWordEndsAfter(s: string, i: nat)
    requires i < |s| && !IsWord(s[i])
    ensures forall w :: MentionsBefore(s, w, i + 1) <==> MentionsBefore(s, w, i)
  {
  }

  // ---------- The units of the file ----------

  /** A generated statement: a schema, the type inferred from a schema, or another. */
  datatype Stmt = Schema(name: string, text: string) | Infer(name: string, text: string) | Other(text: string)

  datatype Unit = Unit(decl: string, infer: string, order: nat)

  ghost predicate DistinctOrders(units: map<string, Unit>) {
    forall m <- units, n <- units | m != n :: units[m].order != units[n].order
  }

  /** The pairing of each schema with its inferred type, and the number of
    * declarations read: a repeated declaration keeps its first place. */
  ghost function UnitsOf(stmts: seq<Stmt>): (r: (map<string, Unit>, nat)) {
    if stmts == [] then (map[], 0)
    else
      var (units, order) := UnitsOf(stmts[..|stmts| - 1]);
      match stmts[|stmts| - 1]
      case Schema(name, text) =>
        var u := if name in units then units[name] else Unit("", "", order);
        (units[name := u.(decl := text)], order + 1)
      case Infer(name, text) =>
        (if name in units then units[name := units[name].(infer := text)] else units, order)
      case Other(_) => (units, order)
  }

  ghost predicate Declares(s: Stmt, n: string) {
    s.Schema? && s.name == n
  }

  /** `text` is the last declaration of `n`. */
  ghost predicate LastDecl(stmts: seq<Stmt>, n: string, text: string) {
    exists i | 0 <= i < |stmts| ::
      stmts[i] == Schema(n, text) && forall j | i < j < |stmts| :: !Declares(stmts[j], n)
  }

  lemma {:induction false} UnitsAreTheSchemas(stmts: seq<Stmt>)
    ensures forall n :: n in UnitsOf(stmts).0 <==> exists s <- stmts :: Declares(s, n)
    decreases |stmts|
  {
    if stmts != [] {
      var before, last := stmts[..|stmts| - 1], stmts[|stmts| - 1];
      UnitsAreTheSchemas(before);
      assert stmts == before + [last];
      forall n ensures (exists s <- stmts :: Declares(s, n))
              <==> (exists s <- before :: Declares(s, n)) || Declares(last, n) {
        assert last in stmts;
      }
    }
  }

  lemma {:induction false} UnitsHoldLastDecl(stmts: seq<Stmt>, n: string)
    requires n in UnitsOf(stmts).0
    ensures LastDecl(stmts, n, UnitsOf(stmts).0[n].decl)
    decreases |stmts|
  {
    var h := |stmts| - 1;
    var before := stmts[..h];
    if !Declares(stmts[h], n) {
      UnitsHoldLastDecl(before, n);
      var i :| 0 <= i < h && before[i] == Schema(n, UnitsOf(before).0[n].decl)
               && forall j | i < j < h :: !Declares(before[j], n);
      assert stmts[i] == before[i];
      assert forall j | i < j < h :: stmts[j] == before[j];
    }
  }

  /** The place of the first declaration of `n`, behind the last statement when there is none. */
  ghost function FirstDeclared(stmts: seq<Stmt>, n: string): (i: nat)
    ensures i <= |stmts| && (i < |stmts| ==> Declares(stmts[i], n))
    ensures forall j | 0 <= j < i :: !Declares(stmts[j], n)
  {
    if stmts == [] then 0
    else
      var h := |stmts| - 1;
      var i := FirstDeclared(stmts[..h], n);
      if i < h || Declares(stmts[h], n) then i else h + 1
  }

  ghost predicate Infers(s: Stmt, n: string) {
    s.Infer? && s.name == n
  }

  /** `text` is the last type inferred from `n` behind the first declaration of `n`, or
    * nothing when there is none. */
  ghost predicate LastInferred(stmts: seq<Stmt>, n: string, text: string) {
    var first := FirstDeclared(stmts, n);
    || (exists i | first < i < |stmts| ::
          stmts[i] == Infer(n, text) && forall j | i < j < |stmts| :: !Infers(stmts[j], n))
    || (text == "" && forall i | first < i < |stmts| :: !Infers(stmts[i], n))
  }

  lemma {:induction false} UnitsHoldLastInferred(stmts: seq<Stmt>, n: string)
    requires n in UnitsOf(stmts).0
    ensures LastInferred(stmts, n, UnitsOf(stmts).0[n].infer)
    decreases |stmts|
  {
    var h := |stmts| - 1;
    var before := stmts[..h];
    UnitsAreTheSchemas(before);
    assert stmts == before + [stmts[h]];
    FirstDeclaredAfter(before, stmts[h], n);
    if n !in UnitsOf(before).0 {
      NotDeclared(before, n);
      assert Declares(stmts[h], n);
    } else {
      var s :| s in before && Declares(s, n);
      var text := UnitsOf(before).0[n].infer;
      UnitsHoldLastInferred(before, n);
      if Infers(stmts[h], n) {
        assert stmts[h] == Infer(n, UnitsOf(stmts).0[n].infer);
      } else {
        InferredStays(before, stmts[h], n, text);
      }
    }
  }

  lemma NotDeclared(stmts: seq<Stmt>, n: string)
    requires n !in UnitsOf(stmts).0
    ensures FirstDeclared(stmts, n) == |stmts|
  {
    UnitsAreTheSchemas(stmts);
    assert forall i | 0 <= i < |stmts| :: stmts[i] in stmts;
  }

  lemma InferredStays(stmts: seq<Stmt>, last: Stmt, n: string, text: string)
    requires LastInferred(stmts, n, text) && !Infers(last, n) && FirstDeclared(stmts, n) < |stmts|
    ensures LastInferred(stmts + [last], n, text)
  {
    FirstDeclaredAfter(stmts, last, n);
    var first, longer := FirstDeclared(stmts, n), stmts + [last];
    assert forall j | 0 <= j < |stmts| :: longer[j] == stmts[j];
    if i :| first < i < |stmts| && stmts[i] == Infer(n, text) && forall j | i < j < |stmts| :: !Infers(stmts[j], n) {
      assert longer[i] == Infer(n, text);
      assert forall j | i < j < |longer| :: !Infers(longer[j], n);
    }
  }

  /** The units are the declared names, numbered below `order` as the file first declares them. */
  ghost predicate Numbered(stmts: seq<Stmt>, units: map<string, Unit>, order: nat) {
    && (forall n <- units :: units[n].order < order)
    && (forall n :: n in units <==> FirstDeclared(stmts, n) < |stmts|)
    && (forall m <- units, n <- units ::
          units[m].order < units[n].order <==> FirstDeclared(stmts, m) < FirstDeclared(stmts, n))
  }

  lemma FirstDeclaredAfter(stmts: seq<Stmt>, last: Stmt, n: string)
    ensures FirstDeclared(stmts + [last], n) == FirstDeclared(stmts, n)
            + if FirstDeclared(stmts, n) == |stmts| && !Declares(last, n) then 1 else 0
  {
    assert (stmts + [last])[..|stmts|] == stmts;
  }

  lemma NumberedAfter(stmts: seq<Stmt>, last: Stmt, units: map<string, Unit>, order: nat,
          units': map<string, Unit>, order': nat)
    requires Numbered(stmts, units, order) && order <= order'
    requires forall n <- units :: n in units' && units'[n].order == units[n].order
    requires forall n <- units' :: n in units || (Declares(last, n) && units'[n].order == order < order')
    requires last.Schema? ==> last.name in units'
    ensures Numbered(stmts + [last], units', order')
  {
    forall n ensures FirstDeclared(stmts + [last], n) == FirstDeclared(stmts, n)
                     + if FirstDeclared(stmts, n) == |stmts| && !Declares(last, n) then 1 else 0 {
      FirstDeclaredAfter(stmts, last, n);
    }
  }

  /** The units are numbered in the order in which the file first declares them. */
  lemma {:induction false} UnitsKeepOrder(stmts: seq<Stmt>)
    ensures Numbered(stmts, UnitsOf(stmts).0, UnitsOf(stmts).1)
    decreases |stmts|
  {
    if stmts != [] {
      var before, last := stmts[..|stmts| - 1], stmts[|stmts| - 1];
      UnitsKeepOrder(before);
      assert stmts == before + [last];
      NumberedAfter(before, last, UnitsOf(before).0, UnitsOf(before).1, UnitsOf(stmts).0, UnitsOf(stmts).1);
    }
  }

  lemma OrdersDiffer(stmts: seq<Stmt>)
    ensures DistinctOrders(UnitsOf(stmts).0)
  {
    UnitsKeepOrder(stmts);
    var units := UnitsOf(stmts).0;
    forall m <- units, n <- units | m != n ensures units[m].order != units[n].order {
      assert Declares(stmts[FirstDeclared(stmts, m)], m) && Declares(stmts[FirstDeclared(stmts, n)], n);
    }
  }

  /** The names stand in the order in which the file first declares them. */
  ghost predicate InFileOrder(stmts: seq<Stmt>, s: seq<string>) {
    forall i, j | 0 <= i < j < |s| :: FirstDeclared(stmts, s[i]) < FirstDeclared(stmts, s[j])
  }

  lemma FileOrderIsOrder(stmts: seq<Stmt>, s: seq<string>)
    requires forall i | 0 <= i < |s| :: s[i] in UnitsOf(stmts).0
    ensures InFileOrder(stmts, s) <==> InOrder(UnitsOf(stmts).0, s)
  {
    UnitsKeepOrder(stmts);
  }

  /** Pair each schema with its inferred type, keyed by the schema's name. */
  method CollectUnits(stmts: seq<Stmt>) returns (units: map<string, Unit>)
    ensures units == UnitsOf(stmts).0
  {
    units := map[];
    var order := 0;
    for i := 0 to |stmts|
      invariant (units, order) == UnitsOf(stmts[..i])
    {
      assert stmts[..i + 1][..i] == stmts[..i];
      match stmts[i]
      case Schema(name, text) =>
        var u := if name in units then units[name] else Unit("", "", order);
        units := units[name := u.(decl := text)];
        order := order + 1;
      case Infer(name, text) =>
        if name in units {
          units := units[name := units[name].(infer := text)];
        }
      case Other(_) =>
    }
    assert stmts[..|stmts|] == stmts;
  }

  /** The other known names that a declaration mentions. */
  ghost function Used(decl: string, name: string, known: set<string>): set<string> {
    set d | d in known && d != name && Mentions(decl, d)
  }

  /** `g` gives each unit the other units its declaration mentions, sorted. */
  ghost predicate IsDependencyGraph(units: map<string, Unit>, g: Graph) {
    && g.Keys == units.Keys
    && forall n <- units :: g[n] == Text.Sorted(Used(units[n].decl, n, units.Keys))
  }

  method Dependencies(units: map<string, Unit>) returns (g: Graph)
    ensures IsDependencyGraph(units, g)
  {
    g := map[];
    var names := units.Keys;
    while names != {}
      invariant names <= units.Keys && g.Keys == units.Keys - names
      invariant forall n <- g :: g[n] == Text.Sorted(Used(units[n].decl, n, units.Keys))
      decreases |names|
    {
      var name :| name in names;
      names := names - {name};
      var ds := References(units[name].decl, name, units.Keys);
      g := g[name := ds];
    }
  }

  /** The other known names that a declaration mentions, sorted, each once. */
  method References(decl: string, name: string, known: set<string>) returns (ds: seq<string>)
    ensures ds == Text.Sorted(Used(decl, name, known))
  {
    var idents := SchemaIdents(decl);
    var found := {};
    for i := 0 to |idents|
      invariant forall d :: d in found <==> d in idents[..i] && d in known && d != name
    {
      if idents[i] != name && idents[i] in known {
        found := found + {idents[i]};
      }
    }
    assert found == Used(decl, name, known);
    ds := Text.SortKeys(found);
  }

  ghost predicate InOrder(units: map<string, Unit>, s: seq<string>) {
    && (forall i | 0 <= i < |s| :: s[i] in units)
    && forall i, j | 0 <= i < j < |s| :: units[s[i]].order < units[s[j]].order
  }

  lemma {:induction false} HasEarliest(units: map<string, Unit>, names: set<string>)
    requires names != {} && names <= units.Keys
    ensures exists n <- names :: forall m <- names :: units[n].order <= units[m].order
    decreases names
  {
    var n :| n in names;
    var rest := names - {n};
    if rest == {} {
      assert names == {n};
    } else {
      HasEarliest(units, rest);
      var e :| e in rest && forall m <- rest :: units[e].order <= units[m].order;
      var first := if units[n].order <= units[e].order then n else e;
      assert forall m <- names :: units[first].order <= units[m].order;
    }
  }

  /** The names of the units, in the order their declarations were first read. */
  method Roots(units: map<string, Unit>) returns (roots: seq<string>)
    requires DistinctOrders(units)
    ensures InOrder(units, roots)
    ensures forall n :: n in roots <==> n in units
  {
    roots := [];
    var names := units.Keys;
    while names != {}
      invariant names <= units.Keys && InOrder(units, roots)
      invariant forall n :: n in roots <==> n in units.Keys - names
      invariant forall m <- roots, n <- names :: units[m].order < units[n].order
      decreases |names|
    {
      HasEarliest(units, names);
      var n :| n in names && forall m <- names :: units[n].order <= units[m].order;
      names := names - {n};
      forall i | 0 <= i < |roots| ensures units[roots[i]].order < units[n].order {
        assert roots[i] in roots;
      }
      roots := roots + [n];
    }
  }

  // ---------- The whole pass ----------

  ghost function Rendered(units: map<string, Unit>, names: seq<string>): string
    requires forall n <- names :: n in units
  {
    if names == [] then ""
    else
      var u := units[names[|names| - 1]];
      Rendered(units, names[..|names| - 1]) + u.decl + u.infer + "\n"
  }

  /** Between `from` and `to` stand the last declaration of `n`, the last type inferred
    * from it, and a line end. */
  ghost predicate IsBlock(stmts: seq<Stmt>, n: string, out: string, from: nat, to: nat) {
    exists decl, infer | LastDecl(stmts, n, decl) && LastInferred(stmts, n, infer) ::
      from <= to <= |out| && out[from..to] == decl + infer + "\n"
  }

  /** The file is the header and a block for each name, in their order: `cuts` says where
    * the blocks start and end. */
  ghost predicate IsFile(header: string, stmts: seq<Stmt>, names: seq<string>, out: string, cuts: seq<nat>) {
    && |cuts| == |names| + 1 && cuts[0] == |header| && header <= out && cuts[|names|] == |out|
    && forall i | 0 <= i < |names| :: IsBlock(stmts, names[i], out, cuts[i], cuts[i + 1])
  }

  lemma {:induction false} RenderedIsFile(header: string, stmts: seq<Stmt>, names: seq<string>) returns (cuts: seq<nat>)
    requires forall n <- names :: n in UnitsOf(stmts).0
    ensures IsFile(header, stmts, names, header + Rendered(UnitsOf(stmts).0, names), cuts)
    decreases |names|
  {
    var units := UnitsOf(stmts).0;
    if names == [] {
      cuts := [|header|];
    } else {
      var front, n := names[..|names| - 1], names[|names| - 1];
      var u := units[n];
      var front_cuts := RenderedIsFile(header, stmts, front);
      var was, now := header + Rendered(units, front), header + Rendered(units, names);
      assert now == was + (u.decl + u.infer + "\n");
      UnitsHoldLastDecl(stmts, n);
      UnitsHoldLastInferred(stmts, n);
      cuts := front_cuts + [|now|];
      forall i | 0 <= i < |names| ensures IsBlock(stmts, names[i], now, cuts[i], cuts[i + 1]) {
        if i < |front| {
          assert names[i] == front[i];
          BlockStays(stmts, front[i], was, u.decl + u.infer + "\n", cuts[i], cuts[i + 1]);
        } else {
          assert now[|was|..|now|] == u.decl + u.infer + "\n";
        }
      }
    }
  }

  lemma BlockStays(stmts: seq<Stmt>, n: string, out: string, more: string, from: nat, to: nat)
    requires IsBlock(stmts, n, out, from, to)
    ensures IsBlock(stmts, n, out + more, from, to)
  {
    assert from <= to <= |out| && (out + more)[from..to] == out[from..to];
  }

  /** Every declaration comes after the ones it mentions. */
  ghost predicate DeclaredBeforeUse(units: map<string, Unit>, s: seq<string>) {
    forall i, d | 0 <= i < |s| && s[i] in units && d in units && d != s[i] && Mentions(units[s[i]].decl, d) ::
      d in s[..i]
  }

  lemma DeclaredBeforeUseIsDependenciesFirst(units: map<string, Unit>, g: Graph, s: seq<string>)
    requires IsDependencyGraph(units, g) && forall n <- s :: n in units
    ensures DeclaredBeforeUse(units, s) <==> DependenciesFirst(g, s)
  {
  }

  /** Emits every unit exactly once. Declarations come before their uses exactly
    * when no declarations refer to each other in a cycle; a file already in such
    * an order keeps it. */
  method TopoSort(header: string, stmts: seq<Stmt>)
    returns (out: string, emitted: seq<string>, g: Graph, ghost cuts: seq<nat>)
    ensures IsFile(header, stmts, emitted, out, cuts)
    ensures var units := UnitsOf(stmts).0;
            && IsDependencyGraph(units, g)
            && Lists(g, emitted)
            && DependenciesFirstOffCycles(g, emitted)
            && (DeclaredBeforeUse(units, emitted) <==> Acyclic(g))
            && (forall names | Lists(g, names) && InFileOrder(stmts, names) && DeclaredBeforeUse(units, names) ::
                  emitted == names)
  {
    OrdersDiffer(stmts);
    var units := CollectUnits(stmts);
    g := Dependencies(units);
    var roots := Roots(units);
    emitted := Search(g, roots);
    FirstRootsAreInOrder(stmts, units, g, roots, emitted);
    OrderedExactlyIfAcyclic(units, g, emitted);
    out := Render(header, units, emitted);
    cuts := RenderedIsFile(header, stmts, emitted);
  }

  lemma OrderedExactlyIfAcyclic(units: map<string, Unit>, g: Graph, emitted: seq<string>)
    requires IsDependencyGraph(units, g) && Lists(g, emitted) && DependenciesFirstOffCycles(g, emitted)
    ensures DeclaredBeforeUse(units, emitted) <==> Acyclic(g)
  {
    DeclaredBeforeUseIsDependenciesFirst(units, g, emitted);
    if Acyclic(g) {
      OffCyclesIsEverywhere(g, emitted);
    } else if DependenciesFirst(g, emitted) {
      OrderedOnlyIfAcyclic(g, emitted);
    }
  }

  method Render(header: string, units: map<string, Unit>, names: seq<string>) returns (out: string)
    requires forall n <- names :: n in units
    ensures out == header + Rendered(units, names)
  {
    out := header;
    for i := 0 to |names|
      invariant out == header + Rendered(units, names[..i])
    {
      assert names[..i + 1][..i] == names[..i];
      var u := units[names[i]];
      out := out + u.decl;
      if u.infer != "" {
        out := out + u.infer;
      }
      out := out + "\n";
    }
    assert names[..|names|] == names;
  }

  lemma FirstRootsAreInOrder(
      stmts: seq<Stmt>, units: map<string, Unit>, g: Graph, roots: seq<string>, emitted: seq<string>)
    requires units == UnitsOf(stmts).0
    requires IsDependencyGraph(units, g) && InOrder(units, roots) && forall n :: n in roots <==> n in units
    requires DependenciesFirst(g, roots) ==> emitted == roots
    ensures forall names | Lists(g, names) && InFileOrder(stmts, names) && DeclaredBeforeUse(units, names) ::
              emitted == names
  {
    forall names | Lists(g, names) && InFileOrder(stmts, names) && DeclaredBeforeUse(units, names)
      ensures emitted == names
    {
      forall i | 0 <= i < |names| ensures names[i] in units {
        assert names[i] in names;
      }
      FileOrderIsOrder(stmts, names);
      SortedOnce(units, roots, names);
      DeclaredBeforeUseIsDependenciesFirst(units, g, names);
    }
  }

  /** There is one way to list the same names in order. */
  lemma {:induction false} SortedOnce(units: map<string, Unit>, s: seq<string>, t: seq<string>)
    requires InOrder(units, s) && InOrder(units, t) && forall n :: n in s <==> n in t
    ensures s == t
    decreases |s|
  {
    assert (s != [] ==> s[0] in s) && (t != [] ==> t[0] in t);
    if s != [] {
      assert s[0] in t;
      assert s[0] == t[0];
      forall n ensures n in s[1..] <==> n in t[1..] {
        assert n in s <==> n == s[0] || n in s[1..];
        assert n in t <==> n == t[0] || n in t[1..];
      }
      SortedOnce(units, s[1..], t[1..]);
    }
  }
}
