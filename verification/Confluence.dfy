/**
 When the schedule does not matter: the programs, in either mode, that end with the same triggered
 expectations however their goroutines are interleaved.
*/
module Confluence {
  import opened Wrappers
  import opened Matching
  import opened Interleaving
  import opened Schedules
  import opened Commuting
  import Swapping

  /** Completed runs of the program trigger the same expectations. */
  ghost predicate ScheduleFree(pr: Program) {
    forall s, n | Reachable(pr, s) && Reachable(pr, n) && AllFinished(s) && AllFinished(n) :: s.sh.done == n.sh.done
  }

  /** Calls of different goroutines are safe to swap. */
  ghost predicate SafeProgram(pr: Program) {
    forall t, u | 0 <= t < u < |pr.ops| && pr.ops[t].Driver? && pr.ops[u].Driver? && pr.routine(t) != pr.routine(u) ::
      Swapping.PairSafe(pr.cfg, pr.ops[t].call, pr.ops[u].call)
  }

  /** The two operations can be logged in either order with the same effect. */
  ghost predicate OpsCommute(pr: Program, x: nat, y: nat) {
    x < |pr.ops| && y < |pr.ops| && pr.ops[x].Driver? && pr.ops[y].Driver? ==>
      Commute(pr.cfg, pr.ops[x].call, pr.ops[y].call)
  }

  lemma AroundTwo(pr: Program, done: set<nat>, a: seq<nat>, two: seq<nat>, b: seq<nat>)
    requires InRange(pr, a) && InRange(pr, two) && InRange(pr, b)
    ensures InRange(pr, a + two + b)
    ensures var before := Run(pr.cfg, done, DriverCalls(pr, a));
            Run(pr.cfg, done, DriverCalls(pr, a + two + b)) ==
            Run(pr.cfg, Run(pr.cfg, before, DriverCalls(pr, two)), DriverCalls(pr, b))
  {
    var p, q, r := DriverCalls(pr, a), DriverCalls(pr, two), DriverCalls(pr, b);
    DriverCallsAppend(pr, a, two);
    DriverCallsAppend(pr, a + two, b);
    RunAppend(pr.cfg, done, p + q, r);
    RunAppend(pr.cfg, done, p, q);
  }

  lemma TwoSwap(pr: Program, done: set<nat>, x: nat, y: nat)
    requires x < |pr.ops| && y < |pr.ops| && OpsCommute(pr, x, y)
    ensures Run(pr.cfg, done, DriverCalls(pr, [x, y])) == Run(pr.cfg, done, DriverCalls(pr, [y, x]))
  {
    CallsOfTwo(pr, x, y);
    CallsOfTwo(pr, y, x);
    if pr.ops[x].Driver? && pr.ops[y].Driver? {
      assert DriverCalls(pr, [x, y]) == [pr.ops[x].call, pr.ops[y].call];
      assert DriverCalls(pr, [y, x]) == [pr.ops[y].call, pr.ops[x].call];
    } else {
      assert DriverCalls(pr, [x, y]) == DriverCalls(pr, [y, x]);
    }
  }

  lemma SwapNext(pr: Program, done: set<nat>, a: seq<nat>, x: nat, y: nat, b: seq<nat>)
    requires InRange(pr, a) && x < |pr.ops| && y < |pr.ops| && InRange(pr, b) && OpsCommute(pr, x, y)
    ensures InRange(pr, a + [x, y] + b) && InRange(pr, a + [y, x] + b)
    ensures Run(pr.cfg, done, DriverCalls(pr, a + [x, y] + b)) == Run(pr.cfg, done, DriverCalls(pr, a + [y, x] + b))
  {
    AroundTwo(pr, done, a, [x, y], b);
    AroundTwo(pr, done, a, [y, x], b);
    TwoSwap(pr, Run(pr.cfg, done, DriverCalls(pr, a)), x, y);
  }

  function CallsOf(op: Op): seq<Call> {
    if op.Driver? then [op.call] else []
  }

  lemma CallsOfTwo(pr: Program, t: nat, u: nat)
    requires t < |pr.ops| && u < |pr.ops|
    ensures DriverCalls(pr, [t, u]) == CallsOf(pr.ops[t]) + CallsOf(pr.ops[u])
  {
    assert [t, u][..1] == [t] && [t][..0] == [];
    assert DriverCalls(pr, [t]) == CallsOf(pr.ops[t]);
  }

  lemma {:induction false} MoveToEnd(pr: Program, done: set<nat>, a: seq<nat>, x: nat, b: seq<nat>)
    requires InRange(pr, a) && x < |pr.ops| && InRange(pr, b) && forall k | 0 <= k < |b| :: OpsCommute(pr, x, b[k])
    ensures InRange(pr, a + [x] + b) && InRange(pr, a + b + [x])
    ensures Run(pr.cfg, done, DriverCalls(pr, a + [x] + b)) == Run(pr.cfg, done, DriverCalls(pr, a + b + [x]))
    decreases |b|
  {
    if b == [] {
      assert a + [x] + b == a + b + [x];
    } else {
      var y, rest := b[0], b[1..];
      assert a + [x] + b == a + [x, y] + rest;
      assert a + [y] + [x] + rest == a + [y, x] + rest;
      assert a + [y] + rest + [x] == a + b + [x];
      SwapNext(pr, done, a, x, y, rest);
      MoveToEnd(pr, done, a + [y], x, rest);
    }
  }

  /** Threads that come in one order in one log and in the other order in another one are not bound to
      either, so their calls commute. */
  lemma UnboundCommute(pr: Program, x: nat, y: nat)
    requires SafeProgram(pr) && x < |pr.ops| && y < |pr.ops| && x != y && !Precedes(pr, x, y) && !Precedes(pr, y, x)
    ensures OpsCommute(pr, x, y)
  {
    if pr.ops[x].Driver? && pr.ops[y].Driver? {
      var a, b := pr.ops[x].call, pr.ops[y].call;
      if x < y {
        Swapping.CommuteIff(pr.cfg, a, b);
      } else {
        Swapping.CommuteIff(pr.cfg, b, a);
        assert forall done :: Run(pr.cfg, done, [a, b]) == Run(pr.cfg, done, [b, a]);
      }
    }
  }

  lemma WithoutOne(pr: Program, a: seq<nat>, x: nat, b: seq<nat>)
    requires InRange(pr, a + [x] + b) && NoInversion(pr, a + [x] + b)
    ensures InRange(pr, a) && InRange(pr, b) && InRange(pr, a + b) && x < |pr.ops| && NoInversion(pr, a + b)
  {
    var m, n := a + [x] + b, a + b;
    assert m[|a|] == x;
    assert forall k | 0 <= k < |n| :: n[k] == m[if k < |a| then k else k + 1];
    assert forall k | 0 <= k < |a| :: a[k] == m[k];
    assert forall k | 0 <= k < |b| :: b[k] == m[|a| + 1 + k];
  }

  lemma EndTogether(pr: Program, done: set<nat>, l: seq<nat>, m: seq<nat>, x: nat)
    requires InRange(pr, l) && InRange(pr, m) && x < |pr.ops|
    requires Run(pr.cfg, done, DriverCalls(pr, l)) == Run(pr.cfg, done, DriverCalls(pr, m))
    ensures InRange(pr, l + [x]) && InRange(pr, m + [x])
    ensures Run(pr.cfg, done, DriverCalls(pr, l + [x])) == Run(pr.cfg, done, DriverCalls(pr, m + [x]))
  {
    AroundTwo(pr, done, l, [x], []);
    AroundTwo(pr, done, m, [x], []);
    assert l + [x] + [] == l + [x] && m + [x] + [] == m + [x];
  }

  lemma ManyUnbound(pr: Program, init: seq<nat>, x: nat, a: seq<nat>, b: seq<nat>)
    requires SafeProgram(pr) && InRange(pr, a + [x] + b)
    requires multiset(init) == multiset(a + b) && x !in init
    requires NoInversion(pr, init + [x]) && NoInversion(pr, a + [x] + b)
    ensures forall k | 0 <= k < |b| :: OpsCommute(pr, x, b[k])
  {
    WithoutOne(pr, a, x, b);
    forall k | 0 <= k < |b|
      ensures OpsCommute(pr, x, b[k])
    {
      BehindIsUnbound(pr, init, x, a, b, k);
      UnboundCommute(pr, x, b[k]);
    }
  }

  lemma SplitAt(init: seq<nat>, x: nat, m: seq<nat>) returns (a: seq<nat>, b: seq<nat>)
    requires multiset(init + [x]) == multiset(m)
    ensures m == a + [x] + b && multiset(init) == multiset(a + b)
  {
    assert multiset([x] + init) == multiset(init + [x]);
    a, b := SplitPermutation(x, init, m);
  }

  lemma BehindIsUnbound(pr: Program, init: seq<nat>, x: nat, a: seq<nat>, b: seq<nat>, k: nat)
    requires multiset(init) == multiset(a + b) && x !in init && k < |b|
    requires NoInversion(pr, init + [x]) && NoInversion(pr, a + [x] + b)
    ensures b[k] != x && !Precedes(pr, x, b[k]) && !Precedes(pr, b[k], x)
  {
    var m := a + [x] + b;
    assert m[|a|] == x && m[|a| + 1 + k] == b[k];
    assert (a + b)[|a| + k] == b[k] && b[k] in multiset(a + b) && b[k] in init;
    var i :| 0 <= i < |init| && init[i] == b[k];
    assert (init + [x])[i] == b[k] && (init + [x])[|init|] == x;
  }

  /** The last thread of one log, and where it stands in the other. */
  lemma SplitLast(pr: Program, l: seq<nat>, m: seq<nat>) returns (init: seq<nat>, x: nat, a: seq<nat>, b: seq<nat>)
    requires SafeProgram(pr) && InRange(pr, l) && InRange(pr, m) && l != [] && multiset(l) == multiset(m)
    requires Distinct(l) && NoInversion(pr, l) && NoInversion(pr, m)
    ensures l == init + [x] && m == a + [x] + b && multiset(init) == multiset(a + b)
    ensures InRange(pr, init) && InRange(pr, a) && InRange(pr, b) && InRange(pr, a + b) && x < |pr.ops|
    ensures Distinct(init) && NoInversion(pr, init) && NoInversion(pr, a + b)
    ensures forall k | 0 <= k < |b| :: OpsCommute(pr, x, b[k])
  {
    init, x := l[..|l| - 1], l[|l| - 1];
    assert l == init + [x] && x !in init;
    a, b := SplitAt(init, x, m);
    WithoutOne(pr, a, x, b);
    ManyUnbound(pr, init, x, a, b);
  }

  /** Logs of the same threads, both in program order, trigger the same expectations. */
  lemma {:induction false} LogsAgree(pr: Program, done: set<nat>, l: seq<nat>, m: seq<nat>)
    requires SafeProgram(pr) && InRange(pr, l) && InRange(pr, m) && multiset(l) == multiset(m)
    requires Distinct(l) && NoInversion(pr, l) && NoInversion(pr, m)
    ensures Run(pr.cfg, done, DriverCalls(pr, l)) == Run(pr.cfg, done, DriverCalls(pr, m))
    decreases |l|
  {
    if l == [] {
      assert |m| == |multiset(m)|;
    } else {
      var init, x, a, b := SplitLast(pr, l, m);
      MoveToEnd(pr, done, a, x, b);
      LogsAgree(pr, done, init, a + b);
      EndTogether(pr, done, init, a + b, x);
    }
  }

  /** Schedule independence, in either mode: completed runs of the same goroutines trigger the same
      expectations, however they were interleaved. */
  lemma ScheduleDoesNotMatter(pr: Program)
    requires SafeProgram(pr)
    ensures ScheduleFree(pr)
  {
    forall s, n | Reachable(pr, s) && Reachable(pr, n) && AllFinished(s) && AllFinished(n)
      ensures s.sh.done == n.sh.done
    {
      CompleteLogsAgree(pr, s, n);
      ProgramOrder(pr, s);
      ProgramOrder(pr, n);
      RespectsIsNoInversion(pr, s.log);
      RespectsIsNoInversion(pr, n.log);
      InterleavingIsSequentialRun(pr, s);
      InterleavingIsSequentialRun(pr, n);
      LogsAgree(pr, pr.start.done, s.log, n.log);
    }
  }

  // ----- necessity

  /** Both orders of two calls are completed runs of the two goroutines that make them. */
  lemma BothOrders(pr: Program) returns (s: System, n: System)
    requires |pr.ops| == 2 && pr.ops[0].Driver? && pr.ops[1].Driver? && pr.routine(0) != pr.routine(1)
    ensures Reachable(pr, s) && Reachable(pr, n) && AllFinished(s) && AllFinished(n)
    ensures s.sh.done == Run(pr.cfg, pr.start.done, [pr.ops[0].call, pr.ops[1].call])
    ensures n.sh.done == Run(pr.cfg, pr.start.done, [pr.ops[1].call, pr.ops[0].call])
  {
    s := EveryOrderHappens(pr, [0, 1]);
    n := EveryOrderHappens(pr, [1, 0]);
    InterleavingIsSequentialRun(pr, s);
    InterleavingIsSequentialRun(pr, n);
    CallsOfTwo(pr, 0, 1);
    CallsOfTwo(pr, 1, 0);
  }

  /** Some of the calls of the program, by the same goroutines, from some state. */
  function Part(pr: Program, at: seq<nat>, start: Shared): Program
    requires forall k | 0 <= k < |at| :: at[k] < |pr.ops|
  {
    Program(pr.cfg, Pick(pr.ops, at), (k: nat) => if k < |at| then pr.routine(at[k]) else 0, start)
  }

  ghost predicate CallsAt(pr: Program, at: seq<nat>) {
    Positions(pr.ops, at) && forall k | 0 <= k < |at| :: pr.ops[at[k]].Driver?
  }

  /** Whichever of the calls are made, and from whatever state, the schedule does not matter. */
  ghost predicate AllPartsScheduleFree(pr: Program) {
    forall start, at | CallsAt(pr, at) :: ScheduleFree(Part(pr, at, start))
  }

  lemma PartIsSafe(pr: Program, at: seq<nat>, start: Shared)
    requires SafeProgram(pr) && CallsAt(pr, at)
    ensures SafeProgram(Part(pr, at, start))
  {
    var part := Part(pr, at, start);
    forall t, u | 0 <= t < u < |part.ops| && part.routine(t) != part.routine(u)
      ensures Swapping.PairSafe(pr.cfg, part.ops[t].call, part.ops[u].call)
    {
      assert part.ops[t] == pr.ops[at[t]] && part.ops[u] == pr.ops[at[u]];
    }
  }

  lemma UnsafePartDepends(pr: Program, t: nat, u: nat) returns (start: Shared)
    requires t < u < |pr.ops| && pr.ops[t].Driver? && pr.ops[u].Driver? && pr.routine(t) != pr.routine(u)
    requires !Swapping.PairSafe(pr.cfg, pr.ops[t].call, pr.ops[u].call)
    ensures CallsAt(pr, [t, u]) && !ScheduleFree(Part(pr, [t, u], start))
  {
    var a, b := pr.ops[t].call, pr.ops[u].call;
    Swapping.CommuteIff(pr.cfg, a, b);
    var done :| Run(pr.cfg, done, [a, b]) != Run(pr.cfg, done, [b, a]);
    start := Shared(done, {}, {});
    var s, n := BothOrders(Part(pr, [t, u], start));
  }

  /** Exactly the safe programs do not depend on the schedule, whichever of their calls are made and
      whatever is already triggered. */
  lemma ScheduleFreeIff(pr: Program)
    ensures AllPartsScheduleFree(pr) <==> SafeProgram(pr)
  {
    if SafeProgram(pr) {
      forall start, at | CallsAt(pr, at)
        ensures ScheduleFree(Part(pr, at, start))
      {
        PartIsSafe(pr, at, start);
        ScheduleDoesNotMatter(Part(pr, at, start));
      }
    } else {
      var t, u :| 0 <= t < u < |pr.ops| && pr.ops[t].Driver? && pr.ops[u].Driver? && pr.routine(t) != pr.routine(u)
        && !Swapping.PairSafe(pr.cfg, pr.ops[t].call, pr.ops[u].call);
      var start := UnsafePartDepends(pr, t, u);
    }
  }

  /** In order, disjoint expectations do not make a program safe: of two goroutines that call Commit and
      Rollback, as expected in this order, one schedule meets both expectations and another only one. */
  lemma OrderedDependsOnSchedule(pr: Program) returns (s: System, n: System)
    requires pr.cfg.ordered && pr.start.done == {} && pr.routine(0) != pr.routine(1)
    requires pr.cfg.es == [Spec(ExpectedCommit, None, false, false), Spec(ExpectedRollback, None, false, false)]
    requires pr.ops == [Driver(Call.Commit, false), Driver(Rollback, false)]
    ensures Reachable(pr, s) && Reachable(pr, n) && AllFinished(s) && AllFinished(n)
    ensures s.sh.done == {0, 1} && n.sh.done == {0}
  {
    var cfg, a, b := pr.cfg, Call.Commit, Rollback;
    s, n := BothOrders(pr);
    RunTwo(cfg, {}, a, b);
    RunTwo(cfg, {}, b, a);
    assert Halts(cfg, {}, a, 0) && Halts(cfg, {}, b, 0);
    assert !Halts(cfg, {0}, b, 0) && Halts(cfg, {0}, b, 1);
    FirstHaltIs(cfg, {0}, b, 1);
    assert Step(cfg, {}, a) == Consumed(0) && Step(cfg, {0}, b) == Consumed(1);
    assert Step(cfg, {}, b) == OutOfTurn(0);
    assert {} + {0} == {0} && {0} + {1} == {0, 1};
  }
}
