/**
 What the schedules of a program can do: exactly the orders that respect the program order of each
 goroutine happen, and every completed run logs each thread once.
*/
module Schedules {
  import opened Wrappers
  import opened Interleaving

  // ----- one thread after the other

  lemma {:induction false} ExecAppend(pr: Program, s: System, a: seq<nat>, b: seq<nat>)
    requires Shaped(pr, s)
    ensures Exec(pr, s, a + b) == Exec(pr, Exec(pr, s, a), b)
    decreases |a|
  {
    if a == [] {
      assert a + b == b;
    } else {
      assert (a + b)[1..] == a[1..] + b;
      ExecAppend(pr, if Enabled(pr, s, a[0]) then Next(pr, s, a[0]) else s, a[1..], b);
    }
  }

  /** All threads but `t` have yet to start or have finished. */
  ghost predicate Alone(s: System, t: nat) {
    t < |s.phases| && forall u | 0 <= u < |s.phases| && u != t :: s.phases[u].Ready? || s.phases[u].Finished?
  }

  lemma AloneCanStep(pr: Program, s: System, t: nat)
    requires Invariant(pr, s) && Alone(s, t) && !s.phases[t].Finished?
    requires forall u | 0 <= u < t && Precedes(pr, u, t) :: s.phases[u].Finished?
    ensures Enabled(pr, s, t)
  {
    assert ThreadOk(pr, s.sh, pr.ops[t], s.phases[t]);
    var u := if s.pool.Some? then s.pool.value else 0;
    assert s.pool == Some(u) <==> u < |s.phases| && HoldsPool(pr.ops[u], s.phases[u]);
    if s.phases[t].Scan? && s.phases[t].i < |s.owner| {
      var o := s.owner[s.phases[t].i];
      var v := if o.Some? then o.value else 0;
      assert o == Some(v) <==> v < |s.phases| && Held(s.phases[v]) == Some(s.phases[t].i);
    }
  }

  /** A thread that is alone runs to its end, and enters the log on the way if it has not yet. */
  lemma {:induction false} RunAlone(pr: Program, s: System, t: nat) returns (schedule: seq<nat>)
    requires Invariant(pr, s) && Alone(s, t)
    requires forall u | 0 <= u < t && Precedes(pr, u, t) :: s.phases[u].Finished?
    ensures var n := Exec(pr, s, schedule);
            && n.phases[t].Finished? && (forall u | 0 <= u < |s.phases| && u != t :: n.phases[u] == s.phases[u])
            && n.log == if Linearized(s.phases[t]) then s.log else s.log + [t]
    decreases Rank(pr, s.phases[t])
  {
    if s.phases[t].Finished? {
      schedule := [];
    } else {
      AloneCanStep(pr, s, t);
      assert ThreadOk(pr, s.sh, pr.ops[t], s.phases[t]);
      var n := Next(pr, s, t);
      StepOk(pr, s, t);
      StepRefines(pr, s, t);
      StepMovesLocks(pr, s, t);
      StepLowersRank(pr, s, t);
      var rest := RunAlone(pr, n, t);
      schedule := [t] + rest;
      assert schedule[1..] == rest;
    }
  }

  ghost predicate Distinct(l: seq<nat>) {
    forall i, j | 0 <= i < j < |l| :: l[i] != l[j]
  }

  ghost predicate InRange(pr: Program, log: seq<nat>) {
    forall k | 0 <= k < |log| :: log[k] < |pr.ops|
  }

  /** Whatever precedes a listed thread is listed before it. */
  ghost predicate Respects(pr: Program, order: seq<nat>) {
    forall l, u: nat | 0 <= l < |order| && Precedes(pr, u, order[l]) :: u in order[..l]
  }

  /** The listed threads have run in the listed order, the others have yet to start. */
  ghost predicate RanInOrder(pr: Program, s: System, order: seq<nat>) {
    && s.log == order && |s.phases| == |pr.ops|
    && forall t | 0 <= t < |s.phases| :: if t in order then s.phases[t].Finished? else s.phases[t].Ready?
  }

  lemma RespectsPrefix(pr: Program, init: seq<nat>, t: nat)
    requires Respects(pr, init + [t])
    ensures Respects(pr, init) && forall u: nat | Precedes(pr, u, t) :: u in init
  {
    var order := init + [t];
    assert order[|init|] == t && order[..|init|] == init;
    forall l, u: nat | 0 <= l < |init| && Precedes(pr, u, init[l])
      ensures u in init[..l]
    {
      assert order[l] == init[l] && order[..l] == init[..l];
    }
  }

  lemma {:induction false} RunInOrder(pr: Program, order: seq<nat>) returns (schedule: seq<nat>)
    requires Distinct(order) && InRange(pr, order) && Respects(pr, order)
    ensures RanInOrder(pr, Exec(pr, Initial(pr), schedule), order)
    decreases |order|
  {
    if order == [] {
      schedule := [];
    } else {
      var init, t := order[..|order| - 1], order[|order| - 1];
      assert order == init + [t] && t !in init;
      RespectsPrefix(pr, init, t);
      var first := RunInOrder(pr, init);
      var s := Exec(pr, Initial(pr), first);
      assert Reachable(pr, s);
      ReachableOk(pr, s);
      assert Alone(s, t) && s.phases[t].Ready?;
      assert forall u | 0 <= u < t && Precedes(pr, u, t) :: u in init;
      var rest := RunAlone(pr, s, t);
      schedule := first + rest;
      ExecAppend(pr, Initial(pr), first, rest);
    }
  }

  /** Every order of the threads that respects the program order is the log of some completed run. */
  lemma EveryOrderHappens(pr: Program, order: seq<nat>) returns (s: System)
    requires Distinct(order) && InRange(pr, order) && Respects(pr, order) && forall t | 0 <= t < |pr.ops| :: t in order
    ensures Reachable(pr, s) && AllFinished(s) && s.log == order
  {
    var schedule := RunInOrder(pr, order);
    s := Exec(pr, Initial(pr), schedule);
  }

  // ----- program order

  /** Nothing has started whose predecessors have not finished, and the log respects that order. */
  ghost predicate OrderOk(pr: Program, s: System) {
    && Shaped(pr, s) && Respects(pr, s.log)
    && forall u: nat, t: nat | Precedes(pr, u, t) && !s.phases[t].Ready? :: s.phases[u].Finished?
  }

  lemma StepKeepsStarts(pr: Program, s: System, t: nat, u: nat, v: nat)
    requires OrderOk(pr, s) && Enabled(pr, s, t) && Precedes(pr, u, v) && !Next(pr, s, t).phases[v].Ready?
    ensures Next(pr, s, t).phases[u].Finished?
  {
    StepMovesLocks(pr, s, t);
  }

  lemma StepKeepsLogOrder(pr: Program, s: System, t: nat)
    requires Invariant(pr, s) && OrderOk(pr, s) && Enabled(pr, s, t)
    ensures Respects(pr, Next(pr, s, t).log)
  {
    var n := Next(pr, s, t);
    StepRefines(pr, s, t);
    if n.log == s.log + [t] {
      forall u: nat | Precedes(pr, u, t)
        ensures u in s.log
      {
        assert Linearized(s.phases[u]);
      }
      RespectsOneMore(pr, s.log, t);
    }
  }

  lemma RespectsOneMore(pr: Program, log: seq<nat>, t: nat)
    requires Respects(pr, log) && forall u: nat | Precedes(pr, u, t) :: u in log
    ensures Respects(pr, log + [t])
  {
    var n := log + [t];
    forall l, u: nat | 0 <= l < |n| && Precedes(pr, u, n[l])
      ensures u in n[..l]
    {
      assert if l < |log| then n[l] == log[l] && n[..l] == log[..l] else n[..l] == log;
    }
  }

  lemma StepKeepsOrder(pr: Program, s: System, t: nat)
    requires Invariant(pr, s) && OrderOk(pr, s) && Enabled(pr, s, t)
    ensures OrderOk(pr, Next(pr, s, t))
  {
    StepKeepsLogOrder(pr, s, t);
    forall u: nat, v: nat | Precedes(pr, u, v) && !Next(pr, s, t).phases[v].Ready?
      ensures Next(pr, s, t).phases[u].Finished?
    {
      StepKeepsStarts(pr, s, t, u, v);
    }
  }

  lemma {:induction false} RunKeepsOrder(pr: Program, s: System, schedule: seq<nat>)
    requires Invariant(pr, s) && OrderOk(pr, s)
    ensures OrderOk(pr, Exec(pr, s, schedule))
    decreases |schedule|
  {
    if schedule != [] {
      var t := schedule[0];
      if Enabled(pr, s, t) {
        StepOk(pr, s, t);
        StepKeepsOrder(pr, s, t);
      }
      RunKeepsOrder(pr, if Enabled(pr, s, t) then Next(pr, s, t) else s, schedule[1..]);
    }
  }

  lemma ReachableOrder(pr: Program, s: System)
    requires Reachable(pr, s)
    ensures OrderOk(pr, s) && InRange(pr, s.log) && Distinct(s.log)
  {
    var schedule :| Exec(pr, Initial(pr), schedule) == s;
    InitialOk(pr);
    RunKeepsOrder(pr, Initial(pr), schedule);
    ReachableOk(pr, s);
  }

  /** Linearization preserves program order: in every interleaving, the operations of a goroutine take
      effect in its own order, and a handle is closed after the operation that obtained it. */
  lemma ProgramOrder(pr: Program, s: System)
    requires Reachable(pr, s)
    ensures Shaped(pr, s) && InRange(pr, s.log) && Distinct(s.log) && Respects(pr, s.log)
    ensures forall k, l | 0 <= k < l < |s.log| && pr.routine(s.log[k]) == pr.routine(s.log[l]) :: s.log[k] < s.log[l]
    ensures forall l | 0 <= l < |s.log| && pr.ops[s.log[l]].CloseHandle? && pr.ops[s.log[l]].of < s.log[l] ::
              pr.ops[s.log[l]].of in s.log[..l]
  {
    ReachableOrder(pr, s);
    RespectsIsNoInversion(pr, s.log);
    forall k, l | 0 <= k < l < |s.log| && pr.routine(s.log[k]) == pr.routine(s.log[l])
      ensures s.log[k] < s.log[l]
    {
      assert !Precedes(pr, s.log[l], s.log[k]);
    }
    forall l | 0 <= l < |s.log| && pr.ops[s.log[l]].CloseHandle? && pr.ops[s.log[l]].of < s.log[l]
      ensures pr.ops[s.log[l]].of in s.log[..l]
    {
      assert Precedes(pr, pr.ops[s.log[l]].of, s.log[l]);
    }
  }

  /** A goroutine starts an operation only when its earlier ones have finished, and closes a handle only
      when the operation that obtained it has. */
  lemma OneAtATime(pr: Program, s: System, u: nat, t: nat)
    requires Reachable(pr, s) && u < t < |pr.ops| && t < |s.phases| && !s.phases[t].Ready?
    ensures pr.routine(u) == pr.routine(t) ==> s.phases[u].Finished?
    ensures pr.ops[t] == CloseHandle(u) ==> s.phases[u].Finished?
  {
    ReachableOrder(pr, s);
    assert Precedes(pr, u, t) ==> s.phases[u].Finished?;
  }

  /** No thread of the log precedes an earlier one. */
  ghost predicate NoInversion(pr: Program, log: seq<nat>) {
    forall k, l | 0 <= k < l < |log| :: !Precedes(pr, log[l], log[k])
  }

  lemma RespectsIsNoInversion(pr: Program, log: seq<nat>)
    requires Distinct(log) && Respects(pr, log)
    ensures NoInversion(pr, log)
  {
    forall k, l | 0 <= k < l < |log|
      ensures !Precedes(pr, log[l], log[k])
    {
      assert forall j | 0 <= j < k :: log[..k][j] != log[l];
    }
  }

  // ----- completed runs

  lemma {:induction false} DistinctCount(l: seq<nat>, x: nat)
    requires Distinct(l)
    ensures multiset(l)[x] == if x in l then 1 else 0
    decreases |l|
  {
    if l != [] {
      assert l == [l[0]] + l[1..];
      DistinctCount(l[1..], x);
    }
  }

  /** A completed run logs every thread exactly once. */
  lemma CompleteLog(pr: Program, s: System)
    requires Reachable(pr, s) && AllFinished(s)
    ensures InRange(pr, s.log) && Distinct(s.log) && forall t | 0 <= t < |pr.ops| :: t in s.log
  {
    ReachableOk(pr, s);
  }

  /** The logs of two completed runs list the same threads. */
  lemma CompleteLogsAgree(pr: Program, s: System, n: System)
    requires Reachable(pr, s) && Reachable(pr, n) && AllFinished(s) && AllFinished(n)
    ensures InRange(pr, s.log) && InRange(pr, n.log) && multiset(s.log) == multiset(n.log)
  {
    CompleteLog(pr, s);
    CompleteLog(pr, n);
    forall x: nat
      ensures multiset(s.log)[x] == multiset(n.log)[x]
    {
      DistinctCount(s.log, x);
      DistinctCount(n.log, x);
    }
  }

  // ----- the driver calls of a log and the threads behind them

  lemma {:induction false} DriverCallsAppend(pr: Program, a: seq<nat>, b: seq<nat>)
    requires InRange(pr, a) && InRange(pr, b)
    ensures InRange(pr, a + b) && DriverCalls(pr, a + b) == DriverCalls(pr, a) + DriverCalls(pr, b)
    decreases |b|
  {
    if b == [] {
      assert a + b == a;
    } else {
      var n := |b| - 1;
      assert (a + b)[..|a + b| - 1] == a + b[..n];
      DriverCallsAppend(pr, a, b[..n]);
    }
  }

  /** The threads of a log that make driver calls, in its order. */
  function Callers(pr: Program, log: seq<nat>): seq<nat>
    requires forall k | 0 <= k < |log| :: log[k] < |pr.ops|
    decreases |log|
  {
    if log == [] then []
    else
      var t := log[|log| - 1];
      Callers(pr, log[..|log| - 1]) + if pr.ops[t].Driver? then [t] else []
  }

  lemma {:induction false} CallersCall(pr: Program, log: seq<nat>)
    requires InRange(pr, log)
    ensures var ts, calls := Callers(pr, log), DriverCalls(pr, log);
            && |ts| == |calls|
            && forall k | 0 <= k < |ts| ::
                 ts[k] < |pr.ops| && pr.ops[ts[k]].Driver? && pr.ops[ts[k]].call == calls[k]
    decreases |log|
  {
    if log != [] {
      CallersCall(pr, log[..|log| - 1]);
    }
  }

  lemma {:induction false} CallersAre(pr: Program, log: seq<nat>)
    requires InRange(pr, log)
    ensures forall t :: t in Callers(pr, log) <==> t in log && pr.ops[t].Driver?
    ensures Distinct(log) ==> Distinct(Callers(pr, log))
    decreases |log|
  {
    if log != [] {
      var init, t := log[..|log| - 1], log[|log| - 1];
      assert log == init + [t];
      CallersAre(pr, init);
      assert Distinct(log) ==> t !in init;
    }
  }

  lemma {:induction false} CallersInOrder(pr: Program, log: seq<nat>)
    requires InRange(pr, log) && NoInversion(pr, log)
    ensures NoInversion(pr, Callers(pr, log))
    decreases |log|
  {
    if log != [] {
      var init, t := log[..|log| - 1], log[|log| - 1];
      CallersInOrder(pr, init);
      CallersAre(pr, init);
      forall k | 0 <= k < |Callers(pr, init)|
        ensures !Precedes(pr, t, Callers(pr, init)[k])
      {
        assert Callers(pr, init)[k] in init;
      }
    }
  }
}
