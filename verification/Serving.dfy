/** What unordered mode serves under concurrency, whatever the schedule. */
module Serving {
  import opened Interleaving
  import opened Schedules
  import U = Unordered
  import Y = Yielding
  import Confluence

  /** Maximality in every interleaving: a call that was rejected matches nothing that is open now. */
  lemma RejectedMatchesNothingLeft(pr: Program, s: System, t: nat)
    requires Reachable(pr, s) && !pr.cfg.ordered && t < |pr.ops| && t < |s.phases| && pr.ops[t].Driver?
    requires U.Reaches(pr.cfg, pr.ops[t].call)
    requires s.phases[t].Finished? && !(s.phases[t].res.Matched? && s.phases[t].res.o.Consumed?)
    ensures forall i: nat :: !U.MatchesOpen(pr.cfg, s.sh.done, pr.ops[t].call, i)
  {
    ReachableOk(pr, s);
    assert Linearized(s.phases[t]) && t in s.log;
    var k :| 0 <= k < |s.log| && s.log[k] == t;
    assert Explained(pr, s, k);
    var before := Replay(pr, s.log[..k]).done;
    U.StepTakesFirstMatch(pr.cfg, before, pr.ops[t].call);
    ReplayGrows(pr, s.log, k);
    forall i: nat
      ensures !U.MatchesOpen(pr.cfg, s.sh.done, pr.ops[t].call, i)
    {
      assert !U.MatchesOpen(pr.cfg, before, pr.ops[t].call, i);
    }
  }

  /** An assignment of goroutines to open expectations their calls match, no expectation twice. */
  ghost predicate IsAssignment(pr: Program, m: map<nat, nat>) {
    && (forall t | t in m ::
          t < |pr.ops| && pr.ops[t].Driver? && U.MatchesOpen(pr.cfg, pr.start.done, pr.ops[t].call, m[t]))
    && U.Injective(m)
  }

  function IndexOf(l: seq<nat>, x: nat): (k: nat)
    requires x in l
    ensures k < |l| && l[k] == x
  {
    if l[0] == x then 0 else 1 + IndexOf(l[1..], x)
  }

  /** The assignment in terms of the log. */
  function OnLog(ts: seq<nat>, m: map<nat, nat>): map<nat, nat> {
    map k: nat | k < |ts| && ts[k] in m :: m[ts[k]]
  }

  lemma OnLogInjective(ts: seq<nat>, m: map<nat, nat>)
    requires Distinct(ts) && U.Injective(m)
    ensures U.Injective(OnLog(ts, m))
  {
    var e := OnLog(ts, m);
    forall k, l | k in e && l in e && e[k] == e[l]
      ensures k == l
    {
      assert ts[k] == ts[l];
    }
  }

  lemma OnLogSize(ts: seq<nat>, m: map<nat, nat>)
    requires forall t | t in m :: t in ts
    ensures |m| <= |OnLog(ts, m)|
  {
    var f := map t | t in m :: if t in ts then IndexOf(ts, t) else 0;
    U.InjectionBound(m.Keys, OnLog(ts, m).Keys, f);
  }

  lemma OnLogFits(pr: Program, s: System, m: map<nat, nat>)
    requires Reachable(pr, s) && AllFinished(s) && IsAssignment(pr, m)
    ensures InRange(pr, s.log)
    ensures U.IsAssignment(pr.cfg, pr.start.done, DriverCalls(pr, s.log), OnLog(Callers(pr, s.log), m))
    ensures |m| <= |OnLog(Callers(pr, s.log), m)|
  {
    CompleteLog(pr, s);
    CallersCall(pr, s.log);
    CallersAre(pr, s.log);
    OnLogInjective(Callers(pr, s.log), m);
    OnLogSize(Callers(pr, s.log), m);
  }

  /** The factor two holds under every schedule: no assignment of goroutines to expectations is more than
      twice as large as what a completed run consumes. */
  lemma GreedyIsHalfOptimal(pr: Program, s: System, m: map<nat, nat>)
    requires Reachable(pr, s) && AllFinished(s) && !pr.cfg.ordered && IsAssignment(pr, m)
    requires forall t | t in m :: U.Reaches(pr.cfg, pr.ops[t].call)
    ensures |m| <= 2 * |s.sh.done - pr.start.done|
  {
    OnLogFits(pr, s, m);
    CallersCall(pr, s.log);
    InterleavingIsSequentialRun(pr, s);
    U.GreedyIsHalfOptimal(pr.cfg, pr.start.done, DriverCalls(pr, s.log), OnLog(Callers(pr, s.log), m));
  }

  /** The calls of the assignment yield to every one that may be logged behind them. */
  ghost predicate Yielding(pr: Program, m: map<nat, nat>)
    requires forall t | t in m :: t < |pr.ops| && pr.ops[t].Driver?
  {
    forall t, u | t in m && u in m && t != u && !Precedes(pr, u, t) :: Y.Yields(pr.cfg, pr.ops[t].call, pr.ops[u].call)
  }

  lemma OnLogComplies(pr: Program, log: seq<nat>, m: map<nat, nat>)
    requires InRange(pr, log) && Distinct(log) && NoInversion(pr, log)
    requires forall t | t in m :: t < |pr.ops| && pr.ops[t].Driver? && U.Reaches(pr.cfg, pr.ops[t].call)
    requires Yielding(pr, m)
    ensures |Callers(pr, log)| == |DriverCalls(pr, log)|
    ensures Y.Compliant(pr.cfg, DriverCalls(pr, log), OnLog(Callers(pr, log), m))
  {
    CallersCall(pr, log);
    CallersAre(pr, log);
    CallersInOrder(pr, log);
    var ts, calls, e := Callers(pr, log), DriverCalls(pr, log), OnLog(Callers(pr, log), m);
    forall k, l | k in e && l in e && k < l
      ensures Y.Yields(pr.cfg, calls[k], calls[l])
    {
      assert ts[k] != ts[l] && !Precedes(pr, ts[l], ts[k]);
      assert pr.ops[ts[k]].call == calls[k] && pr.ops[ts[l]].call == calls[l];
    }
  }

  /** Goroutines whose calls yield to each other are served as well as possible under every schedule; a
      call need not yield to those that its own goroutine has made before. */
  lemma YieldingIsOptimal(pr: Program, s: System, m: map<nat, nat>)
    requires Reachable(pr, s) && AllFinished(s) && !pr.cfg.ordered && IsAssignment(pr, m)
    requires (forall t | t in m :: U.Reaches(pr.cfg, pr.ops[t].call)) && Yielding(pr, m)
    ensures |m| <= |s.sh.done - pr.start.done|
  {
    OnLogFits(pr, s, m);
    ProgramOrder(pr, s);
    RespectsIsNoInversion(pr, s.log);
    InterleavingIsSequentialRun(pr, s);
    OnLogComplies(pr, s.log, m);
    Y.YieldingIsOptimal(pr.cfg, pr.start.done, DriverCalls(pr, s.log), OnLog(Callers(pr, s.log), m));
  }

  /** In particular safe programs: not only do they trigger the same expectations under every schedule, they
      trigger as many as any assignment could. Only within a goroutine its calls have to yield to its later ones. */
  lemma SafeProgramIsOptimal(pr: Program, s: System, m: map<nat, nat>)
    requires Reachable(pr, s) && AllFinished(s) && !pr.cfg.ordered && IsAssignment(pr, m)
    requires Confluence.SafeProgram(pr) && forall t | t in m :: U.Reaches(pr.cfg, pr.ops[t].call)
    requires forall t, u | t in m && u in m && t < u && pr.routine(t) == pr.routine(u) ::
               Y.Yields(pr.cfg, pr.ops[t].call, pr.ops[u].call)
    ensures |m| <= |s.sh.done - pr.start.done|
  {
    forall t, u | t in m && u in m && t != u && !Precedes(pr, u, t)
      ensures Y.Yields(pr.cfg, pr.ops[t].call, pr.ops[u].call)
    {
      if pr.routine(t) != pr.routine(u) {
        SafeThreadsYield(pr, t, u);
      }
    }
    YieldingIsOptimal(pr, s, m);
  }

  lemma SafeThreadsYield(pr: Program, t: nat, u: nat)
    requires Confluence.SafeProgram(pr) && t < |pr.ops| && u < |pr.ops| && pr.routine(t) != pr.routine(u)
    requires pr.ops[t].Driver? && pr.ops[u].Driver?
    ensures Y.Yields(pr.cfg, pr.ops[t].call, pr.ops[u].call)
  {
    if t < u {
      Y.SafePairYields(pr.cfg, pr.ops[t].call, pr.ops[u].call);
    } else {
      Y.SafePairYields(pr.cfg, pr.ops[u].call, pr.ops[t].call);
    }
  }
}
