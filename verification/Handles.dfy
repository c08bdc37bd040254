/**
 Statements and rows under concurrency: what the goroutines of a program obtain and close, and the
 verdicts they get, in every interleaving.
*/
module Handles {
  import opened Matching
  import opened Interleaving
  import opened Schedules
  import L = Lifecycle

  /** The shared flags as a mock of `Lifecycle`. */
  function AsMock(pr: Program, sh: Shared): L.Mock {
    L.Mock(pr.cfg, sh.done, set h | h in sh.handed :: h.i, sh.closed)
  }

  /** A driver call has the effect of the event that it is. */
  lemma EffectIsEvent(pr: Program, sh: Shared, t: nat)
    requires t < |pr.ops| && pr.ops[t].Driver?
    ensures AsMock(pr, Effect(pr, sh, t)) == L.Apply(AsMock(pr, sh), L.Do(pr.ops[t].call, pr.ops[t].cancelled))
  {
    var m, n := AsMock(pr, sh), Effect(pr, sh, t);
    var op := pr.ops[t];
    var o := Step(pr.cfg, sh.done, op.call);
    if o.Consumed? {
      var got := if Serves(pr.cfg, op, o.i) then {Handle(t, o.i)} else {};
      assert n.handed == sh.handed + got;
      assert (set h | h in n.handed :: h.i) == m.handed + set h | h in got :: h.i;
    }
  }

  lemma EffectIsSound(pr: Program, sh: Shared, t: nat)
    requires t < |pr.ops| && L.Sound(AsMock(pr, sh))
    ensures L.Sound(AsMock(pr, Effect(pr, sh, t)))
  {
    match pr.ops[t]
    case Driver(c, cancelled) =>
      EffectIsEvent(pr, sh, t);
      L.StepIsSound(AsMock(pr, sh), L.Do(c, cancelled));
    case _ =>
  }

  lemma {:induction false} ReplayIsSound(pr: Program, log: seq<nat>)
    requires InRange(pr, log) && L.Sound(AsMock(pr, pr.start))
    ensures L.Sound(AsMock(pr, Replay(pr, log)))
    decreases |log|
  {
    if log != [] {
      ReplayIsSound(pr, log[..|log| - 1]);
      EffectIsSound(pr, Replay(pr, log[..|log| - 1]), log[|log| - 1]);
    }
  }

  /** In every interleaving a set closed flag means that the expectation was triggered without a mocked
      error and that some goroutine got its statement or rows. */
  lemma ClosedImpliesHandedOut(pr: Program, s: System)
    requires Reachable(pr, s) && L.Sound(AsMock(pr, pr.start))
    ensures L.Sound(AsMock(pr, s.sh))
  {
    ReachableOk(pr, s);
    ReplayIsSound(pr, s.log);
  }

  /** The k-th operation of the log consumed the expectation and was served with it. */
  ghost predicate GaveOut(pr: Program, log: seq<nat>, k: nat, h: Handle)
    requires InRange(pr, log)
  {
    && k < |log| && log[k] == h.op && pr.ops[h.op].Driver? && h.i < |pr.cfg.es|
    && Step(pr.cfg, Replay(pr, log[..k]).done, pr.ops[h.op].call) == Consumed(h.i)
    && Serves(pr.cfg, pr.ops[h.op], h.i)
  }

  lemma {:induction false} HandleIsGivenOut(pr: Program, log: seq<nat>, h: Handle) returns (k: nat)
    requires InRange(pr, log) && h in Replay(pr, log).handed && h !in pr.start.handed
    ensures GaveOut(pr, log, k, h)
    decreases |log|
  {
    var init := log[..|log| - 1];
    if h in Replay(pr, init).handed {
      k := HandleIsGivenOut(pr, init, h);
      assert log[..k] == init[..k];
    } else {
      k := |log| - 1;
    }
  }

  /** Every handle was the reply of a call of the program, which consumed its expectation. */
  lemma HandleFromServedCall(pr: Program, s: System, h: Handle) returns (k: nat)
    requires Reachable(pr, s) && h in s.sh.handed && h !in pr.start.handed
    ensures ConsumedAt(pr, s, k) && s.log[k] == h.op && ConsumedIndex(pr, s, k) == h.i
    ensures h.op < |pr.ops| && h.i < |pr.cfg.es| && Serves(pr.cfg, pr.ops[h.op], h.i)
  {
    ReachableOk(pr, s);
    k := HandleIsGivenOut(pr, s.log, h);
    assert Explained(pr, s, k);
  }

  lemma {:induction false} ReplayOnlyAdds(pr: Program, log: seq<nat>, m: nat)
    requires m <= |log| && InRange(pr, log)
    ensures Replay(pr, log[..m]).done <= Replay(pr, log).done && Replay(pr, log[..m]).closed <= Replay(pr, log).closed
    decreases |log|
  {
    if m < |log| {
      var init := log[..|log| - 1];
      assert log[..m] == init[..m];
      ReplayOnlyAdds(pr, init, m);
    } else {
      assert log[..m] == log;
    }
  }

  /** The k-th operation of the log is a verdict. */
  predicate JudgedAt(pr: Program, s: System, k: nat) {
    && k < |s.log| && s.log[k] < |s.phases| && Linearized(s.phases[s.log[k]])
    && s.phases[s.log[k]].res.Judged?
  }

  function VerdictAt(pr: Program, s: System, k: nat): L.Verdict
    requires JudgedAt(pr, s, k)
  {
    s.phases[s.log[k]].res.v
  }

  lemma VerdictIsOf(pr: Program, s: System, k: nat)
    requires Reachable(pr, s) && JudgedAt(pr, s, k)
    ensures InRange(pr, s.log) && L.IsVerdict(AsMock(pr, Replay(pr, s.log[..k])), VerdictAt(pr, s, k))
  {
    ReachableOk(pr, s);
    assert Explained(pr, s, k);
    var sh := Replay(pr, s.log[..k]);
    var m := L.Mock(pr.cfg, sh.done, {}, sh.closed);
    assert forall i | 0 <= i < |pr.cfg.es| :: L.Offends(m, i) <==> L.Offends(AsMock(pr, sh), i);
  }

  /** In every interleaving verdicts only improve: after a nil verdict all are nil, and the offender's
      index never decreases. */
  lemma VerdictsImprove(pr: Program, s: System, k: nat, l: nat)
    requires Reachable(pr, s) && k < l && JudgedAt(pr, s, k) && JudgedAt(pr, s, l)
    ensures var v, w := VerdictAt(pr, s, k), VerdictAt(pr, s, l);
            (v.AllMet? ==> w.AllMet?) && (!v.AllMet? && !w.AllMet? ==> v.i <= w.i)
  {
    VerdictIsOf(pr, s, k);
    VerdictIsOf(pr, s, l);
    assert s.log[..l][..k] == s.log[..k];
    ReplayOnlyAdds(pr, s.log[..l], k);
    L.VerdictImproves(AsMock(pr, Replay(pr, s.log[..k])), AsMock(pr, Replay(pr, s.log[..l])),
                      VerdictAt(pr, s, k), VerdictAt(pr, s, l));
  }

  /** Nobody ever gets the handle of an expectation whose consuming call was not served with it. */
  lemma NeverHandedOut(pr: Program, s: System, k: nat, h: Handle)
    requires Reachable(pr, s) && L.Sound(AsMock(pr, pr.start)) && ConsumedAt(pr, s, k)
    requires h in s.sh.handed && h.i == ConsumedIndex(pr, s, k)
    ensures h.op == s.log[k] < |pr.ops| && h.i < |pr.cfg.es| && Serves(pr.cfg, pr.ops[h.op], h.i)
  {
    Interleaving.ConsumerMatches(pr, s, k);
    assert h in pr.start.handed ==> h.i in AsMock(pr, pr.start).handed;
    if h !in pr.start.handed {
      var j := HandleFromServedCall(pr, s, h);
      if j < k {
        ConsumersAreDistinct(pr, s, j, k);
      } else if k < j {
        ConsumersAreDistinct(pr, s, k, j);
      }
    }
  }

  /** A must-be-closed prepare or query whose consuming call got anything but the handle keeps every later
      verdict of every goroutine from being nil. */
  lemma ConsumedWithoutHandleIsFatal(pr: Program, s: System, k: nat, l: nat)
    requires Reachable(pr, s) && L.Sound(AsMock(pr, pr.start)) && k < l && ConsumedAt(pr, s, k) && JudgedAt(pr, s, l)
    requires var i := ConsumedIndex(pr, s, k);
             && i < |pr.cfg.es| && s.log[k] < |pr.ops| && MustBeClosed(pr.cfg.es[i])
             && !Serves(pr.cfg, pr.ops[s.log[k]], i)
    ensures !VerdictAt(pr, s, l).AllMet?
  {
    var i := ConsumedIndex(pr, s, k);
    ClosedImpliesHandedOut(pr, s);
    assert i !in s.sh.closed by {
      forall h | h in s.sh.handed
        ensures h.i != i
      {
        if h.i == i {
          NeverHandedOut(pr, s, k, h);
        }
      }
    }
    VerdictIsOf(pr, s, l);
    ReachableOk(pr, s);
    ReplayOnlyAdds(pr, s.log, l);
    ConsumedStaysDone(pr, s, k, l);
    assert s.log[..|s.log|] == s.log;
    assert L.Offends(AsMock(pr, Replay(pr, s.log[..l])), i);
  }

  /** Who is served: a prepare that is neither cancelled nor mocked to fail, and a query that also has rows. */
  lemma ServesIff(cfg: Config, op: Op, i: nat)
    requires i < |cfg.es|
    ensures Serves(cfg, op, i) <==>
            && op.Driver? && !op.cancelled && cfg.es[i].err.None?
            && (op.call.Prepare? || (op.call.Query? && cfg.es[i].hasReply))
  {
  }

  /** Operation `of` obtained the handle of expectation `i`: it consumed it and was served. */
  ghost predicate ObtainedBy(pr: Program, s: System, k: nat, of: nat, i: nat) {
    && ConsumedAt(pr, s, k) && s.log[k] == of < |pr.ops| && ConsumedIndex(pr, s, k) == i < |pr.cfg.es|
    && pr.ops[of].Driver? && !pr.ops[of].cancelled && pr.cfg.es[i].err.None?
    && (pr.ops[of].call.Prepare? || (pr.ops[of].call.Query? && pr.cfg.es[i].hasReply))
  }

  lemma ObtainedIsHanded(pr: Program, s: System, k: nat, h: Handle)
    requires Reachable(pr, s) && ObtainedBy(pr, s, k, h.op, h.i)
    ensures k < |s.log| && InRange(pr, s.log) && h in Replay(pr, s.log[..k + 1]).handed
  {
    ReachableOk(pr, s);
    ServesIff(pr.cfg, pr.ops[h.op], h.i);
    ConsumptionIsStep(pr, s, k);
    assert s.log[..k + 1][..k] == s.log[..k];
  }

  lemma HandedIsObtained(pr: Program, s: System, h: Handle) returns (k: nat)
    requires Reachable(pr, s) && h in s.sh.handed && h !in pr.start.handed
    ensures ObtainedBy(pr, s, k, h.op, h.i)
  {
    k := HandleFromServedCall(pr, s, h);
    ServesIff(pr.cfg, pr.ops[h.op], h.i);
  }

  /** Exactly the handles that calls of the program obtained are added to those from before. */
  lemma HandedIff(pr: Program, s: System, h: Handle)
    requires Reachable(pr, s) && h !in pr.start.handed
    ensures h in s.sh.handed <==> exists k: nat :: ObtainedBy(pr, s, k, h.op, h.i)
  {
    if h in s.sh.handed {
      var k := HandedIsObtained(pr, s, h);
    }
    if k: nat :| ObtainedBy(pr, s, k, h.op, h.i) {
      ObtainedIsHanded(pr, s, k, h);
      HandedGrows(pr, s.log, k + 1);
      LogIsReplayed(pr, s);
    }
  }

  lemma LogIsReplayed(pr: Program, s: System)
    requires Reachable(pr, s)
    ensures InRange(pr, s.log) && s.sh == Replay(pr, s.log)
  {
    ReachableOk(pr, s);
  }

  lemma {:induction false} HandedGrows(pr: Program, log: seq<nat>, m: nat)
    requires m <= |log| && InRange(pr, log)
    ensures Replay(pr, log[..m]).handed <= Replay(pr, log).handed
    decreases |log|
  {
    if m < |log| {
      var init := log[..|log| - 1];
      assert log[..m] == init[..m];
      HandedGrows(pr, init, m);
    } else {
      assert log[..m] == log;
    }
  }

  /** The l-th operation of the log closes expectation `i`, whose handle an earlier operation has obtained
      by then. */
  ghost predicate ClosesAt(pr: Program, log: seq<nat>, l: nat, i: nat)
    requires InRange(pr, log)
  {
    && l < |log| && pr.ops[log[l]].CloseHandle?
    && var of := pr.ops[log[l]].of;
       (of < log[l] || of >= |pr.ops|) && Handle(of, i) in Replay(pr, log[..l]).handed
  }

  lemma {:induction false} ReplayClosedIff(pr: Program, log: seq<nat>, i: nat)
    requires InRange(pr, log) && i !in pr.start.closed
    ensures i in Replay(pr, log).closed <==> exists l: nat :: ClosesAt(pr, log, l, i)
    decreases |log|
  {
    if log != [] {
      var n := |log| - 1;
      var init := log[..n];
      ReplayClosedIff(pr, init, i);
      forall l | 0 <= l < n
        ensures ClosesAt(pr, init, l, i) <==> ClosesAt(pr, log, l, i)
      {
        assert init[..l] == log[..l];
      }
      assert i in Replay(pr, log).closed <==> i in Replay(pr, init).closed || ClosesAt(pr, log, n, i);
    }
  }

  /** The l-th operation of the log is a closing of what operation `of` obtained, and that was the handle
      of `i`: before the program, or by an earlier operation of it. */
  ghost predicate ClosedBy(pr: Program, s: System, l: nat, of: nat, i: nat) {
    && l < |s.log| && s.log[l] < |pr.ops| && pr.ops[s.log[l]] == CloseHandle(of)
    && (of < s.log[l] || of >= |pr.ops|)
    && (Handle(of, i) in pr.start.handed || exists k: nat :: ObtainedBy(pr, s, k, of, i))
  }

  lemma ClosingIsOfHandle(pr: Program, s: System, l: nat, i: nat)
    requires Reachable(pr, s) && InRange(pr, s.log) && ClosesAt(pr, s.log, l, i)
    ensures ClosedBy(pr, s, l, pr.ops[s.log[l]].of, i)
  {
    var h := Handle(pr.ops[s.log[l]].of, i);
    HandedGrows(pr, s.log, l);
    LogIsReplayed(pr, s);
    if h !in pr.start.handed {
      var k := HandedIsObtained(pr, s, h);
    }
  }

  /** What is closed was obtained by the time it is closed. */
  lemma HandleInTime(pr: Program, s: System, l: nat, k: nat, h: Handle)
    requires Reachable(pr, s) && InRange(pr, s.log) && ObtainedBy(pr, s, k, h.op, h.i)
    requires l < |s.log| && pr.ops[s.log[l]] == CloseHandle(h.op) && h.op < s.log[l]
    ensures h in Replay(pr, s.log[..l]).handed
  {
    ObtainedIsHanded(pr, s, k, h);
    ProgramOrder(pr, s);
    assert h.op in s.log[..l] && s.log[k] == h.op;
    assert k < l;
    assert s.log[..l][..k + 1] == s.log[..k + 1];
    HandedGrows(pr, s.log[..l], k + 1);
  }

  lemma ClosedByIsClosing(pr: Program, s: System, l: nat, of: nat, i: nat)
    requires Reachable(pr, s) && InRange(pr, s.log) && ClosedBy(pr, s, l, of, i)
    ensures ClosesAt(pr, s.log, l, i)
  {
    var h := Handle(of, i);
    if h in pr.start.handed {
      assert s.log[..l][..0] == [];
      HandedGrows(pr, s.log[..l], 0);
    } else {
      var k: nat :| ObtainedBy(pr, s, k, of, i);
      HandleInTime(pr, s, l, k, h);
    }
  }

  /** Closing works: in every interleaving, exactly those closed flags are set that were set at the start or
      whose handle was obtained and then closed by an operation that has taken effect. */
  lemma ClosedIff(pr: Program, s: System, i: nat)
    requires Reachable(pr, s) && i !in pr.start.closed
    ensures i in s.sh.closed <==> exists l: nat, of: nat :: ClosedBy(pr, s, l, of, i)
  {
    LogIsReplayed(pr, s);
    ReplayClosedIff(pr, s.log, i);
    if l: nat :| ClosesAt(pr, s.log, l, i) {
      ClosingIsOfHandle(pr, s, l, i);
    }
    if l: nat, of: nat :| ClosedBy(pr, s, l, of, i) {
      ClosedByIsClosing(pr, s, l, of, i);
    }
  }

  /** What a verdict says of the flags as they were when it took effect. */
  lemma VerdictAtSays(pr: Program, s: System, k: nat)
    requires Reachable(pr, s) && JudgedAt(pr, s, k)
    ensures InRange(pr, s.log)
    ensures var v, sh := VerdictAt(pr, s, k), Replay(pr, s.log[..k]);
            && (v.AllMet? <==>
                forall j | 0 <= j < |pr.cfg.es| ::
                  var e := pr.cfg.es[j];
                  && j in sh.done
                  && ((e.kind.ExpectedPrepare? || e.kind.ExpectedQuery?) && e.mustBeClosed ==> j in sh.closed))
            && (v.Unmatched? ==> v.i < |pr.cfg.es| && v.i !in sh.done)
            && (v.NotClosed? ==>
                  && v.i < |pr.cfg.es| && v.i in sh.done && v.i !in sh.closed && pr.cfg.es[v.i].mustBeClosed
                  && (pr.cfg.es[v.i].kind.ExpectedPrepare? || pr.cfg.es[v.i].kind.ExpectedQuery?))
  {
    VerdictIsOf(pr, s, k);
    var sh, v := Replay(pr, s.log[..k]), VerdictAt(pr, s, k);
    var m := AsMock(pr, sh);
    forall j | 0 <= j < |pr.cfg.es| && v.AllMet?
      ensures var e := pr.cfg.es[j];
              j in sh.done && ((e.kind.ExpectedPrepare? || e.kind.ExpectedQuery?) && e.mustBeClosed ==> j in sh.closed)
    {
      assert !L.Offends(m, j);
      L.OffendsIff(m, j);
    }
    if !v.AllMet? {
      L.OffendsIff(m, v.i);
      var e := pr.cfg.es[v.i];
      assert !(&& v.i in sh.done
               && ((e.kind.ExpectedPrepare? || e.kind.ExpectedQuery?) && e.mustBeClosed ==> v.i in sh.closed));
    }
  }
}
