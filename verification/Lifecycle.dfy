/**
 Whole runs of one mock: registration, mode switches, driver calls with their replies, closing of
 the statements and rows handed out, and the verdict of ExpectationsWereMet.
*/
module Lifecycle {
  import opened Wrappers
  import opened Matching
  import Ordered

  /** `done`, `handed`, `closed`: indices that are triggered, whose statement or rows the caller got,
      and whose wasClosed / rowsWereClosed flag is set. */
  datatype Mock = Mock(cfg: Config, done: set<nat>, handed: set<nat>, closed: set<nat>)

  datatype Event =
    | Register(s: Spec)
    | SetOrdered(b: bool)
    | Do(c: Call, cancelled: bool)   // `cancelled`: the context wins the wait for the delay
    | CloseHandle(i: nat)

  /** What the caller of a driver method gets back. */
  datatype Reply =
    | Rejected(o: Outcome)
    | NoReplySet(i: nat)             // consumed, but neither rows nor result were configured
    | Cancelled(i: nat)
    | MockedError(i: nat, msg: string)
    | Served(i: nat)

  predicate NeedsReply(c: Call) {
    c.Query? || c.Exec?
  }

  /** Close, Commit and Rollback take no context. */
  predicate Cancellable(c: Call) {
    !(c.Close? || c.Commit? || c.Rollback?)
  }

  function Respond(cfg: Config, c: Call, o: Outcome, cancelled: bool): Reply
    requires o.Consumed? ==> o.i < |cfg.es|
  {
    if !o.Consumed? then Rejected(o)
    else
      var s := cfg.es[o.i];
      if s.err.None? && NeedsReply(c) && !s.hasReply then NoReplySet(o.i)
      else if cancelled && Cancellable(c) then Cancelled(o.i)
      else if s.err.Some? then MockedError(o.i, s.err.value)
      else Served(o.i)
  }

  function ReplyTo(m: Mock, c: Call, cancelled: bool): Reply {
    Respond(m.cfg, c, Step(m.cfg, m.done, c), cancelled)
  }

  /** The event hands the statement or the rows of expectation `i` to the caller. */
  predicate HandsOut(m: Mock, e: Event, i: nat) {
    e.Do? && (e.c.Prepare? || e.c.Query?) && ReplyTo(m, e.c, e.cancelled) == Served(i)
  }

  /** Only what was handed out can be closed. */
  predicate Possible(m: Mock, e: Event) {
    e.CloseHandle? ==> e.i in m.handed
  }

  function Apply(m: Mock, e: Event): Mock {
    match e
    case Register(s) => m.(cfg := m.cfg.(es := m.cfg.es + [s]))
    case SetOrdered(b) => m.(cfg := m.cfg.(ordered := b))
    case Do(c, cancelled) =>
      var o := Step(m.cfg, m.done, c);
      m.(done := After(m.done, o),
         handed := m.handed + if o.Consumed? && HandsOut(m, e, o.i) then {o.i} else {})
    case CloseHandle(i) => m.(closed := m.closed + {i})
  }

  /** The reply to a call that consumed expectation `i`, outright: a missing reply comes first, then the
      context if the call takes one, then the mocked error. */
  lemma ReplyIs(m: Mock, c: Call, cancelled: bool, i: nat)
    requires Step(m.cfg, m.done, c) == Consumed(i)
    ensures i < |m.cfg.es|
    ensures var s, reply := m.cfg.es[i], ReplyTo(m, c, cancelled);
            var missing := s.err.None? && !s.hasReply && (c.Query? || c.Exec?);
            var gone := cancelled && (c.Begin? || c.Prepare? || c.Query? || c.Exec? || c.Ping?);
            && (reply == NoReplySet(i) <==> missing)
            && (reply == Cancelled(i) <==> !missing && gone)
            && (reply.MockedError? <==> !missing && !gone && s.err.Some?)
            && (reply.MockedError? ==> reply == MockedError(i, s.err.value))
            && (reply == Served(i) <==> !missing && !gone && s.err.None?)
  {
  }

  /** A call as an event, from its outcome and its reply. */
  lemma DoIs(m: Mock, c: Call, cancelled: bool, o: Outcome, reply: Reply)
    requires o == Step(m.cfg, m.done, c) && reply == Respond(m.cfg, c, o, cancelled)
    ensures reply == ReplyTo(m, c, cancelled)
    ensures Apply(m, Do(c, cancelled)) ==
            m.(done := After(m.done, o),
               handed := m.handed + if reply.Served? && (c.Prepare? || c.Query?) then {reply.i} else {})
  {
  }

  function Play(m: Mock, evs: seq<Event>): Mock
    decreases |evs|
  {
    if evs == [] then m else Play(Apply(m, evs[0]), evs[1..])
  }

  predicate PossibleRun(m: Mock, evs: seq<Event>)
    decreases |evs|
  {
    evs == [] || (Possible(m, evs[0]) && PossibleRun(Apply(m, evs[0]), evs[1..]))
  }

  predicate Fresh(m: Mock) {
    m.cfg.es == [] && m.done == {} && m.handed == {} && m.closed == {}
  }

  // ----- the verdict

  datatype Verdict = AllMet | Unmatched(i: nat) | NotClosed(i: nat)

  predicate Offends(m: Mock, i: nat)
    requires i < |m.cfg.es|
  {
    i !in m.done || (MustBeClosed(m.cfg.es[i]) && i !in m.closed)
  }

  /** The verdict names the lowest-index offender and its first offence, or there is none. */
  predicate IsVerdict(m: Mock, v: Verdict) {
    match v
    case AllMet => forall j | 0 <= j < |m.cfg.es| :: !Offends(m, j)
    case Unmatched(i) => i < |m.cfg.es| && i !in m.done && forall j | 0 <= j < i :: !Offends(m, j)
    case NotClosed(i) =>
      && i < |m.cfg.es| && i in m.done && MustBeClosed(m.cfg.es[i]) && i !in m.closed
      && forall j | 0 <= j < i :: !Offends(m, j)
  }

  /** What does not offend is triggered, and closed if it must be. */
  lemma OffendsIff(m: Mock, j: nat)
    requires j < |m.cfg.es|
    ensures var e := m.cfg.es[j];
            Offends(m, j) <==>
            (j in m.done ==> (e.kind.ExpectedPrepare? || e.kind.ExpectedQuery?) && e.mustBeClosed && j !in m.closed)
  {
  }

  /** What a verdict says of the flags and fields. */
  lemma VerdictSays(m: Mock, v: Verdict)
    requires IsVerdict(m, v)
    ensures v.AllMet? <==>
            forall j | 0 <= j < |m.cfg.es| ::
              && j in m.done
              && ((m.cfg.es[j].kind.ExpectedPrepare? || m.cfg.es[j].kind.ExpectedQuery?) && m.cfg.es[j].mustBeClosed
                  ==> j in m.closed)
    ensures v.Unmatched? ==> v.i < |m.cfg.es| && v.i !in m.done
    ensures v.NotClosed? ==>
              && v.i < |m.cfg.es| && v.i in m.done && v.i !in m.closed && m.cfg.es[v.i].mustBeClosed
              && (m.cfg.es[v.i].kind.ExpectedPrepare? || m.cfg.es[v.i].kind.ExpectedQuery?)
    ensures !v.AllMet? ==>
              forall j | 0 <= j < v.i ::
                && j in m.done
                && ((m.cfg.es[j].kind.ExpectedPrepare? || m.cfg.es[j].kind.ExpectedQuery?) && m.cfg.es[j].mustBeClosed
                    ==> j in m.closed)
  {
    var n := if v.AllMet? then |m.cfg.es| else v.i;
    forall j | 0 <= j < n
      ensures && j in m.done
              && ((m.cfg.es[j].kind.ExpectedPrepare? || m.cfg.es[j].kind.ExpectedQuery?) && m.cfg.es[j].mustBeClosed
                  ==> j in m.closed)
    {
      assert !Offends(m, j);
    }
    if !v.AllMet? {
      assert Offends(m, v.i);
    }
  }

  /** A state has at most one verdict. */
  lemma VerdictIsUnique(m: Mock, v: Verdict, w: Verdict)
    requires IsVerdict(m, v) && IsVerdict(m, w)
    ensures v == w
  {
    assert !v.AllMet? ==> Offends(m, v.i);
    assert !w.AllMet? ==> Offends(m, w.i);
  }

  /** Driver calls, closing and mode switches: everything but registration. */
  predicate NoRegistration(evs: seq<Event>) {
    forall k | 0 <= k < |evs| :: !evs[k].Register?
  }

  lemma {:induction false} RunOnlyAdds(m: Mock, evs: seq<Event>)
    ensures var n := Play(m, evs);
            m.done <= n.done && m.handed <= n.handed && m.closed <= n.closed && m.cfg.es <= n.cfg.es
    ensures NoRegistration(evs) ==> Play(m, evs).cfg.es == m.cfg.es
    decreases |evs|
  {
    if evs != [] {
      RunOnlyAdds(Apply(m, evs[0]), evs[1..]);
    }
  }

  /** While flags are only set, the verdict only improves: what did not offend never will. */
  lemma VerdictImproves(m: Mock, n: Mock, v: Verdict, w: Verdict)
    requires m.cfg.es == n.cfg.es && m.done <= n.done && m.closed <= n.closed
    requires IsVerdict(m, v) && IsVerdict(n, w)
    ensures v.AllMet? ==> w.AllMet?
    ensures !v.AllMet? && !w.AllMet? ==> v.i <= w.i
  {
    if !w.AllMet? {
      assert Offends(n, w.i) && Offends(m, w.i);
    }
  }

  /** So a nil verdict stays nil under any further calls, closes and mode switches. */
  lemma VerdictIsStable(m: Mock, evs: seq<Event>, v: Verdict, w: Verdict)
    requires NoRegistration(evs) && IsVerdict(m, v) && IsVerdict(Play(m, evs), w)
    ensures v.AllMet? ==> w.AllMet?
    ensures !v.AllMet? && !w.AllMet? ==> v.i <= w.i
  {
    RunOnlyAdds(m, evs);
    VerdictImproves(m, Play(m, evs), v, w);
  }

  // ----- closed implies handed out

  predicate Sound(m: Mock) {
    && m.closed <= m.handed <= m.done
    && (forall i | i in m.done :: i < |m.cfg.es|)
    && forall i | i in m.handed ::
         m.cfg.es[i].err.None? && (m.cfg.es[i].kind.ExpectedPrepare? || m.cfg.es[i].kind.ExpectedQuery?)
  }

  lemma StepIsSound(m: Mock, e: Event)
    requires Sound(m) && Possible(m, e)
    ensures Sound(Apply(m, e))
  {
  }

  /** In every reachable state a set closed-flag means the expectation was triggered without a mocked
      error and its statement or rows were handed out. */
  lemma {:induction false} ClosedImpliesHandedOut(m: Mock, evs: seq<Event>)
    requires Sound(m) && PossibleRun(m, evs)
    ensures Sound(Play(m, evs))
    decreases |evs|
  {
    if evs != [] {
      StepIsSound(m, evs[0]);
      ClosedImpliesHandedOut(Apply(m, evs[0]), evs[1..]);
    }
  }

  /** The handed-out set is history: some call of the run was served with the handle. */
  lemma {:induction false} HandedOutByACall(m: Mock, evs: seq<Event>, i: nat)
    requires i in Play(m, evs).handed && i !in m.handed
    ensures exists k | 0 <= k < |evs| :: HandsOut(Play(m, evs[..k]), evs[k], i)
    decreases |evs|
  {
    var next := Apply(m, evs[0]);
    if i in next.handed {
      assert HandsOut(Play(m, evs[..0]), evs[0], i);
    } else {
      HandedOutByACall(next, evs[1..], i);
      var k :| 0 <= k < |evs[1..]| && HandsOut(Play(next, evs[1..][..k]), evs[1..][k], i);
      assert evs[..k + 1][1..] == evs[1..][..k];
      assert HandsOut(Play(m, evs[..k + 1]), evs[k + 1], i);
    }
  }

  lemma {:induction false} NeverHandedAgain(m: Mock, evs: seq<Event>, i: nat)
    requires Sound(m) && PossibleRun(m, evs) && i in m.done && i !in m.handed
    ensures i !in Play(m, evs).handed
    decreases |evs|
  {
    if evs != [] {
      StepIsSound(m, evs[0]);
      NeverHandedAgain(Apply(m, evs[0]), evs[1..], i);
    }
  }

  /** Once triggered, a must-be-closed expectation can still be satisfied by some continuation exactly
      when its statement or rows were handed out. */
  lemma SatisfiableIffHandedOut(m: Mock, i: nat)
    requires Sound(m) && i in m.done && MustBeClosed(m.cfg.es[i])
    ensures i in m.handed <==> exists evs :: PossibleRun(m, evs) && !OffendsAfter(m, evs, i)
  {
    if i in m.handed {
      var evs := [CloseHandle(i)];
      assert PossibleRun(Apply(m, evs[0]), evs[1..]) && Play(m, evs) == Apply(m, evs[0]);
      assert PossibleRun(m, evs) && !OffendsAfter(m, evs, i);
    } else {
      forall evs | PossibleRun(m, evs)
        ensures OffendsAfter(m, evs, i)
      {
        NeverHandedAgain(m, evs, i);
        ClosedImpliesHandedOut(m, evs);
        RunOnlyAdds(m, evs);
      }
    }
  }

  predicate OffendsAfter(m: Mock, evs: seq<Event>, i: nat) {
    i < |Play(m, evs).cfg.es| ==> Offends(Play(m, evs), i)
  }

  /** A must-be-closed prepare or query whose consuming call got anything but the handle (a mocked
      error, a cancelled context, no rows) keeps every later verdict from being nil. */
  lemma ConsumedWithoutHandleIsFatal(m: Mock, c: Call, cancelled: bool, evs: seq<Event>, v: Verdict)
    requires Sound(m)
    requires var o := Step(m.cfg, m.done, c);
             o.Consumed? && MustBeClosed(m.cfg.es[o.i]) && !ReplyTo(m, c, cancelled).Served?
    requires var n := Apply(m, Do(c, cancelled)); PossibleRun(n, evs) && IsVerdict(Play(n, evs), v)
    ensures !v.AllMet?
  {
    var i := Step(m.cfg, m.done, c).i;
    var n := Apply(m, Do(c, cancelled));
    StepIsSound(m, Do(c, cancelled));
    SatisfiableIffHandedOut(n, i);
    RunOnlyAdds(n, evs);
    assert OffendsAfter(n, evs, i);
  }

  // ----- order and conservation over whole runs

  /** In order from a fresh mock, with registration anywhere in between, the triggered expectations
      are a prefix of the list. */
  lemma {:induction false} TriggeredIsPrefix(m: Mock, evs: seq<Event>, k: nat) returns (k': nat)
    requires m.cfg.ordered && k <= |m.cfg.es| && Ordered.IsPrefix(m.done, k)
    requires forall j | 0 <= j < |evs| :: evs[j] != SetOrdered(false)
    ensures k <= k' <= |Play(m, evs).cfg.es| && Ordered.IsPrefix(Play(m, evs).done, k')
    decreases |evs|
  {
    if evs == [] {
      k' := k;
    } else {
      var e := evs[0];
      var next := k;
      if e.Do? {
        Ordered.StepKeepsPrefix(m.cfg, m.done, e.c, k);
        next := if Step(m.cfg, m.done, e.c).Consumed? then k + 1 else k;
      }
      k' := TriggeredIsPrefix(Apply(m, e), evs[1..], next);
    }
  }

  /** The number of events of a run that consumed an expectation. */
  function ConsumingEvents(m: Mock, evs: seq<Event>): nat
    decreases |evs|
  {
    if evs == [] then 0
    else (if evs[0].Do? && !ReplyTo(m, evs[0].c, evs[0].cancelled).Rejected? then 1 else 0)
         + ConsumingEvents(Apply(m, evs[0]), evs[1..])
  }

  lemma EventConserves(m: Mock, e: Event)
    ensures |Apply(m, e).done| == |m.done| + if e.Do? && !ReplyTo(m, e.c, e.cancelled).Rejected? then 1 else 0
  {
    if e.Do? {
      var o := Step(m.cfg, m.done, e.c);
      assert Apply(m, e).done == After(m.done, o);
      assert ReplyTo(m, e.c, e.cancelled).Rejected? <==> !o.Consumed?;
    }
  }

  /** Whatever mode switches and registrations happen in between, and whatever the caller was told
      (error, cancellation, missing rows), each expectation is paid for by exactly one call. */
  lemma {:induction false} RunConserves(m: Mock, evs: seq<Event>)
    ensures |Play(m, evs).done| == |m.done| + ConsumingEvents(m, evs)
    decreases |evs|
  {
    if evs != [] {
      EventConserves(m, evs[0]);
      RunConserves(Apply(m, evs[0]), evs[1..]);
    }
  }
}
