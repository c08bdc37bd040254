/**
 The locking protocol with any number of goroutines, interleaved step by step. What they do are driver
 calls with their scans, mockDriver.Open, ExpectationsWereMet and the closing of handles they obtained.
 The list of expectations and the mode are fixed while the goroutines run.

 Each operation is a thread of its own here; those of one goroutine run one after the other. A thread
 takes one expectation lock at a time; Close holds the pool lock around its scan. `log` is a history
 variable: the order in which the operations take effect.
*/
module Interleaving {
  import opened Wrappers
  import opened Matching
  import L = Lifecycle
  import Ordered

  /** `cancelled`: the context wins the wait for the delay. CloseHandle closes the statement or the rows
      that operation `of` obtained, if it did. */
  datatype Op = Driver(call: Call, cancelled: bool) | Open | Verdict | CloseHandle(of: nat)

  datatype Result = Matched(o: Outcome) | Judged(v: L.Verdict) | Opened | HandleClosed

  /** Where a thread is. */
  datatype Phase =
    | Ready
    | Scan(i: nat, fulfilled: nat)      // about to lock expectation i
    | Holding(i: nat, fulfilled: nat)   // has the lock of i, about to look at it
    | Skipping(i: nat, fulfilled: nat)  // has the lock of i, about to release it and go on
    | Chosen(i: nat)                    // has left the loop holding i, later checks to come
    | Reading(i: nat)                   // ExpectationsWereMet: i is fulfilled, lock still held
    | CloseCheck(i: nat)                // ExpectationsWereMet: lock released, close flag to be read
    | Leaving(i: nat, res: Result)      // has decided, about to release i
    | Unwinding(res: Result)            // about to release the pool lock
    | Finished(res: Result)

  /** Operation `op` was given the statement or the rows of expectation `i`. */
  datatype Handle = Handle(op: nat, i: nat)

  /** The flags the threads share: triggered, and wasClosed / rowsWereClosed. `handed` is a history
      variable; its operations beyond the program's are those made before it. */
  datatype Shared = Shared(done: set<nat>, closed: set<nat>, handed: set<Handle>)

  /** Thread t runs ops[t], which is made by goroutine routine(t). */
  datatype Program = Program(cfg: Config, ops: seq<Op>, routine: nat -> nat, start: Shared)

  datatype System = System(sh: Shared, owner: seq<Option<nat>>, pool: Option<nat>, phases: seq<Phase>, log: seq<nat>)

  function Initial(pr: Program): System {
    System(pr.start, seq(|pr.cfg.es|, _ => None), None, seq(|pr.ops|, _ => Ready), [])
  }

  predicate NeedsPool(op: Op) {
    op.Open? || (op.Driver? && op.call.Close?)
  }

  predicate HoldsPool(op: Op, p: Phase) {
    NeedsPool(op) && !p.Ready? && !p.Finished?
  }

  /** The expectation whose lock a thread holds, at most one by construction. */
  function Held(p: Phase): Option<nat> {
    match p
    case Holding(i, _) => Some(i)
    case Skipping(i, _) => Some(i)
    case Chosen(i) => Some(i)
    case Reading(i) => Some(i)
    case Leaving(i, _) => Some(i)
    case _ => None
  }

  predicate Linearized(p: Phase) {
    p.Leaving? || p.Unwinding? || p.Finished?
  }

  predicate Shaped(pr: Program, s: System) {
    |s.owner| == |pr.cfg.es| && |s.phases| == |pr.ops|
  }

  /** The phase fits the operation and its index is in range. */
  predicate PhaseFits(pr: Program, op: Op, p: Phase) {
    var n := |pr.cfg.es|;
    match p
    case Ready => true
    case Scan(i, _) => i <= n && (op.Driver? || op.Verdict?)
    case Holding(i, _) => i < n && (op.Driver? || op.Verdict?)
    case Skipping(i, _) => i < n && op.Driver?
    case Chosen(i) => i < n && op.Driver? && SameKind(pr.cfg.es[i].kind, op.call)
    case Reading(i) => i < n && op.Verdict?
    case CloseCheck(i) => i < n && op.Verdict?
    case Leaving(i, _) => i < n
    case Unwinding(_) => NeedsPool(op)
    case Finished(_) => true
  }

  /** Operation `u` has to finish before `t` starts: the same goroutine makes it earlier, or it is what
      gives `t` its handle. */
  predicate Precedes(pr: Program, u: nat, t: nat) {
    u < t < |pr.ops| && (pr.routine(u) == pr.routine(t) || pr.ops[t] == CloseHandle(u))
  }

  /** The thread exists and is blocked neither on a lock nor on an earlier operation. */
  predicate Enabled(pr: Program, s: System, t: nat)
    requires Shaped(pr, s)
  {
    && t < |s.phases|
    && PhaseFits(pr, pr.ops[t], s.phases[t])
    && match s.phases[t]
       case Ready =>
         && (NeedsPool(pr.ops[t]) ==> s.pool.None?)
         && (forall u | 0 <= u < t :: Precedes(pr, u, t) ==> s.phases[u].Finished?)
       case Scan(i, _) => i < |pr.cfg.es| ==> s.owner[i].None?
       case Finished(_) => false
       case _ => true
  }

  // ----- steps

  function Goto(s: System, t: nat, p: Phase): System
    requires t < |s.phases|
  {
    s.(phases := s.phases[t := p])
  }

  /** The operation takes effect here: it enters the log, with the shared flags it leaves. */
  function Commit(s: System, t: nat, sh: Shared, p: Phase): System
    requires t < |s.phases|
  {
    Goto(s, t, p).(sh := sh, log := s.log + [t])
  }

  function Unlock(s: System, i: nat): System
    requires i < |s.owner|
  {
    s.(owner := s.owner[i := None])
  }

  function Return(op: Op, res: Result): Phase {
    if NeedsPool(op) then Unwinding(res) else Finished(res)
  }

  /** A prepare or query that consumed expectation `i` gives out its statement or rows. */
  predicate Serves(cfg: Config, op: Op, i: nat)
    requires i < |cfg.es|
  {
    && op.Driver? && (op.call.Prepare? || op.call.Query?)
    && L.Respond(cfg, op.call, Consumed(i), op.cancelled) == L.Served(i)
  }

  /** Expectation `i` is triggered by thread `t`, which gets its handle if it is served. */
  function Taken(cfg: Config, sh: Shared, t: nat, op: Op, i: nat): Shared
    requires i < |cfg.es|
  {
    sh.(done := sh.done + {i}, handed := sh.handed + if Serves(cfg, op, i) then {Handle(t, i)} else {})
  }

  /** What thread `t` can close of what operation `of` obtained: a handle from an earlier operation. */
  function Closable(pr: Program, sh: Shared, t: nat, of: nat): set<nat> {
    if of < t || of >= |pr.ops| then set h | h in sh.handed && h.op == of :: h.i else {}
  }

  /** One step of thread `t`. */
  function Next(pr: Program, s: System, t: nat): (n: System)
    requires Shaped(pr, s) && Enabled(pr, s, t)
    ensures Shaped(pr, n)
  {
    var cfg, op := pr.cfg, pr.ops[t];
    match s.phases[t]
    case Ready =>
      (match op
       case CloseHandle(of) =>
         Commit(s, t, s.sh.(closed := s.sh.closed + Closable(pr, s.sh, t, of)), Finished(HandleClosed))
       case Open => Commit(s, t, s.sh, Unwinding(Opened)).(pool := Some(t))
       case _ => Goto(s, t, Scan(0, 0)).(pool := if NeedsPool(op) then Some(t) else s.pool))
    case Scan(i, f) =>
      if i < |cfg.es| then Goto(s, t, Holding(i, f)).(owner := s.owner[i := Some(t)])
      else Commit(s, t, s.sh, Return(op, if op.Verdict? then Judged(L.AllMet) else Matched(NotExpected(f == i))))
    case Holding(i, f) =>
      if op.Verdict? then
        if i in s.sh.done then Goto(s, t, Reading(i)) else Commit(s, t, s.sh, Leaving(i, Judged(L.Unmatched(i))))
      else if i in s.sh.done then Goto(s, t, Skipping(i, f + 1))
      else if cfg.ordered && !SameKind(cfg.es[i].kind, op.call)
      then Commit(s, t, s.sh, Leaving(i, Matched(OutOfTurn(i))))
      else if cfg.ordered || Selects(cfg, cfg.es[i], op.call) then Goto(s, t, Chosen(i))
      else Goto(s, t, Skipping(i, f))
    case Skipping(i, f) => Unlock(Goto(s, t, Scan(i + 1, f)), i)
    case Chosen(i) =>
      if Accepts(cfg, cfg.es[i], op.call)
      then Commit(s, t, Taken(cfg, s.sh, t, op, i), Leaving(i, Matched(Consumed(i))))
      else Commit(s, t, s.sh, Leaving(i, Matched(Mismatch(i))))
    case Reading(i) => Unlock(Goto(s, t, CloseCheck(i)), i)
    case CloseCheck(i) =>
      if MustBeClosed(cfg.es[i]) && i !in s.sh.closed
      then Commit(s, t, s.sh, Finished(Judged(L.NotClosed(i))))
      else Goto(s, t, Scan(i + 1, 0))
    case Leaving(i, res) => Unlock(Goto(s, t, Return(op, res)), i)
    case Unwinding(res) => Goto(s, t, Finished(res)).(pool := None)
  }

  /** A schedule names the thread to run at each turn; a blocked or finished thread lets the turn pass. */
  function Exec(pr: Program, s: System, schedule: seq<nat>): System
    requires Shaped(pr, s)
    ensures Shaped(pr, Exec(pr, s, schedule))
    decreases |schedule|
  {
    if schedule == [] then s
    else Exec(pr, if Enabled(pr, s, schedule[0]) then Next(pr, s, schedule[0]) else s, schedule[1..])
  }

  // ----- the atomic operations that the interleaving refines

  /** What operation `t` does to the shared flags. */
  function Effect(pr: Program, sh: Shared, t: nat): Shared
    requires t < |pr.ops|
  {
    match pr.ops[t]
    case Driver(c, _) =>
      var o := Step(pr.cfg, sh.done, c);
      if o.Consumed? then Taken(pr.cfg, sh, t, pr.ops[t], o.i) else sh
    case CloseHandle(of) => sh.(closed := sh.closed + Closable(pr, sh, t, of))
    case _ => sh
  }

  /** Which of the two refusal wordings of an exhausted scan is used may differ. */
  predicate SameUpToWording(a: Outcome, b: Outcome) {
    a == b || (a.NotExpected? && b.NotExpected?)
  }

  predicate Allows(cfg: Config, sh: Shared, op: Op, res: Result) {
    match op
    case Driver(c, _) => res.Matched? && SameUpToWording(res.o, Step(cfg, sh.done, c))
    case Verdict => res.Judged? && L.IsVerdict(L.Mock(cfg, sh.done, {}, sh.closed), res.v)
    case Open => res.Opened?
    case CloseHandle(_) => res.HandleClosed?
  }

  /** The shared flags after the logged operations, one atomic step each. */
  function Replay(pr: Program, log: seq<nat>): Shared
    requires forall k | 0 <= k < |log| :: log[k] < |pr.ops|
    decreases |log|
  {
    if log == [] then pr.start
    else Effect(pr, Replay(pr, log[..|log| - 1]), log[|log| - 1])
  }

  // ----- the invariant

  /** The operation would walk over expectation `j` in the present state, and so in every later one. */
  predicate Cleared(pr: Program, sh: Shared, op: Op, j: nat)
    requires j < |pr.cfg.es|
  {
    match op
    case Driver(c, _) => !Halts(pr.cfg, sh.done, c, j)
    case _ => !L.Offends(L.Mock(pr.cfg, sh.done, {}, sh.closed), j)
  }

  predicate ClearedBelow(pr: Program, sh: Shared, op: Op, i: nat)
    requires i <= |pr.cfg.es|
  {
    forall j | 0 <= j < i :: Cleared(pr, sh, op, j)
  }

  predicate ThreadOk(pr: Program, sh: Shared, op: Op, p: Phase) {
    && PhaseFits(pr, op, p)
    && match p
       case Scan(i, _) => ClearedBelow(pr, sh, op, i)
       case Holding(i, _) => ClearedBelow(pr, sh, op, i)
       case Skipping(i, _) => ClearedBelow(pr, sh, op, i + 1)
       case Chosen(i) => ClearedBelow(pr, sh, op, i) && Halts(pr.cfg, sh.done, op.call, i)
       case Reading(i) => ClearedBelow(pr, sh, op, i) && i in sh.done
       case CloseCheck(i) => ClearedBelow(pr, sh, op, i) && i in sh.done
       case _ => true
  }

  ghost predicate ThreadsOk(pr: Program, s: System)
    requires Shaped(pr, s)
  {
    forall t | 0 <= t < |s.phases| :: ThreadOk(pr, s.sh, pr.ops[t], s.phases[t])
  }

  /** Lock tables and thread phases agree: who owns what is exactly who holds what. */
  ghost predicate LocksOk(pr: Program, s: System)
    requires Shaped(pr, s)
  {
    && (forall i, t: nat | 0 <= i < |s.owner| ::
          s.owner[i] == Some(t) <==> t < |s.phases| && Held(s.phases[t]) == Some(i))
    && (forall t: nat :: s.pool == Some(t) <==> t < |s.phases| && HoldsPool(pr.ops[t], s.phases[t]))
  }

  /** The log lists exactly the threads whose operation has taken effect, once each. */
  ghost predicate LogCovers(pr: Program, s: System)
    requires Shaped(pr, s)
  {
    && (forall k | 0 <= k < |s.log| :: s.log[k] < |s.phases| && Linearized(s.phases[s.log[k]]))
    && (forall t | 0 <= t < |s.phases| :: Linearized(s.phases[t]) ==> t in s.log)
    && (forall k, l | 0 <= k < l < |s.log| :: s.log[k] != s.log[l])
  }

  /** The k-th logged result is what the atomic operation allows after the k before it. */
  ghost predicate Explained(pr: Program, s: System, k: nat)
    requires Shaped(pr, s) && LogCovers(pr, s) && k < |s.log|
  {
    Allows(pr.cfg, Replay(pr, s.log[..k]), pr.ops[s.log[k]], s.phases[s.log[k]].res)
  }

  /** The log is a sequential history that explains the flags and every result so far. */
  ghost predicate LogOk(pr: Program, s: System)
    requires Shaped(pr, s)
  {
    && LogCovers(pr, s)
    && s.sh == Replay(pr, s.log)
    && forall k | 0 <= k < |s.log| :: Explained(pr, s, k)
  }

  ghost predicate Invariant(pr: Program, s: System) {
    Shaped(pr, s) && ThreadsOk(pr, s) && LocksOk(pr, s) && LogOk(pr, s)
  }

  lemma InitialOk(pr: Program)
    ensures Invariant(pr, Initial(pr))
  {
  }

  /** What a step of thread `t` does to the log: nothing, or it appends `t` with an atomic effect and result. */
  ghost predicate Refines(pr: Program, s: System, t: nat, n: System)
    requires t < |pr.ops| && t < |s.phases| && t < |n.phases|
  {
    if n.log == s.log
    then n.sh == s.sh && Linearized(n.phases[t]) == Linearized(s.phases[t])
         && (Linearized(n.phases[t]) ==> n.phases[t].res == s.phases[t].res)
    else n.log == s.log + [t] && n.sh == Effect(pr, s.sh, t)
         && !Linearized(s.phases[t]) && Linearized(n.phases[t])
         && Allows(pr.cfg, s.sh, pr.ops[t], n.phases[t].res)
  }

  /** A driver call's first halt, from what it has walked over. */
  lemma HaltOf(pr: Program, sh: Shared, op: Op, i: nat)
    requires op.Driver? && i <= |pr.cfg.es| && ClearedBelow(pr, sh, op, i)
    requires i < |pr.cfg.es| ==> Halts(pr.cfg, sh.done, op.call, i)
    ensures FirstHalt(pr.cfg, sh.done, op.call, 0) == i
  {
    forall j | 0 <= j < i
      ensures !Halts(pr.cfg, sh.done, op.call, j)
    {
      assert Cleared(pr, sh, op, j);
    }
    FirstHaltIs(pr.cfg, sh.done, op.call, i);
  }

  /** A verdict scan has met no offender so far. */
  lemma NoOffenderBelow(pr: Program, sh: Shared, op: Op, i: nat)
    requires op.Verdict? && i <= |pr.cfg.es| && ClearedBelow(pr, sh, op, i)
    ensures forall j | 0 <= j < i :: !L.Offends(L.Mock(pr.cfg, sh.done, {}, sh.closed), j)
  {
    forall j | 0 <= j < i
      ensures !L.Offends(L.Mock(pr.cfg, sh.done, {}, sh.closed), j)
    {
      assert Cleared(pr, sh, op, j);
    }
  }

  lemma ScanRefines(pr: Program, s: System, t: nat)
    requires Shaped(pr, s) && Enabled(pr, s, t) && ThreadOk(pr, s.sh, pr.ops[t], s.phases[t]) && s.phases[t].Scan?
    ensures Refines(pr, s, t, Next(pr, s, t))
  {
    var op, i := pr.ops[t], s.phases[t].i;
    if i == |pr.cfg.es| && op.Driver? {
      HaltOf(pr, s.sh, op, i);
    } else if op.Verdict? {
      NoOffenderBelow(pr, s.sh, op, i);
    }
  }

  lemma HoldingRefines(pr: Program, s: System, t: nat)
    requires Shaped(pr, s) && Enabled(pr, s, t) && ThreadOk(pr, s.sh, pr.ops[t], s.phases[t]) && s.phases[t].Holding?
    ensures Refines(pr, s, t, Next(pr, s, t))
  {
    var op, i := pr.ops[t], s.phases[t].i;
    if op.Driver? && Halts(pr.cfg, s.sh.done, op.call, i) {
      HaltOf(pr, s.sh, op, i);
    } else if op.Verdict? {
      NoOffenderBelow(pr, s.sh, op, i);
    }
  }

  lemma ChosenRefines(pr: Program, s: System, t: nat)
    requires Shaped(pr, s) && Enabled(pr, s, t) && ThreadOk(pr, s.sh, pr.ops[t], s.phases[t]) && s.phases[t].Chosen?
    ensures Refines(pr, s, t, Next(pr, s, t))
  {
    HaltOf(pr, s.sh, pr.ops[t], s.phases[t].i);
  }

  /** Every step either leaves the abstract state alone or is the operation's own atomic step. */
  lemma StepRefines(pr: Program, s: System, t: nat)
    requires Shaped(pr, s) && Enabled(pr, s, t) && ThreadOk(pr, s.sh, pr.ops[t], s.phases[t])
    ensures Refines(pr, s, t, Next(pr, s, t))
  {
    match s.phases[t]
    case Scan(_, _) => ScanRefines(pr, s, t);
    case Holding(_, _) => HoldingRefines(pr, s, t);
    case Chosen(_) => ChosenRefines(pr, s, t);
    case CloseCheck(i) => NoOffenderBelow(pr, s.sh, pr.ops[t], i);
    case _ =>
  }

  /** What a thread has walked over stays walked over while the flags only grow. */
  lemma ThreadStaysOk(pr: Program, sh: Shared, sh': Shared, op: Op, p: Phase)
    requires ThreadOk(pr, sh, op, p) && sh.done <= sh'.done && sh.closed <= sh'.closed
    requires p.Chosen? ==> p.i !in sh'.done
    ensures ThreadOk(pr, sh', op, p)
  {
    assert forall j | 0 <= j < |pr.cfg.es| :: Cleared(pr, sh, op, j) ==> Cleared(pr, sh', op, j);
  }

  /** The step leaves its own thread in order. */
  lemma OwnThreadOk(pr: Program, s: System, t: nat)
    requires Shaped(pr, s) && Enabled(pr, s, t) && ThreadOk(pr, s.sh, pr.ops[t], s.phases[t])
    ensures var n := Next(pr, s, t); ThreadOk(pr, n.sh, pr.ops[t], n.phases[t])
  {
  }

  lemma StepKeepsThreads(pr: Program, s: System, t: nat)
    requires Shaped(pr, s) && ThreadsOk(pr, s) && LocksOk(pr, s) && Enabled(pr, s, t)
    ensures ThreadsOk(pr, Next(pr, s, t))
  {
    var n := Next(pr, s, t);
    OwnThreadOk(pr, s, t);
    forall u | 0 <= u < |s.phases| && u != t
      ensures ThreadOk(pr, n.sh, pr.ops[u], n.phases[u])
    {
      if s.phases[u].Chosen? && n.sh.done != s.sh.done {
        assert Held(s.phases[u]) == Some(s.phases[u].i) && Held(s.phases[t]) == Some(s.phases[t].i);
        assert s.owner[s.phases[u].i] == Some(u) && s.owner[s.phases[t].i] == Some(t);
      }
      ThreadStaysOk(pr, s.sh, n.sh, pr.ops[u], s.phases[u]);
    }
  }

  /** How a step changes the lock tables and the thread's own holdings. */
  ghost predicate LockMove(pr: Program, s: System, t: nat, n: System)
    requires Shaped(pr, s) && Shaped(pr, n) && t < |s.phases|
  {
    var had, has := Held(s.phases[t]), Held(n.phases[t]);
    && (had.Some? ==> had.value < |s.owner|)
    && (had == has ==> n.owner == s.owner)
    && (had != has && had.Some? ==> has.None? && n.owner == s.owner[had.value := None])
    && (had != has && had.None? ==>
          has.value < |s.owner| && s.owner[has.value].None? && n.owner == s.owner[has.value := Some(t)])
    && var hadP, hasP := HoldsPool(pr.ops[t], s.phases[t]), HoldsPool(pr.ops[t], n.phases[t]);
       && (hadP == hasP ==> n.pool == s.pool)
       && (hadP && !hasP ==> n.pool.None?)
       && (!hadP && hasP ==> s.pool.None? && n.pool == Some(t))
  }

  lemma StepMovesLocks(pr: Program, s: System, t: nat)
    requires Shaped(pr, s) && Enabled(pr, s, t)
    ensures LockMove(pr, s, t, Next(pr, s, t))
    ensures forall u | 0 <= u < |s.phases| && u != t :: Next(pr, s, t).phases[u] == s.phases[u]
  {
  }

  lemma StepKeepsLocks(pr: Program, s: System, t: nat)
    requires Shaped(pr, s) && LocksOk(pr, s) && Enabled(pr, s, t)
    ensures LocksOk(pr, Next(pr, s, t))
  {
    var n := Next(pr, s, t);
    StepMovesLocks(pr, s, t);
    assert Held(s.phases[t]).Some? ==> s.owner[Held(s.phases[t]).value] == Some(t);
    forall i, u: nat | 0 <= i < |n.owner|
      ensures n.owner[i] == Some(u) <==> u < |n.phases| && Held(n.phases[u]) == Some(i)
    {
      assert s.owner[i] == Some(u) <==> u < |s.phases| && Held(s.phases[u]) == Some(i);
    }
    forall u: nat
      ensures n.pool == Some(u) <==> u < |n.phases| && HoldsPool(pr.ops[u], n.phases[u])
    {
      assert s.pool == Some(u) <==> u < |s.phases| && HoldsPool(pr.ops[u], s.phases[u]);
    }
  }

  lemma CoverGrows(pr: Program, s: System, t: nat, n: System)
    requires Shaped(pr, s) && Shaped(pr, n) && t < |s.phases| && LogCovers(pr, s) && Refines(pr, s, t, n)
    requires forall u | 0 <= u < |s.phases| && u != t :: n.phases[u] == s.phases[u]
    ensures LogCovers(pr, n) && (n.log != s.log ==> t !in s.log)
  {
  }

  lemma LogGrows(pr: Program, s: System, t: nat, n: System)
    requires Shaped(pr, s) && Shaped(pr, n) && t < |s.phases| && LogOk(pr, s) && Refines(pr, s, t, n)
    requires forall u | 0 <= u < |s.phases| && u != t :: n.phases[u] == s.phases[u]
    ensures LogOk(pr, n)
  {
    CoverGrows(pr, s, t, n);
    if n.log != s.log {
      assert n.log[..|s.log|] == s.log;
    }
    forall k | 0 <= k < |n.log|
      ensures Explained(pr, n, k)
    {
      if k < |s.log| {
        assert n.log[..k] == s.log[..k] && n.log[k] == s.log[k];
        assert Explained(pr, s, k);
      }
    }
  }

  lemma StepOk(pr: Program, s: System, t: nat)
    requires Invariant(pr, s) && Enabled(pr, s, t)
    ensures Invariant(pr, Next(pr, s, t))
  {
    StepKeepsThreads(pr, s, t);
    StepKeepsLocks(pr, s, t);
    StepRefines(pr, s, t);
    StepMovesLocks(pr, s, t);
    LogGrows(pr, s, t, Next(pr, s, t));
  }

  lemma {:induction false} RunOk(pr: Program, s: System, schedule: seq<nat>)
    requires Invariant(pr, s)
    ensures Invariant(pr, Exec(pr, s, schedule))
    decreases |schedule|
  {
    if schedule != [] {
      if Enabled(pr, s, schedule[0]) {
        StepOk(pr, s, schedule[0]);
      }
      RunOk(pr, if Enabled(pr, s, schedule[0]) then Next(pr, s, schedule[0]) else s, schedule[1..]);
    }
  }

  /** Some schedule leads from the start to this state. */
  ghost predicate Reachable(pr: Program, s: System) {
    exists schedule :: Exec(pr, Initial(pr), schedule) == s
  }

  lemma ReachableOk(pr: Program, s: System)
    requires Reachable(pr, s)
    ensures Invariant(pr, s)
  {
    var schedule :| Exec(pr, Initial(pr), schedule) == s;
    InitialOk(pr);
    RunOk(pr, Initial(pr), schedule);
  }

  // ----- linearizability

  /** In every interleaving the flags, and the result of every operation that has taken effect, are
      those of running the logged operations one atomic step after the other; no operation takes
      effect twice, and a finished one has taken effect. */
  lemma Linearizable(pr: Program, s: System)
    requires Reachable(pr, s)
    ensures Shaped(pr, s) && LogCovers(pr, s) && s.sh == Replay(pr, s.log)
    ensures forall k | 0 <= k < |s.log| ::
              Allows(pr.cfg, Replay(pr, s.log[..k]), pr.ops[s.log[k]], s.phases[s.log[k]].res)
    ensures forall t | 0 <= t < |s.phases| && s.phases[t].Finished? :: t in s.log
  {
    ReachableOk(pr, s);
    forall k | 0 <= k < |s.log|
      ensures Allows(pr.cfg, Replay(pr, s.log[..k]), pr.ops[s.log[k]], s.phases[s.log[k]].res)
    {
      assert Explained(pr, s, k);
    }
  }

  lemma {:induction false} LogExtends(pr: Program, s: System, schedule: seq<nat>)
    requires Invariant(pr, s)
    ensures s.log <= Exec(pr, s, schedule).log && s.sh.done <= Exec(pr, s, schedule).sh.done
    decreases |schedule|
  {
    if schedule != [] {
      var t := schedule[0];
      if Enabled(pr, s, t) {
        StepOk(pr, s, t);
        StepRefines(pr, s, t);
      }
      LogExtends(pr, if Enabled(pr, s, t) then Next(pr, s, t) else s, schedule[1..]);
    }
  }

  /** The linear order respects real time: an operation that had finished in a state from which
      another one had yet to start comes before it in every later log. */
  lemma RealTimeOrder(pr: Program, s: System, schedule: seq<nat>, t: nat, u: nat, k: nat, l: nat)
    requires Reachable(pr, s) && Shaped(pr, s)
    requires t < |s.phases| && u < |s.phases| && s.phases[t].Finished? && s.phases[u].Ready?
    requires var n := Exec(pr, s, schedule); k < |n.log| && l < |n.log| && n.log[k] == t && n.log[l] == u
    ensures k < l
  {
    ReachableOk(pr, s);
    assert u !in s.log && t in s.log;
    RunOk(pr, s, schedule);
    LogExtends(pr, s, schedule);
    EarlierInLog(s.log, Exec(pr, s, schedule).log, t, u, k, l);
  }

  lemma EarlierInLog(a: seq<nat>, b: seq<nat>, t: nat, u: nat, k: nat, l: nat)
    requires a <= b && t in a && u !in a && (forall i, j | 0 <= i < j < |b| :: b[i] != b[j])
    requires k < |b| && l < |b| && b[k] == t && b[l] == u
    ensures k < |a| <= l
  {
    var j :| 0 <= j < |a| && a[j] == t;
    assert b[..|a|] == a;
    assert forall i | 0 <= i < |a| :: b[i] == a[i] && b[i] in a;
  }

  /** The driver calls of a log, in its order. */
  function DriverCalls(pr: Program, log: seq<nat>): seq<Call>
    requires forall k | 0 <= k < |log| :: log[k] < |pr.ops|
    decreases |log|
  {
    if log == [] then []
    else
      var op := pr.ops[log[|log| - 1]];
      DriverCalls(pr, log[..|log| - 1]) + if op.Driver? then [op.call] else []
  }

  lemma {:induction false} ReplayIsRun(pr: Program, log: seq<nat>)
    requires forall k | 0 <= k < |log| :: log[k] < |pr.ops|
    ensures Replay(pr, log).done == Run(pr.cfg, pr.start.done, DriverCalls(pr, log))
    decreases |log|
  {
    if log != [] {
      var init := log[..|log| - 1];
      ReplayIsRun(pr, init);
      var op := pr.ops[log[|log| - 1]];
      if op.Driver? {
        RunSnoc(pr.cfg, pr.start.done, DriverCalls(pr, init), op.call);
      } else {
        assert DriverCalls(pr, init) + [] == DriverCalls(pr, init);
      }
    }
  }

  /** So every theorem about sequential runs holds of interleavings: the triggered expectations are
      those of the linearized call log. */
  lemma InterleavingIsSequentialRun(pr: Program, s: System)
    requires Reachable(pr, s)
    ensures (forall k | 0 <= k < |s.log| :: s.log[k] < |pr.ops|)
            && s.sh.done == Run(pr.cfg, pr.start.done, DriverCalls(pr, s.log))
  {
    ReachableOk(pr, s);
    ReplayIsRun(pr, s.log);
  }

  // ----- order and conservation under concurrency

  /** Ordered matching stays optimal: the linearized calls trigger as many of the open expectations, in
      order, as any embedding into them could. */
  lemma OrderedInterleavingIsOptimal(pr: Program, s: System)
    requires Reachable(pr, s) && pr.cfg.ordered
    ensures forall k | 0 <= k < |s.log| :: s.log[k] < |pr.ops|
    ensures var want := Ordered.Remaining(pr.cfg, pr.start.done, 0);
            var k := |s.sh.done - pr.start.done|;
            var calls := DriverCalls(pr, s.log);
            && k <= |want| && Ordered.Remaining(pr.cfg, s.sh.done, 0) == want[k..]
            && Ordered.Embeds(pr.cfg, want[..k], calls)
            && forall m | 0 <= m <= |want| && Ordered.Embeds(pr.cfg, want[..m], calls) :: m <= k
  {
    InterleavingIsSequentialRun(pr, s);
    Ordered.OrderedIsOptimal(pr.cfg, pr.start.done, DriverCalls(pr, s.log));
  }

  lemma {:induction false} ReplayKeepsPrefix(pr: Program, log: seq<nat>, k: nat) returns (k': nat)
    requires forall j | 0 <= j < |log| :: log[j] < |pr.ops|
    requires pr.cfg.ordered && k <= |pr.cfg.es| && Ordered.IsPrefix(pr.start.done, k)
    ensures k <= k' <= |pr.cfg.es| && Ordered.IsPrefix(Replay(pr, log).done, k')
    decreases |log|
  {
    if log == [] {
      k' := k;
    } else {
      var op := pr.ops[log[|log| - 1]];
      var sh := Replay(pr, log[..|log| - 1]);
      k' := ReplayKeepsPrefix(pr, log[..|log| - 1], k);
      if op.Driver? {
        Ordered.StepKeepsPrefix(pr.cfg, sh.done, op.call, k');
        k' := if Step(pr.cfg, sh.done, op.call).Consumed? then k' + 1 else k';
      }
    }
  }

  /** In order, in every interleaving, the triggered expectations are a prefix of the list. */
  lemma PrefixSafety(pr: Program, s: System, k: nat) returns (k': nat)
    requires Reachable(pr, s)
    requires pr.cfg.ordered && k <= |pr.cfg.es| && Ordered.IsPrefix(pr.start.done, k)
    ensures k <= k' <= |pr.cfg.es| && Ordered.IsPrefix(s.sh.done, k')
  {
    ReachableOk(pr, s);
    k' := ReplayKeepsPrefix(pr, s.log, k);
  }

  /** The k-th logged operation consumed an expectation. */
  predicate ConsumedAt(pr: Program, s: System, k: nat) {
    && k < |s.log| && s.log[k] < |s.phases| && Linearized(s.phases[s.log[k]])
    && s.phases[s.log[k]].res.Matched? && s.phases[s.log[k]].res.o.Consumed?
  }

  function ConsumedIndex(pr: Program, s: System, k: nat): nat
    requires ConsumedAt(pr, s, k)
  {
    s.phases[s.log[k]].res.o.i
  }

  lemma {:induction false} ReplayGrows(pr: Program, log: seq<nat>, m: nat)
    requires m <= |log| && forall j | 0 <= j < |log| :: log[j] < |pr.ops|
    ensures Replay(pr, log[..m]).done <= Replay(pr, log).done
    decreases |log|
  {
    if m < |log| {
      var init := log[..|log| - 1];
      assert log[..m] == init[..m];
      ReplayGrows(pr, init, m);
    } else {
      assert log[..m] == log;
    }
  }

  lemma ConsumptionIsStep(pr: Program, s: System, k: nat)
    requires Shaped(pr, s) && LogOk(pr, s) && ConsumedAt(pr, s, k)
    ensures pr.ops[s.log[k]].Driver?
    ensures Step(pr.cfg, Replay(pr, s.log[..k]).done, pr.ops[s.log[k]].call) == Consumed(ConsumedIndex(pr, s, k))
    ensures Replay(pr, s.log[..k + 1]).done == Replay(pr, s.log[..k]).done + {ConsumedIndex(pr, s, k)}
  {
    assert Explained(pr, s, k);
    assert s.log[..k + 1][..k] == s.log[..k];
  }

  lemma ConsumedStaysDone(pr: Program, s: System, k: nat, l: nat)
    requires Shaped(pr, s) && LogOk(pr, s) && ConsumedAt(pr, s, k) && k < l <= |s.log|
    ensures ConsumedIndex(pr, s, k) in Replay(pr, s.log[..l]).done
    ensures Replay(pr, s.log[..k]).done <= Replay(pr, s.log[..l]).done
  {
    ConsumptionIsStep(pr, s, k);
    assert s.log[..l][..k + 1] == s.log[..k + 1];
    ReplayGrows(pr, s.log[..l], k + 1);
  }

  /** A consumed expectation was open at the start and matches the call that consumed it. */
  lemma ConsumerMatches(pr: Program, s: System, k: nat)
    requires Reachable(pr, s) && ConsumedAt(pr, s, k)
    ensures var i := ConsumedIndex(pr, s, k);
            && i < |pr.cfg.es| && i !in pr.start.done && s.log[k] < |pr.ops| && pr.ops[s.log[k]].Driver?
            && Accepts(pr.cfg, pr.cfg.es[i], pr.ops[s.log[k]].call)
  {
    ReachableOk(pr, s);
    ConsumptionIsStep(pr, s, k);
    assert s.log[..k][..0] == [];
    ReplayGrows(pr, s.log[..k], 0);
  }

  /** Two consumers never share an expectation; in order, the earlier one takes the earlier expectation. */
  lemma ConsumersAreDistinct(pr: Program, s: System, k: nat, l: nat)
    requires Reachable(pr, s) && k < l && ConsumedAt(pr, s, k) && ConsumedAt(pr, s, l)
    ensures ConsumedIndex(pr, s, k) != ConsumedIndex(pr, s, l)
    ensures pr.cfg.ordered ==> ConsumedIndex(pr, s, k) < ConsumedIndex(pr, s, l)
  {
    ReachableOk(pr, s);
    ConsumptionIsStep(pr, s, k);
    ConsumptionIsStep(pr, s, l);
    ConsumedStaysDone(pr, s, k, l);
    var j, d := ConsumedIndex(pr, s, l), Replay(pr, s.log[..k]).done;
    assert j !in Replay(pr, s.log[..l]).done && j !in d;
    FirstOpenInOrder(pr.cfg, d, pr.ops[s.log[k]].call, j);
  }

  lemma FirstOpenInOrder(cfg: Config, d: set<nat>, c: Call, j: nat)
    requires j < |cfg.es| && j !in d
    ensures cfg.ordered ==> FirstHalt(cfg, d, c, 0) <= j
  {
    assert cfg.ordered ==> Halts(cfg, d, c, j);
  }

  function ConsumersUpTo(pr: Program, s: System, m: nat): set<nat> {
    set k | 0 <= k < m && ConsumedAt(pr, s, k)
  }

  lemma OthersTriggerNothing(pr: Program, s: System, k: nat)
    requires Shaped(pr, s) && LogOk(pr, s) && k < |s.log| && !ConsumedAt(pr, s, k)
    ensures Replay(pr, s.log[..k + 1]).done == Replay(pr, s.log[..k]).done
  {
    assert Explained(pr, s, k);
    assert s.log[..k + 1][..k] == s.log[..k];
  }

  lemma ConsumersUpToNext(pr: Program, s: System, k: nat)
    ensures ConsumersUpTo(pr, s, k + 1) == ConsumersUpTo(pr, s, k) + if ConsumedAt(pr, s, k) then {k} else {}
  {
  }

  lemma {:induction false} ConservationUpTo(pr: Program, s: System, m: nat)
    requires Shaped(pr, s) && LogOk(pr, s) && m <= |s.log|
    ensures |ConsumersUpTo(pr, s, m)| == |Replay(pr, s.log[..m]).done - pr.start.done|
    ensures pr.start.done <= Replay(pr, s.log[..m]).done
  {
    if m == 0 {
      assert ConsumersUpTo(pr, s, m) == {} && pr.start.done - pr.start.done == {};
    } else {
      ConservationUpTo(pr, s, m - 1);
      ConservationNext(pr, s, m - 1);
    }
  }

  lemma ConsumedIsNew(pr: Program, s: System, k: nat)
    requires Shaped(pr, s) && LogOk(pr, s) && ConsumedAt(pr, s, k)
    ensures var i, d := ConsumedIndex(pr, s, k), Replay(pr, s.log[..k]).done;
            Replay(pr, s.log[..k + 1]).done == d + {i} && i !in d
  {
    ConsumptionIsStep(pr, s, k);
  }

  lemma ConservationNext(pr: Program, s: System, k: nat)
    requires Shaped(pr, s) && LogOk(pr, s) && k < |s.log|
    requires |ConsumersUpTo(pr, s, k)| == |Replay(pr, s.log[..k]).done - pr.start.done|
    requires pr.start.done <= Replay(pr, s.log[..k]).done
    ensures |ConsumersUpTo(pr, s, k + 1)| == |Replay(pr, s.log[..k + 1]).done - pr.start.done|
    ensures pr.start.done <= Replay(pr, s.log[..k + 1]).done
  {
    var a, d := ConsumersUpTo(pr, s, k), Replay(pr, s.log[..k]).done;
    ConsumersUpToNext(pr, s, k);
    if ConsumedAt(pr, s, k) {
      var i := ConsumedIndex(pr, s, k);
      ConsumedIsNew(pr, s, k);
      OneMore(a, k, pr.start.done, d, i);
    } else {
      OthersTriggerNothing(pr, s, k);
      assert a + {} == a;
    }
  }

  /** Conservation: in every interleaving and either mode, as many operations consumed an expectation
      as expectations are newly triggered. */
  lemma InterleavingConserves(pr: Program, s: System)
    requires Reachable(pr, s)
    ensures |ConsumersUpTo(pr, s, |s.log|)| == |s.sh.done - pr.start.done|
  {
    ReachableOk(pr, s);
    ConservationUpTo(pr, s, |s.log|);
    assert s.log[..|s.log|] == s.log;
  }

  // ----- locks and progress

  lemma ReachableLocks(pr: Program, s: System)
    requires Reachable(pr, s)
    ensures Shaped(pr, s) && LocksOk(pr, s)
  {
    ReachableOk(pr, s);
  }

  /** No thread ever owns two expectation locks, and a finished thread owns no lock at all. */
  lemma OneLockEach(pr: Program, s: System, t: nat, i: nat, j: nat)
    requires Reachable(pr, s) && i < |s.owner| && j < |s.owner| && s.owner[i] == Some(t)
    ensures t < |s.phases| && !s.phases[t].Finished?
    ensures s.owner[j] == Some(t) ==> i == j
  {
    ReachableLocks(pr, s);
    assert Held(s.phases[t]) == Some(i);
    assert s.owner[j] == Some(t) ==> Held(s.phases[t]) == Some(j);
  }

  /** What a logged result says, outright: a driver call has the outcome of its atomic step, up to which of
      the two wordings a refusal without any candidate uses; a verdict is the verdict of the flags. */
  lemma ResultSays(pr: Program, s: System, k: nat)
    requires Reachable(pr, s) && k < |s.log|
    ensures s.log[k] < |pr.ops| && s.log[k] < |s.phases| && Linearized(s.phases[s.log[k]])
    ensures forall j | 0 <= j < |s.log| :: s.log[j] < |pr.ops|
    ensures var sh, op, res := Replay(pr, s.log[..k]), pr.ops[s.log[k]], s.phases[s.log[k]].res;
            && (op.Driver? ==>
                  && res.Matched?
                  && var o := Step(pr.cfg, sh.done, op.call);
                     res.o == o || (res.o.NotExpected? && o.NotExpected?))
            && (op.Verdict? ==> res.Judged? && L.IsVerdict(L.Mock(pr.cfg, sh.done, {}, sh.closed), res.v))
            && (op.Open? ==> res == Opened) && (op.CloseHandle? ==> res == HandleClosed)
  {
    Linearizable(pr, s);
  }

  /** The pool lock belongs exactly to the Close or Open that has begun and not finished, so that no two
      of them overlap. */
  lemma PoolOwnerIff(pr: Program, s: System, t: nat)
    requires Reachable(pr, s)
    ensures s.pool == Some(t) <==>
            && t < |s.phases| && t < |pr.ops| && (pr.ops[t].Open? || (pr.ops[t].Driver? && pr.ops[t].call.Close?))
            && !s.phases[t].Ready? && !s.phases[t].Finished?
  {
    ReachableLocks(pr, s);
  }

  /** The pool lock is taken only by a thread that owns no expectation lock, and is released again. */
  lemma PoolLockComesFirst(pr: Program, s: System, t: nat, i: nat)
    requires Reachable(pr, s) && Shaped(pr, s) && Enabled(pr, s, t) && i < |s.owner|
    requires s.pool != Some(t) && Next(pr, s, t).pool == Some(t)
    ensures s.owner[i] != Some(t)
  {
    ReachableLocks(pr, s);
    assert s.owner[i] == Some(t) ==> Held(s.phases[t]) == Some(i);
  }

  lemma FinishedFreesPool(pr: Program, s: System, t: nat)
    requires Reachable(pr, s) && s.pool == Some(t)
    ensures t < |s.phases| && t < |pr.ops| && NeedsPool(pr.ops[t]) && !s.phases[t].Finished?
  {
    ReachableLocks(pr, s);
  }

  lemma {:induction false} LeastUnfinished(s: System, t: nat) returns (u: nat)
    requires t < |s.phases| && !s.phases[t].Finished?
    ensures u <= t && !s.phases[u].Finished? && forall v | 0 <= v < u :: s.phases[v].Finished?
  {
    if v :| 0 <= v < t && !s.phases[v].Finished? {
      u := LeastUnfinished(s, v);
    } else {
      u := t;
    }
  }

  lemma SomeoneCanStep(pr: Program, s: System, t: nat) returns (u: nat)
    requires Invariant(pr, s) && t < |s.phases| && !s.phases[t].Finished?
    ensures Enabled(pr, s, u)
  {
    if holder :| 0 <= holder < |s.phases| && Held(s.phases[holder]).Some? {
      assert ThreadOk(pr, s.sh, pr.ops[holder], s.phases[holder]);
      u := holder;
    } else {
      forall i | 0 <= i < |s.owner|
        ensures s.owner[i].None?
      {
        var x := if s.owner[i].Some? then s.owner[i].value else 0;
        assert s.owner[i] == Some(x) <==> x < |s.phases| && Held(s.phases[x]) == Some(i);
      }
      u := LeastUnfinished(s, t);
      u := if s.phases[u].Ready? && s.pool.Some? then s.pool.value else u;
      assert s.pool.Some? ==> s.pool == Some(s.pool.value);
      assert ThreadOk(pr, s.sh, pr.ops[u], s.phases[u]);
    }
  }

  /** Steps a thread has left, at most. */
  function Rank(pr: Program, p: Phase): int {
    var n := |pr.cfg.es|;
    match p
    case Ready => 4 * n + 4
    case Scan(i, _) => 4 * (n - i) + 3
    case Holding(i, _) => 4 * (n - i) + 2
    case Skipping(i, _) => 4 * (n - i) + 1
    case Chosen(i) => 4 * (n - i) + 1
    case Reading(i) => 4 * (n - i) + 1
    case CloseCheck(i) => 4 * (n - i)
    case Leaving(_, _) => 2
    case Unwinding(_) => 1
    case Finished(_) => 0
  }

  function Work(pr: Program, ps: seq<Phase>): int {
    if ps == [] then 0 else Rank(pr, ps[0]) + Work(pr, ps[1..])
  }

  lemma {:induction false} WorkUpdate(pr: Program, ps: seq<Phase>, t: nat, p: Phase)
    requires t < |ps|
    ensures Work(pr, ps[t := p]) == Work(pr, ps) - Rank(pr, ps[t]) + Rank(pr, p)
    decreases |ps|
  {
    if t > 0 {
      WorkUpdate(pr, ps[1..], t - 1, p);
      assert ps[t := p][1..] == ps[1..][t - 1 := p];
    } else {
      assert ps[t := p][1..] == ps[1..];
    }
  }

  lemma {:induction false} WorkIsNat(pr: Program, ops: seq<Op>, ps: seq<Phase>)
    requires |ops| == |ps| && forall t | 0 <= t < |ps| :: PhaseFits(pr, ops[t], ps[t])
    ensures Work(pr, ps) >= 0
    decreases |ps|
  {
    if ps != [] {
      assert forall t | 0 <= t < |ps[1..]| :: ps[1..][t] == ps[t + 1] && ops[1..][t] == ops[t + 1];
      WorkIsNat(pr, ops[1..], ps[1..]);
      assert PhaseFits(pr, ops[0], ps[0]);
    }
  }

  lemma StepLowersRank(pr: Program, s: System, t: nat)
    requires Shaped(pr, s) && Enabled(pr, s, t)
    ensures var n := Next(pr, s, t);
            n.phases == s.phases[t := n.phases[t]] && Rank(pr, n.phases[t]) < Rank(pr, s.phases[t])
  {
  }

  lemma StepWorks(pr: Program, s: System, t: nat)
    requires Shaped(pr, s) && Enabled(pr, s, t)
    ensures Work(pr, Next(pr, s, t).phases) < Work(pr, s.phases)
  {
    StepLowersRank(pr, s, t);
    WorkUpdate(pr, s.phases, t, Next(pr, s, t).phases[t]);
  }

  ghost predicate AllFinished(s: System) {
    forall t | 0 <= t < |s.phases| :: s.phases[t].Finished?
  }

  /** Every turn of the schedule runs a thread that can step. */
  predicate AlwaysSteps(pr: Program, s: System, schedule: seq<nat>)
    requires Shaped(pr, s)
    decreases |schedule|
  {
    schedule == [] || (Enabled(pr, s, schedule[0]) && AlwaysSteps(pr, Next(pr, s, schedule[0]), schedule[1..]))
  }

  lemma {:induction false} StepsAreBounded(pr: Program, s: System, schedule: seq<nat>)
    requires Invariant(pr, s) && AlwaysSteps(pr, s, schedule)
    ensures |schedule| <= Work(pr, s.phases)
    decreases |schedule|
  {
    assert forall t | 0 <= t < |s.phases| :: ThreadOk(pr, s.sh, pr.ops[t], s.phases[t]);
    WorkIsNat(pr, pr.ops, s.phases);
    if schedule != [] {
      StepOk(pr, s, schedule[0]);
      StepWorks(pr, s, schedule[0]);
      StepsAreBounded(pr, Next(pr, s, schedule[0]), schedule[1..]);
    }
  }

  lemma {:induction false} InitialWork(pr: Program, n: nat)
    ensures Work(pr, seq(n, _ => Ready)) == n * (4 * |pr.cfg.es| + 4)
  {
    if n > 0 {
      InitialWork(pr, n - 1);
      assert seq(n, _ => Ready)[1..] == seq<Phase>(n - 1, _ => Ready);
    }
  }

  /** Deadlock freedom: wherever the schedule has led, either every operation has finished or some
      thread can step. */
  lemma DeadlockFree(pr: Program, s: System)
    requires Reachable(pr, s)
    ensures Shaped(pr, s) && (AllFinished(s) <==> forall t: nat :: !Enabled(pr, s, t))
  {
    ReachableOk(pr, s);
    if t :| 0 <= t < |s.phases| && !s.phases[t].Finished? {
      var u := SomeoneCanStep(pr, s, t);
    }
  }

  /** Termination: any run that never wastes a turn ends within a bound linear in the number of
      threads and the length of the list; with deadlock freedom, all operations finish. */
  lemma RunsTerminate(pr: Program, schedule: seq<nat>)
    requires AlwaysSteps(pr, Initial(pr), schedule)
    ensures |schedule| <= |pr.ops| * (4 * |pr.cfg.es| + 4)
  {
    InitialOk(pr);
    StepsAreBounded(pr, Initial(pr), schedule);
    InitialWork(pr, |pr.ops|);
    assert Initial(pr).phases == seq(|pr.ops|, _ => Ready);
  }
}
