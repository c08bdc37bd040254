/**
 The scan loops of sqlmock.go and sqlmock_go18.go over a list of lockable expectations, run by one
 thread. The eight Go loops differ only in the type they assert and in whether an unordered scan
 compares text: they are the one loop `Scan` here, with two bodies.
*/
module Scanning {
  import opened Arguments
  import opened Matching
  import opened Expectations

  /** How a scan ends: with the lock of an expectation still held, refused in order, or exhausted. */
  datatype ScanResult = Found(i: nat) | Stopped(i: nat) | Exhausted(fulfilled: nat)

  /** How one turn of a scan loop ends: go on, stop with the lock held, or stop with an error. */
  datatype Probe = Skip(fulfilled: bool) | Hold | Refuse

  /** What a scan reads of the mock besides its list. */
  datatype Mode = Mode(matches: (string, string) -> bool, eq: DeepEqual, ordered: bool)

  ghost function Specs(xs: seq<Expectation>): (r: seq<Spec>)
    ensures |r| == |xs| && forall i | 0 <= i < |xs| :: r[i] == xs[i].spec
  {
    seq(|xs|, i requires 0 <= i < |xs| => xs[i].spec)
  }

  ghost function Cfg(mode: Mode, xs: seq<Expectation>): Config {
    Config(mode.matches, mode.eq, mode.ordered, Specs(xs))
  }

  ghost function Done(xs: seq<Expectation>): set<nat>
    reads xs`triggered
  {
    set i: nat | i < |xs| && xs[i].triggered
  }

  ghost predicate Slotted(xs: seq<Expectation>) {
    forall i | 0 <= i < |xs| :: xs[i].slot == i
  }

  /** Between calls no expectation is locked. */
  ghost predicate Unlocked(xs: seq<Expectation>)
    reads xs`locked
  {
    Slotted(xs) && forall i | 0 <= i < |xs| :: !xs[i].locked
  }

  ghost predicate LockedOnly(xs: seq<Expectation>, i: nat)
    reads xs`locked
  {
    && Slotted(xs) && i < |xs|
    && forall j | 0 <= j < |xs| :: xs[j].locked <==> j == i
  }

  /** The lock of the found expectation is held, no other. */
  ghost predicate Holds(xs: seq<Expectation>, r: ScanResult)
    reads xs`locked
  {
    if r.Found? then LockedOnly(xs, r.i) else Unlocked(xs)
  }

  // ----- the result of a scan, in terms of the specification

  ghost predicate ScanEnds(cfg: Config, done: set<nat>, c: Call, r: ScanResult) {
    var h := FirstHalt(cfg, done, c, 0);
    match r
    case Found(i) => i == h < |cfg.es| && SameKind(cfg.es[i].kind, c)
    case Stopped(i) => i == h < |cfg.es| && !SameKind(cfg.es[i].kind, c)
    case Exhausted(f) => h == |cfg.es| && (f == |cfg.es| <==> AllDone(cfg, done))
  }

  /** How many of the first `i` expectations are triggered. */
  ghost function Fulfilled(done: set<nat>, i: nat): (f: nat)
    ensures f <= i
  {
    if i == 0 then 0 else Fulfilled(done, i - 1) + if i - 1 in done then 1 else 0
  }

  lemma {:induction false} AllFulfilledIff(done: set<nat>, i: nat)
    ensures Fulfilled(done, i) == i <==> forall j | 0 <= j < i :: j in done
  {
    if i > 0 {
      AllFulfilledIff(done, i - 1);
    }
  }

  /** The scan has reached index `i` and counted the fulfilled expectations below it. */
  ghost predicate Reached(cfg: Config, done: set<nat>, c: Call, i: nat, fulfilled: nat)
    requires i <= |cfg.es|
  {
    FirstHalt(cfg, done, c, 0) == FirstHalt(cfg, done, c, i) && fulfilled == Fulfilled(done, i)
  }

  lemma ScanGoesOn(cfg: Config, done: set<nat>, c: Call, i: nat, fulfilled: nat)
    requires i < |cfg.es| && Reached(cfg, done, c, i, fulfilled) && !Halts(cfg, done, c, i)
    ensures Reached(cfg, done, c, i + 1, if i in done then fulfilled + 1 else fulfilled)
  {
  }

  lemma ScanHalts(cfg: Config, done: set<nat>, c: Call, i: nat, fulfilled: nat)
    requires i <= |cfg.es| && Reached(cfg, done, c, i, fulfilled)
    requires i < |cfg.es| ==> Halts(cfg, done, c, i)
    ensures ScanEnds(cfg, done, c, if i == |cfg.es| then Exhausted(fulfilled)
                                   else if SameKind(cfg.es[i].kind, c) then Found(i) else Stopped(i))
  {
    AllFulfilledIff(done, i);
  }

  /** What one look at expectation `i` reports, and that its lock is held exactly when it was chosen. */
  ghost predicate ProbeEnds(cfg: Config, done: set<nat>, c: Call, xs: seq<Expectation>, i: nat, p: Probe)
    reads xs`locked
    requires i < |cfg.es|
  {
    match p
    case Skip(fulfilled) => !Halts(cfg, done, c, i) && fulfilled == (i in done) && Unlocked(xs)
    case Hold => Halts(cfg, done, c, i) && SameKind(cfg.es[i].kind, c) && LockedOnly(xs, i)
    case Refuse => Halts(cfg, done, c, i) && !SameKind(cfg.es[i].kind, c) && Unlocked(xs)
  }

  // ----- the loop

  predicate OfKindOnly(c: Call) {
    c.Close? || c.Begin? || c.Commit? || c.Rollback? || c.Ping?
  }

  /** One turn of the loop of Close, begin, Commit, Rollback and ping. */
  method ProbeByKind(mode: Mode, xs: seq<Expectation>, c: Call, i: nat, ghost cfg: Config, ghost done: set<nat>)
    returns (p: Probe)
    requires Unlocked(xs) && OfKindOnly(c) && i < |xs|
    requires cfg == Cfg(mode, xs) && done == Done(xs)
    modifies {xs[i]}`locked
    ensures ProbeEnds(cfg, done, c, xs, i, p)
  {
    var next := xs[i];
    next.Lock();
    if next.Fulfilled() {
      next.Unlock();
      return Skip(true);
    }
    if SameKind(next.spec.kind, c) {
      return Hold;
    }
    next.Unlock();
    return if mode.ordered then Refuse else Skip(false);
  }

  /** The query matcher's answer for an expectation of the call's kind. */
  predicate SQLMatches(mode: Mode, k: Kind, c: Call)
    requires !OfKindOnly(c) && SameKind(k, c)
  {
    match k
    case ExpectedPrepare(sql) => mode.matches(sql, c.sql)
    case ExpectedQuery(sql, _) => mode.matches(sql, c.query)
    case ExpectedExec(sql, _) => mode.matches(sql, c.exec)
  }

  /** The query matcher first, then the arguments; a prepare has none. */
  method AttemptMatch(mode: Mode, ghost xs: seq<Expectation>, k: Kind, c: Call) returns (ok: bool)
    requires !OfKindOnly(c) && SameKind(k, c)
    ensures ok <==> TextAgrees(Cfg(mode, xs), k, c)
    ensures k.ExpectedPrepare? ==> (ok <==> mode.matches(k.prepareSQL, c.sql))
    ensures k.ExpectedQuery? ==> (ok <==> mode.matches(k.querySQL, c.query) && ArgsAgree(mode.eq, k.queryArgs, c.args))
    ensures k.ExpectedExec? ==> (ok <==> mode.matches(k.execSQL, c.exec) && ArgsAgree(mode.eq, k.execArgs, c.execWith))
  {
    if !SQLMatches(mode, k, c) {
      return false;
    }
    match k
    case ExpectedPrepare(_) => return true;
    case ExpectedQuery(_, spec) =>
      var err := ArgsMatches(mode.eq, spec, c.args);
      return err.None?;
    case ExpectedExec(_, spec) =>
      var err := ArgsMatches(mode.eq, spec, c.execWith);
      return err.None?;
  }

  /** One turn of the loop of prepare, query and exec. */
  method ProbeByMatch(mode: Mode, xs: seq<Expectation>, c: Call, i: nat, ghost cfg: Config, ghost done: set<nat>)
    returns (p: Probe)
    requires Unlocked(xs) && !OfKindOnly(c) && i < |xs|
    requires cfg == Cfg(mode, xs) && done == Done(xs)
    modifies {xs[i]}`locked
    ensures ProbeEnds(cfg, done, c, xs, i, p)
  {
    var next := xs[i];
    next.Lock();
    if next.Fulfilled() {
      next.Unlock();
      return Skip(true);
    }
    var same := SameKind(next.spec.kind, c);
    if mode.ordered {
      if same {
        return Hold;
      }
      next.Unlock();
      return Refuse;
    }
    if same {
      var ok := AttemptMatch(mode, xs, next.spec.kind, c);
      if ok {
        return Hold;
      }
    }
    next.Unlock();
    return Skip(false);
  }

  /** One turn of the loop of the given call. */
  method ProbeNext(mode: Mode, xs: seq<Expectation>, c: Call, i: nat, ghost cfg: Config, ghost done: set<nat>)
    returns (p: Probe)
    requires Unlocked(xs) && i < |xs|
    requires cfg == Cfg(mode, xs) && done == Done(xs)
    modifies {xs[i]}`locked
    ensures ProbeEnds(cfg, done, c, xs, i, p)
  {
    if OfKindOnly(c) {
      p := ProbeByKind(mode, xs, c, i, cfg, done);
    } else {
      p := ProbeByMatch(mode, xs, c, i, cfg, done);
    }
  }

  /** The scan of a driver call: it finds the specification's first halt and holds only its lock. */
  method Scan(mode: Mode, xs: seq<Expectation>, c: Call) returns (r: ScanResult)
    requires Unlocked(xs)
    modifies xs`locked
    ensures ScanEnds(Cfg(mode, xs), Done(xs), c, r) && Holds(xs, r)
  {
    ghost var cfg, done := Cfg(mode, xs), Done(xs);
    var fulfilled: nat := 0;
    for i := 0 to |xs|
      invariant Unlocked(xs)
      invariant Reached(cfg, done, c, i, fulfilled)
    {
      var p := ProbeNext(mode, xs, c, i, cfg, done);
      if p.Skip? {
        ScanGoesOn(cfg, done, c, i, fulfilled);
        fulfilled := if p.fulfilled then fulfilled + 1 else fulfilled;
      } else {
        ScanHalts(cfg, done, c, i, fulfilled);
        return if p.Hold? then Found(i) else Stopped(i);
      }
    }
    ScanHalts(cfg, done, c, |xs|, fulfilled);
    return Exhausted(fulfilled);
  }

  /** Runs under the lock of the found expectation: trigger it if the later checks pass; unlock. */
  method Settle(ghost cfg: Config, xs: seq<Expectation>, c: Call, r: ScanResult, agrees: bool) returns (o: Outcome)
    requires cfg.es == Specs(xs) && ScanEnds(cfg, Done(xs), c, r) && Holds(xs, r)
    requires r.Found? ==> (agrees <==> Accepts(cfg, xs[r.i].spec, c))
    modifies xs`locked, xs`triggered
    ensures o == Step(cfg, old(Done(xs)), c) && Done(xs) == After(old(Done(xs)), o) && Unlocked(xs)
  {
    match r
    case Exhausted(fulfilled) => o := NotExpected(fulfilled == |xs|);
    case Stopped(i) => o := OutOfTurn(i);
    case Found(i) =>
      if agrees {
        xs[i].triggered := true;
        o := Consumed(i);
      } else {
        o := Mismatch(i);
      }
      xs[i].Unlock();
  }
}
