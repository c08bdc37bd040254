/**
 What each driver call consumes and how it is refused, outright in terms of the fields of the
 expectations: the first one that is open and, unless matching is in order, right for the call.
*/
module Outcomes {
  import opened Wrappers
  import opened Arguments
  import opened Matching

  /** Which expectation is for which call. */
  lemma SameKindIff(k: Kind, c: Call)
    ensures SameKind(k, c) <==>
            || (k.ExpectedClose? && c.Close?) || (k.ExpectedBegin? && c.Begin?)
            || (k.ExpectedCommit? && c.Commit?) || (k.ExpectedRollback? && c.Rollback?)
            || (k.ExpectedPrepare? && c.Prepare?) || (k.ExpectedQuery? && c.Query?)
            || (k.ExpectedExec? && c.Exec?) || (k.ExpectedPing? && c.Ping?)
  {
  }

  /** The scan stops at `i` and nowhere before. */
  predicate StopsAt(cfg: Config, done: set<nat>, c: Call, i: nat) {
    i < |cfg.es| && Halts(cfg, done, c, i) && forall j | 0 <= j < i :: !Halts(cfg, done, c, j)
  }

  lemma StepAt(cfg: Config, done: set<nat>, c: Call, i: nat)
    ensures Step(cfg, done, c) == Consumed(i) <==> StopsAt(cfg, done, c, i) && Accepts(cfg, cfg.es[i], c)
    ensures Step(cfg, done, c) == Mismatch(i) <==>
            StopsAt(cfg, done, c, i) && SameKind(cfg.es[i].kind, c) && !Accepts(cfg, cfg.es[i], c)
    ensures Step(cfg, done, c) == OutOfTurn(i) <==> StopsAt(cfg, done, c, i) && !SameKind(cfg.es[i].kind, c)
  {
    if StopsAt(cfg, done, c, i) {
      FirstHaltIs(cfg, done, c, i);
    }
  }

  lemma CloseConsumesIff(cfg: Config, done: set<nat>, i: nat)
    ensures Step(cfg, done, Close) == Consumed(i) <==>
            && i < |cfg.es| && i !in done && cfg.es[i].kind.ExpectedClose?
            && forall j | 0 <= j < i :: j in done || (!cfg.ordered && !cfg.es[j].kind.ExpectedClose?)
  {
    assert forall j | 0 <= j < |cfg.es| ::
        (Halts(cfg, done, Close, j) <==> (j !in done && (cfg.ordered || cfg.es[j].kind.ExpectedClose?)));
    StepAt(cfg, done, Close, i);
  }

  lemma CommitConsumesIff(cfg: Config, done: set<nat>, i: nat)
    ensures Step(cfg, done, Commit) == Consumed(i) <==>
            && i < |cfg.es| && i !in done && cfg.es[i].kind.ExpectedCommit?
            && forall j | 0 <= j < i :: j in done || (!cfg.ordered && !cfg.es[j].kind.ExpectedCommit?)
  {
    assert forall j | 0 <= j < |cfg.es| ::
        (Halts(cfg, done, Commit, j) <==> (j !in done && (cfg.ordered || cfg.es[j].kind.ExpectedCommit?)));
    StepAt(cfg, done, Commit, i);
  }

  lemma RollbackConsumesIff(cfg: Config, done: set<nat>, i: nat)
    ensures Step(cfg, done, Rollback) == Consumed(i) <==>
            && i < |cfg.es| && i !in done && cfg.es[i].kind.ExpectedRollback?
            && forall j | 0 <= j < i :: j in done || (!cfg.ordered && !cfg.es[j].kind.ExpectedRollback?)
  {
    assert forall j | 0 <= j < |cfg.es| ::
        (Halts(cfg, done, Rollback, j) <==> (j !in done && (cfg.ordered || cfg.es[j].kind.ExpectedRollback?)));
    StepAt(cfg, done, Rollback, i);
  }

  lemma PingConsumesIff(cfg: Config, done: set<nat>, i: nat)
    ensures Step(cfg, done, Ping) == Consumed(i) <==>
            && i < |cfg.es| && i !in done && cfg.es[i].kind.ExpectedPing?
            && forall j | 0 <= j < i :: j in done || (!cfg.ordered && !cfg.es[j].kind.ExpectedPing?)
  {
    assert forall j | 0 <= j < |cfg.es| ::
        (Halts(cfg, done, Ping, j) <==> (j !in done && (cfg.ordered || cfg.es[j].kind.ExpectedPing?)));
    StepAt(cfg, done, Ping, i);
  }

  /** The scan of Begin stops at any open ExpectedBegin; the options count only there. */
  lemma BeginConsumesIff(cfg: Config, done: set<nat>, got: TxOptions, i: nat)
    ensures Step(cfg, done, Begin(got)) == Consumed(i) <==>
            && i < |cfg.es| && i !in done && cfg.es[i].kind.ExpectedBegin?
            && (forall j | 0 <= j < i :: j in done || (!cfg.ordered && !cfg.es[j].kind.ExpectedBegin?))
            && var want := cfg.es[i].kind.txOpts;
               want.None? || want.value.isolation == got.isolation || want.value.readOnly == got.readOnly
  {
    assert forall j | 0 <= j < |cfg.es| ::
        (Halts(cfg, done, Begin(got), j) <==> (j !in done && (cfg.ordered || cfg.es[j].kind.ExpectedBegin?)));
    StepAt(cfg, done, Begin(got), i);
  }

  lemma PrepareConsumesIff(cfg: Config, done: set<nat>, sql: string, i: nat)
    ensures Step(cfg, done, Prepare(sql)) == Consumed(i) <==>
            && i < |cfg.es| && i !in done
            && cfg.es[i].kind.ExpectedPrepare? && cfg.matches(cfg.es[i].kind.prepareSQL, sql)
            && forall j | 0 <= j < i ::
                 || j in done
                 || (!cfg.ordered && !(cfg.es[j].kind.ExpectedPrepare? && cfg.matches(cfg.es[j].kind.prepareSQL, sql)))
  {
    assert forall j | 0 <= j < |cfg.es| ::
        (Halts(cfg, done, Prepare(sql), j) <==>
         (j !in done
          && (cfg.ordered
              || (cfg.es[j].kind.ExpectedPrepare? && cfg.matches(cfg.es[j].kind.prepareSQL, sql)))));
    StepAt(cfg, done, Prepare(sql), i);
  }

  /** Text and arguments both count, in order as well as not. */
  lemma QueryConsumesIff(cfg: Config, done: set<nat>, q: string, args: seq<NamedValue>, i: nat)
    ensures Step(cfg, done, Query(q, args)) == Consumed(i) <==>
            && i < |cfg.es| && i !in done && cfg.es[i].kind.ExpectedQuery?
            && cfg.matches(cfg.es[i].kind.querySQL, q) && ArgsAgree(cfg.eq, cfg.es[i].kind.queryArgs, args)
            && forall j | 0 <= j < i ::
                 || j in done
                 || (!cfg.ordered && !(&& cfg.es[j].kind.ExpectedQuery? && cfg.matches(cfg.es[j].kind.querySQL, q)
                                       && ArgsAgree(cfg.eq, cfg.es[j].kind.queryArgs, args)))
  {
    assert forall j | 0 <= j < |cfg.es| ::
        (Halts(cfg, done, Query(q, args), j) <==>
         (j !in done
          && (cfg.ordered
              || (cfg.es[j].kind.ExpectedQuery? && cfg.matches(cfg.es[j].kind.querySQL, q)
                  && ArgsAgree(cfg.eq, cfg.es[j].kind.queryArgs, args)))));
    StepAt(cfg, done, Query(q, args), i);
  }

  lemma ExecConsumesIff(cfg: Config, done: set<nat>, q: string, args: seq<NamedValue>, i: nat)
    ensures Step(cfg, done, Exec(q, args)) == Consumed(i) <==>
            && i < |cfg.es| && i !in done && cfg.es[i].kind.ExpectedExec?
            && cfg.matches(cfg.es[i].kind.execSQL, q) && ArgsAgree(cfg.eq, cfg.es[i].kind.execArgs, args)
            && forall j | 0 <= j < i ::
                 || j in done
                 || (!cfg.ordered && !(&& cfg.es[j].kind.ExpectedExec? && cfg.matches(cfg.es[j].kind.execSQL, q)
                                       && ArgsAgree(cfg.eq, cfg.es[j].kind.execArgs, args)))
  {
    assert forall j | 0 <= j < |cfg.es| ::
        (Halts(cfg, done, Exec(q, args), j) <==>
         (j !in done
          && (cfg.ordered
              || (cfg.es[j].kind.ExpectedExec? && cfg.matches(cfg.es[j].kind.execSQL, q)
                  && ArgsAgree(cfg.eq, cfg.es[j].kind.execArgs, args)))));
    StepAt(cfg, done, Exec(q, args), i);
  }

  /** Only in order is a call out of turn: the first open expectation is for another kind of call. */
  lemma OutOfTurnIff(cfg: Config, done: set<nat>, c: Call, i: nat)
    ensures Step(cfg, done, c) == OutOfTurn(i) <==>
            && cfg.ordered && i < |cfg.es| && i !in done && !SameKind(cfg.es[i].kind, c)
            && forall j | 0 <= j < i :: j in done
  {
    assert forall j | 0 <= j < |cfg.es| ::
        (Halts(cfg, done, c, j) <==> (j !in done && (cfg.ordered || Selects(cfg, cfg.es[j], c))));
    StepAt(cfg, done, c, i);
  }

  /** A query finds the right kind of expectation but not the right text or arguments: only in order, and
      only at the first open one. */
  lemma QueryMismatchIff(cfg: Config, done: set<nat>, q: string, args: seq<NamedValue>, i: nat)
    ensures Step(cfg, done, Query(q, args)) == Mismatch(i) <==>
            && cfg.ordered && i < |cfg.es| && i !in done && (forall j | 0 <= j < i :: j in done)
            && cfg.es[i].kind.ExpectedQuery?
            && !(cfg.matches(cfg.es[i].kind.querySQL, q) && ArgsAgree(cfg.eq, cfg.es[i].kind.queryArgs, args))
  {
    assert forall j | 0 <= j < |cfg.es| ::
        (Halts(cfg, done, Query(q, args), j) <==>
         (j !in done
          && (cfg.ordered
              || (cfg.es[j].kind.ExpectedQuery? && cfg.matches(cfg.es[j].kind.querySQL, q)
                  && ArgsAgree(cfg.eq, cfg.es[j].kind.queryArgs, args)))));
    StepAt(cfg, done, Query(q, args), i);
  }

  lemma ExecMismatchIff(cfg: Config, done: set<nat>, q: string, args: seq<NamedValue>, i: nat)
    ensures Step(cfg, done, Exec(q, args)) == Mismatch(i) <==>
            && cfg.ordered && i < |cfg.es| && i !in done && (forall j | 0 <= j < i :: j in done)
            && cfg.es[i].kind.ExpectedExec?
            && !(cfg.matches(cfg.es[i].kind.execSQL, q) && ArgsAgree(cfg.eq, cfg.es[i].kind.execArgs, args))
  {
    assert forall j | 0 <= j < |cfg.es| ::
        (Halts(cfg, done, Exec(q, args), j) <==>
         (j !in done
          && (cfg.ordered
              || (cfg.es[j].kind.ExpectedExec? && cfg.matches(cfg.es[j].kind.execSQL, q)
                  && ArgsAgree(cfg.eq, cfg.es[j].kind.execArgs, args)))));
    StepAt(cfg, done, Exec(q, args), i);
  }

  lemma PrepareMismatchIff(cfg: Config, done: set<nat>, sql: string, i: nat)
    ensures Step(cfg, done, Prepare(sql)) == Mismatch(i) <==>
            && cfg.ordered && i < |cfg.es| && i !in done && (forall j | 0 <= j < i :: j in done)
            && cfg.es[i].kind.ExpectedPrepare? && !cfg.matches(cfg.es[i].kind.prepareSQL, sql)
  {
    assert forall j | 0 <= j < |cfg.es| ::
        (Halts(cfg, done, Prepare(sql), j) <==>
         (j !in done
          && (cfg.ordered
              || (cfg.es[j].kind.ExpectedPrepare? && cfg.matches(cfg.es[j].kind.prepareSQL, sql)))));
    StepAt(cfg, done, Prepare(sql), i);
  }

  /** In order a call is refused without naming an expectation only if all are fulfilled; otherwise the
      refusal says whether they are. */
  lemma NotExpectedSays(cfg: Config, done: set<nat>, c: Call, all: bool)
    requires Step(cfg, done, c) == NotExpected(all)
    ensures all <==> forall i | 0 <= i < |cfg.es| :: i in done
    ensures cfg.ordered ==> all
  {
    if cfg.ordered {
      forall i | 0 <= i < |cfg.es|
        ensures i in done
      {
        assert !Halts(cfg, done, c, i);
      }
    }
  }
}
