/**
 The specification of expectation matching: what one driver call does to the shared list of
 expectations, taken as a single atomic step. `Engine` proves the scan loops of sqlmock.go and
 sqlmock_go18.go against it, `Interleaving` proves that concurrent scans refine it.
*/
module Matching {
  import opened Wrappers
  import opened Arguments

  datatype TxOptions = TxOptions(isolation: int, readOnly: bool)

  /** The expectation types with the fields that decide a match. */
  datatype Kind =
    | ExpectedClose
    | ExpectedBegin(txOpts: Option<TxOptions>)
    | ExpectedCommit
    | ExpectedRollback
    | ExpectedPrepare(prepareSQL: string)
    | ExpectedQuery(querySQL: string, queryArgs: ArgSpec)
    | ExpectedExec(execSQL: string, execArgs: ArgSpec)
    | ExpectedPing

  /** One registered expectation as its builder chain left it. `hasReply` says that rows or a result
      were set; `mustBeClosed` is the flag of prepared statements and query rows. */
  datatype Spec = Spec(kind: Kind, err: Option<string>, hasReply: bool, mustBeClosed: bool)

  predicate MustBeClosed(s: Spec) {
    s.mustBeClosed && (s.kind.ExpectedPrepare? || s.kind.ExpectedQuery?)
  }

  /** A driver call; arguments are those after CheckNamedValue. */
  datatype Call =
    | Close
    | Begin(opts: TxOptions)
    | Commit
    | Rollback
    | Prepare(sql: string)
    | Query(query: string, args: seq<NamedValue>)
    | Exec(exec: string, execWith: seq<NamedValue>)
    | Ping

  /** Everything that stays fixed while calls run. */
  datatype Config = Config(matches: (string, string) -> bool, eq: DeepEqual, ordered: bool, es: seq<Spec>)

  /** The Go type assertion of each scan loop. */
  predicate SameKind(k: Kind, c: Call) {
    match k
    case ExpectedClose => c.Close?
    case ExpectedBegin(_) => c.Begin?
    case ExpectedCommit => c.Commit?
    case ExpectedRollback => c.Rollback?
    case ExpectedPrepare(_) => c.Prepare?
    case ExpectedQuery(_, _) => c.Query?
    case ExpectedExec(_, _) => c.Exec?
    case ExpectedPing => c.Ping?
  }

  /** Begin is refused only when isolation AND read-only both differ. */
  predicate TxAgrees(want: Option<TxOptions>, got: TxOptions) {
    want.None? || want.value.isolation == got.isolation || want.value.readOnly == got.readOnly
  }

  /** The query text and arguments agree; kinds without text always do. */
  predicate TextAgrees(cfg: Config, k: Kind, c: Call)
    requires SameKind(k, c)
  {
    match k
    case ExpectedPrepare(sql) => cfg.matches(sql, c.sql)
    case ExpectedQuery(sql, args) => cfg.matches(sql, c.query) && ArgsAgree(cfg.eq, args, c.args)
    case ExpectedExec(sql, args) => cfg.matches(sql, c.exec) && ArgsAgree(cfg.eq, args, c.execWith)
    case _ => true
  }

  /** The expectation matches the call: a caller's notion, independent of any scan. */
  predicate Accepts(cfg: Config, s: Spec, c: Call) {
    SameKind(s.kind, c) && TextAgrees(cfg, s.kind, c) && (c.Begin? ==> TxAgrees(s.kind.txOpts, c.opts))
  }

  /** What makes an unordered scan stop: everything but the transaction options. */
  predicate Selects(cfg: Config, s: Spec, c: Call) {
    SameKind(s.kind, c) && TextAgrees(cfg, s.kind, c)
  }

  /** The scan stops at index `i`: in order at the first open expectation, else at the first open one selected. */
  predicate Halts(cfg: Config, done: set<nat>, c: Call, i: nat)
    requires i < |cfg.es|
  {
    i !in done && (cfg.ordered || Selects(cfg, cfg.es[i], c))
  }

  /** The least index, from `i` on, where the scan stops; the list's length if there is none. */
  function FirstHalt(cfg: Config, done: set<nat>, c: Call, i: nat): (r: nat)
    requires i <= |cfg.es|
    ensures i <= r <= |cfg.es|
    ensures forall j | i <= j < r :: !Halts(cfg, done, c, j)
    ensures r < |cfg.es| ==> Halts(cfg, done, c, r)
    decreases |cfg.es| - i
  {
    if i == |cfg.es| || Halts(cfg, done, c, i) then i else FirstHalt(cfg, done, c, i + 1)
  }

  lemma FirstHaltIs(cfg: Config, done: set<nat>, c: Call, i: nat)
    requires i <= |cfg.es| && forall j | 0 <= j < i :: !Halts(cfg, done, c, j)
    requires i < |cfg.es| ==> Halts(cfg, done, c, i)
    ensures FirstHalt(cfg, done, c, 0) == i
  {
    if i < |cfg.es| {
      assert FirstHalt(cfg, done, c, 0) <= i;
    }
  }

  /** How the matching part of a call ends. */
  datatype Outcome =
    | Consumed(i: nat)      // expectation i is now triggered
    | Mismatch(i: nat)      // expectation i was selected, its later check failed
    | OutOfTurn(i: nat)     // in order, expectation i of another kind comes first
    | NotExpected(allFulfilled: bool)

  predicate AllDone(cfg: Config, done: set<nat>) {
    forall i | 0 <= i < |cfg.es| :: i in done
  }

  /** One call as an atomic step: its outcome ... */
  function Step(cfg: Config, done: set<nat>, c: Call): Outcome {
    var i := FirstHalt(cfg, done, c, 0);
    if i == |cfg.es| then NotExpected(AllDone(cfg, done))
    else if !SameKind(cfg.es[i].kind, c) then OutOfTurn(i)
    else if Accepts(cfg, cfg.es[i], c) then Consumed(i)
    else Mismatch(i)
  }

  /** ... and the triggered set it leaves. */
  function After(done: set<nat>, o: Outcome): set<nat> {
    if o.Consumed? then done + {o.i} else done
  }

  /** Half-wrong transaction options pass: a Begin is refused by expectation `i` exactly when that is the
      first open one, in order, or the first open ExpectedBegin, and carries options of which both the
      isolation level and the read-only flag differ. */
  lemma BeginRefusedIff(cfg: Config, done: set<nat>, got: TxOptions, i: nat)
    ensures Step(cfg, done, Begin(got)) == Mismatch(i) <==>
            && i < |cfg.es| && i !in done && cfg.es[i].kind.ExpectedBegin?
            && (forall j | 0 <= j < i :: j in done || (!cfg.ordered && !cfg.es[j].kind.ExpectedBegin?))
            && var want := cfg.es[i].kind.txOpts;
               want.Some? && want.value.isolation != got.isolation && want.value.readOnly != got.readOnly
  {
    var c := Begin(got);
    var h := FirstHalt(cfg, done, c, 0);
    if i < |cfg.es| && Halts(cfg, done, c, i) && forall j | 0 <= j < i :: !Halts(cfg, done, c, j) {
      FirstHaltIs(cfg, done, c, i);
    }
    forall j | 0 <= j < |cfg.es|
      ensures !Halts(cfg, done, c, j) <==> j in done || (!cfg.ordered && !cfg.es[j].kind.ExpectedBegin?)
    {
    }
  }

  /** So an unordered Begin can miss: refused by the first open ExpectedBegin, it never reaches the one
      behind it, which has no options and would take it. */
  lemma BeginCanMiss(cfg: Config, got: TxOptions)
    requires !cfg.ordered && got == TxOptions(0, false)
    requires cfg.es == [Spec(ExpectedBegin(Some(TxOptions(1, true))), None, false, false),
                        Spec(ExpectedBegin(None), None, false, false)]
    ensures Step(cfg, {}, Begin(got)) == Mismatch(0) && Accepts(cfg, cfg.es[1], Begin(got))
  {
    assert Halts(cfg, {}, Begin(got), 0);
  }

  /** The triggered set after a log of calls. */
  function Run(cfg: Config, done: set<nat>, calls: seq<Call>): set<nat>
    decreases |calls|
  {
    if calls == [] then done else Run(cfg, After(done, Step(cfg, done, calls[0])), calls[1..])
  }

  /** The outcome of the k-th call of a log. */
  function OutcomeOf(cfg: Config, done: set<nat>, calls: seq<Call>, k: nat): Outcome
    requires k < |calls|
  {
    Step(cfg, Run(cfg, done, calls[..k]), calls[k])
  }

  lemma {:induction false} RunAppend(cfg: Config, done: set<nat>, a: seq<Call>, b: seq<Call>)
    ensures Run(cfg, done, a + b) == Run(cfg, Run(cfg, done, a), b)
    decreases |a|
  {
    if a == [] {
      assert a + b == b;
    } else {
      RunAppend(cfg, After(done, Step(cfg, done, a[0])), a[1..], b);
      assert (a + b)[1..] == a[1..] + b;
    }
  }

  lemma RunSnoc(cfg: Config, done: set<nat>, a: seq<Call>, c: Call)
    ensures Run(cfg, done, a + [c]) == After(Run(cfg, done, a), Step(cfg, Run(cfg, done, a), c))
  {
    RunAppend(cfg, done, a, [c]);
  }

  /** Triggered flags never go back to false, and only indices of the list are set. */
  lemma {:induction false} RunGrows(cfg: Config, done: set<nat>, calls: seq<Call>)
    ensures done <= Run(cfg, done, calls)
    ensures forall i | i in Run(cfg, done, calls) && i !in done :: i < |cfg.es|
    decreases |calls|
  {
    if calls != [] {
      RunGrows(cfg, After(done, Step(cfg, done, calls[0])), calls[1..]);
    }
  }

  /** A log of n calls and the state before its k-th one: both halves of the run only add. */
  lemma RunThrough(cfg: Config, done: set<nat>, calls: seq<Call>, k: nat)
    requires k < |calls|
    ensures var before := Run(cfg, done, calls[..k]);
            done <= before <= After(before, OutcomeOf(cfg, done, calls, k)) <= Run(cfg, done, calls)
    ensures Run(cfg, done, calls[..k + 1]) == After(Run(cfg, done, calls[..k]), OutcomeOf(cfg, done, calls, k))
  {
    assert calls[..k + 1] == calls[..k] + [calls[k]];
    RunSnoc(cfg, done, calls[..k], calls[k]);
    RunGrows(cfg, done, calls[..k]);
    assert calls == calls[..k + 1] + calls[k + 1..];
    RunAppend(cfg, done, calls[..k + 1], calls[k + 1..]);
    RunGrows(cfg, Run(cfg, done, calls[..k + 1]), calls[k + 1..]);
  }

  /** A consuming call matches the expectation it consumes, which was open when the log began. */
  lemma ConsumerMatches(cfg: Config, done: set<nat>, calls: seq<Call>, k: nat)
    requires k < |calls| && OutcomeOf(cfg, done, calls, k).Consumed?
    ensures var i := OutcomeOf(cfg, done, calls, k).i;
            i in Run(cfg, done, calls) && i !in done && i < |cfg.es| && Accepts(cfg, cfg.es[i], calls[k])
  {
    RunThrough(cfg, done, calls, k);
  }

  /** No expectation is consumed by two calls. */
  lemma ConsumedOnce(cfg: Config, done: set<nat>, calls: seq<Call>, k: nat, l: nat)
    requires k < l < |calls|
    requires OutcomeOf(cfg, done, calls, k).Consumed? && OutcomeOf(cfg, done, calls, l).Consumed?
    ensures OutcomeOf(cfg, done, calls, k).i != OutcomeOf(cfg, done, calls, l).i
  {
    assert calls[..l][..k] == calls[..k];
    RunThrough(cfg, done, calls[..l], k);
  }

  /** The calls of a log that consumed an expectation. */
  function Consumers(cfg: Config, done: set<nat>, calls: seq<Call>): set<nat> {
    set k | 0 <= k < |calls| && OutcomeOf(cfg, done, calls, k).Consumed?
  }

  lemma ConsumersSnoc(cfg: Config, done: set<nat>, a: seq<Call>, c: Call)
    ensures Consumers(cfg, done, a + [c]) ==
            Consumers(cfg, done, a) + if Step(cfg, Run(cfg, done, a), c).Consumed? then {|a|} else {}
  {
    assert (a + [c])[..|a|] == a;
    forall k | 0 <= k < |a|
      ensures OutcomeOf(cfg, done, a + [c], k) == OutcomeOf(cfg, done, a, k)
    {
      assert (a + [c])[..k] == a[..k];
    }
  }

  /** Adding one to each side keeps a count and a growth in step. */
  lemma OneMore(a: set<nat>, k: nat, start: set<nat>, d: set<nat>, i: nat)
    requires k !in a && i !in d && start <= d && |a| == |d - start|
    ensures |a + {k}| == |(d + {i}) - start|
  {
    assert (d + {i}) - start == (d - start) + {i};
  }

  /** Conservation, in either mode and from any state: as many calls consume as expectations get
      triggered (with the two lemmas above, consumption is a bijection between them). */
  lemma {:induction false} Conservation(cfg: Config, done: set<nat>, calls: seq<Call>)
    ensures |Consumers(cfg, done, calls)| == |Run(cfg, done, calls) - done|
    decreases |calls|
  {
    if calls == [] {
      assert Consumers(cfg, done, calls) == {} && done - done == {};
    } else {
      var a, c := calls[..|calls| - 1], calls[|calls| - 1];
      assert calls == a + [c];
      Conservation(cfg, done, a);
      ConservationSnoc(cfg, done, a, c);
    }
  }

  lemma ConservationSnoc(cfg: Config, done: set<nat>, a: seq<Call>, c: Call)
    requires |Consumers(cfg, done, a)| == |Run(cfg, done, a) - done|
    ensures |Consumers(cfg, done, a + [c])| == |Run(cfg, done, a + [c]) - done|
  {
    var d := Run(cfg, done, a);
    var o := Step(cfg, d, c);
    ConsumersSnoc(cfg, done, a, c);
    RunSnoc(cfg, done, a, c);
    RunGrows(cfg, done, a);
    if o.Consumed? {
      OneMore(Consumers(cfg, done, a), |a|, done, d, o.i);
    } else {
      assert Consumers(cfg, done, a) + {} == Consumers(cfg, done, a);
    }
  }
}
