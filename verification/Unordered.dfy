/**
 Unordered mode is greedy bipartite matching between calls and expectations: maximal, within a
 factor two of any other assignment, and independent of call order exactly as far as stated here.

 Begin is the exception: its scan stops at the first open ExpectedBegin and compares transaction
 options only afterwards. `Reaches` names the calls where that never makes it miss a match.
*/
module Unordered {
  import opened Wrappers
  import opened Matching

  /** Where a Begin would be refused, it is refused by every ExpectedBegin behind; true of every other call. */
  predicate Reaches(cfg: Config, c: Call) {
    c.Begin? ==> forall x, y | 0 <= x < y < |cfg.es| ::
      cfg.es[x].kind.ExpectedBegin? && Accepts(cfg, cfg.es[y], c) ==> Accepts(cfg, cfg.es[x], c)
  }

  predicate MatchesOpen(cfg: Config, done: set<nat>, c: Call, i: nat) {
    i < |cfg.es| && i !in done && Accepts(cfg, cfg.es[i], c)
  }

  lemma FirstHaltIsLeast(cfg: Config, done: set<nat>, c: Call, r: nat)
    requires r < |cfg.es| && Halts(cfg, done, c, r)
    ensures FirstHalt(cfg, done, c, 0) <= r
  {
  }

  /** An unordered step can miss a matching open expectation, and does so exactly when the first
      open ExpectedBegin refuses the options of a Begin that a later one would take. */
  lemma StepMissesIff(cfg: Config, done: set<nat>, c: Call)
    requires !cfg.ordered
    ensures !Step(cfg, done, c).Consumed? && (exists i: nat :: MatchesOpen(cfg, done, c, i)) <==>
            c.Begin? && (exists i: nat :: MatchesOpen(cfg, done, c, i))
            && exists i: nat :: IsFirstOpenBegin(cfg, done, i) && !TxAgrees(cfg.es[i].kind.txOpts, c.opts)
  {
    var h := FirstHalt(cfg, done, c, 0);
    if i: nat :| MatchesOpen(cfg, done, c, i) {
      FirstHaltIsLeast(cfg, done, c, i);
      if c.Begin? {
        forall j | 0 <= j < h
          ensures j in done || !cfg.es[j].kind.ExpectedBegin?
        {
          assert !Halts(cfg, done, c, j);
        }
        assert IsFirstOpenBegin(cfg, done, h);
      }
    }
  }

  predicate IsFirstOpenBegin(cfg: Config, done: set<nat>, i: nat) {
    && i < |cfg.es| && i !in done && cfg.es[i].kind.ExpectedBegin?
    && forall j | 0 <= j < i :: j in done || !cfg.es[j].kind.ExpectedBegin?
  }

  /** Unless it is a Begin, a call consumes what its scan selects. */
  lemma SelectedIsTaken(cfg: Config, done: set<nat>, c: Call)
    requires !cfg.ordered && !c.Begin?
    ensures var h := FirstHalt(cfg, done, c, 0);
            && (h < |cfg.es| ==> Step(cfg, done, c) == Consumed(h) && MatchesOpen(cfg, done, c, h))
            && (h == |cfg.es| ==> Step(cfg, done, c).NotExpected?)
            && forall j | 0 <= j < h :: !MatchesOpen(cfg, done, c, j)
  {
    var h := FirstHalt(cfg, done, c, 0);
    forall j | 0 <= j < h
      ensures !MatchesOpen(cfg, done, c, j)
    {
      assert !Halts(cfg, done, c, j);
    }
  }

  /** A step consumes the first open expectation that matches, and nothing only if none does. */
  lemma StepTakesFirstMatch(cfg: Config, done: set<nat>, c: Call)
    requires !cfg.ordered && Reaches(cfg, c)
    ensures var o := Step(cfg, done, c);
            if o.Consumed?
            then MatchesOpen(cfg, done, c, o.i) && forall j: nat | j < o.i :: !MatchesOpen(cfg, done, c, j)
            else forall j: nat :: !MatchesOpen(cfg, done, c, j)
  {
    var h := FirstHalt(cfg, done, c, 0);
    forall j: nat | j < h
      ensures !MatchesOpen(cfg, done, c, j)
    {
      assert !Halts(cfg, done, c, j);
    }
  }

  /** Exactly the calls that reach their expectations are never turned away while one is open. */
  lemma ReachesIff(cfg: Config, c: Call)
    requires !cfg.ordered
    ensures Reaches(cfg, c) <==>
            forall done, j: nat :: MatchesOpen(cfg, done, c, j) ==> Step(cfg, done, c).Consumed?
  {
    if Reaches(cfg, c) {
      forall done, j: nat | MatchesOpen(cfg, done, c, j)
        ensures Step(cfg, done, c).Consumed?
      {
        StepTakesFirstMatch(cfg, done, c);
      }
    } else {
      var x, y :| 0 <= x < y < |cfg.es| && cfg.es[x].kind.ExpectedBegin? && Accepts(cfg, cfg.es[y], c)
        && !Accepts(cfg, cfg.es[x], c);
      var done := UnreachedState(cfg, c, x, y);
      assert MatchesOpen(cfg, done, c, y);
    }
  }

  /** With only x and y open, the Begin is refused by x and does not get to y. */
  lemma UnreachedState(cfg: Config, c: Call, x: nat, y: nat) returns (done: set<nat>)
    requires !cfg.ordered && c.Begin? && x < y < |cfg.es| && cfg.es[x].kind.ExpectedBegin?
    requires Accepts(cfg, cfg.es[y], c) && !Accepts(cfg, cfg.es[x], c)
    ensures MatchesOpen(cfg, done, c, y) && Step(cfg, done, c) == Mismatch(x)
  {
    done := (set i: nat {:trigger cfg.es[i]} | i < |cfg.es|) - {x, y};
    assert Halts(cfg, done, c, x);
    FirstHaltIs(cfg, done, c, x);
  }

  /** Maximality: a call rejected during a run matches nothing that is still open at its end. */
  lemma RejectedMatchesNothingLeft(cfg: Config, done: set<nat>, calls: seq<Call>, k: nat)
    requires !cfg.ordered && k < |calls| && Reaches(cfg, calls[k])
    requires !OutcomeOf(cfg, done, calls, k).Consumed?
    ensures forall i: nat :: !MatchesOpen(cfg, Run(cfg, done, calls), calls[k], i)
  {
    RunThrough(cfg, done, calls, k);
    var before := Run(cfg, done, calls[..k]);
    StepTakesFirstMatch(cfg, before, calls[k]);
    forall i: nat
      ensures !MatchesOpen(cfg, Run(cfg, done, calls), calls[k], i)
    {
      assert !MatchesOpen(cfg, before, calls[k], i);
    }
  }

  /** An assignment of calls to open expectations they match, no expectation twice. */
  predicate IsAssignment(cfg: Config, done: set<nat>, calls: seq<Call>, m: map<nat, nat>) {
    (forall k | k in m :: k < |calls| && MatchesOpen(cfg, done, calls[k], m[k])) && Injective(m)
  }

  predicate Injective(m: map<nat, nat>) {
    forall k, l | k in m && l in m :: m[k] == m[l] ==> k == l
  }

  /** A set that a map sends injectively into `t` is no larger than `t`. */
  lemma {:induction false} InjectionBound(s: set<nat>, t: set<nat>, f: map<nat, nat>)
    requires forall x | x in s :: x in f && f[x] in t
    requires forall x, y | x in s && y in s :: f[x] == f[y] ==> x == y
    ensures |s| <= |t|
    decreases |s|
  {
    if x :| x in s {
      InjectionBound(s - {x}, t - {f[x]}, f);
    }
  }

  /** The assigned calls that consumed something are at most as many as the consumed expectations. */
  lemma LuckyBound(cfg: Config, done: set<nat>, calls: seq<Call>, keys: set<nat>)
    requires keys <= Consumers(cfg, done, calls)
    ensures |keys| <= |Run(cfg, done, calls) - done|
  {
    Conservation(cfg, done, calls);
    InjectionBound(keys, Consumers(cfg, done, calls), map k | k in keys :: k);
  }

  /** The assigned calls that were rejected lost their partners to the run, so the same bound holds. */
  lemma UnluckyBound(cfg: Config, done: set<nat>, calls: seq<Call>, m: map<nat, nat>, keys: set<nat>)
    requires !cfg.ordered && IsAssignment(cfg, done, calls, m) && forall k | k in m :: Reaches(cfg, calls[k])
    requires keys <= m.Keys && keys !! Consumers(cfg, done, calls)
    ensures |keys| <= |Run(cfg, done, calls) - done|
  {
    var end := Run(cfg, done, calls);
    forall k | k in keys
      ensures m[k] in end - done
    {
      assert k !in Consumers(cfg, done, calls);
      RejectedMatchesNothingLeft(cfg, done, calls, k);
      assert !MatchesOpen(cfg, end, calls[k], m[k]);
    }
    InjectionBound(keys, end - done, m);
  }

  /** Greedy is within a factor two: any assignment has at most twice as many pairs as the run
      consumed expectations. */
  lemma GreedyIsHalfOptimal(cfg: Config, done: set<nat>, calls: seq<Call>, m: map<nat, nat>)
    requires !cfg.ordered && IsAssignment(cfg, done, calls, m) && forall k | k in m :: Reaches(cfg, calls[k])
    ensures |m| <= 2 * |Run(cfg, done, calls) - done|
  {
    var lucky := m.Keys * Consumers(cfg, done, calls);
    var unlucky := m.Keys - Consumers(cfg, done, calls);
    LuckyBound(cfg, done, calls, lucky);
    UnluckyBound(cfg, done, calls, m, unlucky);
    assert m.Keys == lucky + unlucky && |m| == |m.Keys|;
  }

  /** The factor is reached: a call that two expectations match takes the one that another call needs. */
  lemma FactorTwoIsTight(cfg: Config)
    requires !cfg.ordered
    requires cfg.es == [Spec(ExpectedPrepare("any"), None, false, false),
                        Spec(ExpectedPrepare("one"), None, false, false)]
    requires forall q :: cfg.matches("any", q)
    requires forall q :: cfg.matches("one", q) <==> q == "one"
    ensures var calls := [Prepare("one"), Prepare("two")];
            && IsAssignment(cfg, {}, calls, map[0 := 1, 1 := 0])
            && Run(cfg, {}, calls) == {0}
  {
    var calls := [Prepare("one"), Prepare("two")];
    assert Halts(cfg, {}, calls[0], 0);
    assert Step(cfg, {}, calls[0]) == Consumed(0);
    assert !Halts(cfg, {0}, calls[1], 0) && !Halts(cfg, {0}, calls[1], 1);
    assert Step(cfg, {0}, calls[1]).NotExpected?;
    assert calls[1..] == [calls[1]];
    RunSnoc(cfg, {}, [calls[0]], calls[1]);
    RunSnoc(cfg, {}, [], calls[0]);
  }
}
