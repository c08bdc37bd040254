/**
 When two calls commute, in either mode: an exact condition that can be read off the list of expectations.

 Calls that stop at the same open expectation whatever they ask for are rivals: any two calls in order,
 and two Begins in any mode. Others can only take what they match.
*/
module Swapping {
  import opened Wrappers
  import opened Matching
  import opened Unordered
  import opened Commuting

  // ----- rivals

  predicate Rivals(cfg: Config, a: Call, b: Call) {
    cfg.ordered || (a.Begin? && b.Begin?)
  }

  /** Once the two calls face an expectation that either takes, the later ones must not tell them apart. */
  predicate RivalsSafe(cfg: Config, a: Call, b: Call) {
    forall x, y | 0 <= x < y < |cfg.es| ::
      && (Accepts(cfg, cfg.es[x], a) && !Accepts(cfg, cfg.es[x], b) ==> !Accepts(cfg, cfg.es[y], b))
      && (Accepts(cfg, cfg.es[x], b) && !Accepts(cfg, cfg.es[x], a) ==> !Accepts(cfg, cfg.es[y], a))
      && (Accepts(cfg, cfg.es[x], a) && Accepts(cfg, cfg.es[x], b)
          ==> (Accepts(cfg, cfg.es[y], a) <==> Accepts(cfg, cfg.es[y], b)))
  }

  /** Every scan of the one stops where that of the other does. */
  lemma SameHalt(cfg: Config, done: set<nat>, a: Call, b: Call)
    requires Rivals(cfg, a, b)
    ensures FirstHalt(cfg, done, a, 0) == FirstHalt(cfg, done, b, 0)
  {
    var h, k := FirstHalt(cfg, done, a, 0), FirstHalt(cfg, done, b, 0);
    assert h < |cfg.es| ==> Halts(cfg, done, b, h);
    assert k < |cfg.es| ==> Halts(cfg, done, a, k);
  }

  lemma RivalsSwap(cfg: Config, done: set<nat>, a: Call, b: Call)
    requires Rivals(cfg, a, b) && RivalsSafe(cfg, a, b)
    ensures Run(cfg, done, [a, b]) == Run(cfg, done, [b, a])
  {
    RunTwo(cfg, done, a, b);
    RunTwo(cfg, done, b, a);
    SameHalt(cfg, done, a, b);
    var x := FirstHalt(cfg, done, a, 0);
    if x < |cfg.es| {
      SameHalt(cfg, done + {x}, a, b);
      var y := FirstHalt(cfg, done + {x}, a, 0);
      assert y < |cfg.es| ==> Halts(cfg, done, a, y);
    }
  }

  /** With exactly x and a later y open, rivals stop at x first and at y after it was taken. */
  lemma RivalsHalt(cfg: Config, done: set<nat>, a: Call, b: Call, x: nat, y: nat)
    requires Rivals(cfg, a, b) && x < y < |cfg.es|
    requires forall i: nat | i < |cfg.es| :: i !in done <==> i == x || i == y
    requires forall i | i == x || i == y :: Accepts(cfg, cfg.es[i], a) || Accepts(cfg, cfg.es[i], b)
    ensures FirstHalt(cfg, done, a, 0) == x && FirstHalt(cfg, done, b, 0) == x
    ensures FirstHalt(cfg, done + {x}, a, 0) == y && FirstHalt(cfg, done + {x}, b, 0) == y
  {
    assert Halts(cfg, done, a, x) && Halts(cfg, done, b, x);
    assert Halts(cfg, done + {x}, a, y) && Halts(cfg, done + {x}, b, y);
    FirstHaltIs(cfg, done, a, x);
    FirstHaltIs(cfg, done, b, x);
    FirstHaltIs(cfg, done + {x}, a, y);
    FirstHaltIs(cfg, done + {x}, b, y);
  }

  /** Then an unsafe pair shows its order. */
  lemma UnsafeRivalsDiffer(cfg: Config, a: Call, b: Call, x: nat, y: nat)
    requires Rivals(cfg, a, b) && x < y < |cfg.es| && Accepts(cfg, cfg.es[x], a)
    requires if Accepts(cfg, cfg.es[x], b) then Accepts(cfg, cfg.es[y], a) != Accepts(cfg, cfg.es[y], b)
             else Accepts(cfg, cfg.es[y], b)
    ensures !Commute(cfg, a, b)
  {
    var done := (set i: nat {:trigger cfg.es[i]} | i < |cfg.es|) - {x, y};
    RivalsHalt(cfg, done, a, b, x, y);
    RunTwo(cfg, done, a, b);
    RunTwo(cfg, done, b, a);
    assert y in Run(cfg, done, [a, b]) <==> y !in Run(cfg, done, [b, a]);
  }

  /** Rivals commute from every state exactly when the pair is safe. */
  lemma RivalsCommuteIff(cfg: Config, a: Call, b: Call)
    requires Rivals(cfg, a, b)
    ensures Commute(cfg, a, b) <==> RivalsSafe(cfg, a, b)
  {
    if RivalsSafe(cfg, a, b) {
      forall done
        ensures Run(cfg, done, [a, b]) == Run(cfg, done, [b, a])
      {
        RivalsSwap(cfg, done, a, b);
      }
    } else {
      var x, y :| 0 <= x < y < |cfg.es| && (Accepts(cfg, cfg.es[x], a) || Accepts(cfg, cfg.es[x], b))
        && if Accepts(cfg, cfg.es[x], a) && Accepts(cfg, cfg.es[x], b)
           then Accepts(cfg, cfg.es[y], a) != Accepts(cfg, cfg.es[y], b)
           else if Accepts(cfg, cfg.es[x], a) then Accepts(cfg, cfg.es[y], b) else Accepts(cfg, cfg.es[y], a);
      if Accepts(cfg, cfg.es[x], a) {
        UnsafeRivalsDiffer(cfg, a, b, x, y);
      } else {
        UnsafeRivalsDiffer(cfg, b, a, x, y);
      }
    }
  }

  // ----- calls that select what they match

  /** Every expectation that only one of the two calls matches is registered before every one that both match. */
  predicate SharesSafe(cfg: Config, a: Call, b: Call) {
    forall x, y | 0 <= x < |cfg.es| && 0 <= y < |cfg.es| ::
      (&& Accepts(cfg, cfg.es[x], a) && Accepts(cfg, cfg.es[x], b)
       && Accepts(cfg, cfg.es[y], a) != Accepts(cfg, cfg.es[y], b)) ==> y < x
  }

  /** Where a scan stops after index `x` was taken: where it did before, unless it was at `x` itself. */
  lemma HaltAfter(cfg: Config, done: set<nat>, x: nat, c: Call)
    requires !cfg.ordered
    ensures var h := FirstHalt(cfg, done, c, 0); var h' := FirstHalt(cfg, done + {x}, c, 0);
            h' >= h && (x != h ==> h' == h) && (x == h < |cfg.es| ==> h' > h)
  {
    var h := FirstHalt(cfg, done, c, 0);
    var h' := FirstHalt(cfg, done + {x}, c, 0);
    if h' < |cfg.es| {
      assert Halts(cfg, done, c, h');
      FirstHaltIsLeast(cfg, done, c, h');
    }
    if h < |cfg.es| && x != h {
      FirstHaltIsLeast(cfg, done + {x}, c, h);
    }
  }

  lemma SharesSwap(cfg: Config, done: set<nat>, a: Call, b: Call)
    requires !Rivals(cfg, a, b) && SharesSafe(cfg, a, b)
    ensures Run(cfg, done, [a, b]) == Run(cfg, done, [b, a])
  {
    var n := |cfg.es|;
    var ia, ib := FirstHalt(cfg, done, a, 0), FirstHalt(cfg, done, b, 0);
    RunTwo(cfg, done, a, b);
    RunTwo(cfg, done, b, a);
    if ia == n || ib == n || ia != ib {
      HaltAfter(cfg, done, ia, b);
      HaltAfter(cfg, done, ib, a);
    } else {
      assert SameKind(cfg.es[ia].kind, a) && SameKind(cfg.es[ia].kind, b);
      SelectedIsTaken(cfg, done, a);
      SelectedIsTaken(cfg, done, b);
      SharesSwapAt(cfg, done, a, b, ia);
    }
  }

  lemma SharesSwapAt(cfg: Config, done: set<nat>, a: Call, b: Call, x: nat)
    requires !cfg.ordered && !a.Begin? && !b.Begin? && SharesSafe(cfg, a, b)
    requires x == FirstHalt(cfg, done, a, 0) == FirstHalt(cfg, done, b, 0) < |cfg.es|
    ensures After(done + {x}, Step(cfg, done + {x}, a)) == After(done + {x}, Step(cfg, done + {x}, b))
  {
    var s := done + {x};
    SelectedIsTaken(cfg, done, a);
    SelectedIsTaken(cfg, done, b);
    SelectedIsTaken(cfg, s, a);
    SelectedIsTaken(cfg, s, b);
    HaltAfter(cfg, done, x, a);
    HaltAfter(cfg, done, x, b);
    var y, z := FirstHalt(cfg, s, b, 0), FirstHalt(cfg, s, a, 0);
    if y < |cfg.es| {
      assert Accepts(cfg, cfg.es[y], a);
      FirstHaltIsLeast(cfg, s, a, y);
    }
    if z < |cfg.es| {
      assert Accepts(cfg, cfg.es[z], b);
      FirstHaltIsLeast(cfg, s, b, z);
    }
  }

  /** With only x (matched by both) and a later y (matched by `a` alone) open, the order shows. */
  lemma UnsafePairDiffers(cfg: Config, a: Call, b: Call, x: nat, y: nat)
    requires !cfg.ordered && !a.Begin? && !b.Begin? && x < y < |cfg.es|
    requires Accepts(cfg, cfg.es[x], a) && Accepts(cfg, cfg.es[x], b)
    requires Accepts(cfg, cfg.es[y], a) && !Accepts(cfg, cfg.es[y], b)
    ensures !Commute(cfg, a, b)
  {
    var done := (set i: nat {:trigger cfg.es[i]} | i < |cfg.es|) - {x, y};
    RunTwo(cfg, done, a, b);
    RunTwo(cfg, done, b, a);
    SelectedIsTaken(cfg, done, a);
    SelectedIsTaken(cfg, done, b);
    assert Halts(cfg, done, a, x) && Halts(cfg, done, b, x);
    assert FirstHalt(cfg, done, a, 0) == x && FirstHalt(cfg, done, b, 0) == x;
    SelectedIsTaken(cfg, done + {x}, a);
    SelectedIsTaken(cfg, done + {x}, b);
    assert Halts(cfg, done + {x}, a, y);
    assert y in Run(cfg, done, [b, a]) && y !in Run(cfg, done, [a, b]);
  }

  /** Calls that are no rivals commute from every state exactly when the pair is safe. */
  lemma SharesCommuteIff(cfg: Config, a: Call, b: Call)
    requires !Rivals(cfg, a, b)
    ensures Commute(cfg, a, b) <==> SharesSafe(cfg, a, b)
  {
    if SharesSafe(cfg, a, b) {
      forall done
        ensures Run(cfg, done, [a, b]) == Run(cfg, done, [b, a])
      {
        SharesSwap(cfg, done, a, b);
      }
    } else {
      var x, y :| 0 <= x < |cfg.es| && 0 <= y < |cfg.es| && Accepts(cfg, cfg.es[x], a) && Accepts(cfg, cfg.es[x], b)
        && Accepts(cfg, cfg.es[y], a) != Accepts(cfg, cfg.es[y], b) && x <= y;
      if Accepts(cfg, cfg.es[y], a) {
        UnsafePairDiffers(cfg, a, b, x, y);
      } else {
        UnsafePairDiffers(cfg, b, a, x, y);
      }
    }
  }

  // ----- any two calls

  predicate PairSafe(cfg: Config, a: Call, b: Call) {
    if Rivals(cfg, a, b) then RivalsSafe(cfg, a, b) else SharesSafe(cfg, a, b)
  }

  /** Any two calls, in either mode: they commute from every state exactly when the pair is safe. */
  lemma CommuteIff(cfg: Config, a: Call, b: Call)
    ensures Commute(cfg, a, b) <==> PairSafe(cfg, a, b)
  {
    if Rivals(cfg, a, b) {
      RivalsCommuteIff(cfg, a, b);
    } else {
      SharesCommuteIff(cfg, a, b);
    }
  }

  /** The simplest safe pairs: calls that match the same expectations, and calls that match no common
      one unless they are rivals. */
  lemma EqualOrDisjointIsSafe(cfg: Config, a: Call, b: Call)
    requires || (forall x | 0 <= x < |cfg.es| :: Accepts(cfg, cfg.es[x], a) == Accepts(cfg, cfg.es[x], b))
             || (&& !Rivals(cfg, a, b)
                 && forall x | 0 <= x < |cfg.es| :: !(Accepts(cfg, cfg.es[x], a) && Accepts(cfg, cfg.es[x], b)))
    ensures PairSafe(cfg, a, b)
  {
  }

  /** Two unordered Begins are rivals: although each expectation that only one of them matches comes before
      the one that both match, the order decides whether both expectations are met. */
  lemma BeginsAreRivals(cfg: Config, a: Call, b: Call)
    requires !cfg.ordered && a == Begin(TxOptions(0, false)) && b == Begin(TxOptions(1, true))
    requires cfg.es == [Spec(ExpectedBegin(Some(TxOptions(1, true))), None, false, false),
                        Spec(ExpectedBegin(None), None, false, false)]
    ensures SharesSafe(cfg, a, b) && !RivalsSafe(cfg, a, b)
    ensures Run(cfg, {}, [a, b]) == {0} && Run(cfg, {}, [b, a]) == {0, 1}
  {
    RunTwo(cfg, {}, a, b);
    RunTwo(cfg, {}, b, a);
    assert Halts(cfg, {}, a, 0) && Halts(cfg, {}, b, 0) && Halts(cfg, {0}, a, 1);
    FirstHaltIs(cfg, {}, a, 0);
    FirstHaltIs(cfg, {}, b, 0);
    FirstHaltIs(cfg, {0}, a, 1);
    assert {} + {0} == {0} && {0} + {1} == {0, 1};
    assert Accepts(cfg, cfg.es[1], a) && !Accepts(cfg, cfg.es[0], a);
  }
}
