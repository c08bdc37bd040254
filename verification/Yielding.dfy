/**
 When unordered matching is not merely maximal but optimal: no assignment of calls to expectations
 serves more calls than the run does, provided that earlier calls yield to later ones.
*/
module Yielding {
  import opened Matching
  import opened Commuting
  import opened Unordered
  import Swapping

  /** Taking an expectation that `b` matches too never costs `b` its last chance: whatever later one
      `a` could have taken instead, `b` can. */
  predicate Yields(cfg: Config, a: Call, b: Call) {
    forall x, y | 0 <= x < y < |cfg.es| ::
      (Accepts(cfg, cfg.es[x], a) && Accepts(cfg, cfg.es[x], b) && Accepts(cfg, cfg.es[y], a))
      ==> Accepts(cfg, cfg.es[y], b)
  }

  ghost predicate Served(cfg: Config, done: set<nat>, calls: seq<Call>, m: map<nat, nat>) {
    IsAssignment(cfg, done, calls, m) ==> |m| <= |Run(cfg, done, calls) - done|
  }

  /** No assignment of the calls serves more of them than the run does. */
  ghost predicate ServesMost(cfg: Config, done: set<nat>, calls: seq<Call>) {
    forall m :: Served(cfg, done, calls, m)
  }

  /** The assigned calls are refused nothing and yield to each other. */
  ghost predicate Compliant(cfg: Config, calls: seq<Call>, m: map<nat, nat>)
    requires forall k | k in m :: k < |calls|
  {
    && (forall k | k in m :: Reaches(cfg, calls[k]))
    && forall k, l | k in m && l in m && k < l :: Yields(cfg, calls[k], calls[l])
  }

  /** The assignment without the first call and without what that call took: if the first call was to
      have something else, whoever loses a partner gets that instead. */
  function Exchange(m: map<nat, nat>, h: nat): map<nat, nat> {
    map l | l in m && l != 0 && (m[l] == h ==> 0 in m && m[0] != h) :: if m[l] == h then m[0] else m[l]
  }

  lemma ExchangeSize(m: map<nat, nat>, h: nat)
    requires Injective(m)
    ensures |m| <= |Exchange(m, h)| + 1
  {
    if l :| l in m && m[l] == h && (l == 0 || 0 !in m) {
      assert m.Keys == Exchange(m, h).Keys + {l};
    } else {
      assert m.Keys <= Exchange(m, h).Keys + {0};
      assert |m.Keys| <= |Exchange(m, h).Keys + {0}| by {
        InjectionBound(m.Keys, Exchange(m, h).Keys + {0}, map k | k in m :: k);
      }
    }
  }

  lemma ExchangeInjective(m: map<nat, nat>, h: nat)
    requires Injective(m)
    ensures Injective(Exchange(m, h))
  {
  }

  /** After the first call took `h`, the exchanged assignment is one for the calls behind it. */
  lemma ExchangeFits(cfg: Config, done: set<nat>, calls: seq<Call>, m: map<nat, nat>, h: nat)
    requires !cfg.ordered && calls != [] && IsAssignment(cfg, done, calls, m) && Compliant(cfg, calls, m)
    requires Step(cfg, done, calls[0]) == Consumed(h)
    ensures IsAssignment(cfg, done + {h}, calls, Exchange(m, h)) && 0 !in Exchange(m, h)
  {
    var e := Exchange(m, h);
    ExchangeInjective(m, h);
    forall l | l in e
      ensures l < |calls| && MatchesOpen(cfg, done + {h}, calls[l], e[l])
    {
      if m[l] == h {
        PartnerYields(cfg, done, calls[0], calls[l], h, m[0]);
      }
    }
  }

  /** The expectation that the first call gave up suits whoever was to have the one it took. */
  lemma PartnerYields(cfg: Config, done: set<nat>, a: Call, b: Call, h: nat, y: nat)
    requires !cfg.ordered && Reaches(cfg, a) && Yields(cfg, a, b) && Step(cfg, done, a) == Consumed(h)
    requires MatchesOpen(cfg, done, a, y) && MatchesOpen(cfg, done, b, h) && y != h
    ensures MatchesOpen(cfg, done + {h}, b, y)
  {
    StepTakesFirstMatch(cfg, done, a);
  }

  /** The assignment, its calls renumbered from the second one on. */
  function Shift(m: map<nat, nat>): map<nat, nat> {
    map k | k in Preceding(m.Keys) :: if k + 1 in m then m[k + 1] else 0
  }

  function Preceding(s: set<nat>): set<nat> {
    set l | l in s && l > 0 :: (l - 1) as nat
  }

  lemma ShiftAt(m: map<nat, nat>, k: nat)
    ensures k in Shift(m) <==> k + 1 in m
    ensures k in Shift(m) ==> Shift(m)[k] == m[k + 1]
  {
    assert k + 1 in m && k + 1 > 0 ==> k in Preceding(m.Keys);
  }

  lemma ShiftSize(m: map<nat, nat>)
    requires 0 !in m
    ensures |m| <= |Shift(m)|
  {
    var f: map<nat, nat> := map k | k in m :: if k == 0 then 0 else k - 1;
    forall k | k in m.Keys
      ensures k in f && f[k] in Shift(m).Keys
    {
      ShiftAt(m, k - 1);
    }
    InjectionBound(m.Keys, Shift(m).Keys, f);
  }

  lemma ShiftFits(cfg: Config, done: set<nat>, calls: seq<Call>, m: map<nat, nat>)
    requires calls != [] && IsAssignment(cfg, done, calls, m)
    ensures IsAssignment(cfg, done, calls[1..], Shift(m))
  {
    var s := Shift(m);
    forall k | k in s
      ensures k < |calls[1..]| && MatchesOpen(cfg, done, calls[1..][k], s[k])
    {
      ShiftAt(m, k);
    }
    ShiftInjective(m);
  }

  lemma ShiftInjective(m: map<nat, nat>)
    requires Injective(m)
    ensures Injective(Shift(m))
  {
    var s := Shift(m);
    forall k, l | k in s && l in s && s[k] == s[l]
      ensures k == l
    {
      ShiftAt(m, k);
      ShiftAt(m, l);
    }
  }

  lemma ShiftComplies(cfg: Config, calls: seq<Call>, m: map<nat, nat>)
    requires calls != [] && (forall k | k in m :: k < |calls|) && Compliant(cfg, calls, m)
    ensures (forall k | k in Shift(m) :: k < |calls[1..]|) && Compliant(cfg, calls[1..], Shift(m))
  {
    var s := Shift(m);
    forall k | k in s
      ensures k < |calls[1..]| && Reaches(cfg, calls[1..][k])
    {
      ShiftAt(m, k);
    }
    forall k, l | k in s && l in s && k < l
      ensures Yields(cfg, calls[1..][k], calls[1..][l])
    {
      ShiftAt(m, k);
      ShiftAt(m, l);
    }
  }

  /** Optimality: where the assigned calls yield to each other, the run consumes as many expectations
      as the assignment would. */
  lemma {:induction false} YieldingIsOptimal(cfg: Config, done: set<nat>, calls: seq<Call>, m: map<nat, nat>)
    requires !cfg.ordered && IsAssignment(cfg, done, calls, m) && Compliant(cfg, calls, m)
    ensures |m| <= |Run(cfg, done, calls) - done|
    decreases |calls|
  {
    if calls == [] {
      assert m == map[];
    } else {
      var o := Step(cfg, done, calls[0]);
      var next := After(done, o);
      var e := m;
      if o.Consumed? {
        e := Exchange(m, o.i);
        ExchangeFits(cfg, done, calls, m, o.i);
        ExchangeSize(m, o.i);
      } else {
        RejectedIsUnassigned(cfg, done, calls, m);
      }
      ShiftSize(e);
      ShiftFits(cfg, next, calls, e);
      ShiftComplies(cfg, calls, e);
      YieldingIsOptimal(cfg, next, calls[1..], Shift(e));
      GainSplits(cfg, done, calls);
    }
  }

  lemma RejectedIsUnassigned(cfg: Config, done: set<nat>, calls: seq<Call>, m: map<nat, nat>)
    requires !cfg.ordered && calls != [] && IsAssignment(cfg, done, calls, m) && Compliant(cfg, calls, m)
    requires !Step(cfg, done, calls[0]).Consumed?
    ensures 0 !in m
  {
    if 0 in m {
      StepTakesFirstMatch(cfg, done, calls[0]);
    }
  }

  lemma GainSplits(cfg: Config, done: set<nat>, calls: seq<Call>)
    requires calls != []
    ensures var o := Step(cfg, done, calls[0]); var end := Run(cfg, done, calls);
            |end - done| == |end - After(done, o)| + if o.Consumed? then 1 else 0
  {
    var o := Step(cfg, done, calls[0]);
    var end := Run(cfg, done, calls);
    RunGrows(cfg, After(done, o), calls[1..]);
    if o.Consumed? {
      assert end - done == (end - After(done, o)) + {o.i};
    }
  }

  lemma YieldingPair(cfg: Config, done: set<nat>, a: Call, b: Call)
    requires !cfg.ordered && Reaches(cfg, a) && Reaches(cfg, b) && Yields(cfg, a, b)
    ensures ServesMost(cfg, done, [a, b])
  {
    forall m | IsAssignment(cfg, done, [a, b], m)
      ensures Served(cfg, done, [a, b], m)
    {
      YieldingIsOptimal(cfg, done, [a, b], m);
    }
  }

  /** Where the first call does not yield there is a state in which it takes what the second one needs:
      only an expectation both match and a later one for the first call alone are open. */
  lemma UnyieldingPair(cfg: Config, a: Call, b: Call) returns (done: set<nat>)
    requires !cfg.ordered && Reaches(cfg, a) && Reaches(cfg, b) && !Yields(cfg, a, b)
    ensures !ServesMost(cfg, done, [a, b])
  {
    var x, y :| 0 <= x < y < |cfg.es| && Accepts(cfg, cfg.es[x], a) && Accepts(cfg, cfg.es[x], b)
      && Accepts(cfg, cfg.es[y], a) && !Accepts(cfg, cfg.es[y], b);
    done := UnyieldingState(cfg, a, b, x, y);
  }

  lemma UnyieldingState(cfg: Config, a: Call, b: Call, x: nat, y: nat) returns (done: set<nat>)
    requires !cfg.ordered && Reaches(cfg, a) && Reaches(cfg, b) && x < y < |cfg.es|
    requires Accepts(cfg, cfg.es[x], a) && Accepts(cfg, cfg.es[x], b)
    requires Accepts(cfg, cfg.es[y], a) && !Accepts(cfg, cfg.es[y], b)
    ensures !ServesMost(cfg, done, [a, b])
  {
    done := (set i: nat {:trigger cfg.es[i]} | i < |cfg.es|) - {x, y};
    RunIsOne(cfg, done, a, b, x, y);
    BothAssignable(cfg, done, a, b, x, y);
    assert !Served(cfg, done, [a, b], map[0 := y, 1 := x]);
  }

  lemma BothAssignable(cfg: Config, done: set<nat>, a: Call, b: Call, x: nat, y: nat)
    requires x != y && MatchesOpen(cfg, done, a, y) && MatchesOpen(cfg, done, b, x)
    ensures var m: map<nat, nat> := map[0 := y, 1 := x];
            IsAssignment(cfg, done, [a, b], m) && |m| == 2
  {
    var m: map<nat, nat> := map[0 := y, 1 := x];
    assert m.Keys == {0, 1};
  }

  lemma RunIsOne(cfg: Config, done: set<nat>, a: Call, b: Call, x: nat, y: nat)
    requires !cfg.ordered && Reaches(cfg, a) && Reaches(cfg, b) && x < y < |cfg.es|
    requires Accepts(cfg, cfg.es[x], a) && !Accepts(cfg, cfg.es[y], b)
    requires forall i: nat | i < |cfg.es| :: i !in done <==> i == x || i == y
    ensures Run(cfg, done, [a, b]) - done == {x}
  {
    RunTwo(cfg, done, a, b);
    StepTakesFirstMatch(cfg, done, a);
    assert MatchesOpen(cfg, done, a, x);
    StepTakesFirstMatch(cfg, done + {x}, b);
  }

  /** A call alone is served from every state in which it can be, exactly if it reaches its expectations. */
  lemma AloneServedIff(cfg: Config, c: Call)
    requires !cfg.ordered
    ensures (forall done :: ServesMost(cfg, done, [c])) <==> Reaches(cfg, c)
  {
    if Reaches(cfg, c) {
      forall done, m | IsAssignment(cfg, done, [c], m)
        ensures Served(cfg, done, [c], m)
      {
        YieldingIsOptimal(cfg, done, [c], m);
      }
      assert forall done, m :: Served(cfg, done, [c], m);
    } else {
      var done := UnservedAlone(cfg, c);
    }
  }

  lemma UnservedAlone(cfg: Config, c: Call) returns (done: set<nat>)
    requires !cfg.ordered && !Reaches(cfg, c)
    ensures !ServesMost(cfg, done, [c])
  {
    var x, y :| 0 <= x < y < |cfg.es| && cfg.es[x].kind.ExpectedBegin? && Accepts(cfg, cfg.es[y], c)
      && !Accepts(cfg, cfg.es[x], c);
    done := UnreachedState(cfg, c, x, y);
    var m: map<nat, nat> := map[0 := y];
    assert m.Keys == {0};
    assert Run(cfg, done, [c]) == done && done - done == {};
    assert !Served(cfg, done, [c], m);
  }

  /** Two calls, together and each alone, are served as well as possible from every state exactly when both
      reach their expectations and the first yields to the second. */
  lemma PairServedIff(cfg: Config, a: Call, b: Call)
    requires !cfg.ordered
    ensures (forall done :: ServesMost(cfg, done, [a]) && ServesMost(cfg, done, [b]) && ServesMost(cfg, done, [a, b]))
            <==> Reaches(cfg, a) && Reaches(cfg, b) && Yields(cfg, a, b)
  {
    AloneServedIff(cfg, a);
    AloneServedIff(cfg, b);
    if Reaches(cfg, a) && Reaches(cfg, b) {
      if Yields(cfg, a, b) {
        forall done
          ensures ServesMost(cfg, done, [a, b])
        {
          YieldingPair(cfg, done, a, b);
        }
      } else {
        var done := UnyieldingPair(cfg, a, b);
      }
    }
  }

  ghost predicate AllYield(cfg: Config, calls: seq<Call>) {
    forall k, l | 0 <= k < l < |calls| :: Yields(cfg, calls[k], calls[l])
  }

  ghost predicate AllReach(cfg: Config, calls: seq<Call>) {
    forall k | 0 <= k < |calls| :: Reaches(cfg, calls[k])
  }

  lemma PartComplies(cfg: Config, calls: seq<Call>, at: seq<nat>)
    requires AllReach(cfg, calls) && AllYield(cfg, calls) && Positions(calls, at)
    ensures AllReach(cfg, Pick(calls, at)) && AllYield(cfg, Pick(calls, at))
  {
    var part := Pick(calls, at);
    forall k, l | 0 <= k < l < |part|
      ensures Yields(cfg, part[k], part[l])
    {
      assert Yields(cfg, calls[at[k]], calls[at[l]]);
    }
  }

  lemma PartIsServed(cfg: Config, done: set<nat>, calls: seq<Call>, at: seq<nat>)
    requires !cfg.ordered && AllReach(cfg, calls) && AllYield(cfg, calls) && Positions(calls, at)
    ensures ServesMost(cfg, done, Pick(calls, at))
  {
    var part := Pick(calls, at);
    PartComplies(cfg, calls, at);
    forall m | IsAssignment(cfg, done, part, m)
      ensures Served(cfg, done, part, m)
    {
      YieldingIsOptimal(cfg, done, part, m);
    }
  }

  lemma UnservedPart(cfg: Config, calls: seq<Call>) returns (done: set<nat>, at: seq<nat>)
    requires !cfg.ordered && !(AllReach(cfg, calls) && AllYield(cfg, calls))
    ensures Positions(calls, at) && !ServesMost(cfg, done, Pick(calls, at))
  {
    if k :| 0 <= k < |calls| && !Reaches(cfg, calls[k]) {
      at := [k];
      assert Pick(calls, at) == [calls[k]];
      done := UnservedAlone(cfg, calls[k]);
    } else {
      var k, l :| 0 <= k < l < |calls| && !Yields(cfg, calls[k], calls[l]);
      at := [k, l];
      assert Pick(calls, at) == [calls[k], calls[l]];
      done := UnyieldingPair(cfg, calls[k], calls[l]);
    }
  }

  /** A log and all its parts are served as well as possible, from every state, exactly when each call
      reaches its expectations and yields to all later calls. */
  lemma LogServedIff(cfg: Config, calls: seq<Call>)
    requires !cfg.ordered
    ensures (forall done, at | Positions(calls, at) :: ServesMost(cfg, done, Pick(calls, at)))
            <==> AllReach(cfg, calls) && AllYield(cfg, calls)
  {
    if AllReach(cfg, calls) && AllYield(cfg, calls) {
      forall done, at | Positions(calls, at)
        ensures ServesMost(cfg, done, Pick(calls, at))
      {
        PartIsServed(cfg, done, calls, at);
      }
    } else {
      var done, at := UnservedPart(cfg, calls);
    }
  }

  /** Pairs that commute yield to each other. */
  lemma SafePairYields(cfg: Config, a: Call, b: Call)
    requires Swapping.PairSafe(cfg, a, b)
    ensures Yields(cfg, a, b) && Yields(cfg, b, a)
  {
  }
}
