/**
 Ordered mode is optimal subsequence matching: the calls of a log consume the open expectations,
 in list order, and the number consumed is the largest that any embedding into the log allows.
*/
module Ordered {
  import opened Matching

  /** The open expectations from index `i` on, in list order. */
  function Remaining(cfg: Config, done: set<nat>, i: nat): seq<Spec>
    requires i <= |cfg.es|
    decreases |cfg.es| - i
  {
    if i == |cfg.es| then []
    else (if i in done then [] else [cfg.es[i]]) + Remaining(cfg, done, i + 1)
  }

  /** Position `at[j]` of the log holds a call that matches `want[j]`, in order. */
  predicate EmbedsAt(cfg: Config, want: seq<Spec>, calls: seq<Call>, at: seq<nat>) {
    && |at| == |want|
    && (forall j | 0 <= j < |at| :: at[j] < |calls| && Accepts(cfg, want[j], calls[at[j]]))
    && forall j, k | 0 <= j < k < |at| :: at[j] < at[k]
  }

  /** The expectations are, in order, a matching subsequence of the log. */
  ghost predicate Embeds(cfg: Config, want: seq<Spec>, calls: seq<Call>) {
    exists at :: EmbedsAt(cfg, want, calls, at)
  }

  /** How many of the wanted expectations a greedy reading of the log takes. */
  function Taken(cfg: Config, want: seq<Spec>, calls: seq<Call>): (k: nat)
    ensures k <= |want|
    decreases |calls|
  {
    if want == [] || calls == [] then 0
    else if Accepts(cfg, want[0], calls[0]) then 1 + Taken(cfg, want[1..], calls[1..])
    else Taken(cfg, want, calls[1..])
  }

  function Shift(at: seq<nat>, d: int): seq<int> {
    seq(|at|, j requires 0 <= j < |at| => at[j] + d)
  }

  lemma {:induction false} GreedyEmbeds(cfg: Config, want: seq<Spec>, calls: seq<Call>) returns (at: seq<nat>)
    ensures EmbedsAt(cfg, want[..Taken(cfg, want, calls)], calls, at)
    decreases |calls|
  {
    if want == [] || calls == [] {
      at := [];
    } else if Accepts(cfg, want[0], calls[0]) {
      var rest := GreedyEmbeds(cfg, want[1..], calls[1..]);
      at := [0] + Shift(rest, 1);
      assert forall j | 0 < j < |at| :: at[j] == rest[j - 1] + 1;
    } else {
      var rest := GreedyEmbeds(cfg, want, calls[1..]);
      at := Shift(rest, 1);
    }
  }

  lemma {:induction false} GreedyIsBest(cfg: Config, want: seq<Spec>, calls: seq<Call>, m: nat, at: seq<nat>)
    requires m <= |want| && EmbedsAt(cfg, want[..m], calls, at)
    ensures m <= Taken(cfg, want, calls)
    decreases |calls|
  {
    if m > 0 {
      assert forall j | 0 < j < m :: at[0] < at[j];
      if Accepts(cfg, want[0], calls[0]) {
        var rest: seq<nat> := Shift(at[1..], -1);
        assert forall j | 0 <= j < m - 1 :: rest[j] == at[j + 1] - 1 && want[1..][..m - 1][j] == want[..m][j + 1];
        GreedyIsBest(cfg, want[1..], calls[1..], m - 1, rest);
      } else {
        assert at[0] != 0;
        var rest: seq<nat> := Shift(at, -1);
        GreedyIsBest(cfg, want, calls[1..], m, rest);
      }
    }
  }

  /** The open expectations are unchanged by marking one that lies before. */
  lemma {:induction false} RemainingIgnores(cfg: Config, done: set<nat>, x: nat, i: nat)
    requires x < i <= |cfg.es|
    ensures Remaining(cfg, done + {x}, i) == Remaining(cfg, done, i)
    decreases |cfg.es| - i
  {
    if i < |cfg.es| {
      RemainingIgnores(cfg, done, x, i + 1);
    }
  }

  /** In order, a step consumes the first open expectation or nothing. */
  lemma {:induction false} StepTakesFirst(cfg: Config, done: set<nat>, c: Call, i: nat)
    requires cfg.ordered && i <= |cfg.es| && forall j | 0 <= j < i :: j in done
    ensures var want := Remaining(cfg, done, i); var o := Step(cfg, done, c);
            Remaining(cfg, After(done, o), i) ==
            if want != [] && Accepts(cfg, want[0], c) then want[1..] else want
    ensures var want := Remaining(cfg, done, i);
            Step(cfg, done, c).Consumed? <==> want != [] && Accepts(cfg, want[0], c)
    decreases |cfg.es| - i
  {
    var h := FirstHalt(cfg, done, c, 0);
    assert h < |cfg.es| ==> h !in done;
    if i < |cfg.es| {
      if i in done {
        StepTakesFirst(cfg, done, c, i + 1);
      } else {
        assert Halts(cfg, done, c, i) && h == i;
        RemainingIgnores(cfg, done, i, i + 1);
      }
    }
  }

  /** A run in order takes greedily from the open expectations. */
  lemma {:induction false} RunIsGreedy(cfg: Config, done: set<nat>, calls: seq<Call>)
    requires cfg.ordered
    ensures var want := Remaining(cfg, done, 0); var k := Taken(cfg, want, calls);
            Remaining(cfg, Run(cfg, done, calls), 0) == want[k..] && |Run(cfg, done, calls) - done| == k
    decreases |calls|
  {
    if calls == [] {
      assert done - done == {};
    } else {
      var o := Step(cfg, done, calls[0]);
      var next := After(done, o);
      StepTakesFirst(cfg, done, calls[0], 0);
      RunIsGreedy(cfg, next, calls[1..]);
      RunGrows(cfg, next, calls[1..]);
      var end := Run(cfg, next, calls[1..]);
      if o.Consumed? {
        assert end - done == (end - next) + {o.i};
      }
    }
  }

  /** Optimality, from any state: the calls trigger the first k open expectations, in order, where k
      is the largest number of them that embeds in the log. */
  lemma OrderedIsOptimal(cfg: Config, done: set<nat>, calls: seq<Call>)
    requires cfg.ordered
    ensures var want := Remaining(cfg, done, 0);
            var k := |Run(cfg, done, calls) - done|;
            && k <= |want|
            && Remaining(cfg, Run(cfg, done, calls), 0) == want[k..]
            && Embeds(cfg, want[..k], calls)
            && forall m | 0 <= m <= |want| && Embeds(cfg, want[..m], calls) :: m <= k
  {
    var want := Remaining(cfg, done, 0);
    RunIsGreedy(cfg, done, calls);
    var best := GreedyEmbeds(cfg, want, calls);
    forall m | 0 <= m <= |want| && Embeds(cfg, want[..m], calls)
      ensures m <= Taken(cfg, want, calls)
    {
      var at :| EmbedsAt(cfg, want[..m], calls, at);
      GreedyIsBest(cfg, want, calls, m, at);
    }
  }

  lemma {:induction false} NothingRemainsIff(cfg: Config, done: set<nat>, i: nat)
    requires i <= |cfg.es|
    ensures Remaining(cfg, done, i) == [] <==> forall j | i <= j < |cfg.es| :: j in done
    decreases |cfg.es| - i
  {
    if i < |cfg.es| {
      NothingRemainsIff(cfg, done, i + 1);
    }
  }

  /** All expectations end up triggered exactly when the whole open list embeds in the log. */
  lemma AllMetIffListEmbeds(cfg: Config, done: set<nat>, calls: seq<Call>)
    requires cfg.ordered
    ensures AllDone(cfg, Run(cfg, done, calls)) <==> Embeds(cfg, Remaining(cfg, done, 0), calls)
  {
    var want := Remaining(cfg, done, 0);
    var k := |Run(cfg, done, calls) - done|;
    OrderedIsOptimal(cfg, done, calls);
    NothingRemainsIff(cfg, Run(cfg, done, calls), 0);
    assert want[..|want|] == want;
    assert Embeds(cfg, want[..|want|], calls) ==> |want| <= k;
  }

  lemma EmbedsAmongExtra(cfg: Config, want: seq<Spec>, a: seq<Call>, extra: seq<Call>, b: seq<Call>)
    requires Embeds(cfg, want, a + b)
    ensures Embeds(cfg, want, a + extra + b)
  {
    var at :| EmbedsAt(cfg, want, a + b, at);
    var at' := seq(|at|, j requires 0 <= j < |at| => if at[j] < |a| then at[j] else at[j] + |extra|);
    forall j | 0 <= j < |at|
      ensures at'[j] < |a + extra + b| && (a + extra + b)[at'[j]] == (a + b)[at[j]]
    {
    }
    assert EmbedsAt(cfg, want, a + extra + b, at');
  }

  /** Extra calls never spoil a run: inserting calls anywhere triggers at least as many expectations. */
  lemma ExtraCallsNeverSpoil(cfg: Config, done: set<nat>, a: seq<Call>, extra: seq<Call>, b: seq<Call>)
    requires cfg.ordered
    ensures |Run(cfg, done, a + b) - done| <= |Run(cfg, done, a + extra + b) - done|
    ensures AllDone(cfg, Run(cfg, done, a + b)) ==> AllDone(cfg, Run(cfg, done, a + extra + b))
  {
    var want := Remaining(cfg, done, 0);
    var k := |Run(cfg, done, a + b) - done|;
    OrderedIsOptimal(cfg, done, a + b);
    OrderedIsOptimal(cfg, done, a + extra + b);
    EmbedsAmongExtra(cfg, want[..k], a, extra, b);
    AllMetIffListEmbeds(cfg, done, a + b);
    AllMetIffListEmbeds(cfg, done, a + extra + b);
    if Embeds(cfg, want, a + b) {
      EmbedsAmongExtra(cfg, want, a, extra, b);
    }
  }

  /** The triggered expectations are the first k of the list. */
  ghost predicate IsPrefix(done: set<nat>, k: nat) {
    forall i: nat :: i in done <==> i < k
  }

  lemma StepKeepsPrefix(cfg: Config, done: set<nat>, c: Call, k: nat)
    requires cfg.ordered && k <= |cfg.es| && IsPrefix(done, k)
    ensures var o := Step(cfg, done, c);
            (o.Consumed? ==> o.i == k < |cfg.es|) && IsPrefix(After(done, o), if o.Consumed? then k + 1 else k)
  {
    var h := FirstHalt(cfg, done, c, 0);
    assert h < |cfg.es| ==> h !in done;
    assert k < |cfg.es| ==> Halts(cfg, done, c, k);
  }
}
