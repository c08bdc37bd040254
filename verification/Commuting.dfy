/**
 When the order of calls does not matter, in either mode: pairs that commute from every state, and
 logs whose pairs all do.
*/
module Commuting {
  import opened Matching

  /** The two calls trigger the same expectations in either order, from every state. */
  ghost predicate Commute(cfg: Config, a: Call, b: Call) {
    forall done :: Run(cfg, done, [a, b]) == Run(cfg, done, [b, a])
  }

  lemma RunTwo(cfg: Config, done: set<nat>, a: Call, b: Call)
    ensures var s := After(done, Step(cfg, done, a));
            Run(cfg, done, [a, b]) == After(s, Step(cfg, s, b))
  {
    var s := After(done, Step(cfg, done, a));
    assert [a, b][1..] == [b] && [b][1..] == [];
    assert Run(cfg, done, [a, b]) == Run(cfg, s, [b]);
    assert Run(cfg, s, [b]) == Run(cfg, After(s, Step(cfg, s, b)), []);
  }

  lemma {:induction false} MoveToFront(cfg: Config, done: set<nat>, pre: seq<Call>, c: Call, post: seq<Call>)
    requires forall k | 0 <= k < |pre| :: Commute(cfg, pre[k], c)
    ensures Run(cfg, done, pre + [c] + post) == Run(cfg, done, [c] + pre + post)
    decreases |pre|
  {
    if pre == [] {
      assert pre + [c] + post == [c] + pre + post;
    } else {
      var n := |pre| - 1;
      var p, d := pre[..n], pre[n];
      assert pre + [c] + post == p + ([d, c] + post);
      assert p + [c] + ([d] + post) == p + ([c, d] + post);
      assert [c] + p + ([d] + post) == [c] + pre + post;
      RunAppend(cfg, done, p, [d, c] + post);
      RunAppend(cfg, done, p, [c, d] + post);
      var s := Run(cfg, done, p);
      RunAppend(cfg, s, [d, c], post);
      RunAppend(cfg, s, [c, d], post);
      assert Commute(cfg, d, c);
      MoveToFront(cfg, done, p, c, [d] + post);
    }
  }

  /** Around the first occurrence of `c` in a permutation of `[c] + rest`. */
  lemma SplitPermutation<T>(c: T, rest: seq<T>, perm: seq<T>) returns (pre: seq<T>, post: seq<T>)
    requires multiset([c] + rest) == multiset(perm)
    ensures perm == pre + [c] + post && multiset(rest) == multiset(pre + post)
  {
    assert ([c] + rest)[0] == c && c in multiset(perm);
    var p :| 0 <= p < |perm| && perm[p] == c;
    pre, post := perm[..p], perm[p + 1..];
    assert perm == pre + [c] + post;
    assert multiset(perm) - multiset{c} == multiset(pre + post);
    assert multiset([c] + rest) - multiset{c} == multiset(rest);
  }

  ghost predicate AllCommute(cfg: Config, calls: seq<Call>) {
    forall k, l | 0 <= k < |calls| && 0 <= l < |calls| && k != l :: Commute(cfg, calls[k], calls[l])
  }

  /** Order independence: when all pairs of a log commute, every permutation of it ends with the
      same triggered expectations, from any state. */
  lemma {:induction false} PermutationsAgree(cfg: Config, done: set<nat>, calls: seq<Call>, perm: seq<Call>)
    requires AllCommute(cfg, calls) && multiset(calls) == multiset(perm)
    ensures Run(cfg, done, calls) == Run(cfg, done, perm)
    decreases |calls|
  {
    if calls == [] {
      assert |perm| == |multiset(perm)|;
    } else {
      var c, rest := calls[0], calls[1..];
      assert calls == [c] + rest;
      var pre, post := SplitPermutation(c, rest, perm);
      forall k | 0 <= k < |pre|
        ensures Commute(cfg, pre[k], c)
      {
        assert pre[k] == (pre + post)[k] && pre[k] in multiset(pre + post) && pre[k] in multiset(rest);
        var l :| 0 <= l < |rest| && rest[l] == pre[k];
        assert Commute(cfg, calls[l + 1], calls[0]);
      }
      assert AllCommute(cfg, rest) by {
        assert forall k | 0 <= k < |rest| :: rest[k] == calls[k + 1];
      }
      MoveToFront(cfg, done, pre, c, post);
      assert [c] + pre + post == [c] + (pre + post);
      RunAppend(cfg, done, [c], pre + post);
      RunAppend(cfg, done, [c], rest);
      PermutationsAgree(cfg, Run(cfg, done, [c]), rest, pre + post);
    }
  }

  // ----- parts of a log

  /** Increasing positions in a sequence. */
  ghost predicate Positions<T>(xs: seq<T>, at: seq<nat>) {
    && (forall k | 0 <= k < |at| :: at[k] < |xs|)
    && forall k, l | 0 <= k < l < |at| :: at[k] < at[l]
  }

  /** What stands at some positions. */
  function Pick<T>(xs: seq<T>, at: seq<nat>): seq<T>
    requires forall k | 0 <= k < |at| :: at[k] < |xs|
  {
    seq(|at|, k requires 0 <= k < |at| => xs[at[k]])
  }
}
