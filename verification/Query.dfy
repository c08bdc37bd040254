/**
 Query text normalisation and the two bundled query matchers (query.go).

 Two notions of white space meet in `StripQuery`: the class `\s` of Go's regular expressions and
 the wider Unicode class that `strings.TrimSpace` removes. The lemmas below say what the function
 means in terms of tokens, and exactly when the difference between the two classes shows.
*/
module Query {
  import opened Wrappers

  /** What `\s` matches in a Go regular expression. */
  predicate IsBlank(c: char) {
    c == ' ' || c == '\t' || c == '\n' || c == '\r' || c == '\U{000C}'
  }

  /** What `strings.TrimSpace` trims: the Unicode property White_Space. */
  predicate IsSpace(c: char) {
    || IsBlank(c) || c == '\U{000B}' || c == '\U{0085}' || c == '\U{00A0}' || c == '\U{1680}'
    || '\U{2000}' <= c <= '\U{200A}' || c == '\U{2028}' || c == '\U{2029}' || c == '\U{202F}'
    || c == '\U{205F}' || c == '\U{3000}'
  }

  function DropBlanks(q: string): (r: string)
    ensures |r| <= |q|
    ensures r != "" ==> !IsBlank(r[0])
  {
    if q != "" && IsBlank(q[0]) then DropBlanks(q[1..]) else q
  }

  /** Every maximal run of blanks becomes one space. */
  function Collapse(q: string): string
    decreases |q|
  {
    if q == "" then ""
    else if IsBlank(q[0]) then " " + Collapse(DropBlanks(q[1..]))
    else [q[0]] + Collapse(q[1..])
  }

  /** strings.TrimLeftFunc: drops leading characters that `f` accepts. */
  function TrimLeftFunc(q: string, f: char -> bool): (r: string)
    ensures |r| <= |q| && r == q[|q| - |r|..]
    ensures r != "" ==> !f(r[0])
    ensures q != "" && !f(q[0]) ==> r == q
  {
    if q != "" && f(q[0]) then TrimLeftFunc(q[1..], f) else q
  }

  function TrimRightFunc(q: string, f: char -> bool): (r: string)
    ensures |r| <= |q| && r == q[..|r|]
    ensures r != "" ==> !f(r[|r| - 1])
    ensures q != "" && !f(q[|q| - 1]) ==> r == q
  {
    if q != "" && f(q[|q| - 1]) then TrimRightFunc(q[..|q| - 1], f) else q
  }

  function TrimFunc(q: string, f: char -> bool): string {
    TrimRightFunc(TrimLeftFunc(q, f), f)
  }

  function TrimSpace(q: string): string {
    TrimFunc(q, IsSpace)
  }

  function StripQuery(q: string): string {
    TrimSpace(Collapse(q))
  }

  /** The equality matcher: true for a nil error. */
  predicate QueryMatcherEqual(expected: string, actual: string) {
    StripQuery(actual) == StripQuery(expected)
  }

  /** A compiled regular expression is a predicate; None stands for a pattern that does not compile. */
  type RegexpCompiler = string -> Option<string -> bool>

  /** The default matcher: true for a nil error. */
  predicate QueryMatcherRegexp(compile: RegexpCompiler, expected: string, actual: string) {
    MatchesPattern(compile, StripQuery(expected), StripQuery(actual))
  }

  predicate MatchesPattern(compile: RegexpCompiler, pattern: string, text: string) {
    if text != "" && pattern == "" then false
    else
      match compile(pattern)
      case None => false
      case Some(re) => re(text)
  }

  // ----- the meaning of StripQuery, in tokens

  predicate IsToken(t: string) {
    t != "" && forall i | 0 <= i < |t| :: !IsBlank(t[i])
  }

  type Token = t: string | IsToken(t) witness "a"

  /** The longest prefix without blanks. */
  function Word(q: string): (w: string)
    ensures |w| <= |q| && w == q[..|w|]
    ensures q != "" && !IsBlank(q[0]) ==> IsToken(w)
    ensures |w| < |q| ==> IsBlank(q[|w|])
  {
    if q == "" || IsBlank(q[0]) then "" else [q[0]] + Word(q[1..])
  }

  /** The non-blank tokens of a text, in order. */
  function Tokens(q: string): seq<Token>
    decreases |q|
  {
    if q == "" then []
    else if IsBlank(q[0]) then Tokens(q[1..])
    else [Word(q)] + Tokens(q[|Word(q)|..])
  }

  function Join(ts: seq<Token>): string {
    if ts == [] then "" else if |ts| == 1 then ts[0] else ts[0] + " " + Join(ts[1..])
  }

  /** Neither the first character of the first token nor the last one of the last token satisfies `f`. */
  predicate EndsOutside(ts: seq<Token>, f: char -> bool) {
    ts != [] ==> !f(ts[0][0]) && !f(LastChar(ts[|ts| - 1]))
  }

  /** The text neither starts nor ends (blanks aside) with white space that only TrimSpace knows. */
  predicate CleanEnds(q: string) {
    EndsOutside(Tokens(q), IsSpace)
  }

  function LastChar(t: Token): char {
    t[|t| - 1]
  }

  lemma {:induction false} TokensSkipBlanks(q: string)
    ensures Tokens(q) == Tokens(DropBlanks(q))
  {
    if q != "" && IsBlank(q[0]) {
      TokensSkipBlanks(q[1..]);
    }
  }

  lemma {:induction false} CollapseKeepsWord(q: string)
    ensures Collapse(q) == Word(q) + Collapse(q[|Word(q)|..])
  {
    if q != "" && !IsBlank(q[0]) {
      CollapseKeepsWord(q[1..]);
      assert q[1..][|Word(q[1..])|..] == q[|Word(q)|..];
    }
  }

  /** Collapsing joins the tokens, up to one space at either end. */
  lemma CollapseIsPaddedJoin(q: string) returns (a: string, b: string)
    ensures a in ["", " "] && b in ["", " "]
    ensures Collapse(q) == a + Join(Tokens(q)) + b
  {
    if q != "" && IsBlank(q[0]) {
      TokensSkipBlanks(q[1..]);
      a := " ";
      b := CollapseOfToken(DropBlanks(q[1..]));
      assert Collapse(q) == a + (Join(Tokens(q)) + b);
    } else {
      a := "";
      b := CollapseOfToken(q);
      assert a + Join(Tokens(q)) == Join(Tokens(q));
    }
  }

  lemma {:induction false} CollapseOfToken(q: string) returns (b: string)
    requires q != "" ==> !IsBlank(q[0])
    ensures b in ["", " "] && Collapse(q) == Join(Tokens(q)) + b
    ensures Tokens(q) == [] ==> b == ""
    decreases |q|
  {
    b := "";
    if q != "" {
      var w := Word(q);
      var r := q[|w|..];
      CollapseKeepsWord(q);
      if r == "" {
        assert Tokens(q) == [w];
      } else {
        var r' := DropBlanks(r[1..]);
        TokensSkipBlanks(r[1..]);
        var ts := Tokens(r');
        assert Tokens(q) == [w] + ts;
        assert Collapse(q) == w + (" " + Collapse(r'));
        b := CollapseOfToken(r');
        b := JoinCons(w, ts, b);
      }
    }
  }

  lemma JoinCons(w: Token, ts: seq<Token>, b: string) returns (b': string)
    requires b in ["", " "] && (ts == [] ==> b == "")
    ensures b' in ["", " "] && w + (" " + (Join(ts) + b)) == Join([w] + ts) + b'
  {
    assert ([w] + ts)[1..] == ts;
    b' := if ts == [] then " " else b;
  }

  lemma TrimIgnoresPadding(a: string, s: string, b: string, f: char -> bool)
    requires a in ["", " "] && b in ["", " "] && f(' ')
    ensures TrimFunc(a + s + b, f) == TrimFunc(s, f)
  {
    var t := s + b;
    assert a + s + b == a + t;
    if a == " " {
      assert (a + t)[0] == ' ' && (a + t)[1..] == t;
    } else {
      assert a + t == t;
    }
    TrimIgnoresEnd(s, b, f);
  }

  lemma {:induction false} TrimIgnoresEnd(s: string, b: string, f: char -> bool)
    requires b in ["", " "] && f(' ')
    ensures TrimFunc(s + b, f) == TrimFunc(s, f)
  {
    if b == "" {
      assert s + b == s;
    } else if s == "" {
      assert s + b == b && b[1..] == "";
    } else if f(s[0]) {
      assert (s + b)[1..] == s[1..] + b;
      TrimIgnoresEnd(s[1..], b, f);
    } else {
      assert (s + b)[..|s + b| - 1] == s;
    }
  }

  /** For every text: the tokens joined by single spaces, then trimmed. */
  lemma StripQueryJoinsTokens(q: string)
    ensures StripQuery(q) == TrimSpace(Join(Tokens(q)))
  {
    var a, b := CollapseIsPaddedJoin(q);
    TrimIgnoresPadding(a, Join(Tokens(q)), b, IsSpace);
  }

  lemma {:induction false} JoinEnds(ts: seq<Token>)
    requires ts != []
    ensures Join(ts) != "" && Join(ts)[0] == ts[0][0]
    ensures Join(ts)[|Join(ts)| - 1] == LastChar(ts[|ts| - 1])
  {
    if |ts| > 1 {
      JoinEnds(ts[1..]);
    }
  }

  lemma TrimIsIdentityIff(s: string, f: char -> bool)
    requires s != ""
    ensures TrimFunc(s, f) == s <==> !f(s[0]) && !f(s[|s| - 1])
  {
    if f(s[0]) {
      assert |TrimLeftFunc(s, f)| < |s|;
    } else if f(s[|s| - 1]) {
      assert |TrimRightFunc(s, f)| < |s|;
    }
  }

  lemma JoinIsTrimmedIff(ts: seq<Token>, f: char -> bool)
    ensures TrimFunc(Join(ts), f) == Join(ts) <==> EndsOutside(ts, f)
  {
    if ts != [] {
      JoinEnds(ts);
      TrimIsIdentityIff(Join(ts), f);
    }
  }

  /** The trimming is invisible exactly when neither end carries white space unknown to `\s`. */
  lemma StripQueryIsJoinIff(q: string)
    ensures StripQuery(q) == Join(Tokens(q)) <==> CleanEnds(q)
  {
    StripQueryJoinsTokens(q);
    JoinIsTrimmedIff(Tokens(q), IsSpace);
  }

  /** Joining loses nothing: the tokens come back. */
  lemma {:induction false} TokensOfJoin(ts: seq<Token>)
    ensures Tokens(Join(ts)) == ts
  {
    if |ts| == 1 {
      WordOfAppend(ts[0], "");
      assert ts[0] + "" == ts[0];
    } else if |ts| > 1 {
      var rest := " " + Join(ts[1..]);
      assert Join(ts) == ts[0] + rest;
      WordOfAppend(ts[0], rest);
      assert Join(ts)[|ts[0]|..] == rest && rest[1..] == Join(ts[1..]);
      TokensOfJoin(ts[1..]);
      assert Tokens(rest) == ts[1..];
    }
  }

  lemma {:induction false} WordOfAppend(w: string, rest: string)
    requires w == "" || IsToken(w)
    requires rest != "" ==> IsBlank(rest[0])
    ensures Word(w + rest) == w
  {
    if w == "" {
      assert w + rest == rest;
    } else {
      assert (w + rest)[1..] == w[1..] + rest;
      WordOfAppend(w[1..], rest);
    }
  }

  /** Where trimming is invisible on both sides, the equality matcher compares token lists. */
  lemma EqualMatcherComparesTokens(expected: string, actual: string)
    requires CleanEnds(expected) && CleanEnds(actual)
    ensures QueryMatcherEqual(expected, actual) <==> Tokens(expected) == Tokens(actual)
  {
    StripQueryIsJoinIff(expected);
    StripQueryIsJoinIff(actual);
    TokensOfJoin(Tokens(expected));
    TokensOfJoin(Tokens(actual));
  }

  /** Texts whose only white space is what `\s` matches satisfy the condition above. */
  lemma OnlyBlanksGivesCleanEnds(q: string)
    requires forall i | 0 <= i < |q| :: IsSpace(q[i]) ==> IsBlank(q[i])
    ensures CleanEnds(q)
  {
    var ts := Tokens(q);
    if ts != [] {
      TokensAreFromText(q, 0, 0);
      TokensAreFromText(q, |ts| - 1, |ts[|ts| - 1]| - 1);
    }
  }

  lemma {:induction false} TokensAreFromText(q: string, k: nat, i: nat)
    requires k < |Tokens(q)| && i < |Tokens(q)[k]|
    ensures Tokens(q)[k][i] in q && !IsBlank(Tokens(q)[k][i])
    decreases |q|
  {
    if IsBlank(q[0]) {
      TokensAreFromText(q[1..], k, i);
    } else if k > 0 {
      TokensAreFromText(q[|Word(q)|..], k - 1, i);
    }
  }

  /** Outside that condition the matcher identifies different token lists: any white space that `\s`
      does not know, such as a no-break space, is invisible in front of a text. */
  lemma ExoticSpaceIsInvisible(x: char, q: string)
    requires IsSpace(x) && !IsBlank(x) && q != "" && !IsBlank(q[0])
    ensures QueryMatcherEqual([x] + q, q) && Tokens([x] + q) != Tokens(q)
  {
    assert ([x] + q)[1..] == q;
    TrimDropsFirst(x, Collapse(q), IsSpace);
    FirstTokenGrows(x, q);
  }

  lemma FirstTokenGrows(x: char, q: string)
    requires !IsBlank(x) && q != "" && !IsBlank(q[0])
    ensures Tokens([x] + q) != Tokens(q)
  {
    assert ([x] + q)[1..] == q && Word([x] + q) == [x] + Word(q);
    assert |Tokens([x] + q)[0]| == |Tokens(q)[0]| + 1;
  }

  lemma TrimDropsFirst(x: char, s: string, f: char -> bool)
    requires f(x)
    ensures TrimFunc([x] + s, f) == TrimFunc(s, f)
  {
    assert ([x] + s)[1..] == s;
  }

  // ----- idempotence, for every text

  /** The only blank is the space, and never twice in a row. */
  ghost predicate Normal(s: string) {
    && (forall i | 0 <= i < |s| :: IsBlank(s[i]) ==> s[i] == ' ')
    && (forall i | 0 < i < |s| :: IsBlank(s[i]) ==> !IsBlank(s[i - 1]))
  }

  lemma {:induction false} CollapseIsNormal(q: string)
    ensures Normal(Collapse(q))
    ensures q != "" ==> Collapse(q) != "" && (IsBlank(Collapse(q)[0]) <==> IsBlank(q[0]))
    ensures q == "" ==> Collapse(q) == ""
    decreases |q|
  {
    if q == "" {
    } else if IsBlank(q[0]) {
      CollapseIsNormal(DropBlanks(q[1..]));
    } else {
      CollapseIsNormal(q[1..]);
    }
  }

  lemma {:induction false} NormalIsFixed(s: string)
    requires Normal(s)
    ensures Collapse(s) == s
    decreases |s|
  {
    if s != "" {
      assert Normal(s[1..]) by {
        assert forall i | 0 <= i < |s[1..]| :: s[1..][i] == s[i + 1];
      }
      NormalIsFixed(s[1..]);
      if IsBlank(s[0]) {
        assert |s| > 1 ==> !IsBlank(s[1]);
        assert DropBlanks(s[1..]) == s[1..];
      }
    }
  }

  lemma NormalSlice(s: string, lo: nat, hi: nat)
    requires Normal(s) && lo <= hi <= |s|
    ensures Normal(s[lo..hi])
  {
    forall i | 0 < i < hi - lo && IsBlank(s[lo..hi][i])
      ensures !IsBlank(s[lo..hi][i - 1])
    {
      assert s[lo..hi][i] == s[lo + i] && s[lo..hi][i - 1] == s[lo + i - 1];
    }
  }

  lemma TrimFixed(q: string, f: char -> bool) returns (lo: nat, hi: nat)
    ensures lo <= hi <= |q| && TrimFunc(q, f) == q[lo..hi]
    ensures TrimFunc(TrimFunc(q, f), f) == TrimFunc(q, f)
  {
    var l := TrimLeftFunc(q, f);
    var s := TrimRightFunc(l, f);
    lo, hi := |q| - |l|, |q| - |l| + |s|;
    assert s != "" ==> s[0] == l[0];
  }

  /** Stripping a second time changes nothing, whatever the text. */
  lemma StripQueryIdempotent(q: string)
    ensures StripQuery(StripQuery(q)) == StripQuery(q)
  {
    CollapseIsNormal(q);
    var lo, hi := TrimFixed(Collapse(q), IsSpace);
    NormalSlice(Collapse(q), lo, hi);
    NormalIsFixed(StripQuery(q));
  }

  /** A stripped text is its own tokens joined, so its ends are clean. */
  lemma StrippedIsClean(q: string)
    ensures CleanEnds(StripQuery(q)) && StripQuery(q) == Join(Tokens(StripQuery(q)))
  {
    var s := StripQuery(q);
    CollapseIsNormal(q);
    var lo, hi := TrimFixed(Collapse(q), IsSpace);
    NormalSlice(Collapse(q), lo, hi);
    NormalIsFixed(s);
    var a, b := CollapseIsPaddedJoin(s);
    TrimmedHasNoPadding(Collapse(q), IsSpace, a, Join(Tokens(s)), b);
    StripQueryIdempotent(q);
    StripQueryIsJoinIff(s);
  }

  lemma TrimmedHasNoPadding(q: string, f: char -> bool, a: string, j: string, b: string)
    requires TrimFunc(q, f) == a + j + b && f(' ') && a in ["", " "] && b in ["", " "]
    ensures TrimFunc(q, f) == j
  {
    var s := TrimFunc(q, f);
    var l := TrimLeftFunc(q, f);
    if s != "" {
      assert !f(s[0]) && !f(s[|s| - 1]) && s[0] == l[0];
      assert "" + j + "" == j;
    }
  }

  /** For every pair of texts: the equality matcher compares the tokens of the stripped texts. */
  lemma EqualMatcherComparesStrippedTokens(expected: string, actual: string)
    ensures QueryMatcherEqual(expected, actual) <==> Tokens(StripQuery(expected)) == Tokens(StripQuery(actual))
  {
    StrippedIsClean(expected);
    StrippedIsClean(actual);
  }

  /** The matcher agrees with the token lists of a text and of every clean one exactly if the text is clean. */
  lemma CleanEndsIff(q: string)
    ensures CleanEnds(q) <==> forall p | CleanEnds(p) :: (QueryMatcherEqual(q, p) <==> Tokens(q) == Tokens(p))
  {
    if CleanEnds(q) {
      forall p | CleanEnds(p)
        ensures QueryMatcherEqual(q, p) <==> Tokens(q) == Tokens(p)
      {
        EqualMatcherComparesTokens(q, p);
      }
    } else {
      var p := StripQuery(q);
      StrippedIsClean(q);
      StripQueryIdempotent(q);
      assert QueryMatcherEqual(q, p) && Tokens(q) != Tokens(p);
    }
  }

  /** For every text: the regular-expression matcher sees a query only through its tokens, and an
      expectation that strips to nothing accepts only a query that does. */
  lemma RegexpMatcherSeesTokens(compile: RegexpCompiler, e: string, e': string, a: string, a': string)
    requires Tokens(e) == Tokens(e') && Tokens(a) == Tokens(a')
    ensures QueryMatcherRegexp(compile, e, a) == QueryMatcherRegexp(compile, e', a')
    ensures StripQuery(e) == "" && QueryMatcherRegexp(compile, e, a) ==> StripQuery(a) == ""
  {
    StripQueryJoinsTokens(e);
    StripQueryJoinsTokens(e');
    StripQueryJoinsTokens(a);
    StripQueryJoinsTokens(a');
  }

  /** The query is matched against the compiled expectation; an empty expectation accepts only an empty query. */
  lemma MatchesPatternIff(compile: RegexpCompiler, pattern: string, text: string)
    ensures MatchesPattern(compile, pattern, text) <==>
            (pattern == "" ==> text == "") && compile(pattern).Some? && compile(pattern).value(text)
  {
  }

  /** For every text: what is compiled and what is matched are the tokens, joined and trimmed. */
  lemma RegexpMatcherMatchesTokens(compile: RegexpCompiler, e: string, a: string)
    ensures QueryMatcherRegexp(compile, e, a) <==>
            MatchesPattern(compile, TrimSpace(Join(Tokens(e))), TrimSpace(Join(Tokens(a))))
  {
    StripQueryJoinsTokens(e);
    StripQueryJoinsTokens(a);
  }

  /** For texts with clean ends nothing is trimmed: the tokens themselves are matched, and an expectation
      without tokens accepts only a query without tokens. */
  lemma RegexpMatcherOnCleanTexts(compile: RegexpCompiler, e: string, a: string, pattern: string, text: string)
    requires CleanEnds(e) && CleanEnds(a) && pattern == Join(Tokens(e)) && text == Join(Tokens(a))
    ensures Tokens(e) != [] ==>
              (QueryMatcherRegexp(compile, e, a) <==> compile(pattern).Some? && compile(pattern).value(text))
    ensures Tokens(e) == [] ==>
              (QueryMatcherRegexp(compile, e, a) <==> Tokens(a) == [] && compile("").Some? && compile("").value(""))
  {
    StripQueryIsJoinIff(e);
    StripQueryIsJoinIff(a);
    MatchesPatternIff(compile, pattern, text);
    if Tokens(e) != [] {
      JoinEnds(Tokens(e));
    }
    if Tokens(a) != [] {
      JoinEnds(Tokens(a));
    }
  }

  // ----- the characters, by their code points

  /** Within a text, exactly tab, line feed, form feed, carriage return and blank separate tokens. */
  lemma SeparatesIff(c: char)
    ensures StripQuery(['a', c, 'b']) == "a b" <==>
            var x := c as int; x == 9 || x == 10 || x == 12 || x == 13 || x == 32
  {
    var q, r, t := ['a', c, 'b'], [c, 'b'], ['b'];
    assert q[1..] == r && r[1..] == t && t[1..] == [];
    assert Collapse(t) == "b" && DropBlanks(t) == t;
    assert Collapse(r) == (if IsBlank(c) then " " else [c]) + "b";
    assert Collapse(q) == "a" + Collapse(r);
    assert Collapse(q)[0] == 'a' && Collapse(q)[2] == 'b' && |Collapse(q)| == 3;
    TrimIsIdentityIff(Collapse(q), IsSpace);
    assert Collapse(q)[1] == if IsBlank(c) then ' ' else c;
  }

  lemma CollapseTwo(c: char, q: string)
    requires q == [c, 'a']
    ensures Collapse(q) == [if IsBlank(c) then ' ' else c, 'a']
  {
    assert q[1..] == ['a'] && q[1..][1..] == [];
    assert Collapse(['a']) == "a" && DropBlanks(['a']) == ['a'];
  }

  lemma TrimTwo(d: char, s: string, f: char -> bool)
    requires s == [d, 'a'] && !f('a')
    ensures TrimFunc(s, f) == "a" <==> f(d)
  {
    assert s[1..] == "a";
  }

  lemma SpacesAre(c: char)
    ensures IsSpace(c) <==>
            var x := c as int;
            || 9 <= x <= 13 || x == 32 || x == 0x85 || x == 0xA0 || x == 0x1680 || 0x2000 <= x <= 0x200A
            || x == 0x2028 || x == 0x2029 || x == 0x202F || x == 0x205F || x == 0x3000
  {
  }

  /** In front of a text, exactly the code points with the White_Space property vanish. */
  lemma VanishesIff(c: char, q: string)
    requires q == [c, 'a']
    ensures StripQuery(q) == "a" <==>
            var x := c as int;
            || 9 <= x <= 13 || x == 32 || x == 0x85 || x == 0xA0 || x == 0x1680 || 0x2000 <= x <= 0x200A
            || x == 0x2028 || x == 0x2029 || x == 0x202F || x == 0x205F || x == 0x3000
  {
    CollapseTwo(c, q);
    SpacesAre(c);
    SpacesAre('a');
    SpacesAre(' ');
    TrimTwo(if IsBlank(c) then ' ' else c, Collapse(q), IsSpace);
  }

  /** Trimming takes white space off both ends and nothing else. */
  lemma TrimSpaceIs(q: string) returns (lo: nat, hi: nat)
    ensures lo <= hi <= |q| && TrimSpace(q) == q[lo..hi]
    ensures forall i | 0 <= i < |q| && !(lo <= i < hi) :: IsSpace(q[i])
    ensures lo < hi ==> !IsSpace(q[lo]) && !IsSpace(q[hi - 1])
  {
    lo, hi := TrimFuncIs(q, IsSpace);
  }

  lemma TrimFuncIs(q: string, f: char -> bool) returns (lo: nat, hi: nat)
    ensures lo <= hi <= |q| && TrimFunc(q, f) == q[lo..hi]
    ensures forall i | 0 <= i < |q| && !(lo <= i < hi) :: f(q[i])
    ensures lo < hi ==> !f(q[lo]) && !f(q[hi - 1])
  {
    var l := TrimLeftFunc(q, f);
    var s := TrimRightFunc(l, f);
    LeftIsCut(q, f);
    RightIsCut(l, f);
    lo, hi := Bounds(q, l, s, f);
  }

  lemma Bounds(q: string, l: string, s: string, f: char -> bool) returns (lo: nat, hi: nat)
    requires |s| <= |l| <= |q| && l == q[|q| - |l|..] && s == l[..|s|]
    requires (l != "" ==> !f(l[0])) && (s != "" ==> !f(s[|s| - 1]))
    requires (forall i | 0 <= i < |q| - |l| :: f(q[i])) && forall i | |s| <= i < |l| :: f(l[i])
    ensures lo <= hi <= |q| && s == q[lo..hi]
    ensures forall i | 0 <= i < |q| && !(lo <= i < hi) :: f(q[i])
    ensures lo < hi ==> !f(q[lo]) && !f(q[hi - 1])
  {
    lo, hi := |q| - |l|, |q| - |l| + |s|;
    forall i | hi <= i < |q|
      ensures f(q[i])
    {
      assert q[i] == l[i - lo];
    }
  }

  lemma {:induction false} LeftIsCut(q: string, f: char -> bool)
    ensures forall i | 0 <= i < |q| - |TrimLeftFunc(q, f)| :: f(q[i])
  {
    if q != "" && f(q[0]) {
      LeftIsCut(q[1..], f);
      assert forall i | 0 < i < |q| :: q[i] == q[1..][i - 1];
    }
  }

  lemma {:induction false} RightIsCut(q: string, f: char -> bool)
    ensures forall i | |TrimRightFunc(q, f)| <= i < |q| :: f(q[i])
  {
    if q != "" && f(q[|q| - 1]) {
      RightIsCut(q[..|q| - 1], f);
      assert forall i | 0 <= i < |q| - 1 :: q[i] == q[..|q| - 1][i];
    }
  }
}
