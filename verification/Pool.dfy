/**
 The pool of registered mocks (driver.go) and its accounting in sqlmock.Close: which data source
 names lead to which mock, and how many connections of each are open. `M` identifies a mock.
*/
module Pool {

  // ----- generated names: "sqlmock_db_%d"

  function Digit(d: nat): char
    requires d < 10
  {
    "0123456789"[d]
  }

  /** Decimal printing of a counter. */
  function Decimal(n: nat): (s: string)
    ensures s != ""
  {
    if n < 10 then [Digit(n)] else Decimal(n / 10) + [Digit(n % 10)]
  }

  /** The number a digit string stands for. */
  function Parse(s: string): int {
    if s == "" then 0 else 10 * Parse(s[..|s| - 1]) + (s[|s| - 1] as int - '0' as int)
  }

  lemma {:induction false} ParseDecimal(n: nat)
    ensures Parse(Decimal(n)) == n
  {
    if n >= 10 {
      ParseDecimal(n / 10);
      assert Decimal(n)[..|Decimal(n)| - 1] == Decimal(n / 10);
    } else {
      assert Decimal(n)[..0] == "";
    }
  }

  function GeneratedName(n: nat): string {
    "sqlmock_db_" + Decimal(n)
  }

  /** Generated names never repeat. */
  lemma GeneratedNamesDiffer(m: nat, n: nat)
    requires GeneratedName(m) == GeneratedName(n)
    ensures m == n
  {
    assert GeneratedName(m)[|"sqlmock_db_"|..] == Decimal(m);
    assert GeneratedName(n)[|"sqlmock_db_"|..] == Decimal(n);
    ParseDecimal(m);
    ParseDecimal(n);
  }

  // ----- the pool

  /** `openCount` and `dsn` record, for every mock ever created, its open count and its name. */
  datatype Pool<M(==)> = Pool(counter: nat, conns: map<string, M>, openCount: map<M, int>, dsn: map<M, string>)

  datatype Event<M> = New(m: M) | NewWithDSN(name: string, m: M) | Open(name: string) | Close(m: M)

  function Register<M(==)>(p: Pool<M>, name: string, m: M): Pool<M> {
    p.(conns := p.conns[name := m], openCount := p.openCount[m := 0], dsn := p.dsn[m := name])
  }

  function Apply<M(==)>(p: Pool<M>, e: Event<M>): (q: Pool<M>)
    requires Known(p) && (e.Close? ==> e.m in p.openCount)
    ensures Known(q)
  {
    match e
    case New(m) => Register(p, GeneratedName(p.counter), m).(counter := p.counter + 1)
    case NewWithDSN(name, m) => if name in p.conns then p else Register(p, name, m)
    case Open(name) =>
      if name in p.conns then p.(openCount := p.openCount[p.conns[name] := p.openCount[p.conns[name]] + 1]) else p
    case Close(m) =>
      var left := p.openCount[m] - 1;
      p.(openCount := p.openCount[m := left], conns := if left == 0 then p.conns - {p.dsn[m]} else p.conns)
  }

  /** Every registered mock has been created, and every created mock has a name. */
  predicate Known<M(==)>(p: Pool<M>) {
    && p.openCount.Keys == p.dsn.Keys
    && forall name | name in p.conns :: p.conns[name] in p.openCount
  }

  /** Each key maps to the mock of that name, counts are never negative, open mocks are registered. */
  predicate Consistent<M(==)>(p: Pool<M>) {
    && Known(p)
    && (forall name | name in p.conns :: p.dsn[p.conns[name]] == name)
    && forall m | m in p.openCount ::
         p.openCount[m] >= 0 && (p.openCount[m] > 0 ==> p.dsn[m] in p.conns && p.conns[p.dsn[m]] == m)
  }

  /** No name that New will still generate is taken. */
  ghost predicate FutureNamesFree<M>(p: Pool<M>) {
    forall k: nat | k >= p.counter :: GeneratedName(k) !in p.conns
  }

  ghost predicate Invariant<M>(p: Pool<M>) {
    Consistent(p) && FutureNamesFree(p)
  }

  /** New mocks are new, callers' names avoid the ones still to be generated, a Close pairs with an Open. */
  ghost predicate Legal<M>(p: Pool<M>, e: Event<M>) {
    match e
    case New(m) => m !in p.openCount
    case NewWithDSN(name, m) => m !in p.openCount && forall k: nat | k >= p.counter :: GeneratedName(k) != name
    case Open(_) => true
    case Close(m) => m in p.openCount && p.openCount[m] > 0
  }

  lemma InvariantStep<M>(p: Pool<M>, e: Event<M>)
    requires Invariant(p) && Legal(p, e)
    ensures Invariant(Apply(p, e))
  {
    if e.New? {
      forall k: nat | k > p.counter
        ensures GeneratedName(k) !in Apply(p, e).conns
      {
        if GeneratedName(k) == GeneratedName(p.counter) {
          GeneratedNamesDiffer(k, p.counter);
        }
      }
    }
  }

  ghost function Play<M>(p: Pool<M>, evs: seq<Event<M>>): Pool<M>
    requires Invariant(p) && LegalRun(p, evs)
    decreases |evs|
  {
    if evs == [] then p
    else
      InvariantStep(p, evs[0]);
      Play(Apply(p, evs[0]), evs[1..])
  }

  ghost predicate LegalRun<M>(p: Pool<M>, evs: seq<Event<M>>)
    requires Invariant(p)
    decreases |evs|
  {
    evs == [] ||
    (Legal(p, evs[0]) &&
     var q := (InvariantStep(p, evs[0]); Apply(p, evs[0]));
     LegalRun(q, evs[1..]))
  }

  /** The pool stays consistent over every legal run. */
  lemma {:induction false} InvariantRun<M>(p: Pool<M>, evs: seq<Event<M>>)
    requires Invariant(p) && LegalRun(p, evs)
    ensures Invariant(Play(p, evs))
    decreases |evs|
  {
    if evs != [] {
      InvariantStep(p, evs[0]);
      InvariantRun(Apply(p, evs[0]), evs[1..]);
    }
  }

  /** How often a run opened a connection of mock `m`, less how often it closed one. */
  ghost function Balance<M>(p: Pool<M>, evs: seq<Event<M>>, m: M): int
    requires Invariant(p) && LegalRun(p, evs)
    decreases |evs|
  {
    if evs == [] then 0
    else
      InvariantStep(p, evs[0]);
      (match evs[0]
       case Open(name) => if name in p.conns && p.conns[name] == m then 1 else 0
       case Close(n) => if n == m then -1 else 0
       case _ => 0) + Balance(Apply(p, evs[0]), evs[1..], m)
  }

  /** The open count is opens minus closes, for mocks created before or during the run. */
  lemma {:induction false} OpenedIsBalance<M>(p: Pool<M>, evs: seq<Event<M>>, m: M)
    requires Invariant(p) && LegalRun(p, evs) && m in Play(p, evs).openCount
    ensures Play(p, evs).openCount[m] == (if m in p.openCount then p.openCount[m] else 0) + Balance(p, evs, m)
    decreases |evs|
  {
    if evs != [] {
      InvariantStep(p, evs[0]);
      OpenedIsBalance(Apply(p, evs[0]), evs[1..], m);
    }
  }

  /** An entry survives every event unchanged, except that it vanishes exactly when the last open
      connection of its mock is closed. */
  lemma EntryVanishesExactly<M>(p: Pool<M>, e: Event<M>, name: string)
    requires Invariant(p) && Legal(p, e) && name in p.conns
    ensures name !in Apply(p, e).conns <==> e == Close(p.conns[name]) && p.openCount[p.conns[name]] == 1
    ensures name in Apply(p, e).conns ==> Apply(p, e).conns[name] == p.conns[name]
  {
  }

  /** Without the rule on callers' names: New keeps the pool consistent exactly when the name it
      generates does not lead to a mock with open connections. */
  lemma NewKeepsConsistencyIff<M>(p: Pool<M>, m: M)
    requires Consistent(p) && m !in p.openCount
    ensures Consistent(Apply(p, New(m))) <==>
            !(GeneratedName(p.counter) in p.conns && p.openCount[p.conns[GeneratedName(p.counter)]] > 0)
  {
    var name := GeneratedName(p.counter);
    if name in p.conns && p.openCount[p.conns[name]] > 0 {
      var q := Apply(p, New(m));
      var victim := p.conns[name];
      assert q.openCount[victim] > 0 && q.conns[q.dsn[victim]] != victim;
    }
  }

  /** What the rule prevents: after a clash, closing the replaced mock unregisters the other one, which is
      still open. */
  lemma ClashUnregistersTheOther<M>(a: M, b: M)
    requires a != b
    ensures var p0 := Pool(0, map[], map[], map[]);
            var p1 := Apply(p0, NewWithDSN("sqlmock_db_0", a));
            var p2 := Apply(Apply(p1, Open("sqlmock_db_0")), New(b));
            var p3 := Apply(p2, Open("sqlmock_db_0"));
            var p4 := Apply(p3, Close(a));
            p3.conns["sqlmock_db_0"] == b && "sqlmock_db_0" !in p4.conns && p4.openCount[b] == 1 && !Consistent(p4)
  {
    assert Decimal(0) == "0";
    assert GeneratedName(0) == "sqlmock_db_0";
  }
}
