/**
 The mock connection, its prepared statements, and the driver that owns the pool (sqlmock.go,
 sqlmock_go18.go, statement.go, driver.go), run by a single thread: every method is proved against
 `Matching`, `Lifecycle` and `Pool`, and leaves every lock released.
*/
module Engine {
  import opened Wrappers
  import opened Arguments
  import opened Matching
  import opened Expectations
  import opened Scanning
  import L = Lifecycle
  import P = Pool
  import R = Rows

  /** The error results of the matching functions. */
  datatype Failure = Refused(o: Outcome) | NoReply(i: nat) | Mocked(msg: string)

  /** The pair (expectation, error) that begin, prepare, query, exec and ping return. */
  datatype Answer = Answer(ex: Option<nat>, err: Option<Failure>)

  /** How the wrappers turn that pair into a reply: with an expectation at hand, the wait for its
      delay or for the context comes first. */
  function Await(a: Answer, cancelled: bool): (r: Option<L.Reply>) {
    match a
    case Answer(Some(i), None) => Some(if cancelled then L.Cancelled(i) else L.Served(i))
    case Answer(Some(i), Some(Mocked(msg))) => Some(if cancelled then L.Cancelled(i) else L.MockedError(i, msg))
    case Answer(None, Some(Refused(o))) => Some(L.Rejected(o))
    case Answer(None, Some(NoReply(i))) => Some(L.NoReplySet(i))
    case _ => None
  }

  /** The pair is what the specification's reply comes from, whichever way the wait ends. */
  ghost predicate Answers(cfg: Config, c: Call, o: Outcome, a: Answer) {
    && (o.Consumed? ==> o.i < |cfg.es|)
    && Await(a, false) == Some(L.Respond(cfg, c, o, false))
    && (L.Cancellable(c) ==> Await(a, true) == Some(L.Respond(cfg, c, o, true)))
  }

  class Sqlmock {
    var ordered: bool
    const dsn: string
    var openCount: int
    const drv: MockDriver
    const matches: (string, string) -> bool
    const eq: DeepEqual
    var monitorPings: bool
    var expected: seq<Expectation>
    ghost var handed: set<nat>

    constructor (dsn: string, drv: MockDriver, matches: (string, string) -> bool, eq: DeepEqual)
      ensures this.dsn == dsn && this.drv == drv && openCount == 0 && expected == []
      ensures Unlocked(expected) && ordered && L.Fresh(State())
    {
      this.dsn, this.drv, this.matches, this.eq := dsn, drv, matches, eq;
      ordered, openCount, monitorPings, expected, handed := true, 0, false, [], {};
    }

    function CurrentMode(): Mode
      reads this`ordered
    {
      Mode(matches, eq, ordered)
    }

    ghost function Config(): Config
      reads this`ordered, this`expected
    {
      Cfg(CurrentMode(), expected)
    }

    ghost function Closed(): set<nat>
      reads this`expected, expected`wasClosed
    {
      set i: nat | i < |expected| && expected[i].wasClosed
    }

    ghost function State(): L.Mock
      reads this`ordered, this`expected, this`handed, expected`triggered, expected`wasClosed
    {
      L.Mock(Config(), Done(expected), handed, Closed())
    }

    /** The results a settled call returns: a refusal, the mocked error, a missing reply, or the expectation. */
    method Result(c: Call, o: Outcome) returns (a: Answer)
      requires o.Consumed? ==> o.i < |expected|
      ensures Answers(Config(), c, o, a)
    {
      if !o.Consumed? {
        return Answer(None, Some(Refused(o)));
      }
      var s := expected[o.i].spec;
      if s.err.Some? {
        return Answer(Some(o.i), Some(Mocked(s.err.value)));
      }
      if L.NeedsReply(c) && !s.hasReply {
        return Answer(None, Some(NoReply(o.i)));
      }
      return Answer(Some(o.i), None);
    }

    /** The atomic step of the specification, with every lock released. */
    twostate predicate Took(c: Call, o: Outcome, a: Answer)
      reads this, expected
    {
      && o == old(Step(Config(), Done(expected), c))
      && Done(expected) == After(old(Done(expected)), o)
      && Answers(Config(), c, o, a)
      && Unlocked(expected)
    }

    // ----- matching: scan, later checks under the lock, trigger, unlock

    method MatchBegin(opts: TxOptions) returns (ghost o: Outcome, a: Answer)
      requires Unlocked(expected)
      modifies expected`locked, expected`triggered
      ensures Took(Begin(opts), o, a)
    {
      var c := Begin(opts);
      var r := Scan(CurrentMode(), expected, c);
      var agrees := r.Found? && TxAgrees(expected[r.i].spec.kind.txOpts, opts);
      var out := Settle(Config(), expected, c, r, agrees);
      a := Result(c, out);
      o := out;
    }

    /** prepare, query and exec compare the text once more after the scan, in order for the first time. */
    method MatchText(c: Call) returns (ghost o: Outcome, a: Answer)
      requires Unlocked(expected) && !OfKindOnly(c)
      modifies expected`locked, expected`triggered
      ensures Took(c, o, a)
    {
      var r := Scan(CurrentMode(), expected, c);
      var agrees := false;
      if r.Found? {
        agrees := AttemptMatch(CurrentMode(), expected, expected[r.i].spec.kind, c);
      }
      var out := Settle(Config(), expected, c, r, agrees);
      a := Result(c, out);
      o := out;
    }

    /** ping, Commit, Rollback and the matching part of Close have no later check. */
    method MatchPlain(c: Call) returns (ghost o: Outcome, a: Answer)
      requires Unlocked(expected) && OfKindOnly(c) && !c.Begin?
      modifies expected`locked, expected`triggered
      ensures Took(c, o, a)
    {
      var r := Scan(CurrentMode(), expected, c);
      var out := Settle(Config(), expected, c, r, r.Found?);
      a := Result(c, out);
      o := out;
    }

    // ----- driver entry points

    /** The whole call as one event of a run. */
    twostate predicate Did(c: Call, cancelled: bool, reply: L.Reply)
      reads this, expected
    {
      && State() == L.Apply(old(State()), L.Do(c, cancelled))
      && reply == L.ReplyTo(old(State()), c, cancelled)
      && Unlocked(expected)
    }

    method BeginTx(opts: TxOptions, cancelled: bool) returns (reply: L.Reply)
      requires Unlocked(expected)
      modifies expected`locked, expected`triggered
      ensures Did(Begin(opts), cancelled, reply)
    {
      ghost var o;
      var a;
      o, a := MatchBegin(opts);
      reply := Await(a, cancelled).value;
    }

    /** Prepare, Query and Exec up to their reply. */
    method ReplyToText(c: Call, cancelled: bool) returns (ghost o: Outcome, reply: L.Reply)
      requires Unlocked(expected) && !OfKindOnly(c)
      modifies expected`locked, expected`triggered
      ensures o == old(Step(Config(), Done(expected), c)) && Done(expected) == After(old(Done(expected)), o)
      ensures (o.Consumed? ==> o.i < |expected|) && reply == L.Respond(Config(), c, o, cancelled)
      ensures Unlocked(expected)
    {
      var a;
      o, a := MatchText(c);
      reply := Await(a, cancelled).value;
    }

    /** The handle goes out only if the call is served. */
    method CallWithText(c: Call, cancelled: bool) returns (reply: L.Reply)
      requires Unlocked(expected) && !OfKindOnly(c)
      modifies this`handed, expected`locked, expected`triggered
      ensures Did(c, cancelled, reply)
    {
      ghost var o;
      o, reply := ReplyToText(c, cancelled);
      L.DoIs(old(State()), c, cancelled, o, reply);
      if reply.Served? && !c.Exec? {
        handed := handed + {reply.i};
      }
    }

    /** The statement exists only if the call was served. */
    method PrepareContext(sql: string, cancelled: bool) returns (reply: L.Reply, stmt: Option<Statement>)
      requires Unlocked(expected)
      modifies this`handed, expected`locked, expected`triggered
      ensures Did(Prepare(sql), cancelled, reply)
      ensures stmt.Some? <==> reply.Served?
      ensures stmt.Some? ==> stmt.value.Valid() && stmt.value.conn == this && stmt.value.slot == reply.i
      ensures stmt.Some? ==> stmt.value.query == sql
    {
      reply := CallWithText(Prepare(sql), cancelled);
      stmt := None;
      if reply.Served? {
        var st := new Statement(this, expected[reply.i], reply.i, sql);
        stmt := Some(st);
      }
    }

    /** What WillReturnRows and WillReturnResult set is what expectations have to reply with; rows refer back. */
    ghost predicate Equipped()
      reads this`expected, expected`rows, expected`result
    {
      forall i | 0 <= i < |expected| :: HasReplySet(expected[i])
    }

    ghost predicate HasReplySet(e: Expectation)
      reads e`rows, e`result
    {
      && (e.spec.kind.ExpectedQuery? ==> (e.spec.hasReply <==> e.rows != null) && (e.rows != null ==> e.rows.ex == e))
      && (e.spec.kind.ExpectedExec? ==> (e.spec.hasReply <==> e.result.Some?))
    }

    /** The rows of the expectation go out only if the call was served. */
    method QueryContext(query: string, args: seq<NamedValue>, cancelled: bool)
      returns (reply: L.Reply, rows: Option<QueryRows>)
      requires Unlocked(expected) && Equipped()
      modifies this`handed, expected`locked, expected`triggered
      ensures Did(Query(query, args), cancelled, reply)
      ensures rows.Some? <==> reply.Served?
      ensures rows.Some? ==> rows.value.Valid() && rows.value.conn == this && rows.value.slot == reply.i
      ensures rows.Some? ==> rows.value.rows == expected[reply.i].rows
    {
      reply := CallWithText(Query(query, args), cancelled);
      rows := None;
      if reply.Served? {
        var out := new QueryRows(this, expected[reply.i].rows, reply.i);
        rows := Some(out);
      }
    }

    /** The result of the expectation goes out only if the call was served. */
    method ExecContext(query: string, args: seq<NamedValue>, cancelled: bool)
      returns (reply: L.Reply, result: Option<DriverResult>)
      requires Unlocked(expected) && Equipped()
      modifies this`handed, expected`locked, expected`triggered
      ensures Did(Exec(query, args), cancelled, reply) && handed == old(handed)
      ensures result.Some? <==> reply.Served?
      ensures reply.Served? ==> reply.i < |expected| && result == expected[reply.i].result
    {
      reply := CallWithText(Exec(query, args), cancelled);
      result := if reply.Served? then expected[reply.i].result else None;
    }

    /** Without monitoring a ping succeeds and touches nothing. */
    method PingContext(cancelled: bool) returns (reply: Option<L.Reply>)
      requires Unlocked(expected)
      modifies expected`locked, expected`triggered
      ensures reply.Some? <==> monitorPings
      ensures reply.Some? ==> Did(Ping, cancelled, reply.value)
      ensures reply.None? ==> State() == old(State()) && Unlocked(expected)
    {
      if !monitorPings {
        return None;
      }
      ghost var o;
      var a;
      o, a := MatchPlain(Ping);
      reply := Await(a, cancelled);
    }

    /** Commit, Rollback and the second half of Close: no context, no later check. */
    method EndWith(c: Call) returns (reply: L.Reply)
      requires Unlocked(expected) && (c.Commit? || c.Rollback? || c.Close?)
      modifies expected`locked, expected`triggered
      ensures Did(c, false, reply)
    {
      ghost var o;
      var a;
      o, a := MatchPlain(c);
      reply := Await(a, false).value;
    }

    /** The accounting of a Close, under the pool lock. */
    method CountDown()
      requires drv.locked && P.Known(drv.Pool()) && this in drv.mocks
      modifies drv`conns, this`openCount
      ensures P.Known(drv.Pool()) && drv.Pool() == P.Apply(old(drv.Pool()), P.Close(this))
      ensures State() == old(State())
    {
      openCount := openCount - 1;
      if openCount == 0 {
        drv.conns := drv.conns - {dsn};
      }
    }

    /** What Close does while it holds the pool lock: the accounting first, whatever the expectations
        say, then the scan. */
    method CloseLocked() returns (reply: L.Reply)
      requires Unlocked(expected) && drv.locked && P.Known(drv.Pool()) && this in drv.mocks
      modifies drv`conns, this`openCount, expected`locked, expected`triggered
      ensures Did(Call.Close, false, reply)
      ensures P.Known(drv.Pool()) && drv.Pool() == P.Apply(old(drv.Pool()), P.Close(this))
    {
      CountDown();
      ghost var p := drv.Pool();
      reply := EndWith(Call.Close);
      assert drv.Pool() == p;
    }

    /** Closing a connection, all under the pool lock. */
    method Close() returns (reply: L.Reply)
      requires Unlocked(expected) && drv.Valid() && this in drv.mocks
      modifies drv`locked, drv`conns, this`openCount, expected`locked, expected`triggered
      ensures Did(Call.Close, false, reply)
      ensures drv.Valid() && drv.Pool() == P.Apply(old(drv.Pool()), P.Close(this))
    {
      drv.Lock();
      reply := CloseLocked();
      drv.Unlock();
    }

    // ----- registration and verdict

    method MatchExpectationsInOrder(b: bool)
      requires Unlocked(expected)
      modifies this`ordered
      ensures State() == L.Apply(old(State()), L.SetOrdered(b)) && Unlocked(expected) && ordered == b
    {
      ordered := b;
    }

    /** Every Expect... method appends a fresh, open expectation. */
    method Expect(spec: Spec) returns (e: Expectation)
      requires Unlocked(expected)
      modifies this`expected
      ensures fresh(e) && expected == old(expected) + [e] && e.spec == spec
      ensures State() == L.Apply(old(State()), L.Register(spec)) && Unlocked(expected)
      ensures old(Equipped()) && !(spec.hasReply && (spec.kind.ExpectedQuery? || spec.kind.ExpectedExec?)) ==>
                Equipped()
    {
      e := new Expectation(spec, |expected|);
      expected := expected + [e];
    }

    method ExpectPing(spec: Spec) returns (e: Option<Expectation>)
      requires Unlocked(expected) && spec.kind.ExpectedPing?
      modifies this`expected
      ensures State() == if monitorPings then L.Apply(old(State()), L.Register(spec)) else old(State())
      ensures Unlocked(expected)
    {
      if !monitorPings {
        return None;
      }
      var p := Expect(spec);
      return Some(p);
    }

    /** ExpectQuery with its builder chain; `sets` are the arguments of WillReturnRows, if it is called. */
    method ExpectQuery(sql: string, args: ArgSpec, err: Option<string>, sets: Option<seq<R.Rows?>>, mustBeClosed: bool)
      returns (e: Expectation)
      requires Unlocked(expected) && Equipped()
      requires sets.Some? ==> forall i | 0 <= i < |sets.value| && sets.value[i] != null :: sets.value[i].Valid()
      modifies this`expected
      ensures fresh(e) && expected == old(expected) + [e]
      ensures e.spec == Spec(ExpectedQuery(sql, args), err, sets.Some?, mustBeClosed)
      ensures sets.Some? ==> e.rows != null && e.rows.Valid() && e.rows.sets == sets.value && e.rows.pos == 0
      ensures State() == L.Apply(old(State()), L.Register(e.spec)) && Unlocked(expected) && Equipped()
    {
      e := new Expectation(Spec(ExpectedQuery(sql, args), err, sets.Some?, mustBeClosed), |expected|);
      if sets.Some? {
        e.WillReturnRows(sets.value);
      }
      expected := expected + [e];
    }

    /** ExpectQuery on a prepared statement's expectation: the same text, appended to the same list. */
    method ExpectQueryOn(prep: Expectation, args: ArgSpec, err: Option<string>, sets: Option<seq<R.Rows?>>,
                         mustBeClosed: bool)
      returns (e: Expectation)
      requires Unlocked(expected) && Equipped() && prep in expected && prep.spec.kind.ExpectedPrepare?
      requires sets.Some? ==> forall i | 0 <= i < |sets.value| && sets.value[i] != null :: sets.value[i].Valid()
      modifies this`expected
      ensures expected == old(expected) + [e]
      ensures e.spec == Spec(ExpectedQuery(prep.spec.kind.prepareSQL, args), err, sets.Some?, mustBeClosed)
      ensures State() == L.Apply(old(State()), L.Register(e.spec)) && Unlocked(expected) && Equipped()
    {
      e := ExpectQuery(prep.spec.kind.prepareSQL, args, err, sets, mustBeClosed);
    }

    /** ExpectExec with its builder chain; `result` is the argument of WillReturnResult, if it is called. */
    method ExpectExec(sql: string, args: ArgSpec, err: Option<string>, result: Option<DriverResult>)
      returns (e: Expectation)
      requires Unlocked(expected) && Equipped()
      modifies this`expected
      ensures fresh(e) && expected == old(expected) + [e] && e.result == result
      ensures e.spec == Spec(ExpectedExec(sql, args), err, result.Some?, false)
      ensures State() == L.Apply(old(State()), L.Register(e.spec)) && Unlocked(expected) && Equipped()
    {
      e := new Expectation(Spec(ExpectedExec(sql, args), err, result.Some?, false), |expected|);
      if result.Some? {
        e.WillReturnResult(result.value);
      }
      expected := expected + [e];
    }

    /** ExpectExec on a prepared statement's expectation. */
    method ExpectExecOn(prep: Expectation, args: ArgSpec, err: Option<string>, result: Option<DriverResult>)
      returns (e: Expectation)
      requires Unlocked(expected) && Equipped() && prep in expected && prep.spec.kind.ExpectedPrepare?
      modifies this`expected
      ensures expected == old(expected) + [e] && e.result == result
      ensures e.spec == Spec(ExpectedExec(prep.spec.kind.prepareSQL, args), err, result.Some?, false)
      ensures State() == L.Apply(old(State()), L.Register(e.spec)) && Unlocked(expected) && Equipped()
    {
      e := ExpectExec(prep.spec.kind.prepareSQL, args, err, result);
    }

    /** nil (AllMet) or the lowest-index offender; the scan changes nothing and frees every lock. */
    method ExpectationsWereMet() returns (v: L.Verdict)
      requires Unlocked(expected)
      modifies expected`locked
      ensures L.IsVerdict(State(), v)
      ensures State() == old(State()) && Unlocked(expected)
      ensures v.AllMet? <==>
              forall j | 0 <= j < |expected| ::
                var e := expected[j];
                && e.triggered
                && ((e.spec.kind.ExpectedPrepare? || e.spec.kind.ExpectedQuery?) && e.spec.mustBeClosed ==> e.wasClosed)
      ensures v.Unmatched? ==> v.i < |expected| && !expected[v.i].triggered
      ensures v.NotClosed? ==>
                && v.i < |expected| && expected[v.i].triggered && !expected[v.i].wasClosed
                && expected[v.i].spec.mustBeClosed
                && (expected[v.i].spec.kind.ExpectedPrepare? || expected[v.i].spec.kind.ExpectedQuery?)
    {
      ghost var m := State();
      v := L.AllMet;
      for i := 0 to |expected|
        invariant Unlocked(expected) && State() == m && v.AllMet?
        invariant forall j | 0 <= j < i :: !L.Offends(m, j)
      {
        var e := expected[i];
        e.Lock();
        var fulfilled := e.Fulfilled();
        e.Unlock();
        if !fulfilled {
          v := L.Unmatched(i);
          break;
        }
        if e.spec.kind.ExpectedPrepare? && e.spec.mustBeClosed && !e.wasClosed {
          v := L.NotClosed(i);
          break;
        }
        if e.spec.kind.ExpectedQuery? && e.spec.mustBeClosed && !e.wasClosed {
          v := L.NotClosed(i);
          break;
        }
      }
      L.VerdictSays(m, v);
      StateIsFields();
    }

    /** The mock as a value has the flags of its expectations. */
    lemma StateIsFields()
      ensures forall j | 0 <= j < |expected| ::
                && (j in State().done <==> expected[j].triggered) && (j in State().closed <==> expected[j].wasClosed)
                && State().cfg.es[j] == expected[j].spec
    {
    }
  }

  class Statement {
    const conn: Sqlmock
    const ex: Expectation
    ghost const slot: nat
    const query: string

    constructor (conn: Sqlmock, ex: Expectation, ghost slot: nat, query: string)
      requires slot < |conn.expected| && conn.expected[slot] == ex && slot in conn.handed
      ensures this.conn == conn && this.ex == ex && this.slot == slot && this.query == query
    {
      this.conn, this.ex, this.slot, this.query := conn, ex, slot, query;
    }

    ghost predicate Valid()
      reads conn
    {
      slot < |conn.expected| && conn.expected[slot] == ex && slot in conn.handed
    }

    /** Returns the close error configured for the expectation. */
    method Close() returns (err: Option<string>)
      requires Valid() && Unlocked(conn.expected)
      modifies ex`wasClosed
      ensures err == ex.closeErr
      ensures conn.State() == L.Apply(old(conn.State()), L.CloseHandle(slot))
      ensures L.Possible(old(conn.State()), L.CloseHandle(slot)) && Unlocked(conn.expected)
    {
      ex.wasClosed := true;
      return ex.closeErr;
    }

    method QueryContext(args: seq<NamedValue>, cancelled: bool) returns (reply: L.Reply, rows: Option<QueryRows>)
      requires Unlocked(conn.expected) && conn.Equipped()
      modifies conn`handed, conn.expected`locked, conn.expected`triggered
      ensures conn.Did(Query(query, args), cancelled, reply)
      ensures rows.Some? <==> reply.Served?
      ensures rows.Some? ==> rows.value.Valid() && rows.value.conn == conn && rows.value.slot == reply.i
    {
      reply, rows := conn.QueryContext(query, args, cancelled);
    }

    method ExecContext(args: seq<NamedValue>, cancelled: bool) returns (reply: L.Reply, result: Option<DriverResult>)
      requires Unlocked(conn.expected) && conn.Equipped()
      modifies conn`handed, conn.expected`locked, conn.expected`triggered
      ensures conn.Did(Exec(query, args), cancelled, reply)
      ensures result.Some? <==> reply.Served?
      ensures reply.Served? ==> reply.i < |conn.expected| && result == conn.expected[reply.i].result
    {
      reply, result := conn.ExecContext(query, args, cancelled);
    }
  }

  /** The rows a served query gives its caller. */
  class QueryRows {
    const conn: Sqlmock
    const rows: RowSets
    ghost const slot: nat

    constructor (conn: Sqlmock, rows: RowSets, ghost slot: nat)
      requires slot < |conn.expected| && conn.expected[slot] == rows.ex && slot in conn.handed
      ensures this.conn == conn && this.rows == rows && this.slot == slot
    {
      this.conn, this.rows, this.slot := conn, rows, slot;
    }

    ghost predicate Valid()
      reads conn
    {
      slot < |conn.expected| && conn.expected[slot] == rows.ex && slot in conn.handed
    }

    /** Closing the cursor closes the handle of the very expectation whose query was served. */
    method Close(ghost r: R.Rows) returns (err: Option<string>)
      requires Valid() && Unlocked(conn.expected) && rows.Valid() && rows.AtSet(r)
      modifies rows`raw, rows`origin, rows`outdated, rows.raw, rows.ex`wasClosed
      ensures conn.State() == L.Apply(old(conn.State()), L.CloseHandle(slot))
      ensures L.Possible(old(conn.State()), L.CloseHandle(slot)) && Unlocked(conn.expected)
      ensures rows.Valid() && rows.raw == [] && err == r.closeErr
    {
      err := rows.Close(r);
    }
  }

  class MockDriver {
    var locked: bool
    var counter: nat
    var conns: map<string, Sqlmock>
    /** Every mock ever created, whether still registered or not. */
    ghost var mocks: set<Sqlmock>

    constructor ()
      ensures Valid() && Pool() == P.Pool(0, map[], map[], map[]) && P.Invariant(Pool())
    {
      locked, counter, conns, mocks := false, 0, map[], {};
    }

    method Lock()
      requires !locked
      modifies this`locked
      ensures locked
    {
      locked := true;
    }

    method Unlock()
      requires locked
      modifies this`locked
      ensures !locked
    {
      locked := false;
    }

    ghost function Pool(): P.Pool<Sqlmock>
      reads this`counter, this`conns, this`mocks, mocks`openCount
    {
      P.Pool(counter, conns, map m | m in mocks :: m.openCount, map m | m in mocks :: m.dsn)
    }

    ghost predicate Valid()
      reads this, mocks`openCount
    {
      !locked && P.Known(Pool())
    }

    method Open(name: string) returns (c: Option<Sqlmock>)
      requires Valid()
      modifies this`locked, mocks`openCount
      ensures Valid() && Pool() == P.Apply(old(Pool()), P.Open(name))
      ensures c == if name in conns then Some(conns[name]) else None
    {
      Lock();
      if name !in conns {
        Unlock();
        return None;
      }
      var m := conns[name];
      assert m in mocks;
      m.openCount := m.openCount + 1;
      Unlock();
      return Some(m);
    }

    /** Creates a mock and registers it, under the pool lock. */
    method Register(name: string, matches: (string, string) -> bool, eq: DeepEqual) returns (m: Sqlmock)
      requires locked && P.Known(Pool())
      modifies this`conns, this`mocks
      ensures fresh(m) && P.Known(Pool()) && Pool() == P.Register(old(Pool()), name, m)
      ensures mocks == old(mocks) + {m} && m.expected == [] && m.dsn == name
      ensures L.Fresh(m.State()) && m.ordered && Unlocked(m.expected)
    {
      ghost var p := Pool();
      m := new Sqlmock(name, this, matches, eq);
      conns := conns[name := m];
      mocks := mocks + {m};
      assert Pool().openCount == p.openCount[m := 0];
      assert Pool().dsn == p.dsn[m := name];
    }

    /** What New does under the pool lock. */
    method AddNew(matches: (string, string) -> bool, eq: DeepEqual) returns (m: Sqlmock)
      requires Valid()
      modifies this
      ensures fresh(m) && Valid() && Pool() == P.Apply(old(Pool()), P.New(m))
      ensures mocks == old(mocks) + {m} && m.expected == [] && m.dsn == P.GeneratedName(old(counter))
      ensures L.Fresh(m.State()) && m.ordered && Unlocked(m.expected)
    {
      Lock();
      m := Register(P.GeneratedName(counter), matches, eq);
      counter := counter + 1;
      Unlock();
    }

    /** What NewWithDSN does under the pool lock. */
    method AddWithDSN(name: string, matches: (string, string) -> bool, eq: DeepEqual) returns (m: Option<Sqlmock>)
      requires Valid()
      modifies this
      ensures Valid() && (m.None? <==> name in old(conns))
      ensures m.None? ==> Pool() == old(Pool())
      ensures m.Some? ==> fresh(m.value) && Pool() == P.Apply(old(Pool()), P.NewWithDSN(name, m.value))
      ensures m.Some? ==> mocks == old(mocks) + {m.value} && m.value.expected == []
      ensures m.Some? ==> L.Fresh(m.value.State()) && m.value.ordered && Unlocked(m.value.expected)
    {
      Lock();
      if name in conns {
        Unlock();
        return None;
      }
      var created := Register(name, matches, eq);
      Unlock();
      return Some(created);
    }

    /** A ping that is not monitored: it touches neither the expectations nor the pool. */
    method SilentPing(m: Sqlmock)
      requires !m.monitorPings && Unlocked(m.expected)
      modifies m.expected`locked, m.expected`triggered
      ensures m.State() == old(m.State()) && Unlocked(m.expected) && Pool() == old(Pool())
    {
      var reply := m.PingContext(false);
    }

    /** The start-up ping: it opens a connection, and is not monitored. */
    method StartUp(m: Sqlmock, monitor: bool)
      requires Valid() && m in mocks && Unlocked(m.expected)
      modifies this`locked, mocks`openCount, m`monitorPings, m.expected`locked, m.expected`triggered
      ensures Valid() && Pool() == P.Apply(old(Pool()), P.Open(m.dsn))
      ensures m.monitorPings == monitor && m.State() == old(m.State()) && Unlocked(m.expected)
    {
      m.monitorPings := false;
      var c := Open(m.dsn);
      SilentPing(m);
      m.monitorPings := monitor;
    }

    /** The driver's part of options and start-up: a failing option ends it before any connection is opened. */
    method OpenMock(m: Sqlmock, monitor: bool, optionFails: bool) returns (ok: bool)
      requires Valid() && m in mocks && Unlocked(m.expected)
      modifies this`locked, mocks`openCount, m`monitorPings, m.expected`locked, m.expected`triggered
      ensures ok == !optionFails && Valid() && m.State() == old(m.State()) && Unlocked(m.expected)
      ensures Pool() == if ok then P.Apply(old(Pool()), P.Open(m.dsn)) else old(Pool())
      ensures ok ==> m.monitorPings == monitor
    {
      if optionFails {
        return false;
      }
      StartUp(m, monitor);
      return true;
    }

    /** A fresh, ordered, empty mock registered under the next generated name, with one connection open
        unless an option fails. */
    method New(matches: (string, string) -> bool, eq: DeepEqual, monitor: bool, optionFails: bool)
      returns (m: Sqlmock, ok: bool)
      requires Valid()
      modifies this, mocks`openCount
      ensures fresh(m) && Valid() && ok == !optionFails && m.dsn == P.GeneratedName(old(counter))
      ensures var p := P.Apply(old(Pool()), P.New(m)); Pool() == if ok then P.Apply(p, P.Open(m.dsn)) else p
      ensures L.Fresh(m.State()) && m.ordered && Unlocked(m.expected) && (ok ==> m.monitorPings == monitor)
    {
      m := AddNew(matches, eq);
      ok := OpenMock(m, monitor, optionFails);
    }

    /** The same under the caller's name, or an error and no change if it is taken. */
    method NewWithDSN(name: string, matches: (string, string) -> bool, eq: DeepEqual, monitor: bool, optionFails: bool)
      returns (m: Option<Sqlmock>, ok: bool)
      requires Valid()
      modifies this, mocks`openCount
      ensures Valid() && (m.None? <==> name in old(conns)) && ok == (m.Some? && !optionFails)
      ensures m.None? ==> Pool() == old(Pool())
      ensures m.Some? ==> fresh(m.value)
      ensures m.Some? ==> var p := P.Apply(old(Pool()), P.NewWithDSN(name, m.value));
                          Pool() == if ok then P.Apply(p, P.Open(name)) else p
      ensures m.Some? ==> L.Fresh(m.value.State()) && m.value.ordered && Unlocked(m.value.expected)
      ensures ok ==> m.value.monitorPings == monitor
    {
      m := AddWithDSN(name, matches, eq);
      ok := false;
      if m.Some? {
        ok := OpenMock(m.value, monitor, optionFails);
      }
    }
  }
}
