/**
 Whole runs of a cursor: whatever sequence of Next, NextResultSet and Close a caller plays, every buffer
 it was ever lent holds the stored bytes until the next Next or Close, and the pattern for ever after.
*/
module Lending {
  import opened Wrappers
  import opened Rows
  import opened Buffers
  import opened Expectations
  import opened Draining
  import D = Drain

  datatype Move = DoNext | DoNextResultSet | DoClose

  /** At turn `turn` the caller got `buf` for the byte cell at `row` and `col` of a set. */
  datatype Loan = Loan(buf: array<Byte>, from: Rows, row: nat, col: nat, turn: nat)

  type View = D.Cursor<Rows, seq<Cell>, string>

  /** The cursor as a value after a move, and after a script of moves. */
  ghost function Moved(c: View, move: Move): (n: View)
    requires D.Valid(c)
    ensures D.Valid(n)
  {
    match move
    case DoNext => D.AfterNext(c)
    case DoNextResultSet => D.AfterNextResultSet(c)
    case DoClose => c
  }

  ghost function MovedBy(c: View, script: seq<Move>): (n: View)
    requires D.Valid(c)
    ensures D.Valid(n)
    decreases |script|
  {
    if script == [] then c else Moved(MovedBy(c, script[..|script| - 1]), script[|script| - 1])
  }

  /** The loan is of a byte cell, with at least one byte, of the row that a Next would read. */
  ghost predicate IsLoanOf(c: View, l: Loan)
    requires D.Valid(c)
  {
    var s := c.sets[c.ids[c.cur]];
    && l.from == c.ids[c.cur] && l.row == s.pos < |s.rows| && l.col < |s.rows[s.pos]|
    && s.rows[s.pos][l.col].Bytes? && s.rows[s.pos][l.col].buf.Length > 0
  }

  /** Every byte cell of that row with at least one byte is lent at the given turn. */
  ghost predicate LendsRow(c: View, turn: nat, loans: set<Loan>)
    requires D.Valid(c)
  {
    var s := c.sets[c.ids[c.cur]];
    s.pos < |s.rows| ==>
      forall col | 0 <= col < |s.rows[s.pos]| && s.rows[s.pos][col].Bytes? && s.rows[s.pos][col].buf.Length > 0 ::
        LentAt(loans, c.ids[c.cur], s.pos, col, turn)
  }

  ghost predicate LentAt(loans: set<Loan>, from: Rows, row: nat, col: nat, turn: nat) {
    exists l | l in loans :: l.from == from && l.row == row && l.col == col && l.turn == turn
  }

  /** The turn of the last Next or Close, counting from 1; 0 if there was none. */
  function LastTurn(script: seq<Move>): nat {
    if script == [] then 0
    else if script[|script| - 1].DoNextResultSet? then LastTurn(script[..|script| - 1])
    else |script|
  }

  lemma {:induction false} LastTurnIs(script: seq<Move>)
    ensures var t := LastTurn(script);
            && t <= |script| && (t > 0 ==> !script[t - 1].DoNextResultSet?)
            && forall i | t <= i < |script| :: script[i].DoNextResultSet?
    decreases |script|
  {
    if script != [] {
      LastTurnIs(script[..|script| - 1]);
    }
  }

  /** The loan is of a stored byte cell. */
  ghost predicate OfStored(rs: RowSets, l: Loan)
    reads rs.sets`rows
  {
    l.from in rs.sets && l.row < |l.from.rows| && l.col < |l.from.rows[l.row]| && IsRaw(l.from.rows[l.row][l.col])
  }

  function Source(l: Loan): array<Byte>
    requires l.row < |l.from.rows| && l.col < |l.from.rows[l.row]| && l.from.rows[l.row][l.col].Bytes?
    reads l.from`rows
  {
    l.from.rows[l.row][l.col].buf
  }

  /** The buffer is among those that the cursor will overwrite next, and was lent with the stored bytes. */
  ghost predicate IsOut(rs: RowSets, l: Loan)
    requires OfStored(rs, l)
    reads rs`raw, rs`origin, rs.sets`rows, Source(l)
  {
    exists k | 0 <= k < |rs.raw| && k < |rs.origin| :: rs.raw[k] == l.buf && rs.origin[k] == Source(l)[..]
  }

  /** Loans of the last turn are out, earlier ones outdated. */
  ghost predicate Tracked(rs: RowSets, l: Loan, last: nat)
    reads *
  {
    OfStored(rs, l) && if l.turn == last then IsOut(rs, l) else l.buf in rs.outdated
  }

  /** What the caller was lent for a row. */
  ghost function LentFor(r: Rows, k: nat, dest: array<Cell>, turn: nat): set<Loan>
    requires k < |r.rows| && |r.rows[k]| <= dest.Length
    requires forall i | 0 <= i < |r.rows[k]| && IsRaw(r.rows[k][i]) :: dest[i].Bytes?
    reads r`rows, dest
  {
    set i | 0 <= i < |r.rows[k]| && IsRaw(r.rows[k][i]) :: Loan(dest[i].buf, r, k, i, turn)
  }

  /** What was out is outdated now. */
  twostate predicate Aged(rs: RowSets)
    reads *
  {
    rs.StoredUntouched() && rs.outdated == old(rs.outdated) + (set b | b in old(rs.raw))
  }

  /** A Next: the loans of the row, if there is one, are out. */
  method PlayNext(rs: RowSets, ghost r: Rows, dest: array<Cell>, ghost turn: nat) returns (ghost lent: set<Loan>)
    requires rs.Valid() && rs.AtSet(r) && r.Valid() && dest.Length >= |r.cols|
    modifies rs`raw, rs`origin, rs`outdated, rs.raw, dest, r`pos
    ensures rs.Valid() && Aged(rs) && (rs.NoNils() ==> rs.View() == D.AfterNext(old(rs.View())))
    ensures forall i | 0 <= i < |rs.raw| :: fresh(rs.raw[i])
    ensures forall l | l in lent :: l.turn == turn && Tracked(rs, l, turn)
    ensures forall i | 0 <= i < |rs.raw| :: IsLoan(lent, rs.raw[i])
    ensures var k := old(r.pos);
            if k < |r.rows|
            then |r.rows[k]| == |r.cols| && (forall i | 0 <= i < |r.cols| && IsRaw(r.rows[k][i]) :: dest[i].Bytes?)
                 && lent == LentFor(r, k, dest, turn)
            else lent == {}
  {
    ghost var k := r.pos;
    var err := rs.Next(r, dest);
    if err == Some(EndOfRows) {
      lent := {};
      return;
    }
    lent := LentFor(r, k, dest, turn);
    ghost var row := r.rows[k];
    forall j | 0 <= j < |rs.raw|
      ensures IsLoan(lent, rs.raw[j])
    {
      assert rs.IsOf(row, dest, |row|, rs.raw[j]);
      var i :| 0 <= i < |row| && IsRaw(row[i]) && dest[i] == Bytes(rs.raw[j]);
      assert Loan(dest[i].buf, r, k, i, turn) in lent;
    }
  }

  /** In terms of the cursor as a value before the Next. */
  ghost predicate IsLentFor(c: View, turn: nat, lent: set<Loan>)
    requires D.Valid(c)
  {
    (forall l | l in lent :: l.turn == turn && IsLoanOf(c, l)) && LendsRow(c, turn, lent)
  }

  lemma LentForIs(c: View, r: Rows, k: nat, dest: array<Cell>, turn: nat)
    requires D.Valid(c) && c.ids[c.cur] == r && c.sets[r].rows == r.rows && c.sets[r].pos == k < |r.rows|
    requires |r.rows[k]| <= dest.Length
    requires forall i | 0 <= i < |r.rows[k]| && IsRaw(r.rows[k][i]) :: dest[i].Bytes?
    ensures IsLentFor(c, turn, LentFor(r, k, dest, turn))
  {
    var lent := LentFor(r, k, dest, turn);
    forall col: nat | col < |r.rows[k]| && r.rows[k][col].Bytes? && r.rows[k][col].buf.Length > 0
      ensures LentAt(lent, r, k, col, turn)
    {
      assert Loan(dest[col].buf, r, k, col, turn) in lent;
    }
  }

  /** Everything lent before turn `turn` is tracked, and the cursor has lent nothing else but `before`. */
  ghost predicate Ledger(rs: RowSets, loans: set<Loan>, last: nat, turn: nat, before: set<array<Byte>>)
    reads *
  {
    && rs.Valid() && last < turn
    && (forall l | l in loans :: l.turn < turn && Tracked(rs, l, last))
    && forall b | b in Lent(rs) :: b in before || IsLoan(loans, b)
  }

  /** All buffers the cursor has ever lent. */
  ghost function Lent(rs: RowSets): set<array<Byte>>
    reads rs`raw, rs`outdated
  {
    rs.outdated + set b | b in rs.raw
  }

  ghost predicate IsLoan(loans: set<Loan>, b: array<Byte>) {
    exists l | l in loans :: l.buf == b
  }

  lemma MoreLoans(loans: set<Loan>, lent: set<Loan>)
    ensures forall b :: IsLoan(loans, b) || IsLoan(lent, b) ==> IsLoan(loans + lent, b)
  {
    forall b | IsLoan(loans, b) || IsLoan(lent, b)
      ensures IsLoan(loans + lent, b)
    {
      var l :| (l in loans || l in lent) && l.buf == b;
      assert l in loans + lent;
    }
  }

  method TurnNext(rs: RowSets, ghost r: Rows, dest: array<Cell>, ghost loans: set<Loan>, ghost last: nat,
                  ghost turn: nat, ghost before: set<array<Byte>>)
    returns (ghost lent: set<Loan>)
    requires Ledger(rs, loans, last, turn, before) && rs.AtSet(r) && r.Valid() && dest.Length >= |r.cols|
    requires rs.NoNils()
    modifies rs`raw, rs`origin, rs`outdated, rs.raw, dest, r`pos
    ensures Ledger(rs, loans + lent, turn, turn + 1, before) && rs.StoredUntouched()
    ensures forall i | 0 <= i < |rs.raw| :: fresh(rs.raw[i])
    ensures D.Valid(old(rs.View())) && rs.View() == D.AfterNext(old(rs.View()))
    ensures IsLentFor(old(rs.View()), turn, lent)
  {
    ghost var c, k := rs.View(), r.pos;
    assert rs.Ids()[rs.pos] == r;
    lent := PlayNext(rs, r, dest, turn);
    if k < |r.rows| {
      LentForIs(c, r, k, dest, turn);
    }
    forall l | l in loans
      ensures Tracked(rs, l, turn)
    {
      assert old(Tracked(rs, l, last));
    }
    MoreLoans(loans, lent);
  }

  method TurnClose(rs: RowSets, ghost r: Rows, ghost loans: set<Loan>, ghost last: nat, ghost turn: nat,
                   ghost before: set<array<Byte>>)
    requires Ledger(rs, loans, last, turn, before) && rs.AtSet(r)
    modifies rs`raw, rs`origin, rs`outdated, rs.raw, rs.ex`wasClosed
    ensures Ledger(rs, loans, turn, turn + 1, before) && rs.StoredUntouched()
    ensures rs.raw == [] && (rs.NoNils() ==> rs.View() == old(rs.View()))
  {
    var err := rs.Close(r);
    forall l | l in loans
      ensures Tracked(rs, l, turn)
    {
      assert old(Tracked(rs, l, last));
    }
  }

  method TurnNextResultSet(rs: RowSets, ghost loans: set<Loan>, ghost last: nat, ghost turn: nat,
                           ghost before: set<array<Byte>>)
    requires Ledger(rs, loans, last, turn, before) && rs.pos < |rs.sets|
    modifies rs`pos
    ensures Ledger(rs, loans, last, turn + 1, before) && rs.pos < |rs.sets|
    ensures rs.NoNils() ==> rs.View() == D.AfterNextResultSet(old(rs.View()))
  {
    var ok := rs.NextResultSet();
    forall l | l in loans
      ensures Tracked(rs, l, last)
    {
      assert old(Tracked(rs, l, last));
    }
  }

  /** Only fresh buffers come to be out. */
  twostate predicate OnlyFreshOut(rs: RowSets)
    reads rs`raw
  {
    rs.raw == old(rs.raw) || forall i | 0 <= i < |rs.raw| :: fresh(rs.raw[i])
  }

  /** One move of the caller. */
  method TurnOf(rs: RowSets, move: Move, dest: array<Cell>, ghost loans: set<Loan>, ghost last: nat, ghost turn: nat,
                ghost before: set<array<Byte>>)
    returns (ghost lent: set<Loan>)
    requires Ledger(rs, loans, last, turn, before) && rs.NoNils() && rs.pos < |rs.sets| && Fits(rs, dest)
    modifies rs`pos, rs`raw, rs`origin, rs`outdated, rs.raw, dest, rs.sets`pos, rs.ex`wasClosed
    ensures Ledger(rs, loans + lent, if move.DoNextResultSet? then last else turn, turn + 1, before)
    ensures rs.StoredUntouched() && rs.pos < |rs.sets| && Fits(rs, dest) && OnlyFreshOut(rs)
    ensures D.Valid(old(rs.View())) && rs.View() == Moved(old(rs.View()), move)
    ensures if move.DoNext? then IsLentFor(old(rs.View()), turn, lent) else lent == {}
  {
    ghost var r := rs.sets[rs.pos];
    assert r in rs.sets;
    lent := {};
    match move
    case DoNext => lent := TurnNext(rs, r, dest, loans, last, turn, before);
    case DoNextResultSet => TurnNextResultSet(rs, loans, last, turn, before);
    case DoClose => TurnClose(rs, r, loans, last, turn, before);
  }

  /** The loans are exactly the byte cells, with at least one byte, of the rows that the script reads. */
  ghost predicate LoansOf(c: View, script: seq<Move>, loans: set<Loan>)
    requires D.Valid(c)
  {
    && (forall l | l in loans ::
          && 0 < l.turn <= |script| && script[l.turn - 1].DoNext?
          && IsLoanOf(MovedBy(c, script[..l.turn - 1]), l))
    && (forall i | 0 <= i < |script| && script[i].DoNext? :: LendsRow(MovedBy(c, script[..i]), i + 1, loans))
  }

  lemma OneMoreMove(c: View, script: seq<Move>, move: Move, loans: set<Loan>, lent: set<Loan>)
    requires D.Valid(c) && LoansOf(c, script, loans)
    requires if move.DoNext? then IsLentFor(MovedBy(c, script), |script| + 1, lent) else lent == {}
    ensures LoansOf(c, script + [move], loans + lent)
  {
    var longer := script + [move];
    assert longer[..|script|] == script;
    forall l | l in loans + lent
      ensures 0 < l.turn <= |longer| && longer[l.turn - 1].DoNext? && IsLoanOf(MovedBy(c, longer[..l.turn - 1]), l)
    {
      assert l in loans ==> longer[..l.turn - 1] == script[..l.turn - 1];
    }
    forall i | 0 <= i < |longer| && longer[i].DoNext?
      ensures LendsRow(MovedBy(c, longer[..i]), i + 1, loans + lent)
    {
      if i < |script| {
        assert longer[..i] == script[..i];
        LendsMore(MovedBy(c, script[..i]), i + 1, loans, lent);
      } else {
        LendsMore(MovedBy(c, script), i + 1, lent, loans);
        assert loans + lent == lent + loans;
      }
    }
  }

  lemma LendsMore(c: View, turn: nat, loans: set<Loan>, lent: set<Loan>)
    requires D.Valid(c) && LendsRow(c, turn, loans)
    ensures LendsRow(c, turn, loans + lent)
  {
    forall from, row, col | LentAt(loans, from, row, col, turn)
      ensures LentAt(loans + lent, from, row, col, turn)
    {
      var l :| l in loans && l.from == from && l.row == row && l.col == col && l.turn == turn;
      assert l in loans + lent;
    }
  }

  /** What the ledger says of the contents. */
  lemma LoansHold(rs: RowSets, loans: set<Loan>, last: nat, turn: nat, before: set<array<Byte>>)
    requires Ledger(rs, loans, last, turn, before)
    ensures forall l | l in loans && l.turn == last :: OfStored(rs, l) && l.buf[..] == Source(l)[..]
    ensures forall l, k | l in loans && l.turn != last && 0 <= k < l.buf.Length ::
              l.buf[k] == INVALIDATE[k % |INVALIDATE|]
  {
    forall l, k | l in loans && l.turn != last && 0 <= k < l.buf.Length
      ensures l.buf[k] == INVALIDATE[k % |INVALIDATE|]
    {
      assert Tracked(rs, l, last);
      assert l.buf[..][k] == Overwritten(l.buf.Length)[k];
    }
  }

  /** Everything that is known after a script, played from the cursor `c`. */
  ghost predicate Played(rs: RowSets, dest: array<Cell>, c: View, script: seq<Move>, loans: set<Loan>,
                         before: set<array<Byte>>)
    reads *
  {
    && Ledger(rs, loans, LastTurn(script), |script| + 1, before)
    && rs.NoNils() && rs.pos < |rs.sets| && Fits(rs, dest)
    && D.Valid(c) && rs.View() == MovedBy(c, script) && LoansOf(c, script, loans)
  }

  lemma PlayedOneMore(rs: RowSets, dest: array<Cell>, c: View, was: View, script: seq<Move>, move: Move,
                      loans: set<Loan>, lent: set<Loan>, before: set<array<Byte>>)
    requires D.Valid(c) && was == MovedBy(c, script) && LoansOf(c, script, loans)
    requires if move.DoNext? then IsLentFor(was, |script| + 1, lent) else lent == {}
    requires Ledger(rs, loans + lent, if move.DoNextResultSet? then LastTurn(script) else |script| + 1, |script| + 2,
                    before)
    requires rs.NoNils() && rs.pos < |rs.sets| && Fits(rs, dest) && rs.View() == Moved(was, move)
    ensures Played(rs, dest, c, script + [move], loans + lent, before)
  {
    OneMoreMove(c, script, move, loans, lent);
    assert (script + [move])[..|script|] == script;
  }

  method PlayAll(rs: RowSets, script: seq<Move>, dest: array<Cell>, ghost c: View, ghost before: set<array<Byte>>)
    returns (ghost loans: set<Loan>)
    requires Played(rs, dest, c, [], {}, before)
    modifies rs`pos, rs`raw, rs`origin, rs`outdated, rs.raw, dest, rs.sets`pos, rs.ex`wasClosed
    ensures Played(rs, dest, c, script, loans, before) && rs.StoredUntouched() && OnlyFreshOut(rs)
    decreases |script|
  {
    if script == [] {
      loans := {};
    } else {
      var init, move := script[..|script| - 1], script[|script| - 1];
      assert script == init + [move];
      loans := PlayAll(rs, init, dest, c, before);
      ghost var was := rs.View();
      ghost var lent := TurnOf(rs, move, dest, loans, LastTurn(init), |init| + 1, before);
      PlayedOneMore(rs, dest, c, was, init, move, loans, lent, before);
      loans := loans + lent;
    }
  }

  /** Any script of moves. The loans are of exactly the byte cells, with at least one byte, of the rows that
      the script reads, and all that the cursor has lent meanwhile. At the end the buffers lent since the
      last Next or Close hold the bytes stored for them, all lent before hold the pattern, and the stored
      rows are as they were. */
  method Play(rs: RowSets, script: seq<Move>, dest: array<Cell>) returns (ghost loans: set<Loan>)
    requires rs.Valid() && rs.NoNils() && rs.pos < |rs.sets| && Fits(rs, dest)
    modifies rs`pos, rs`raw, rs`origin, rs`outdated, rs.raw, dest, rs.sets`pos, rs.ex`wasClosed
    ensures rs.Valid() && rs.StoredUntouched()
    ensures D.Valid(old(rs.View())) && LoansOf(old(rs.View()), script, loans)
    ensures forall l | l in loans && l.turn == LastTurn(script) :: OfStored(rs, l) && l.buf[..] == Source(l)[..]
    ensures forall l, k | l in loans && l.turn != LastTurn(script) && 0 <= k < l.buf.Length ::
              l.buf[k] == INVALIDATE[k % |INVALIDATE|]
    ensures forall b | b in Lent(rs) && b !in old(Lent(rs)) :: IsLoan(loans, b)
  {
    ghost var before, c := Lent(rs), rs.View();
    loans := PlayAll(rs, script, dest, c, before);
    LoansHold(rs, loans, LastTurn(script), |script| + 1, before);
  }
}
