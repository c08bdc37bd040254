/**
 Registered expectations as mutable objects with their own lock (expectations.go), and the cursor over
 its rows that an expected query hands out (rows.go, rows_go18.go). The two refer to each other.

 Byte cells are copied into fresh buffers for the caller, and the next Next or Close overwrites those
 buffers, so that a caller who kept one sees that sql.RawBytes was only borrowed.
*/
module Expectations {
  import opened Wrappers
  import opened Matching
  import opened Rows
  import opened Buffers
  import D = Drain

  datatype DriverResult = DriverResult(insertID: int, rowsAffected: int, err: Option<string>)

  class Expectation {
    /** What the builder chain configured. */
    const spec: Spec
    /** The position in the mock's list: expectations are appended once and never move. */
    ghost const slot: nat
    var locked: bool
    var triggered: bool
    /** wasClosed of a prepared statement, rowsWereClosed of a query. */
    var wasClosed: bool
    /** What a query returns, what an exec returns, and the error of closing a prepared statement. */
    var rows: RowSets?
    var result: Option<DriverResult>
    var closeErr: Option<string>

    constructor (spec: Spec, ghost slot: nat)
      ensures this.spec == spec && this.slot == slot && !locked && !triggered && !wasClosed
      ensures rows == null && result == None && closeErr == None
    {
      this.spec, this.slot := spec, slot;
      locked, triggered, wasClosed := false, false, false;
      rows, result, closeErr := null, None, None;
    }

    /** Sequentially, taking a lock that is held would block forever. */
    method Lock()
      requires !locked
      modifies this`locked
      ensures locked
    {
      locked := true;
    }

    method Unlock()
      requires locked
      modifies this`locked
      ensures !locked
    {
      locked := false;
    }

    predicate Fulfilled()
      reads this`triggered
    {
      triggered
    }

    /** The rows of an expected query: with definitions exactly if there is a set and every set is
        non-nil and has them. */
    method WillReturnRows(sets: seq<Rows?>)
      requires forall i | 0 <= i < |sets| && sets[i] != null :: sets[i].Valid()
      modifies this`rows
      ensures rows != null && fresh(rows) && rows.Valid() && rows.Defined()
      ensures rows.sets == sets && rows.ex == this && rows.pos == 0
      ensures rows.withDefinition <==>
              sets != [] && forall i | 0 <= i < |sets| :: sets[i] != null && sets[i].def.Some?
    {
      var defs := 0;
      var copied: seq<Rows?> := [];
      for i := 0 to |sets|
        invariant copied == sets[..i] && defs <= i
        invariant defs == i <==> forall j | 0 <= j < i :: sets[j] != null && sets[j].def.Some?
      {
        copied := copied + [sets[i]];
        if sets[i] != null && sets[i].def.Some? {
          defs := defs + 1;
        }
      }
      rows := new RowSets(copied, this, defs > 0 && defs == |copied|);
    }

    method WillReturnResult(result: DriverResult)
      modifies this`result
      ensures this.result == Some(result)
    {
      this.result := Some(result);
    }

    method WillReturnCloseError(err: string)
      modifies this`closeErr
      ensures closeErr == Some(err)
    {
      closeErr := Some(err);
    }
  }

  /** io.EOF or the error registered for the row; nil is None. */
  datatype NextError = EndOfRows | RowError(msg: string)

  function ErrorOf<R>(line: D.Line<R, string>): Option<NextError> {
    match line
    case EOF => Some(EndOfRows)
    case Row(_, None) => None
    case Row(_, Some(msg)) => Some(RowError(msg))
  }

  class RowSets {
    const sets: seq<Rows?>
    const ex: Expectation
    const withDefinition: bool
    var pos: nat
    /** The buffers handed out by the last Next, and what they then held. */
    var raw: seq<array<Byte>>
    ghost var origin: seq<seq<Byte>>
    /** Every buffer handed out before that. */
    ghost var outdated: set<array<Byte>>

    constructor (sets: seq<Rows?>, ex: Expectation, withDefinition: bool)
      ensures this.sets == sets && this.ex == ex && this.withDefinition == withDefinition
      ensures pos == 0 && raw == [] && outdated == {} && Valid()
    {
      this.sets, this.ex, this.withDefinition := sets, ex, withDefinition;
      pos, raw, origin, outdated := 0, [], [], {};
    }

    /** The buffer is not one that a stored row refers to. */
    ghost predicate Apart(b: array<Byte>)
      reads sets`rows
    {
      forall s: Rows, k, i | s in sets && 0 <= k < |s.rows| && 0 <= i < |s.rows[k]| ::
        s.rows[k][i].Bytes? ==> s.rows[k][i].buf != b
    }

    ghost predicate Live()
      reads this`raw, this`origin, this`outdated, sets`rows, raw
    {
      && |origin| == |raw|
      && (forall i | 0 <= i < |raw| :: raw[i][..] == origin[i] && raw[i] !in outdated && Apart(raw[i]))
      && forall i, j | 0 <= i < j < |raw| :: raw[i] != raw[j]
    }

    ghost predicate Dead()
      reads this`outdated, sets`rows, outdated
    {
      forall b | b in outdated :: b[..] == Overwritten(b.Length) && Apart(b)
    }

    /** Current buffers still hold what was handed out, outdated ones the pattern, and neither is shared
        with each other or with the stored rows. */
    ghost predicate Valid()
      reads this, sets`rows, raw, outdated
    {
      Live() && Dead()
    }

    method InvalidateRaw()
      requires Valid()
      modifies this`raw, this`origin, this`outdated, raw
      ensures Valid() && raw == [] && outdated == old(outdated) + (set b | b in old(raw))
      ensures forall i, k | 0 <= i < |old(raw)| && 0 <= k < old(raw)[i].Length ::
                old(raw)[i][k] == INVALIDATE[k % |INVALIDATE|]
    {
      for i := 0 to |raw|
        invariant raw == old(raw) && outdated == old(outdated)
        invariant forall j | 0 <= j < i :: raw[j][..] == Overwritten(raw[j].Length)
        invariant Dead()
      {
        Overwrite(raw[i]);
      }
      outdated := outdated + (set b | b in raw);
      raw, origin := [], [];
    }

    // ----- the cursor as a value, for whole drains

    predicate NoNils() {
      sets != [] && forall i | 0 <= i < |sets| :: sets[i] != null
    }

    ghost function Ids(): seq<Rows>
      requires NoNils()
    {
      seq(|sets|, i requires 0 <= i < |sets| => var r: Rows := sets[i]; r)
    }

    ghost function View(): D.Cursor<Rows, seq<Cell>, string>
      requires NoNils()
      reads this`pos, sets`rows, sets`nextErr, sets`pos
    {
      D.Cursor(Ids(), map r: Rows | r in Ids() :: D.ResultSet(r.rows, r.nextErr, r.pos), pos)
    }

    ghost predicate AtSet(r: Rows)
      reads this`pos
    {
      pos < |sets| && sets[pos] == r
    }

    /** The stored rows and the bytes they refer to are as before. */
    twostate predicate StoredUntouched()
      reads *
    {
      && (forall s: Rows | s in sets :: s.rows == old(s.rows))
      && forall s: Rows, k, i | s in sets && 0 <= k < |s.rows| && 0 <= i < |s.rows[k]| ::
           s.rows[k][i].Bytes? ==> s.rows[k][i].buf[..] == old(s.rows[k][i].buf[..])
    }

    /** Remembers a buffer that goes out to the caller. */
    method Lend(b: array<Byte>)
      requires Valid() && Apart(b) && b !in raw && b !in outdated
      modifies this`raw, this`origin
      ensures Valid() && raw == old(raw) + [b]
    {
      raw, origin := raw + [b], origin + [b[..]];
    }

    /** The destination starts with the row: every cell as it is, but for a byte cell with at least one byte,
        which arrives in a fresh buffer that is out and holds the same bytes. Behind the row it is as
        before, and no other buffers are out. */
    twostate predicate Out(row: seq<Cell>, dest: array<Cell>)
      reads *
    {
      && |row| <= dest.Length
      && (forall i | 0 <= i < |row| ::
            if row[i].Bytes? && row[i].buf.Length > 0
            then dest[i].Bytes? && fresh(dest[i].buf) && dest[i].buf in raw && dest[i].buf[..] == row[i].buf[..]
            else dest[i] == row[i])
      && (forall i | |row| <= i < dest.Length :: dest[i] == old(dest[i]))
      && forall k | 0 <= k < |raw| :: IsOf(row, dest, |row|, raw[k])
    }

    /** The buffer was delivered for one of the first `n` cells. */
    ghost predicate IsOf(row: seq<Cell>, dest: array<Cell>, n: nat, b: array<Byte>)
      requires n <= |row| && n <= dest.Length
      reads dest
    {
      exists i | 0 <= i < n :: IsRaw(row[i]) && dest[i] == Bytes(b)
    }

    /** Copies one stored cell out, a byte cell through a fresh buffer. */
    method HandOutCell(cell: Cell, dest: array<Cell>, i: nat)
      requires Valid() && i < dest.Length
      modifies this`raw, this`origin, dest
      ensures Valid() && Delivered(cell, dest[i])
      ensures forall j | 0 <= j < dest.Length && j != i :: dest[j] == old(dest[j])
      ensures raw == if IsRaw(cell) then old(raw) + [dest[i].buf] else old(raw)
    {
      var b := RawBytes(cell);
      if b.Some? {
        Lend(b.value);
        dest[i] := Bytes(b.value);
      } else {
        dest[i] := cell;
      }
    }

    /** Copies a stored row out. */
    method HandOut(row: seq<Cell>, dest: array<Cell>)
      requires Valid() && raw == [] && |row| <= dest.Length
      modifies this`raw, this`origin, dest
      ensures Valid() && Out(row, dest) && forall i | 0 <= i < |raw| :: fresh(raw[i])
    {
      for i := 0 to |row|
        invariant Valid() && forall i | 0 <= i < |raw| :: fresh(raw[i])
        invariant forall j | 0 <= j < i :: Delivered(row[j], dest[j]) && (IsRaw(row[j]) ==> dest[j].buf in raw)
        invariant forall j | i <= j < dest.Length :: dest[j] == old(dest[j])
        invariant forall k | 0 <= k < |raw| :: IsOf(row, dest, i, raw[k])
      {
        ghost var was := raw;
        HandOutCell(row[i], dest, i);
        assert forall k | 0 <= k < |was| :: raw[k] == was[k];
      }
    }

    /** The position moves first, whatever there is to read. */
    method Advance(r: Rows)
      requires AtSet(r)
      modifies r`pos
      ensures r.pos == old(r.pos) + 1
      ensures NoNils() ==> View() == D.AfterNext(old(View()))
    {
      r.pos := r.pos + 1;
      if NoNils() {
        assert Ids()[pos] == r;
      }
    }

    /** What Next does once the position has moved. */
    method Deliver(r: Rows, dest: array<Cell>) returns (err: Option<NextError>)
      requires Valid() && r in sets && r.Valid() && r.pos > 0 && dest.Length >= |r.cols|
      modifies this`raw, this`origin, this`outdated, raw, dest
      ensures Valid() && outdated == old(outdated) + (set b | b in old(raw)) && StoredUntouched()
      ensures forall i | 0 <= i < |raw| :: fresh(raw[i])
      ensures err == ErrorOf(D.LineAt(D.ResultSet(r.rows, r.nextErr, r.pos), r.pos - 1))
      ensures r.pos > |r.rows| ==> raw == [] && dest[..] == old(dest[..])
      ensures r.pos <= |r.rows| ==> Out(r.rows[r.pos - 1], dest)
      ensures forall i, k | 0 <= i < |old(raw)| && 0 <= k < old(raw)[i].Length ::
                old(raw)[i][k] == INVALIDATE[k % |INVALIDATE|]
    {
      InvalidateRaw();
      if r.pos > |r.rows| {
        return Some(EndOfRows);
      }
      HandOut(r.rows[r.pos - 1], dest);
      err := if r.pos - 1 in r.nextErr then Some(RowError(r.nextErr[r.pos - 1])) else None;
    }

    /** Gives the current set's next row into `dest`, exactly one cell a column. Beyond the last row it
        is io.EOF and `dest` is left alone; either way the position moves and all earlier buffers are
        overwritten. */
    method Next(ghost r: Rows, dest: array<Cell>) returns (err: Option<NextError>)
      requires Valid() && AtSet(r) && r.Valid() && dest.Length >= |r.cols|
      modifies this`raw, this`origin, this`outdated, raw, dest, r`pos
      ensures Valid() && r.pos == old(r.pos) + 1
      ensures outdated == old(outdated) + (set b | b in old(raw)) && StoredUntouched()
      ensures forall i | 0 <= i < |raw| :: fresh(raw[i])
      ensures err == ErrorOf(D.LineAt(D.ResultSet(r.rows, r.nextErr, old(r.pos)), old(r.pos)))
      ensures NoNils() ==> View() == D.AfterNext(old(View()))
      ensures old(r.pos) >= |r.rows| ==> err == Some(EndOfRows) && raw == [] && dest[..] == old(dest[..])
      ensures old(r.pos) < |r.rows| ==>
                err == if old(r.pos) in r.nextErr then Some(RowError(r.nextErr[old(r.pos)])) else None
      ensures old(r.pos) < |r.rows| ==> |r.rows[old(r.pos)]| == |r.cols| && Out(r.rows[old(r.pos)], dest)
      ensures forall i, k | 0 <= i < |old(raw)| && 0 <= k < old(raw)[i].Length ::
                old(raw)[i][k] == INVALIDATE[k % |INVALIDATE|]
    {
      var cur := sets[pos];
      Advance(cur);
      err := Deliver(cur, dest);
    }

    predicate HasNextResultSet()
      reads this`pos
    {
      pos + 1 < |sets|
    }

    /** true for nil, false for io.EOF. */
    method NextResultSet() returns (ok: bool)
      requires Valid()
      modifies this`pos
      ensures Valid() && ok == old(HasNextResultSet())
      ensures pos == if ok then old(pos) + 1 else old(pos)
      ensures NoNils() ==> View() == D.AfterNextResultSet(old(View()))
    {
      if !HasNextResultSet() {
        return false;
      }
      pos := pos + 1;
      return true;
    }

    /** Overwrites what is still out, marks the query's rows as closed, returns the set's close error. */
    method Close(ghost r: Rows) returns (err: Option<string>)
      requires Valid() && AtSet(r)
      modifies this`raw, this`origin, this`outdated, raw, ex`wasClosed
      ensures Valid() && raw == [] && outdated == old(outdated) + (set b | b in old(raw))
      ensures ex.wasClosed && err == r.closeErr && StoredUntouched()
    {
      InvalidateRaw();
      ex.wasClosed := true;
      return sets[pos].closeErr;
    }

    /** No set holds a row. */
    method Empty() returns (empty: bool)
      requires forall i | 0 <= i < |sets| :: sets[i] != null
      ensures empty <==> forall i | 0 <= i < |sets| :: sets[i].rows == []
    {
      for i := 0 to |sets|
        invariant forall j | 0 <= j < i :: sets[j].rows == []
      {
        if |sets[i].rows| > 0 {
          return false;
        }
      }
      return true;
    }

    /** The definition-bearing form keeps its promise for every set. */
    ghost predicate Defined()
      reads sets`rows
    {
      withDefinition ==>
        sets != [] && forall i | 0 <= i < |sets| :: sets[i] != null && sets[i].Valid() && sets[i].def.Some?
    }

    /** In range for every column of the current set, and naming that column. */
    function GetDefinition(index: nat): (c: Column)
      requires withDefinition && Defined() && pos < |sets| && index < |sets[pos].cols|
      reads this`pos, sets`rows
      ensures c.name == sets[pos].cols[index]
    {
      sets[pos].def.value[index]
    }
  }
}
