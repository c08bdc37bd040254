/**
 Reading a cursor to its end through a caller's destination: what the caller sees, row by row and set
 by set, is what `Drain` says of the cursor as a value whose rows hold the stored bytes.
*/
module Draining {
  import opened Wrappers
  import opened Rows
  import opened Buffers
  import opened Expectations
  import D = Drain

  /** What a caller sees in a cell of its destination. */
  datatype Seen = SeenNull | SeenBytes(bytes: seq<Byte>) | SeenScalar(x: int)

  function Look(c: Cell): Seen
    reads if c.Bytes? then {c.buf} else {}
  {
    match c
    case Null => SeenNull
    case Bytes(buf) => SeenBytes(buf[..])
    case Scalar(x) => SeenScalar(x)
  }

  function LookAll(row: seq<Cell>): (seen: seq<Seen>)
    reads set i | 0 <= i < |row| && row[i].Bytes? :: row[i].buf
    ensures |seen| == |row| && forall i | 0 <= i < |row| :: seen[i] == Look(row[i])
  {
    if row == [] then [] else LookAll(row[..|row| - 1]) + [Look(row[|row| - 1])]
  }

  ghost function LookRows(rows: seq<seq<Cell>>): (seen: seq<seq<Seen>>)
    reads *
    ensures |seen| == |rows| && forall k | 0 <= k < |rows| :: seen[k] == LookAll(rows[k])
  {
    if rows == [] then [] else LookRows(rows[..|rows| - 1]) + [LookAll(rows[|rows| - 1])]
  }

  /** The set as a value, with the present bytes of its cells. */
  ghost function PictureOf(s: Rows): D.ResultSet<seq<Seen>, string>
    reads *
  {
    D.ResultSet(LookRows(s.rows), s.nextErr, s.pos)
  }

  /** The cursor as a value, with the present bytes of its stored cells. */
  ghost function Picture(rs: RowSets): D.Cursor<Rows, seq<Seen>, string>
    requires rs.NoNils()
    reads *
  {
    D.Cursor(rs.Ids(), map s: Rows | s in rs.Ids() :: PictureOf(s), rs.pos)
  }

  lemma RowLooksSame(row: seq<Cell>, dest: array<Cell>)
    requires |row| <= dest.Length && forall i | 0 <= i < |row| :: Look(dest[i]) == Look(row[i])
    ensures LookAll(dest[..|row|]) == LookAll(row)
  {
  }

  lemma NextLineIs(rs: RowSets, r: Rows)
    requires rs.NoNils() && rs.AtSet(r)
    ensures D.Valid(Picture(rs)) && D.NextLine(Picture(rs)) == D.LineAt(PictureOf(r), r.pos)
  {
    assert rs.Ids()[rs.pos] == r;
  }

  /** Stored rows still look the same. */
  twostate lemma StoredLooksSame(rs: RowSets)
    requires rs.StoredUntouched()
    ensures forall s: Rows | s in rs.sets :: LookRows(s.rows) == old(LookRows(s.rows))
  {
    forall s: Rows | s in rs.sets
      ensures LookRows(s.rows) == old(LookRows(s.rows))
    {
      forall k | 0 <= k < |s.rows|
        ensures LookAll(s.rows[k]) == old(LookAll(s.rows[k]))
      {
        assert forall i | 0 <= i < |s.rows[k]| :: Look(s.rows[k][i]) == old(Look(s.rows[k][i]));
      }
    }
  }

  /** With the stored rows untouched, the picture moves as the cursor does. */
  twostate lemma PictureMoves(rs: RowSets)
    requires rs.NoNils() && rs.pos == old(rs.pos) < |rs.sets|
    requires forall s: Rows | s in rs.sets :: LookRows(s.rows) == old(LookRows(s.rows))
    requires OnlyMoved(rs)
    ensures Picture(rs) == D.AfterNext(old(Picture(rs)))
  {
    var now, was := Picture(rs), old(Picture(rs));
    assert rs.Ids()[rs.pos] == rs.sets[rs.pos];
    forall s: Rows | s in rs.Ids()
      ensures now.sets[s] == D.MovedOn(was, s)
    {
      assert s in rs.sets;
    }
    D.AfterNextIs(was, now);
  }

  /** Of the sets, only the current one has moved. */
  twostate predicate OnlyMoved(rs: RowSets)
    requires rs.pos < |rs.sets|
    reads rs`pos, rs.sets`nextErr, rs.sets`pos
  {
    forall s: Rows | s in rs.sets ::
      s.nextErr == old(s.nextErr) && s.pos == if s == rs.sets[rs.pos] then old(s.pos) + 1 else old(s.pos)
  }

  twostate lemma ViewMoves(rs: RowSets)
    requires rs.NoNils() && rs.pos == old(rs.pos) < |rs.sets| && rs.View() == D.AfterNext(old(rs.View()))
    ensures OnlyMoved(rs)
  {
    var v, w := rs.View(), old(rs.View());
    forall s: Rows | s in rs.sets
      ensures s.nextErr == old(s.nextErr) && s.pos == if s == rs.sets[rs.pos] then old(s.pos) + 1 else old(s.pos)
    {
      var i :| 0 <= i < |rs.sets| && rs.sets[i] == s;
      assert rs.Ids()[i] == s && rs.Ids()[rs.pos] == rs.sets[rs.pos];
      assert v.sets[s] == D.ResultSet(s.rows, s.nextErr, s.pos);
    }
  }

  /** One Next, and a look at the destination. */
  method ReadCells(rs: RowSets, ghost r: Rows, dest: array<Cell>) returns (seen: D.Line<seq<Seen>, string>)
    requires rs.Valid() && rs.NoNils() && rs.AtSet(r) && r.Valid() && dest.Length >= |r.cols|
    modifies rs`raw, rs`origin, rs`outdated, rs.raw, dest, r`pos
    ensures rs.Valid() && rs.View() == D.AfterNext(old(rs.View())) && rs.StoredUntouched()
    ensures forall i | 0 <= i < |rs.raw| :: fresh(rs.raw[i])
    ensures seen == if old(r.pos) < |r.rows| then D.Row(LookAll(r.rows[old(r.pos)]), D.Lookup(r.nextErr, old(r.pos)))
                    else D.EOF
  {
    ghost var row := if r.pos < |r.rows| then r.rows[r.pos] else [];
    var err := rs.Next(r, dest);
    if err == Some(EndOfRows) {
      return D.EOF;
    }
    RowLooksSame(row, dest);
    return D.Row(LookAll(dest[..|rs.sets[rs.pos].cols|]), if err.Some? then Some(err.value.msg) else None);
  }

  /** The destination is wide enough for every set. */
  ghost predicate Fits(rs: RowSets, dest: array<Cell>)
    reads rs.sets`rows
  {
    forall s: Rows | s in rs.sets :: s.Valid() && |s.cols| <= dest.Length
  }

  /** The same, in terms of the picture. */
  method ReadLine(rs: RowSets, ghost r: Rows, dest: array<Cell>) returns (seen: D.Line<seq<Seen>, string>)
    requires rs.Valid() && rs.NoNils() && rs.AtSet(r) && Fits(rs, dest)
    modifies rs`raw, rs`origin, rs`outdated, rs.raw, dest, r`pos
    ensures rs.Valid() && Fits(rs, dest) && Picture(rs) == D.AfterNext(old(Picture(rs)))
    ensures forall i | 0 <= i < |rs.raw| :: fresh(rs.raw[i])
    ensures seen == D.NextLine(old(Picture(rs)))
  {
    NextLineIs(rs, r);
    assert r in rs.sets;
    seen := ReadCells(rs, r, dest);
    StoredLooksSame(rs);
    ViewMoves(rs);
    PictureMoves(rs);
  }

  /** One NextResultSet. */
  method NextSet(rs: RowSets, ghost dest: array<Cell>) returns (more: bool)
    requires rs.Valid() && rs.NoNils() && rs.pos < |rs.sets| && Fits(rs, dest)
    modifies rs`pos
    ensures rs.Valid() && rs.pos < |rs.sets| && Fits(rs, dest) && more == D.HasNextResultSet(old(Picture(rs)))
    ensures rs.pos == if more then old(rs.pos) + 1 else old(rs.pos)
    ensures Picture(rs) == D.AfterNextResultSet(old(Picture(rs)))
  {
    more := rs.NextResultSet();
    assert forall s: Rows | s in rs.Ids() :: PictureOf(s) == old(PictureOf(s));
  }

  lemma PictureIsValid(rs: RowSets)
    requires rs.NoNils() && rs.pos < |rs.sets|
    ensures D.Valid(Picture(rs))
  {
  }

  ghost function Measure(rs: RowSets): int
    requires rs.NoNils() && rs.pos < |rs.sets|
    reads *
  {
    PictureIsValid(rs);
    D.Unread(Picture(rs))
  }

  /** One turn of a drain: a line, or the move to the next set, or the end. */
  method Turn(rs: RowSets, dest: array<Cell>) returns (seen: D.Line<seq<Seen>, string>, more: bool)
    requires rs.Valid() && rs.NoNils() && rs.pos < |rs.sets| && Fits(rs, dest)
    modifies rs`pos, rs`raw, rs`origin, rs`outdated, rs.raw, dest, rs.sets`pos
    ensures rs.Valid() && rs.pos < |rs.sets| && Fits(rs, dest) && seen == D.NextLine(old(Picture(rs)))
    ensures forall i | 0 <= i < |rs.raw| :: fresh(rs.raw[i])
    ensures D.IsTurn(old(Picture(rs)), Picture(rs), more)
  {
    NextLineIs(rs, rs.sets[rs.pos]);
    seen := ReadLine(rs, rs.sets[rs.pos], dest);
    more := true;
    if seen.EOF? {
      more := NextSet(rs, dest);
    }
  }

  /** The same, in terms of the lines still to be read; unless it is the end, less is left. */
  method TurnReads(rs: RowSets, dest: array<Cell>) returns (seen: seq<D.Line<seq<Seen>, string>>, more: bool)
    requires rs.Valid() && rs.NoNils() && rs.pos < |rs.sets| && Fits(rs, dest)
    modifies rs`pos, rs`raw, rs`origin, rs`outdated, rs.raw, dest, rs.sets`pos
    ensures rs.Valid() && rs.pos < |rs.sets| && Fits(rs, dest)
    ensures forall i | 0 <= i < |rs.raw| :: fresh(rs.raw[i])
    ensures old(D.ReadAll(Picture(rs))) == seen + if more then D.ReadAll(Picture(rs)) else []
    ensures more ==> rs.pos > old(rs.pos) || (rs.pos == old(rs.pos) && 0 <= Measure(rs) + 1 <= old(Measure(rs)))
  {
    ghost var was := Picture(rs);
    PictureIsValid(rs);
    var line;
    line, more := Turn(rs, dest);
    seen := if line.Row? then [line] else [];
    PictureIsValid(rs);
    D.TurnTakesLine(was, Picture(rs), more);
  }

  /** Next until io.EOF, then NextResultSet, until there is none: the caller sees every line that the
      cursor has to give, with the bytes stored at the start. */
  method ReadToEnd(rs: RowSets, dest: array<Cell>) returns (seen: seq<D.Line<seq<Seen>, string>>)
    requires rs.Valid() && rs.NoNils() && rs.pos < |rs.sets| && Fits(rs, dest)
    modifies rs`pos, rs`raw, rs`origin, rs`outdated, rs.raw, dest, rs.sets`pos
    ensures rs.Valid() && seen == D.ReadAll(old(Picture(rs)))
    decreases |rs.sets| - rs.pos, Measure(rs) + 1
  {
    var more;
    seen, more := TurnReads(rs, dest);
    if more {
      var rest := ReadToEnd(rs, dest);
      seen := seen + rest;
    }
  }
}
