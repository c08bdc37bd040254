/**
 Reading a multi-result-set cursor to its end (rows.go, rows_go18.go), on values: result sets are
 identified by `I` because the cursor advances positions inside the sets themselves, so that a set
 listed twice is one set.
*/
module Drain {
  import opened Wrappers

  /** One result set: its rows, the errors registered for row numbers, and its read position. */
  datatype ResultSet<R, E> = ResultSet(rows: seq<R>, nextErr: map<int, E>, pos: nat)

  datatype Cursor<!I, R, E> = Cursor(ids: seq<I>, sets: map<I, ResultSet<R, E>>, cur: nat)

  /** What one call of Next gives: io.EOF, or a row with the error registered for it. */
  datatype Line<R, E> = EOF | Row(row: R, err: Option<E>)

  ghost predicate Valid<I, R, E>(c: Cursor<I, R, E>) {
    c.cur < |c.ids| && forall i | 0 <= i < |c.ids| :: c.ids[i] in c.sets
  }

  function Lookup<E>(m: map<int, E>, k: int): Option<E> {
    if k in m then Some(m[k]) else None
  }

  function LineAt<R, E>(s: ResultSet<R, E>, k: nat): Line<R, E> {
    if k < |s.rows| then Row(s.rows[k], Lookup(s.nextErr, k)) else EOF
  }

  /** The position moves on even at the end of the set. */
  ghost function NextLine<I, R, E>(c: Cursor<I, R, E>): Line<R, E>
    requires Valid(c)
  {
    var s := c.sets[c.ids[c.cur]];
    LineAt(s, s.pos)
  }

  ghost function AfterNext<I, R, E>(c: Cursor<I, R, E>): (n: Cursor<I, R, E>)
    requires Valid(c)
    ensures Valid(n)
  {
    var id := c.ids[c.cur];
    c.(sets := c.sets[id := c.sets[id].(pos := c.sets[id].pos + 1)])
  }

  /** A set of the cursor after one Next. */
  ghost function MovedOn<I, R, E>(c: Cursor<I, R, E>, id: I): ResultSet<R, E>
    requires Valid(c) && id in c.sets
  {
    if id == c.ids[c.cur] then c.sets[id].(pos := c.sets[id].pos + 1) else c.sets[id]
  }

  lemma AfterNextIs<I, R, E>(c: Cursor<I, R, E>, n: Cursor<I, R, E>)
    requires Valid(c) && n.ids == c.ids && n.cur == c.cur && n.sets.Keys == c.sets.Keys
    requires forall id | id in c.sets :: n.sets[id] == MovedOn(c, id)
    ensures n == AfterNext(c)
  {
    assert n.sets == AfterNext(c).sets;
  }

  ghost predicate HasNextResultSet<I, R, E>(c: Cursor<I, R, E>) {
    c.cur + 1 < |c.ids|
  }

  ghost function AfterNextResultSet<I, R, E>(c: Cursor<I, R, E>): Cursor<I, R, E> {
    if HasNextResultSet(c) then c.(cur := c.cur + 1) else c
  }

  ghost function AfterNexts<I, R, E>(c: Cursor<I, R, E>, k: nat): (n: Cursor<I, R, E>)
    requires Valid(c)
    ensures Valid(n)
    decreases k
  {
    if k == 0 then c else AfterNexts(AfterNext(c), k - 1)
  }

  /** The k-th Next on an unread set returns row k-1 with the error registered for k-1, and EOF for
      every k beyond the row count. */
  lemma {:induction false} NthNext<I, R, E>(c: Cursor<I, R, E>, k: nat)
    requires Valid(c)
    ensures var s := c.sets[c.ids[c.cur]]; NextLine(AfterNexts(c, k)) == LineAt(s, s.pos + k)
    decreases k
  {
    if k > 0 {
      NthNext(AfterNext(c), k - 1);
    }
  }

  /** Rows still to come from the current set, negative once Next has gone past its end. */
  ghost function Unread<I, R, E>(c: Cursor<I, R, E>): int
    requires Valid(c)
  {
    var s := c.sets[c.ids[c.cur]];
    |s.rows| - s.pos
  }

  /** Call Next until EOF, then NextResultSet, until there is none: the lines read. */
  ghost function ReadAll<I, R, E>(c: Cursor<I, R, E>): seq<Line<R, E>>
    requires Valid(c)
    decreases |c.ids| - c.cur, Unread(c)
  {
    if NextLine(c) != EOF then [NextLine(c)] + ReadAll(AfterNext(c))
    else if HasNextResultSet(AfterNext(c)) then ReadAll(AfterNextResultSet(AfterNext(c)))
    else []
  }

  /** The cursor after one turn of that loop: after a line, or after the move to the next set if there is one. */
  ghost predicate IsTurn<I, R, E>(c: Cursor<I, R, E>, n: Cursor<I, R, E>, more: bool)
    requires Valid(c)
  {
    if NextLine(c) != EOF then more && n == AfterNext(c)
    else more == HasNextResultSet(AfterNext(c)) && n == AfterNextResultSet(AfterNext(c))
  }

  /** A turn takes its line from what is still to be read, and brings the end nearer. */
  lemma TurnTakesLine<I, R, E>(c: Cursor<I, R, E>, n: Cursor<I, R, E>, more: bool)
    requires Valid(c) && Valid(n) && IsTurn(c, n, more)
    ensures ReadAll(c) == (if NextLine(c) != EOF then [NextLine(c)] else []) + if more then ReadAll(n) else []
    ensures more ==> n.cur > c.cur || (n.cur == c.cur && 0 <= Unread(n) + 1 <= Unread(c))
  {
  }

  ghost function LinesFrom<R, E>(s: ResultSet<R, E>, k: nat): seq<Line<R, E>>
    decreases |s.rows| - k
  {
    if k < |s.rows| then [LineAt(s, k)] + LinesFrom(s, k + 1) else []
  }

  /** All lines of the sets from index `i` on, concatenated. */
  ghost function AllLines<I, R, E>(c: Cursor<I, R, E>, i: nat): seq<Line<R, E>>
    requires Valid(c) && i <= |c.ids|
    decreases |c.ids| - i
  {
    if i == |c.ids| then [] else LinesFrom(c.sets[c.ids[i]], 0) + AllLines(c, i + 1)
  }

  /** The same without the sets that occurred before. */
  ghost function FirstVisits<I, R, E>(c: Cursor<I, R, E>, i: nat): seq<Line<R, E>>
    requires Valid(c) && i <= |c.ids|
    decreases |c.ids| - i
  {
    if i == |c.ids| then []
    else (if c.ids[i] in c.ids[..i] then [] else LinesFrom(c.sets[c.ids[i]], 0)) + FirstVisits(c, i + 1)
  }

  /** The cursor is at the first set, and nothing has been read from any set. */
  ghost predicate Untouched<I, R, E>(c: Cursor<I, R, E>) {
    Valid(c) && c.cur == 0 && forall i | 0 <= i < |c.ids| :: c.sets[c.ids[i]].pos == 0
  }

  /** The cursor once Next has returned EOF for the current set. */
  ghost function Exhausted<I, R, E>(c: Cursor<I, R, E>): (n: Cursor<I, R, E>)
    requires Valid(c)
    ensures Valid(n) && n.ids == c.ids && n.cur == c.cur
    decreases Unread(c)
  {
    if NextLine(c) != EOF then Exhausted(AfterNext(c)) else AfterNext(c)
  }

  /** Only the position of the current set moves, past its end. */
  lemma {:induction false} ExhaustedIs<I, R, E>(c: Cursor<I, R, E>)
    requires Valid(c)
    ensures var id := c.ids[c.cur]; var n := Exhausted(c);
            && n.sets[id].pos > |n.sets[id].rows|
            && n == c.(sets := c.sets[id := c.sets[id].(pos := n.sets[id].pos)])
    decreases Unread(c)
  {
    if NextLine(c) != EOF {
      ExhaustedIs(AfterNext(c));
    }
  }

  /** What is still to be read: the rest of the current set, then the sets behind it. */
  lemma {:induction false} ReadOneSet<I, R, E>(c: Cursor<I, R, E>)
    requires Valid(c)
    ensures var s := c.sets[c.ids[c.cur]];
            ReadAll(c) == LinesFrom(s, s.pos)
                          + if HasNextResultSet(c) then ReadAll(AfterNextResultSet(Exhausted(c))) else []
    decreases Unread(c)
  {
    var s := c.sets[c.ids[c.cur]];
    if s.pos < |s.rows| {
      var d := AfterNext(c);
      ReadOneSet(d);
      SameLines(s, d.sets[c.ids[c.cur]], s.pos + 1);
      var rest := if HasNextResultSet(c) then ReadAll(AfterNextResultSet(Exhausted(d))) else [];
      assert Exhausted(c) == Exhausted(d) && ReadAll(c) == [NextLine(c)] + ReadAll(d);
      assert ReadAll(d) == LinesFrom(s, s.pos + 1) + rest;
    }
  }

  lemma {:induction false} SameLines<R, E>(s: ResultSet<R, E>, t: ResultSet<R, E>, k: nat)
    requires s.rows == t.rows && s.nextErr == t.nextErr
    ensures LinesFrom(s, k) == LinesFrom(t, k)
    decreases |s.rows| - k
  {
    if k < |s.rows| {
      SameLines(s, t, k + 1);
    }
  }

  /** The set is as in `o`, exhausted if it occurs before the current index, else unread. */
  ghost predicate SetUnderway<I, R, E>(o: Cursor<I, R, E>, c: Cursor<I, R, E>, id: I)
    requires c.cur <= |c.ids|
  {
    && id in o.sets && id in c.sets
    && c.sets[id].rows == o.sets[id].rows && c.sets[id].nextErr == o.sets[id].nextErr
    && if id in c.ids[..c.cur] then c.sets[id].pos > |c.sets[id].rows| else c.sets[id].pos == 0
  }

  ghost predicate Underway<I, R, E>(o: Cursor<I, R, E>, c: Cursor<I, R, E>) {
    Valid(o) && Valid(c) && c.ids == o.ids && forall i | 0 <= i < |c.ids| :: SetUnderway(o, c, c.ids[i])
  }

  lemma OneFurther<I>(ids: seq<I>, k: nat, id: I)
    requires k < |ids|
    ensures id in ids[..k + 1] <==> id in ids[..k] || id == ids[k]
  {
    assert ids[..k + 1] == ids[..k] + [ids[k]];
  }

  /** Exhausting the current set and moving on, for one set. */
  lemma AdvanceSet<I, R, E>(o: Cursor<I, R, E>, c: Cursor<I, R, E>, n: Cursor<I, R, E>, id: I)
    requires c.cur < |c.ids| && n.ids == c.ids && n.cur == c.cur + 1 && SetUnderway(o, c, id)
    requires c.ids[c.cur] in n.sets && c.ids[c.cur] in c.sets
    requires n.sets[c.ids[c.cur]].pos > |n.sets[c.ids[c.cur]].rows|
    requires n.sets == c.sets[c.ids[c.cur] := c.sets[c.ids[c.cur]].(pos := n.sets[c.ids[c.cur]].pos)]
    ensures SetUnderway(o, n, id)
  {
    OneFurther(c.ids, c.cur, id);
  }

  lemma AdvanceIsUnderway<I, R, E>(o: Cursor<I, R, E>, c: Cursor<I, R, E>)
    requires Underway(o, c) && HasNextResultSet(c)
    ensures Underway(o, AfterNextResultSet(Exhausted(c)))
  {
    ExhaustedIs(c);
    var n := AfterNextResultSet(Exhausted(c));
    forall i | 0 <= i < |n.ids|
      ensures SetUnderway(o, n, n.ids[i])
    {
      AdvanceSet(o, c, n, c.ids[i]);
    }
  }

  lemma CurrentLines<I, R, E>(o: Cursor<I, R, E>, c: Cursor<I, R, E>, id: I)
    requires c.cur <= |c.ids| && SetUnderway(o, c, id)
    ensures LinesFrom(c.sets[id], c.sets[id].pos) ==
            if id in c.ids[..c.cur] then [] else LinesFrom(o.sets[id], 0)
  {
    SameLines(c.sets[id], o.sets[id], 0);
  }

  lemma {:induction false} ReadsFirstVisits<I, R, E>(o: Cursor<I, R, E>, c: Cursor<I, R, E>)
    requires Underway(o, c)
    ensures ReadAll(c) == FirstVisits(o, c.cur)
    decreases |c.ids| - c.cur
  {
    var id := c.ids[c.cur];
    var rest := if HasNextResultSet(c) then ReadAll(AfterNextResultSet(Exhausted(c))) else [];
    assert ReadAll(c) == LinesFrom(c.sets[id], c.sets[id].pos) + rest by {
      ReadOneSet(c);
    }
    assert SetUnderway(o, c, id);
    CurrentLines(o, c, id);
    assert rest == FirstVisits(o, c.cur + 1) by {
      if HasNextResultSet(c) {
        AdvanceIsUnderway(o, c);
        ReadsFirstVisits(o, AfterNextResultSet(Exhausted(c)));
      }
    }
  }

  /** Draining unread sets reads each set once, where it first occurs, its rows in order. */
  lemma DrainReadsFirstVisits<I, R, E>(c: Cursor<I, R, E>)
    requires Untouched(c)
    ensures ReadAll(c) == FirstVisits(c, 0)
  {
    ReadsFirstVisits(c, c);
  }

  ghost predicate RepeatsAreEmpty<I, R, E>(c: Cursor<I, R, E>, i: nat)
    requires Valid(c)
  {
    forall j | i <= j < |c.ids| && c.ids[j] in c.ids[..j] :: c.sets[c.ids[j]].rows == []
  }

  lemma {:induction false} FirstVisitsLength<I, R, E>(c: Cursor<I, R, E>, i: nat)
    requires Valid(c) && i <= |c.ids|
    ensures |FirstVisits(c, i)| <= |AllLines(c, i)|
    ensures |FirstVisits(c, i)| == |AllLines(c, i)| <==> RepeatsAreEmpty(c, i)
    ensures RepeatsAreEmpty(c, i) ==> FirstVisits(c, i) == AllLines(c, i)
    decreases |c.ids| - i
  {
    if i < |c.ids| {
      FirstVisitsLength(c, i + 1);
      var s := c.sets[c.ids[i]];
      assert s.rows == [] <==> LinesFrom(s, 0) == [];
      assert RepeatsAreEmpty(c, i) <==>
             RepeatsAreEmpty(c, i + 1) && (c.ids[i] in c.ids[..i] ==> s.rows == []);
    }
  }

  /** The drain yields exactly all sets' rows, in order, unless a set with rows is listed twice. */
  lemma DrainIsConcatenationIff<I, R, E>(c: Cursor<I, R, E>)
    requires Untouched(c)
    ensures ReadAll(c) == AllLines(c, 0) <==> RepeatsAreEmpty(c, 0)
  {
    DrainReadsFirstVisits(c);
    FirstVisitsLength(c, 0);
  }

  /** A set with one row that is listed twice is read once, although the concatenation has its row twice. */
  lemma RepeatedSetIsReadOnce<I, R, E>(c: Cursor<I, R, E>, id: I, row: R)
    requires c.ids == [id, id] && c.cur == 0 && id in c.sets && c.sets[id] == ResultSet([row], map[], 0)
    ensures Untouched(c) && ReadAll(c) == [Row(row, None)] && AllLines(c, 0) == [Row(row, None), Row(row, None)]
  {
    var line := Row(row, None);
    assert LinesFrom(c.sets[id], 1) == [] && LinesFrom(c.sets[id], 0) == [line];
    DrainReadsFirstVisits(c);
    assert c.ids[..1] == [id] && c.ids[..0] == [];
    assert FirstVisits(c, 2) == [] && FirstVisits(c, 1) == [] && FirstVisits(c, 0) == [line];
    assert AllLines(c, 2) == [] && AllLines(c, 1) == [line] && AllLines(c, 0) == [line] + [line];
  }

  /** An error registered for a row number shows in a set's lines exactly when that row exists (and
      the error is new): past the end it is never seen. */
  lemma RowErrorShowsIff<R, E>(s: ResultSet<R, E>, k: int, e: E)
    ensures LinesFrom(s.(nextErr := s.nextErr[k := e]), 0) != LinesFrom(s, 0) <==>
            0 <= k < |s.rows| && Lookup(s.nextErr, k) != Some(e)
  {
    var t := s.(nextErr := s.nextErr[k := e]);
    if 0 <= k < |s.rows| && Lookup(s.nextErr, k) != Some(e) {
      LinesAt(s, 0, k);
      LinesAt(t, 0, k);
    } else {
      LinesCount(s, 0);
      LinesCount(t, 0);
      forall j | 0 <= j < |s.rows|
        ensures LinesFrom(s, 0)[j] == LinesFrom(t, 0)[j]
      {
        LinesAt(s, 0, j);
        LinesAt(t, 0, j);
      }
    }
  }

  lemma {:induction false} LinesCount<R, E>(s: ResultSet<R, E>, k: nat)
    requires k <= |s.rows|
    ensures |LinesFrom(s, k)| == |s.rows| - k
    decreases |s.rows| - k
  {
    if k < |s.rows| {
      LinesCount(s, k + 1);
    }
  }

  lemma {:induction false} LinesAt<R, E>(s: ResultSet<R, E>, k: nat, j: nat)
    requires k <= j < |s.rows|
    ensures |LinesFrom(s, k)| == |s.rows| - k && LinesFrom(s, k)[j - k] == LineAt(s, j)
    decreases |s.rows| - k
  {
    LinesCount(s, k);
    if k < j {
      LinesAt(s, k + 1, j);
    }
  }
}
