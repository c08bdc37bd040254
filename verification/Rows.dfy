/** Building the rows a query returns (rows.go, rows_go18.go): every stored row keeps the width of the columns. */
module Rows {
  import opened Wrappers

  newtype Byte = x: int | 0 <= x < 256 witness 0

  /** A driver value in a row. A byte slice is a reference: two cells may share a buffer. */
  datatype Cell = Null | Bytes(buf: array<Byte>) | Scalar(x: int)

  type Converter = Cell -> Option<Cell>

  datatype Column = Column(name: string)

  /** The records, fields trimmed, that the CSV reader gives before EOF or, if broken, a parse error. */
  datatype Csv = Csv(records: seq<seq<string>>, broken: bool)

  /** What CSVColumnParser, a variable of the package, makes of a trimmed field. */
  datatype Parsed = NilValue | ByteValue(bytes: seq<Byte>) | OtherValue(x: int)

  class Rows {
    const cols: seq<string>
    /** None is Go's nil slice: rows made by NewRows carry no definitions. */
    const def: Option<seq<Column>>
    const convert: Converter
    var rows: seq<seq<Cell>>
    var pos: nat
    var nextErr: map<int, string>
    var closeErr: Option<string>

    /** Every stored row has one cell a column, and definitions name the columns. */
    ghost predicate Valid()
      reads this`rows
    {
      && (forall k | 0 <= k < |rows| :: |rows[k]| == |cols|)
      && (def.Some? ==> |def.value| == |cols| && forall i | 0 <= i < |cols| :: def.value[i].name == cols[i])
    }

    constructor NewRows(columns: seq<string>, convert: Converter)
      ensures Valid() && cols == columns && def.None? && this.convert == convert
      ensures rows == [] && pos == 0 && nextErr == map[] && closeErr == None
    {
      cols, def, this.convert := columns, None, convert;
      rows, pos, nextErr, closeErr := [], 0, map[], None;
    }

    /** The definitions as given, nil or not, and their names as columns. */
    constructor NewRowsWithColumnDefinition(columns: Option<seq<Column>>, convert: Converter)
      ensures Valid() && def == columns && this.convert == convert
      ensures |cols| == if columns.None? then 0 else |columns.value|
      ensures rows == [] && pos == 0 && nextErr == map[] && closeErr == None
    {
      var given := if columns.None? then [] else columns.value;
      var names: seq<string> := [];
      for i := 0 to |given|
        invariant |names| == i && forall j | 0 <= j < i :: names[j] == given[j].name
      {
        names := names + [given[i].name];
      }
      cols, def, this.convert := names, columns, convert;
      rows, pos, nextErr, closeErr := [], 0, map[], None;
    }

    method RowError(row: int, err: string)
      modifies this`nextErr
      ensures nextErr == old(nextErr)[row := err]
    {
      nextErr := nextErr[row := err];
    }

    method CloseError(err: string)
      modifies this`closeErr
      ensures closeErr == Some(err)
    {
      closeErr := Some(err);
    }

    /** Appends one converted row, or panics and stores nothing. */
    method AddRow(values: seq<Cell>) returns (ok: bool)
      requires Valid()
      modifies this`rows
      ensures Valid()
      ensures ok <==> |values| == |cols| && forall i | 0 <= i < |values| :: convert(values[i]).Some?
      ensures !ok ==> rows == old(rows)
      ensures ok ==> |rows| == |old(rows)| + 1 && rows[..|old(rows)|] == old(rows)
      ensures ok ==> forall i | 0 <= i < |values| :: convert(values[i]) == Some(rows[|old(rows)|][i])
    {
      if |values| != |cols| {
        return false;
      }
      var row: seq<Cell> := [];
      for i := 0 to |values|
        invariant |row| == i && forall j | 0 <= j < i :: convert(values[j]) == Some(row[j])
      {
        var v := convert(values[i]);
        if v.None? {
          return false;
        }
        row := row + [v.value];
      }
      rows := rows + [row];
      return true;
    }

    /** Appends the converted rows before the first one that panics. */
    method AddRows(values: seq<seq<Cell>>) returns (ok: bool)
      requires Valid()
      modifies this`rows
      ensures Valid() && old(rows) <= rows && |rows| - |old(rows)| <= |values|
      ensures forall k | 0 <= k < |rows| - |old(rows)| ::
                && |values[k]| == |cols|
                && forall i | 0 <= i < |cols| :: convert(values[k][i]) == Some(rows[|old(rows)| + k][i])
      ensures var n := |rows| - |old(rows)|;
              n < |values| ==> |values[n]| != |cols| || exists i | 0 <= i < |cols| :: convert(values[n][i]).None?
      ensures ok <==> |rows| - |old(rows)| == |values|
    {
      for n := 0 to |values|
        invariant Valid() && old(rows) <= rows && |rows| == |old(rows)| + n
        invariant forall k | 0 <= k < n ::
          && |values[k]| == |cols|
          && forall i | 0 <= i < |cols| :: convert(values[k][i]) == Some(rows[|old(rows)| + k][i])
      {
        var added := AddRow(values[n]);
        if !added {
          return false;
        }
      }
      return true;
    }

    /** The cell holds what the parser made of a field. */
    ghost predicate StoredAs(p: Parsed, c: Cell)
      reads if c.Bytes? then {c.buf} else {}
    {
      match p
      case NilValue => c == Null
      case ByteValue(bytes) => c.Bytes? && c.buf[..] == bytes
      case OtherValue(x) => c == Scalar(x)
    }

    /** Byte values get a buffer of their own. */
    method Store(p: Parsed) returns (c: Cell)
      ensures StoredAs(p, c) && (c.Bytes? ==> fresh(c.buf))
    {
      match p
      case NilValue => return Null;
      case OtherValue(x) => return Scalar(x);
      case ByteValue(bytes) =>
        var b := new Byte[|bytes|](i requires 0 <= i < |bytes| => bytes[i]);
        assert b[..] == bytes;
        return Bytes(b);
    }

    /** One record: a row of the columns' width, short records padded with nil; None if it is too wide. */
    method CSVRow(parse: string -> Parsed, record: seq<string>) returns (row: Option<seq<Cell>>)
      ensures row.Some? <==> |record| <= |cols|
      ensures row.Some? ==> RowOf(parse, record, row.value)
      ensures row.Some? ==> forall i | 0 <= i < |row.value| && row.value[i].Bytes? :: fresh(row.value[i].buf)
    {
      var cells: seq<Cell> := seq(|cols|, _ => Null);
      for i := 0 to |record|
        invariant i <= |cols| == |cells|
        invariant forall j | 0 <= j < i :: StoredAs(parse(record[j]), cells[j])
        invariant forall j | i <= j < |cols| :: cells[j] == Null
        invariant forall j | 0 <= j < i && cells[j].Bytes? :: fresh(cells[j].buf)
      {
        if i >= |cols| {
          return None;
        }
        var c := Store(parse(record[i]));
        cells := cells[i := c];
      }
      return Some(cells);
    }

    ghost predicate RowOf(parse: string -> Parsed, record: seq<string>, row: seq<Cell>)
      reads set i | 0 <= i < |row| && row[i].Bytes? :: row[i].buf
    {
      && |record| <= |row| == |cols|
      && (forall i | 0 <= i < |record| :: StoredAs(parse(record[i]), row[i]))
      && forall i | |record| <= i < |row| :: row[i] == Null
    }

    /** What that says of the cells. */
    lemma RowOfSays(parse: string -> Parsed, record: seq<string>, row: seq<Cell>, i: nat)
      requires RowOf(parse, record, row) && i < |cols|
      ensures |record| <= |row| == |cols|
      ensures i >= |record| ==> row[i] == Null
      ensures i < |record| ==>
                match parse(record[i])
                case NilValue => row[i] == Null
                case ByteValue(bytes) => row[i].Bytes? && row[i].buf[..] == bytes
                case OtherValue(x) => row[i] == Scalar(x)
    {
    }

    /** Appends a row a record until one is wider than the columns or the text does not parse. */
    method FromCSVString(parse: string -> Parsed, csv: Csv) returns (ok: bool)
      requires Valid()
      modifies this`rows
      ensures Valid() && old(rows) <= rows
      ensures var n := |rows| - |old(rows)|;
              && n <= |csv.records| && (forall k | 0 <= k < n :: RowOf(parse, csv.records[k], rows[|old(rows)| + k]))
              && (n < |csv.records| ==> |csv.records[n]| > |cols|)
              && (ok <==> n == |csv.records| && !csv.broken)
    {
      for k := 0 to |csv.records|
        invariant Valid() && old(rows) <= rows && |rows| == |old(rows)| + k
        invariant forall j | 0 <= j < k :: RowOf(parse, csv.records[j], rows[|old(rows)| + j])
      {
        var row := CSVRow(parse, csv.records[k]);
        if row.None? {
          return false;
        }
        rows := rows + [row.value];
      }
      return !csv.broken;
    }
  }
}
