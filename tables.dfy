/** The lost-leads DataFrame: named columns in order, and one record per row. The main flow
    adds and overwrites whole columns in place. */
module Tables {
  import opened PyFloat

  /** A cell: text as read from the CSV (every cell is read as a string, blanks as "N/A"),
      a converted amount, or an integer score. */
  datatype Cell = Text(text: string) | Amount(money: Money) | Whole(number: int)

  /** One row, keyed by column name (`to_dict('records')`). */
  type Row = map<string, Cell>

  /** A table's contents: its column names in order and its rows in order. */
  datatype Frame = Frame(columns: seq<string>, rows: seq<Row>)

  /** The names appear only once. */
  predicate Distinct(names: seq<string>) {
    forall i, j :: 0 <= i < j < |names| ==> names[i] != names[j]
  }

  /** Every row has a cell for exactly the table's columns. */
  ghost predicate Shaped(columns: seq<string>, rows: seq<Row>) {
    forall r :: r in rows ==> forall c :: c in r <==> c in columns
  }

  ghost predicate WellFormed(f: Frame) {
    Distinct(f.columns) && Shaped(f.columns, f.rows)
  }

  /** The rows with column `name` set, row by row, to `cells`. */
  function WithColumn(rows: seq<Row>, name: string, cells: seq<Cell>): (out: seq<Row>)
    requires |cells| == |rows|
    ensures |out| == |rows|
    ensures forall i :: 0 <= i < |rows| ==> out[i] == rows[i][name := cells[i]]
  {
    if |rows| == 0 then [] else [rows[0][name := cells[0]]] + WithColumn(rows[1..], name, cells[1..])
  }

  /** `df[name] = cells`: the column is overwritten when it exists and appended otherwise. */
  function Assign(f: Frame, name: string, cells: seq<Cell>): (g: Frame)
    requires |cells| == |f.rows|
    ensures |g.rows| == |f.rows|
    ensures forall c :: c in g.columns <==> c in f.columns || c == name
  {
    Frame(if name in f.columns then f.columns else f.columns + [name], WithColumn(f.rows, name, cells))
  }

  /** `n` copies of one cell: a scalar broadcast to a whole column. */
  function Constant(n: nat, c: Cell): (cells: seq<Cell>)
    ensures |cells| == n && forall i :: 0 <= i < n ==> cells[i] == c
  {
    if n == 0 then [] else [c] + Constant(n - 1, c)
  }

  /** The cells of one column, top to bottom (`df[name]`). */
  function ColumnOf(rows: seq<Row>, name: string): (cells: seq<Cell>)
    requires forall r :: r in rows ==> name in r
    ensures |cells| == |rows| && forall i :: 0 <= i < |rows| ==> cells[i] == rows[i][name]
  {
    if |rows| == 0 then [] else [rows[0][name]] + ColumnOf(rows[1..], name)
  }

  /** Assigning a column keeps the table well formed: the name is listed once, and every row
      gains (or keeps) exactly that key. */
  lemma AssignWellFormed(f: Frame, name: string, cells: seq<Cell>)
    requires WellFormed(f) && |cells| == |f.rows|
    ensures WellFormed(Assign(f, name, cells))
    ensures |Assign(f, name, cells).rows| == |f.rows|
    ensures name in Assign(f, name, cells).columns
    ensures forall c :: c in f.columns ==> c in Assign(f, name, cells).columns
  {
    var g := Assign(f, name, cells);
    forall r | r in g.rows
      ensures forall c :: c in r <==> c in g.columns
    {
      var i :| 0 <= i < |g.rows| && g.rows[i] == r;
      assert f.rows[i] in f.rows;
    }
  }

  /** After assigning a column, reading it back gives the cells that were written. */
  lemma AssignRead(f: Frame, name: string, cells: seq<Cell>)
    requires |cells| == |f.rows|
    ensures forall r :: r in Assign(f, name, cells).rows ==> name in r
    ensures ColumnOf(Assign(f, name, cells).rows, name) == cells
  {
    var out := Assign(f, name, cells).rows;
    forall r | r in out ensures name in r {
      var i :| 0 <= i < |out| && out[i] == r;
    }
  }

  /** Assigning a column changes no other cell. */
  lemma AssignOthers(f: Frame, name: string, cells: seq<Cell>, other: string, i: int)
    requires |cells| == |f.rows| && other != name && 0 <= i < |f.rows|
    ensures other in Assign(f, name, cells).rows[i] <==> other in f.rows[i]
    ensures other in f.rows[i] ==> Assign(f, name, cells).rows[i][other] == f.rows[i][other]
  {
  }

  /** A table whose contents the main flow updates one column at a time. */
  class LeadTable {
    var columns: seq<string>
    var rows: seq<Row>

    function Contents(): Frame
      reads this
    {
      Frame(columns, rows)
    }

    ghost predicate Valid()
      reads this
    {
      WellFormed(Contents())
    }

    constructor (f: Frame)
      requires WellFormed(f)
      ensures Valid() && Contents() == f
    {
      columns := f.columns;
      rows := f.rows;
    }

    /** `df[name] = cells`: overwrites the column when it exists, otherwise appends it after
        the others; no row is added or removed. */
    method SetColumn(name: string, cells: seq<Cell>)
      modifies this
      requires Valid() && |cells| == |rows|
      ensures Valid()
      ensures Contents() == Assign(old(Contents()), name, cells)
    {
      AssignWellFormed(Contents(), name, cells);
      if name !in columns {
        columns := columns + [name];
      }
      rows := WithColumn(rows, name, cells);
    }

    /** `df[name] = value` for a scalar: every row gets the same cell. */
    method SetConstant(name: string, c: Cell)
      modifies this
      requires Valid()
      ensures Valid()
      ensures Contents() == Assign(old(Contents()), name, Constant(|old(rows)|, c))
    {
      SetColumn(name, Constant(|rows|, c));
    }
  }
}
