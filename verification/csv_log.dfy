/**
 This module models the append-only log file the recorder writes
 (tagger.py, `save_coordinates`): each save appends one row, and the
 header line goes out only when the file does not yet exist. The log is
 kept abstract: a line is either the header or one data row; how pandas
 renders a row as comma-separated text is not modelled.
 */
module CsvLog {
  import opened Optional

  /** One line of the log file. */
  datatype Line<R> = Header | Row(value: R)

  /** The log file on disk: `None` when no such file exists, else its lines. */
  type File<R> = Option<seq<Line<R>>>

  /** The data rows of `lines`, in file order. */
  function Rows<R>(lines: seq<Line<R>>): seq<R>
  {
    if lines == [] then []
    else match lines[0]
      case Header => Rows(lines[1..])
      case Row(v) => [v] + Rows(lines[1..])
  }

  /** How many header lines `lines` holds. */
  function HeaderCount<R>(lines: seq<Line<R>>): nat
  {
    if lines == [] then 0
    else (if lines[0].Header? then 1 else 0) + HeaderCount(lines[1..])
  }

  /** The data rows in the file; an absent file has none. */
  function Records<R>(f: File<R>): seq<R> {
    match f
    case None => []
    case Some(lines) => Rows(lines)
  }

  /** The header lines in the file; an absent file has none. */
  function Headers<R>(f: File<R>): nat {
    match f
    case None => 0
    case Some(lines) => HeaderCount(lines)
  }

  /** Both views distribute over concatenation of lines. */
  lemma {:induction false} RowsConcat<R>(a: seq<Line<R>>, b: seq<Line<R>>)
    ensures Rows(a + b) == Rows(a) + Rows(b)
    ensures HeaderCount(a + b) == HeaderCount(a) + HeaderCount(b)
  {
    if a == [] {
      assert a + b == b;
    } else {
      assert (a + b)[1..] == a[1..] + b;
      RowsConcat(a[1..], b);
    }
  }

  /**
   Appending one row in append mode: the file is created with a header when
   it does not exist, and otherwise extended by the row alone.
   */
  function Append<R>(f: File<R>, row: R): (g: File<R>)
    ensures g.Some?
    ensures Records(g) == Records(f) + [row]
    ensures Headers(g) == Headers(f) + (if f.None? then 1 else 0)
    ensures f.Some? ==> f.value < g.value
    ensures f.None? ==> g.value[0] == Header
  {
    match f
    case None =>
      RowsConcat([Header], [Row(row)]);
      Some([Header, Row(row)])
    case Some(lines) =>
      RowsConcat(lines, [Row(row)]);
      Some(lines + [Row(row)])
  }

  /** A log this program created: one header, first, followed by data rows only. */
  predicate WellFormed<R>(f: File<R>) {
    f.Some? ==> |f.value| > 0 && f.value[0] == Header && HeaderCount(f.value) == 1
  }

  /** Appending keeps a created log well formed, and creates a well-formed one. */
  lemma AppendWellFormed<R>(f: File<R>, row: R)
    requires WellFormed(f)
    ensures WellFormed(Append(f, row))
  {
  }
}
