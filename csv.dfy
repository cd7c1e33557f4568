/**
  * The CSV text the admin console exports: each row's cells joined with
  * commas, the rows joined with line feeds. Cells are not quoted, so the
  * structure can be read back only when no cell holds a comma or a line feed.
  */
module Csv {
  import opened Text

  /** A cell that can be written without breaking the row or the document. */
  predicate PlainCell(cell: string)
  {
    ',' !in cell && '\n' !in cell
  }

  /** `row.join(",")`. */
  function Line(row: seq<string>): string
  {
    Join(row, ',')
  }

  /** `rows.map((row) => row.join(",")).join("\n")`. */
  function Document(rows: seq<seq<string>>): string
  {
    Join(seq(|rows|, i requires 0 <= i < |rows| => Line(rows[i])), '\n')
  }

  /** A character that is neither the separator nor in any part is not in their join. */
  lemma {:induction false} JoinExcludes(parts: seq<string>, sep: char, c: char)
    requires c != sep
    requires forall i :: 0 <= i < |parts| ==> c !in parts[i]
    ensures c !in Join(parts, sep)
    decreases |parts|
  {
    if |parts| > 1 {
      JoinExcludes(parts[1..], sep, c);
    }
  }

  /**
    * When every cell is plain and every row has a cell, splitting the
    * document at line feeds gives one line per row, and splitting a line at
    * commas gives that row's cells back.
    */
  lemma DocumentReadsBack(rows: seq<seq<string>>)
    requires |rows| >= 1
    requires forall i :: 0 <= i < |rows| ==> |rows[i]| >= 1
    requires forall i, j :: 0 <= i < |rows| && 0 <= j < |rows[i]| ==> PlainCell(rows[i][j])
    ensures |Split(Document(rows), '\n')| == |rows|
    ensures forall i :: 0 <= i < |rows| ==> Split(Split(Document(rows), '\n')[i], ',') == rows[i]
  {
    var lines := seq(|rows|, i requires 0 <= i < |rows| => Line(rows[i]));
    forall i | 0 <= i < |rows| ensures '\n' !in lines[i] && Split(lines[i], ',') == rows[i] {
      JoinExcludes(rows[i], ',', '\n');
      SplitJoin(rows[i], ',');
    }
    SplitJoin(lines, '\n');
  }
}
