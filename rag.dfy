/** The knowledge base of `app/services/rag.py`: the loaded listing table,
    replaced only when a new upload parses, and the text context a question
    retrieves from it — the matching rows as `column: value` lines, with a
    blank line between rows. */
module Rag {
  import opened Seqs
  import opened Strings
  import opened Tables
  import opened QueryParser

  /** What `pd.read_csv` made of an uploaded file: a table, or the exception
      it raised (which `ingest_and_index_doc` catches). A parsed table is
      well-formed (`ParsedWellFormed`). */
  datatype CsvOutcome = Parsed(table: Table) | ParseFailed(message: string)

  predicate ParsedWellFormed(upload: CsvOutcome) {
    upload.Parsed? ==> WellFormed(upload.table)
  }

  const NoDataLoaded := "No data loaded yet."

  // ---------------------------------------------------------------------
  // Rendering: "\n\n".join of each row's "\n".join(f"{k}: {v}")
  // ---------------------------------------------------------------------

  /** One `f"{k}: {v}"` line, the value as `astype(str)` prints it. */
  function RenderLine(row: Row, column: string): string {
    column + ": " + CellStr(Get(row, column))
  }

  /** The lines of one row, one per column, in column order. */
  function Lines(columns: seq<string>, row: Row): (r: seq<string>)
    ensures |r| == |columns|
    ensures forall i :: 0 <= i < |columns| ==> r[i] == RenderLine(row, columns[i])
  {
    seq(|columns|, i requires 0 <= i < |columns| => RenderLine(row, columns[i]))
  }

  function RenderRow(columns: seq<string>, row: Row): string {
    JoinWith(Lines(columns, row), "\n")
  }

  function RowBlocks(columns: seq<string>, rows: seq<Row>): (r: seq<string>)
    ensures |r| == |rows|
    ensures forall i :: 0 <= i < |rows| ==> r[i] == RenderRow(columns, rows[i])
  {
    seq(|rows|, i requires 0 <= i < |rows| => RenderRow(columns, rows[i]))
  }

  /** The retrieved context for the matching rows: nothing for no rows, a
      single row's block alone, and in general the blocks with an empty line
      between them (`RenderedLines`). */
  function RenderRows(columns: seq<string>, rows: seq<Row>): (r: string)
    ensures rows == [] ==> r == ""
    ensures |rows| == 1 ==> r == RenderRow(columns, rows[0])
  {
    JoinWith(RowBlocks(columns, rows), "\n\n")
  }

  function RowLines(columns: seq<string>, rows: seq<Row>): (r: seq<seq<string>>)
    ensures |r| == |rows|
    ensures forall i :: 0 <= i < |rows| ==> r[i] == Lines(columns, rows[i])
  {
    seq(|rows|, i requires 0 <= i < |rows| => Lines(columns, rows[i]))
  }

  /** No column name and no cell of the rows holds a line break. */
  ghost predicate SingleLine(columns: seq<string>, rows: seq<Row>) {
    && (forall k :: 0 <= k < |columns| ==> '\n' !in columns[k])
    && (forall i, k :: 0 <= i < |rows| && 0 <= k < |columns| ==> '\n' !in CellStr(Get(rows[i], columns[k])))
  }

  /** Cut at line breaks, the context is each row's lines in order, with one
      empty line between consecutive rows: one block per row, in result order. */
  lemma RenderedLines(columns: seq<string>, rows: seq<Row>)
    requires |columns| > 0 && |rows| > 0
    requires SingleLine(columns, rows)
    ensures SplitOn(RenderRows(columns, rows), '\n') == JoinWith(RowLines(columns, rows), [""])
  {
    var parts := RowLines(columns, rows);
    BlocksAreJoinedLines(columns, rows);
    var all := JoinWith(parts, [""]);
    forall k | 0 <= k < |all| ensures '\n' !in all[k] {
      JoinWithMembers(parts, [""], all[k]);
      if all[k] != "" {
        var i :| 0 <= i < |parts| && all[k] in parts[i];
        var j :| 0 <= j < |parts[i]| && parts[i][j] == all[k];
        LineHasNoBreak(rows[i], columns[j]);
      }
    }
    assert all != [] by {
      JoinWithFirst(parts, [""]);
    }
    SplitJoinRoundTrip(all, '\n');
  }

  lemma LineHasNoBreak(row: Row, column: string)
    requires '\n' !in column && '\n' !in CellStr(Get(row, column))
    ensures '\n' !in RenderLine(row, column)
  {
  }

  /** Every element of a join is a separator element or an element of a part. */
  lemma {:induction false} JoinWithMembers<T>(parts: seq<seq<T>>, sep: seq<T>, x: T)
    requires x in JoinWith(parts, sep)
    ensures x in sep || exists i :: 0 <= i < |parts| && x in parts[i]
  {
    if |parts| > 1 {
      if x !in parts[0] && x !in sep {
        JoinWithMembers(parts[1..], sep, x);
        var i :| 0 <= i < |parts[1..]| && x in parts[1..][i];
        assert x in parts[i + 1];
      }
    }
  }

  /** A join whose first part is non-empty starts with that part. */
  lemma JoinWithFirst<T>(parts: seq<seq<T>>, sep: seq<T>)
    requires |parts| > 0
    ensures parts[0] <= JoinWith(parts, sep)
  {
  }

  /** Joining the row blocks at "\n\n" is joining all lines, with an empty
      line between rows, at "\n". */
  lemma {:induction false} BlocksAreJoinedLines(columns: seq<string>, rows: seq<Row>)
    requires |columns| > 0 && |rows| > 0
    ensures RenderRows(columns, rows) == JoinWith(JoinWith(RowLines(columns, rows), [""]), "\n")
  {
    var parts := RowLines(columns, rows);
    var blocks := RowBlocks(columns, rows);
    if |rows| > 1 {
      BlocksAreJoinedLines(columns, rows[1..]);
      var rest := JoinWith(RowLines(columns, rows[1..]), [""]);
      assert RowLines(columns, rows[1..]) == parts[1..];
      assert RowBlocks(columns, rows[1..]) == blocks[1..];
      assert JoinWith(parts, [""]) == parts[0] + ([""] + rest);
      JoinWithFirst(RowLines(columns, rows[1..]), [""]);
      assert rest != [];
      JoinWithAppend(parts[0], [""] + rest, "\n");
      assert ([""] + rest)[1..] == rest;
      assert JoinWith([""] + rest, "\n") == "" + "\n" + JoinWith(rest, "\n");
    }
  }

  /** The rendering is blank exactly when there are no rows: each row holds
      at least one `column: value` line, and its ':' is not whitespace. */
  lemma {:induction false} RenderedIsNotBlank(columns: seq<string>, rows: seq<Row>)
    requires |columns| > 0 && |rows| > 0
    ensures Strip(RenderRows(columns, rows)) != ""
  {
    var s := RenderRows(columns, rows);
    var line := RenderLine(rows[0], columns[0]);
    JoinWithFirst(RowBlocks(columns, rows), "\n\n");
    JoinWithFirst(Lines(columns, rows[0]), "\n");
    assert line <= s;
    assert line[|columns[0]|] == ':';
    assert s[|columns[0]|] == ':';
  }

  /** `query_structured_data` for loaded table `t`. Nothing loaded gives
      the "no data" sentence; no match (or an empty result) gives ""; an
      exception of the query engine propagates; otherwise the rendered rows. */
  function StructuredContext(t: Table, q: string, score: Scorer): (r: Result<string>)
    ensures IsEmpty(t) ==> r == Ok(NoDataLoaded)
    ensures !IsEmpty(t) ==> (r.Err? <==> ParseAndFilter(t, q, score).Err?)
    ensures !IsEmpty(t) && r.Err? ==> r.error == ParseAndFilter(t, q, score).error
    ensures !IsEmpty(t) && ParseAndFilter(t, q, score).Ok? ==>
      (r == Ok("") <==> ParseAndFilter(t, q, score).value.None?)
    ensures !IsEmpty(t) && ParseAndFilter(t, q, score).Ok? && ParseAndFilter(t, q, score).value.Some? ==>
      r == Ok(RenderRows(t.columns, ParseAndFilter(t, q, score).value.value))
  {
    if IsEmpty(t) then Ok(NoDataLoaded)
    else
      match ParseAndFilter(t, q, score)
      case Err(e) => Err(e)
      case Ok(None) => Ok("")
      case Ok(Some(rows)) =>
        if IsEmpty(Table(t.columns, rows)) then Ok("")
        else
          RenderedIsNotBlank(t.columns, rows);
          Ok(RenderRows(t.columns, rows))
  }

  // ---------------------------------------------------------------------
  // The holder of the global csv_df
  // ---------------------------------------------------------------------

  /** The module-global `csv_df`. */
  class KnowledgeBase {
    var table: Table

    /** `pd.DataFrame()`: no columns and no rows. */
    constructor ()
      ensures table == Table([], [])
      ensures IsEmpty(table) && WellFormed(table)
    {
      table := Table([], []);
    }

    /** `ingest_and_index_doc`: the parsed table replaces the loaded one and
        the answer is true; when parsing raised, the loaded table is kept and
        the answer is false. */
    method IngestAndIndexDoc(upload: CsvOutcome) returns (indexed: bool)
      requires ParsedWellFormed(upload)
      modifies this
      ensures indexed <==> upload.Parsed?
      ensures table == (if upload.Parsed? then upload.table else old(table))
      ensures WellFormed(old(table)) ==> WellFormed(table)
    {
      match upload
      case Parsed(parsed) =>
        table := parsed;
        indexed := true;
      case ParseFailed(_) =>
        indexed := false;
    }

    /** `query_structured_data` on the loaded table. A function of the
        table: querying cannot change it. */
    function QueryStructuredData(q: string, score: Scorer): (r: Result<string>)
      reads this
      ensures r == StructuredContext(table, q, score)
    {
      StructuredContext(table, q, score)
    }

    /** `query_rag_context` is `query_structured_data` of the same question. */
    function QueryRagContext(q: string, score: Scorer): (r: Result<string>)
      reads this
      ensures r == QueryStructuredData(q, score)
    {
      QueryStructuredData(q, score)
    }
  }

  /** A retrieved context is blank (only whitespace) exactly when the table is
      loaded and nothing matched. */
  lemma ContextBlankIffNoMatch(t: Table, q: string, score: Scorer)
    requires StructuredContext(t, q, score).Ok?
    ensures Strip(StructuredContext(t, q, score).value) == "" <==>
      (!IsEmpty(t) && ParseAndFilter(t, q, score).value.None?)
  {
    if IsEmpty(t) {
      assert Strip(NoDataLoaded) != "" by {
        assert !IsSpace(NoDataLoaded[0]);
      }
    } else {
      var answer := ParseAndFilter(t, q, score).value;
      if answer.Some? {
        ParseAndFilterResult(t, q, score);
        RenderedIsNotBlank(t.columns, answer.value);
      }
    }
  }
}
