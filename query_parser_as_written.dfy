/** `parse_and_filter` exactly as `app/utils/query_parser.py` writes it, kept
    beside the corrected model of `QueryParser`. As written, the price matcher
    answers with rows of its own sanitized copy: the price column holds floats
    there, while the other matchers answer with the original text. The final
    `drop_duplicates` compares whole rows, so a listing that the price matcher
    and another matcher both find is listed twice. `QueryParser.PriceMatches`
    answers with the original rows instead, which is what the merge needs. */
module QueryParserAsWritten {
  import opened Seqs
  import opened Strings
  import opened Tables
  import opened QueryParser

  /** A cell of an answer row: an original cell, or the float that
      `sanitize_currency_column` wrote into the price column of its copy. */
  datatype Value = Raw(cell: Cell) | Float(number: real)

  type AnswerRow = map<string, Value>

  /** An original row as an answer row. */
  function Lift(row: Row): (a: AnswerRow)
    ensures a.Keys == row.Keys
    ensures forall k :: k in row ==> a[k] == Raw(row[k])
  {
    map k | k in row :: Raw(row[k])
  }

  function LiftAll(rows: seq<Row>): (r: seq<AnswerRow>)
    ensures |r| == |rows| && forall i :: 0 <= i < |rows| ==> r[i] == Lift(rows[i])
  {
    seq(|rows|, i requires 0 <= i < |rows| => Lift(rows[i]))
  }

  /** The rows of the copy after `sanitize_currency_column`: the price column
      replaced by its floats. */
  function SanitizedRows(rows: seq<Row>, column: string, vs: seq<real>): (r: seq<AnswerRow>)
    requires |vs| == |rows|
    ensures |r| == |rows|
    ensures forall i :: 0 <= i < |rows| ==> r[i] == Lift(rows[i])[column := Float(vs[i])]
  {
    seq(|rows|, i requires 0 <= i < |rows| => Lift(rows[i])[column := Float(vs[i])])
  }

  function FloatIs(column: string, m: real): AnswerRow -> bool {
    row => column in row && row[column] == Float(m)
  }

  /** `match_price_filters` as written: the same branches and errors as
      `QueryParser.PriceMatches`, but the kept rows come from the sanitized
      copy, so each holds a float in the price column. */
  function PriceMatchesAsWritten(t: Table, q: string): (r: Result<seq<AnswerRow>>)
    ensures r.Ok? <==> PriceMatches(t, q).Ok?
    ensures r.Err? ==> r.error == PriceMatches(t, q).error
    ensures r.Ok? && PriceColumn(Lower(q)).Some? ==>
      forall a: AnswerRow :: a in r.value ==> PriceColumn(Lower(q)).value in a && a[PriceColumn(Lower(q)).value].Float?
  {
    var ql := Lower(q);
    match PriceColumn(ql)
    case None => Ok([])
    case Some(column) =>
      if column !in t.columns then Err(KeyError(column))
      else
        match ColumnNumbers(t.rows, column)
        case Err(e) => Err(e)
        case Ok(vs) =>
          match Superlative(ql)
          case None => Ok([])
          case Some(e) =>
            if vs == [] then Ok([])
            else Ok(Filter(SanitizedRows(t.rows, column, vs), FloatIs(column, ExtremeOf(vs, e))))
  }

  /** `parse_and_filter` as written: the same order and errors as
      `QueryParser.ParseAndFilter`, merging the sanitized price answer with
      the other answers' original rows. */
  function ParseAndFilterAsWritten(t: Table, q: string, score: Scorer): (r: Result<Option<seq<AnswerRow>>>)
    ensures r.Ok? <==> ParseAndFilter(t, q, score).Ok?
  {
    match PriceMatchesAsWritten(t, q)
    case Err(e) => Err(e)
    case Ok(price) =>
      match AssociateMatches(t, q)
      case Err(e) => Err(e)
      case Ok(associate) =>
        match FloorSuiteMatches(t, q)
        case Err(e) => Err(e)
        case Ok(location) =>
          match PropertyMatches(t, q, score, Threshold)
          case Err(e) => Err(e)
          case Ok(address) =>
            Ok(Combine([price, LiftAll(associate), LiftAll(location), LiftAll(address)]))
  }

  // ---------------------------------------------------------------------
  // One listing that the price and associate matchers both find.
  // ---------------------------------------------------------------------

  const ListingColumns: seq<string> :=
    [PropertyAddress, "Floor", "Suite", AnnualRent, "Associate 1", "Associate 2", "Associate 3", "Associate 4"]

  const Listing: Row := map[
    PropertyAddress := Text("12 Elm St"), "Floor" := Text("2"), "Suite" := Text("b"),
    AnnualRent := Text("$100"), "Associate 1" := Text("bob"), "Associate 2" := Missing,
    "Associate 3" := Missing, "Associate 4" := Missing]

  const OneListing: Table := Table(ListingColumns, [Listing])

  const AskedQuery: string := "highest " + "annual rent" + " " + "bob"

  /** A similarity function that never reaches the threshold. */
  function NoSimilarity(a: string, b: string): Score { 0 }

  /** The listing's annual rent converts to 100. */
  lemma ListingRent()
    ensures ColumnNumbers([Listing], AnnualRent) == Ok([100.0])
  {
    ListingRentCell();
    RentCellNumber();
    OneRowNumbers(Listing, AnnualRent, 100.0);
  }

  lemma ListingRentCell()
    ensures Get(Listing, AnnualRent) == Text("$100")
  {
  }

  lemma RentCellNumber()
    ensures CellNumber(Text("$100")) == Ok(100.0)
  {
    KeptDigits();
    assert SanitizedText(Text("$100")) == "100";
    HundredParses();
  }

  lemma OneRowNumbers(row: Row, column: string, v: real)
    requires CellNumber(Get(row, column)) == Ok(v)
    ensures ColumnNumbers([row], column) == Ok([v])
  {
    var rows := [row];
    assert rows[1..] == [];
    assert ColumnNumbers(rows[1..], column) == Ok([]);
    assert [v] + [] == [v];
  }

  lemma KeptDigits()
    ensures KeepNumeric("$100") == "100"
  {
    assert "$100"[..3] == "$10" && "$10"[..2] == "$1" && "$1"[..1] == "$" && "$"[..0] == "";
    assert Filter("$", IsNumeric) == [];
    assert Filter("$1", IsNumeric) == ['1'];
    assert Filter("$10", IsNumeric) == ['1', '0'];
  }

  lemma HundredParses()
    ensures ParseFloat("100") == Some(100.0)
  {
    ParseFloatOfNatDigits(100);
    HundredDigits();
  }

  lemma HundredDigits()
    ensures NatDigits(100) == "100"
  {
    assert NatDigits(10) == NatDigits(1) + ['0'];
    assert NatDigits(100) == NatDigits(10) + ['0'];
  }

  lemma AskedQueryFacts()
    ensures Lower(AskedQuery) == AskedQuery
    ensures PriceColumn(AskedQuery) == Some(AnnualRent)
    ensures Superlative(AskedQuery) == Some(Highest)
    ensures Contains(AskedQuery, "bob")
  {
    assert OccursAt(AskedQuery, "annual rent", 8);
    assert OccursAt(AskedQuery, "highest", 0);
    assert OccursAt(AskedQuery, "bob", 20);
  }

  /** The row as the price matcher's sanitized copy holds it. */
  function SanitizedRow(row: Row, column: string, m: real): AnswerRow {
    Lift(row)[column := Float(m)]
  }

  /** On a one-row table whose price cell converts to `m`, a superlative
      query on that column keeps the row. */
  lemma PriceKeepsOnlyRow(t: Table, q: string, column: string, m: real)
    requires |t.rows| == 1 && column in t.columns
    requires PriceColumn(Lower(q)) == Some(column) && Superlative(Lower(q)).Some?
    requires ColumnNumbers(t.rows, column) == Ok([m])
    ensures PriceMatches(t, q).Ok?
    ensures forall row :: row in PriceMatches(t, q).value <==> row == t.rows[0]
  {
    var e := Superlative(Lower(q)).value;
    assert ExtremeOf([m], e) == m;
    assert HasNumber(column, m)(t.rows[0]);
  }

  /** As written, the same query keeps the row in its sanitized form. */
  lemma PriceAsWrittenKeepsOnlyRow(t: Table, q: string, column: string, m: real)
    requires |t.rows| == 1 && column in t.columns
    requires PriceColumn(Lower(q)) == Some(column) && Superlative(Lower(q)).Some?
    requires ColumnNumbers(t.rows, column) == Ok([m])
    ensures PriceMatchesAsWritten(t, q).Ok?
    ensures forall a :: a in PriceMatchesAsWritten(t, q).value <==> a == SanitizedRow(t.rows[0], column, m)
  {
    var e := Superlative(Lower(q)).value;
    assert ExtremeOf([m], e) == m;
    var sanitized := SanitizedRows(t.rows, column, [m]);
    assert PriceMatchesAsWritten(t, q) == Ok(Filter(sanitized, FloatIs(column, m)));
    assert sanitized[0] == SanitizedRow(t.rows[0], column, m);
    FilterOfOne(sanitized, FloatIs(column, m));
  }

  lemma FilterOfOne<T(!new)>(s: seq<T>, p: T -> bool)
    requires |s| == 1 && p(s[0])
    ensures forall x :: x in Filter(s, p) <==> x == s[0]
  {
  }

  /** A sanitized row never equals an original row: its price cell is a float. */
  lemma SanitizedDiffers(row: Row, column: string, m: real)
    ensures SanitizedRow(row, column, m) != Lift(row)
  {
    assert SanitizedRow(row, column, m)[column] == Float(m);
    assert column in Lift(row) ==> Lift(row)[column].Raw?;
  }

  lemma LiftedMember(rows: seq<Row>, row: Row)
    requires row in rows
    ensures Lift(row) in LiftAll(rows)
  {
    var i :| 0 <= i < |rows| && rows[i] == row;
    assert LiftAll(rows)[i] == Lift(row);
  }

  /** Merging answers that hold two different rows gives more than one row. */
  lemma CombineTwo<T(!new)>(outputs: seq<seq<T>>, x: T, y: T)
    requires x != y
    requires exists k :: 0 <= k < |outputs| && x in outputs[k]
    requires exists k :: 0 <= k < |outputs| && y in outputs[k]
    ensures Combine(outputs).Some?
    ensures x in Combine(outputs).value && y in Combine(outputs).value
    ensures |Combine(outputs).value| >= 2
  {
    var kx :| 0 <= kx < |outputs| && x in outputs[kx];
    var ky :| 0 <= ky < |outputs| && y in outputs[ky];
    var answer := Combine(outputs).value;
    assert x in answer && y in answer;
    var i :| 0 <= i < |answer| && answer[i] == x;
    var j :| 0 <= j < |answer| && answer[j] == y;
    assert i != j;
  }

  /** Merging answers that all hold one row gives that row once. */
  lemma CombineOne<T(!new)>(outputs: seq<seq<T>>, x: T)
    requires exists k :: 0 <= k < |outputs| && x in outputs[k]
    requires forall k, z :: 0 <= k < |outputs| && z in outputs[k] ==> z == x
    ensures Combine(outputs) == Some([x])
  {
    var kx :| 0 <= kx < |outputs| && x in outputs[kx];
    var all := Flatten(outputs);
    assert x in all;
    forall i | 0 <= i < |all| ensures all[i] == x {
      assert all[i] in all;
    }
    DedupOfConstant(all, x);
  }

  lemma {:induction false} DedupOfConstant<T(!new)>(s: seq<T>, x: T)
    requires s != [] && forall i :: 0 <= i < |s| ==> s[i] == x
    ensures Dedup(s) == [x]
  {
    var init := s[..|s| - 1];
    if init != [] {
      DedupOfConstant(init, x);
      assert init[0] == x;
    }
  }

  /** On a one-row table that the price and associate matchers both find, as
      written the answer holds the row twice: sanitized and original. */
  lemma {:induction false} AsWrittenListsRowTwice(t: Table, q: string, score: Scorer, column: string, m: real)
    requires |t.rows| == 1 && column in t.columns
    requires PriceColumn(Lower(q)) == Some(column) && Superlative(Lower(q)).Some?
    requires ColumnNumbers(t.rows, column) == Ok([m])
    requires AssociateMatches(t, q).Ok? && t.rows[0] in AssociateMatches(t, q).value
    requires "Floor" in t.columns && "Suite" in t.columns && PropertyAddress in t.columns
    ensures ParseAndFilterAsWritten(t, q, score).Ok?
    ensures var answer := ParseAndFilterAsWritten(t, q, score).value;
      && answer.Some?
      && SanitizedRow(t.rows[0], column, m) in answer.value && Lift(t.rows[0]) in answer.value
      && |answer.value| > |t.rows|
  {
    PriceKeepsOnlyRow(t, q, column, m);
    PriceAsWrittenKeepsOnlyRow(t, q, column, m);
    var outputs := MatcherOutputs(t, q, score);
    assert FloorSuiteMatches(t, q).Ok?;
    assert PropertyMatches(t, q, score, Threshold).Ok?;
    var s, l := SanitizedRow(t.rows[0], column, m), Lift(t.rows[0]);
    var price := PriceMatchesAsWritten(t, q).value;
    var lifted := [price, LiftAll(outputs[1]), LiftAll(outputs[2]), LiftAll(outputs[3])];
    SanitizedDiffers(t.rows[0], column, m);
    LiftedMember(outputs[1], t.rows[0]);
    assert s in lifted[0] && l in lifted[1];
    CombineTwo(lifted, s, l);
    assert ParseAndFilterAsWritten(t, q, score).Ok?;
    assert ParseAndFilterAsWritten(t, q, score).value == Combine(lifted);
  }

  /** With the price matcher answering with original rows, the same table
      and query give the row exactly once. */
  lemma {:induction false} CorrectedListsRowOnce(t: Table, q: string, score: Scorer, column: string, m: real)
    requires |t.rows| == 1 && column in t.columns
    requires PriceColumn(Lower(q)) == Some(column) && Superlative(Lower(q)).Some?
    requires ColumnNumbers(t.rows, column) == Ok([m])
    requires AssociateMatches(t, q).Ok? && t.rows[0] in AssociateMatches(t, q).value
    requires "Floor" in t.columns && "Suite" in t.columns && PropertyAddress in t.columns
    ensures ParseAndFilter(t, q, score) == Ok(Some([t.rows[0]]))
  {
    PriceKeepsOnlyRow(t, q, column, m);
    assert FloorSuiteMatches(t, q).Ok?;
    assert PropertyMatches(t, q, score, Threshold).Ok?;
    MatchersFromTable(t, q, score);
    assert t.rows[0] in MatcherOutputs(t, q, score)[0];
    CombineWithinOneRow(MatcherOutputs(t, q, score), t.rows);
  }

  /** Answers drawn from a one-row table, the first of which holds the row,
      merge into that row alone. */
  lemma CombineWithinOneRow<T(!new)>(outputs: seq<seq<T>>, rows: seq<T>)
    requires |rows| == 1 && |outputs| > 0 && rows[0] in outputs[0]
    requires forall k, z :: 0 <= k < |outputs| && z in outputs[k] ==> z in rows
    ensures Combine(outputs) == Some([rows[0]])
  {
    forall k, z | 0 <= k < |outputs| && z in outputs[k] ensures z == rows[0] {
      assert z in rows;
    }
    CombineOne(outputs, rows[0]);
  }

  /** The listing's only associate, "bob", occurs in the query. */
  lemma AssociateFindsListing()
    ensures AssociateMatches(OneListing, AskedQuery).Ok?
    ensures Listing in AssociateMatches(OneListing, AskedQuery).value
  {
    AskedQueryFacts();
    var t := OneListing;
    var ql := Lower(AskedQuery);
    assert AssociateColumns[0] == "Associate 1" && "Associate 1" in t.columns;
    assert Get(Listing, "Associate 1") == Text("bob");
    assert Lower("bob") == "bob";
    assert Mentioned(t, ql, 0) by {
      assert t.rows[0] == Listing;
    }
    AssociatesFirstMention(t, AskedQuery, 0);
    var names := DistinctValues(t.rows, "Associate 1");
    forall v | v in names ensures v == "bob" {
      var i :| 0 <= i < |t.rows| && Get(t.rows[i], "Associate 1") == Text(v);
    }
    var j := FirstMentioned(names, ql).value;
    assert names[j] in names;
    assert Lower(names[j]) == "bob";
    assert Listing in t.rows;
  }

  // ---------------------------------------------------------------------
  // A table without the associate and address columns.
  // ---------------------------------------------------------------------

  const RentRow: Row := map[AnnualRent := Text("$100")]

  const RentOnly: Table := Table([AnnualRent], [RentRow])

  /** The matchers run in order, so the first exception is the one reported:
      asked "highest annual rent bob", a table lacking both "Associate 1"
      and the address column reports the missing "Associate 1", quoted. */
  lemma FirstRaisedErrorReported()
    ensures ParseAndFilter(RentOnly, AskedQuery, NoSimilarity) == Err(KeyError("Associate 1"))
    ensures ErrorText(ParseAndFilter(RentOnly, AskedQuery, NoSimilarity).error) == "'Associate 1'"
  {
    RentOnlyPriceSucceeds();
    RentOnlyAssociatesRaise();
  }

  lemma RentOnlyPriceSucceeds()
    ensures PriceMatches(RentOnly, AskedQuery).Ok?
  {
    AskedQueryFacts();
    RentCellNumber();
    assert Get(RentRow, AnnualRent) == Text("$100");
    OneRowNumbers(RentRow, AnnualRent, 100.0);
    assert RentOnly.rows == [RentRow] && AnnualRent in RentOnly.columns;
    assert ExtremeRows(RentOnly, AnnualRent, AskedQuery).Ok?;
  }

  lemma RentOnlyAssociatesRaise()
    ensures AssociateMatches(RentOnly, AskedQuery) == Err(KeyError("Associate 1"))
  {
    assert AssociateColumns[0] == "Associate 1" && "Associate 1" !in RentOnly.columns;
  }

  /** The one-listing table is one `read_csv` can produce: its row has a
      cell for every column and no other. */
  lemma OneListingWellFormed()
    ensures WellFormed(OneListing)
  {
    assert Listing.Keys == set c | c in ListingColumns;
    assert forall i, j :: 0 <= i < j < |ListingColumns| ==> ListingColumns[i] != ListingColumns[j];
  }

  /** "highest annual rent bob" on the one listing, a table `read_csv` can
      produce: as written, two answer rows for one listing; corrected, the
      listing once. */
  lemma ListingAnsweredTwiceAsWritten()
    ensures var answer := ParseAndFilterAsWritten(OneListing, AskedQuery, NoSimilarity);
      && answer.Ok? && answer.value.Some?
      && SanitizedRow(Listing, AnnualRent, 100.0) in answer.value.value
      && Lift(Listing) in answer.value.value
      && |answer.value.value| > |OneListing.rows|
    ensures ParseAndFilter(OneListing, AskedQuery, NoSimilarity) == Ok(Some([Listing]))
  {
    AskedQueryFacts();
    ListingRent();
    AssociateFindsListing();
    var t := OneListing;
    assert t.rows == [Listing];
    assert AnnualRent in t.columns && "Floor" in t.columns && "Suite" in t.columns && PropertyAddress in t.columns;
    AsWrittenListsRowTwice(t, AskedQuery, NoSimilarity, AnnualRent, 100.0);
    CorrectedListsRowOnce(t, AskedQuery, NoSimilarity, AnnualRent, 100.0);
  }
}
