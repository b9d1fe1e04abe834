/** The query-resolution engine of `app/utils/query_parser.py`: four
    heuristics that each pick rows of the listing table for a free-text
    question, and `parse_and_filter`, which runs them in a fixed order and
    merges their answers. Every matcher works on a copy of the table, so here
    they are functions of a `Table` value; an exception a matcher raises is an
    `Err` that ends the whole query. */
module QueryParser {
  import opened Seqs
  import opened Strings
  import opened Tables

  // ---------------------------------------------------------------------
  // sanitize_currency_column: the cell text with everything but digits and
  // dots removed, "0" when nothing is left, then converted to a float.
  // ---------------------------------------------------------------------

  predicate IsNumeric(c: char) { IsDigit(c) || c == '.' }

  /** The regular-expression replacement of `[^\d.]` by "": exactly the digits
      and dots of `s` stay (in order, by `KeepNumericSplits`). */
  function KeepNumeric(s: string): (r: string)
    ensures |r| <= |s|
    ensures forall c :: c in r <==> c in s && IsNumeric(c)
  {
    Filter(s, IsNumeric)
  }

  /** What the sanitizer keeps of a string is what it keeps of each part, in
      order. */
  lemma KeepNumericSplits(a: string, b: string)
    ensures KeepNumeric(a + b) == KeepNumeric(a) + KeepNumeric(b)
  {
    FilterSplits(a, b, IsNumeric);
  }

  /** Of a single character it keeps the character itself when it is a digit
      or a dot, and nothing otherwise. */
  lemma KeepNumericOfChar(c: char)
    ensures KeepNumeric([c]) == if IsNumeric(c) then [c] else []
  {
    FilterOfSingleton(c, IsNumeric);
  }

  /** The text one cell becomes before `astype(float)`: the cell's digits and
      dots, in order, or "0" when the cell has none. */
  function SanitizedText(c: Cell): (r: string)
    ensures r != []
    ensures forall i :: 0 <= i < |r| ==> IsNumeric(r[i])
    ensures KeepNumeric(CellStr(c)) != "" ==> r == KeepNumeric(CellStr(c))
    ensures KeepNumeric(CellStr(c)) == "" ==> r == "0"
  {
    var kept := KeepNumeric(CellStr(c));
    assert forall i :: 0 <= i < |kept| ==> kept[i] in kept;
    if kept == "" then "0" else kept
  }

  ghost predicate AllDigits(d: string) {
    forall i :: 0 <= i < |d| ==> IsDigit(d[i])
  }

  /** The value of a string of decimal digits ("" counts as 0). */
  function DigitsValue(d: string): nat
    requires AllDigits(d)
  {
    if d == [] then 0 else 10 * DigitsValue(d[..|d| - 1]) + (d[|d| - 1] as int - '0' as int)
  }

  function Pow10(n: nat): (r: nat)
    ensures r > 0
  {
    if n == 0 then 1 else 10 * Pow10(n - 1)
  }

  /** Python's `float()` on a string of digits and dots: a number when the
      string holds at most one dot and at least one digit, a `ValueError`
      otherwise. */
  function ParseFloat(s: string): (r: Option<real>)
    requires forall i :: 0 <= i < |s| ==> IsNumeric(s[i])
    ensures r.Some? <==> multiset(s)['.'] <= 1 && exists i :: 0 <= i < |s| && IsDigit(s[i])
  {
    if '.' !in s then
      assert multiset(s)['.'] == 0;
      NumericWithoutDot(s);
      if s == [] then None else Some(DigitsValue(s) as real)
    else
      var k := FirstIndex(s, '.');
      var whole, frac := s[..k], s[k + 1..];
      assert s == whole + ['.'] + frac;
      assert multiset(s)['.'] == multiset(whole)['.'] + 1 + multiset(frac)['.'];
      assert multiset(whole)['.'] == 0;
      if '.' in frac then
        assert multiset(frac)['.'] > 0;
        None
      else if whole == [] && frac == [] then
        assert s == ['.'];
        None
      else
        NumericWithoutDot(whole);
        NumericWithoutDot(frac);
        assert whole != [] ==> s[0] == whole[0];
        assert frac != [] ==> s[k + 1] == frac[0];
        Some(DigitsValue(whole) as real + DigitsValue(frac) as real / Pow10(|frac|) as real)
  }

  lemma NumericWithoutDot(s: string)
    requires forall i :: 0 <= i < |s| ==> IsNumeric(s[i])
    requires '.' !in s
    ensures AllDigits(s)
  {
    forall i | 0 <= i < |s| ensures IsDigit(s[i]) {
      assert s[i] in s;
    }
  }

  /** The decimal digits of a natural number. */
  function NatDigits(n: nat): (d: string)
    ensures d != [] && AllDigits(d)
  {
    if n < 10 then [('0' as int + n) as char]
    else NatDigits(n / 10) + [('0' as int + n % 10) as char]
  }

  /** Writing a whole number in decimal and converting it back gives the number. */
  lemma {:induction false} ParseFloatOfNatDigits(n: nat)
    ensures ParseFloat(NatDigits(n)) == Some(n as real)
  {
    DigitsValueOfNatDigits(n);
    assert '.' !in NatDigits(n);
  }

  lemma {:induction false} DigitsValueOfNatDigits(n: nat)
    ensures DigitsValue(NatDigits(n)) == n
  {
    if n >= 10 {
      DigitsValueOfNatDigits(n / 10);
      var d := NatDigits(n);
      assert d[..|d| - 1] == NatDigits(n / 10);
    }
  }

  /** The float one cell of a price column becomes, or the `ValueError`
      `astype(float)` raises for it. NaN prints as "nan", which keeps no
      digit, so a missing cell counts as 0. */
  function CellNumber(c: Cell): (r: Result<real>)
    ensures r.Ok? <==> ParseFloat(SanitizedText(c)).Some?
    ensures r.Ok? ==> r.value == ParseFloat(SanitizedText(c)).value
    ensures r.Err? ==> r.error.ValueError?
    ensures c == Missing ==> r == Ok(0.0)
  {
    NanKeepsNothing();
    ZeroParses();
    var f := SanitizedText(c);
    match ParseFloat(f)
    case Some(v) => Ok(v)
    case None => Err(ValueError("could not convert string to float: '" + f + "'"))
  }

  lemma NanKeepsNothing()
    ensures KeepNumeric(CellStr(Missing)) == ""
  {
    assert "nan"[..2] == "na" && "na"[..1] == "n" && "n"[..0] == "";
  }

  lemma ZeroParses()
    ensures ParseFloat("0") == Some(0.0)
  {
    ParseFloatOfNatDigits(0);
  }

  /** The whole sanitized column, or the error of its first unconvertible cell. */
  function ColumnNumbers(rows: seq<Row>, column: string): (r: Result<seq<real>>)
    ensures r.Ok? <==> forall i :: 0 <= i < |rows| ==> CellNumber(Get(rows[i], column)).Ok?
    ensures r.Ok? ==> (|r.value| == |rows|
      && forall i :: 0 <= i < |rows| ==> CellNumber(Get(rows[i], column)) == Ok(r.value[i]))
  {
    if rows == [] then Ok([])
    else
      match CellNumber(Get(rows[0], column))
      case Err(e) => Err(e)
      case Ok(v) =>
        match ColumnNumbers(rows[1..], column)
        case Err(e) => Err(e)
        case Ok(vs) =>
          NumbersCons(rows, row => CellNumber(Get(row, column)), v, vs);
          Ok([v] + vs)
  }

  /** Converting the first row, then the rest, converts every row. */
  lemma NumbersCons(rows: seq<Row>, number: Row -> Result<real>, v: real, vs: seq<real>)
    requires rows != [] && number(rows[0]) == Ok(v)
    requires |vs| == |rows| - 1
    requires forall i :: 0 <= i < |rows| - 1 ==> number(rows[1..][i]) == Ok(vs[i])
    ensures forall i :: 0 <= i < |rows| ==> number(rows[i]) == Ok(([v] + vs)[i])
  {
    forall i | 1 <= i < |rows| ensures number(rows[i]) == Ok(([v] + vs)[i]) {
      assert rows[i] == rows[1..][i - 1];
    }
  }

  // ---------------------------------------------------------------------
  // match_price_filters
  // ---------------------------------------------------------------------

  const AnnualRent := "Annual Rent"
  const GciOn3Years := "GCI On 3 Years"
  const RentPerSfYear := "Rent/SF/Year"

  /** The keywords in the order they are tested, each with its column. */
  const PriceKeywords: seq<(string, string)> :=
    [("annual rent", AnnualRent), ("gci", GciOn3Years), ("rent/sf/year", RentPerSfYear)]

  /** The column of the first keyword, in test order, that the lower-cased
      query contains; none when it contains none of them. */
  function PriceColumn(ql: string): (r: Option<string>)
    ensures r.None? <==> forall k :: 0 <= k < |PriceKeywords| ==> !Contains(ql, PriceKeywords[k].0)
    ensures forall k :: 0 <= k < |PriceKeywords| ==>
      (r == Some(PriceKeywords[k].1) <==>
        Contains(ql, PriceKeywords[k].0) && forall j :: 0 <= j < k ==> !Contains(ql, PriceKeywords[j].0))
  {
    assert PriceKeywords[0].0 == "annual rent" && PriceKeywords[0].1 == AnnualRent;
    assert PriceKeywords[1].0 == "gci" && PriceKeywords[1].1 == GciOn3Years;
    assert PriceKeywords[2].0 == "rent/sf/year" && PriceKeywords[2].1 == RentPerSfYear;
    assert AnnualRent[0] == 'A' && GciOn3Years[0] == 'G' && RentPerSfYear[0] == 'R';
    if Contains(ql, "annual rent") then Some(AnnualRent)
    else if Contains(ql, "gci") then Some(GciOn3Years)
    else if Contains(ql, "rent/sf/year") then Some(RentPerSfYear)
    else None
  }

  datatype Extreme = Highest | Lowest

  /** "maximum"/"highest" is tested before "minimum"/"lowest": a query with
      both kinds of word asks for the highest value. */
  function Superlative(ql: string): (r: Option<Extreme>)
    ensures r == Some(Highest) <==> Contains(ql, "maximum") || Contains(ql, "highest")
    ensures r == Some(Lowest) <==>
      !Contains(ql, "maximum") && !Contains(ql, "highest") && (Contains(ql, "minimum") || Contains(ql, "lowest"))
    ensures r.None? <==>
      !Contains(ql, "maximum") && !Contains(ql, "highest") && !Contains(ql, "minimum") && !Contains(ql, "lowest")
  {
    if Contains(ql, "maximum") || Contains(ql, "highest") then Some(Highest)
    else if Contains(ql, "minimum") || Contains(ql, "lowest") then Some(Lowest)
    else None
  }

  function MaxOf(vs: seq<real>): (m: real)
    requires vs != []
    ensures m in vs && forall v :: v in vs ==> v <= m
  {
    if |vs| == 1 then vs[0]
    else
      var rest := MaxOf(vs[1..]);
      assert forall v :: v in vs ==> v == vs[0] || v in vs[1..];
      if vs[0] >= rest then vs[0] else rest
  }

  function MinOf(vs: seq<real>): (m: real)
    requires vs != []
    ensures m in vs && forall v :: v in vs ==> m <= v
  {
    if |vs| == 1 then vs[0]
    else
      var rest := MinOf(vs[1..]);
      assert forall v :: v in vs ==> v == vs[0] || v in vs[1..];
      if vs[0] <= rest then vs[0] else rest
  }

  /** `m` is the column's maximum (or minimum): every cell converts, some cell
      has the value `m`, and no cell is above (or below) it. */
  ghost predicate IsExtreme(rows: seq<Row>, column: string, e: Extreme, m: real) {
    && (exists i :: 0 <= i < |rows| && CellNumber(Get(rows[i], column)) == Ok(m))
    && forall i :: 0 <= i < |rows| ==>
         CellNumber(Get(rows[i], column)).Ok?
         && (e == Highest ==> CellNumber(Get(rows[i], column)).value <= m)
         && (e == Lowest ==> m <= CellNumber(Get(rows[i], column)).value)
  }

  function HasNumber(column: string, m: real): Row -> bool {
    row => CellNumber(Get(row, column)) == Ok(m)
  }

  /** One keyword branch: sanitize the column (which raises on a missing column
      or an unconvertible cell, superlative or not), then keep the rows whose
      value equals the column's maximum or minimum, ties included. Without a
      superlative the branch falls through to the empty result. */
  function ExtremeRows(t: Table, column: string, ql: string): (r: Result<seq<Row>>)
    ensures column !in t.columns ==> r == Err(KeyError(column))
    ensures column in t.columns && ColumnNumbers(t.rows, column).Err? ==>
      r == Err(ColumnNumbers(t.rows, column).error)
    ensures column in t.columns && ColumnNumbers(t.rows, column).Ok? && Superlative(ql).None? ==> r == Ok([])
    ensures r.Ok? && t.rows == [] ==> r.value == []
  {
    if column !in t.columns then Err(KeyError(column))
    else
      match ColumnNumbers(t.rows, column)
      case Err(e) => Err(e)
      case Ok(vs) =>
        match Superlative(ql)
        case None => Ok([])
        case Some(e) =>
          if vs == [] then Ok([])
          else
            Ok(Filter(t.rows, HasNumber(column, ExtremeOf(vs, e))))
  }

  function ExtremeOf(vs: seq<real>, e: Extreme): real
    requires vs != []
  {
    match e
    case Highest => MaxOf(vs)
    case Lowest => MinOf(vs)
  }

  /** With a superlative, the branch keeps exactly the rows whose value is the
      column's maximum (or minimum), ties included. */
  lemma ExtremeRowsAreExtreme(t: Table, column: string, ql: string)
    requires ExtremeRows(t, column, ql).Ok? && Superlative(ql).Some? && t.rows != []
    ensures var m := ExtremeOf(ColumnNumbers(t.rows, column).value, Superlative(ql).value);
      && IsExtreme(t.rows, column, Superlative(ql).value, m)
      && forall row :: row in ExtremeRows(t, column, ql).value <==>
           row in t.rows && CellNumber(Get(row, column)) == Ok(m)
  {
    var vs := ColumnNumbers(t.rows, column).value;
    var e := Superlative(ql).value;
    var m := ExtremeOf(vs, e);
    assert ExtremeRows(t, column, ql) == Ok(Filter(t.rows, HasNumber(column, m)));
    var k :| 0 <= k < |vs| && vs[k] == m;
    assert CellNumber(Get(t.rows[k], column)) == Ok(m);
    forall i | 0 <= i < |t.rows|
      ensures (e == Highest ==> vs[i] <= m) && (e == Lowest ==> m <= vs[i])
    {
      assert vs[i] in vs;
    }
  }

  /** `match_price_filters`: the keyword picks the column, by first-match
      precedence; no keyword means no price filter. */
  function PriceMatches(t: Table, q: string): (r: Result<seq<Row>>)
    ensures PriceColumn(Lower(q)).None? ==> r == Ok([])
    ensures PriceColumn(Lower(q)).Some? ==> r == ExtremeRows(t, PriceColumn(Lower(q)).value, Lower(q))
    ensures r.Ok? ==> forall row :: row in r.value ==> row in t.rows
  {
    var ql := Lower(q);
    match PriceColumn(ql)
    case None => Ok([])
    case Some(column) => ExtremeRows(t, column, ql)
  }

  // ---------------------------------------------------------------------
  // match_associates
  // ---------------------------------------------------------------------

  const AssociateColumns: seq<string> := ["Associate 1", "Associate 2", "Associate 3", "Associate 4"]

  /** The index of the first name that occurs, lower-cased, in the lower-cased query. */
  function FirstMentioned(names: seq<string>, ql: string): (r: Option<nat>)
    ensures r.Some? ==> (r.value < |names| && Contains(ql, Lower(names[r.value]))
      && forall j :: 0 <= j < r.value ==> !Contains(ql, Lower(names[j])))
    ensures r.None? ==> forall j :: 0 <= j < |names| ==> !Contains(ql, Lower(names[j]))
  {
    if names == [] then None
    else if Contains(ql, Lower(names[0])) then Some(0)
    else
      assert forall j :: 1 <= j < |names| ==> names[j] == names[1..][j - 1];
      match FirstMentioned(names[1..], ql)
      case None => None
      case Some(k) => Some(k + 1)
  }

  /** `df[column].str.lower() == name`: NaN never equals a name. */
  function NamedAs(column: string, lname: string): Row -> bool {
    row => Get(row, column).Text? && Lower(Get(row, column).text) == lname
  }

  /** The scan from associate column `k` on: the first column holding a
      mentioned name decides; a missing column raises when the scan reaches it. */
  function AssociatesFrom(t: Table, ql: string, k: nat): (r: Result<seq<Row>>)
    requires k <= |AssociateColumns|
    ensures r.Ok? ==> forall row :: row in r.value ==> row in t.rows
    ensures r.Err? ==> r.error.KeyError? && r.error.key in AssociateColumns[k..] && r.error.key !in t.columns
    decreases |AssociateColumns| - k
  {
    if k == |AssociateColumns| then Ok([])
    else
      var column := AssociateColumns[k];
      if column !in t.columns then Err(KeyError(column))
      else
        var names := DistinctValues(t.rows, column);
        match FirstMentioned(names, ql)
        case Some(j) => Ok(Filter(t.rows, NamedAs(column, Lower(names[j]))))
        case None => AssociatesFrom(t, ql, k + 1)
  }

  /** `match_associates`: rows of the table, or the `KeyError` of a missing
      associate column. */
  function AssociateMatches(t: Table, q: string): (r: Result<seq<Row>>)
    ensures r.Ok? ==> forall row :: row in r.value ==> row in t.rows
    ensures r.Err? ==> r.error.KeyError? && r.error.key in AssociateColumns && r.error.key !in t.columns
  {
    AssociatesFrom(t, Lower(q), 0)
  }

  /** `match_associates`, with its nested loops and early returns. */
  method MatchAssociates(t: Table, q: string) returns (r: Result<seq<Row>>)
    ensures r == AssociateMatches(t, q)
  {
    var ql := Lower(q);
    var k := 0;
    while k < |AssociateColumns|
      invariant 0 <= k <= |AssociateColumns|
      invariant AssociatesFrom(t, ql, k) == AssociatesFrom(t, ql, 0)
    {
      var column := AssociateColumns[k];
      if column !in t.columns {
        return Err(KeyError(column));
      }
      var names := DistinctValues(t.rows, column);
      var j := 0;
      while j < |names|
        invariant 0 <= j <= |names|
        invariant forall i :: 0 <= i < j ==> !Contains(ql, Lower(names[i]))
      {
        if Contains(ql, Lower(names[j])) {
          assert FirstMentioned(names, ql) == Some(j);
          return Ok(Filter(t.rows, NamedAs(column, Lower(names[j]))));
        }
        j := j + 1;
      }
      assert FirstMentioned(names, ql).None?;
      k := k + 1;
    }
    return Ok([]);
  }

  /** Some row's value in associate column `k` is mentioned in the query. */
  ghost predicate Mentioned(t: Table, ql: string, k: nat)
    requires k < |AssociateColumns|
  {
    exists i :: 0 <= i < |t.rows| && Get(t.rows[i], AssociateColumns[k]).Text?
      && Contains(ql, Lower(Get(t.rows[i], AssociateColumns[k]).text))
  }

  lemma {:induction false} MentionedIffFirstMentioned(t: Table, ql: string, k: nat)
    requires k < |AssociateColumns|
    ensures Mentioned(t, ql, k) <==> FirstMentioned(DistinctValues(t.rows, AssociateColumns[k]), ql).Some?
  {
    var column := AssociateColumns[k];
    var names := DistinctValues(t.rows, column);
    if Mentioned(t, ql, k) {
      var i :| 0 <= i < |t.rows| && Get(t.rows[i], column).Text?
        && Contains(ql, Lower(Get(t.rows[i], column).text));
      var v := Get(t.rows[i], column).text;
      assert v in names;
      var j :| 0 <= j < |names| && names[j] == v;
    }
    if FirstMentioned(names, ql).Some? {
      var j := FirstMentioned(names, ql).value;
      assert names[j] in names;
    }
  }

  /** `match_associates` finds nothing exactly when all four columns exist and
      no value of any of them occurs in the query. */
  lemma {:induction false} AssociatesEmptyIffNoMention(t: Table, q: string)
    ensures AssociateMatches(t, q) == Ok([]) <==>
      forall k :: 0 <= k < |AssociateColumns| ==>
        AssociateColumns[k] in t.columns && !Mentioned(t, Lower(q), k)
  {
    var ql := Lower(q);
    AssociatesFromEmpty(t, ql, 0);
  }

  lemma {:induction false} AssociatesFromEmpty(t: Table, ql: string, k: nat)
    requires k <= |AssociateColumns|
    ensures AssociatesFrom(t, ql, k) == Ok([]) <==>
      forall j :: k <= j < |AssociateColumns| ==> AssociateColumns[j] in t.columns && !Mentioned(t, ql, j)
    decreases |AssociateColumns| - k
  {
    if k < |AssociateColumns| {
      var column := AssociateColumns[k];
      AssociatesFromEmpty(t, ql, k + 1);
      if column in t.columns {
        MentionedIffFirstMentioned(t, ql, k);
        if FirstMentioned(DistinctValues(t.rows, column), ql).Some? {
          MentionFindsRows(t, ql, k);
        }
      }
    }
  }

  /** A column whose values the query mentions gives a non-empty answer. */
  lemma MentionFindsRows(t: Table, ql: string, k: nat)
    requires k < |AssociateColumns| && AssociateColumns[k] in t.columns
    requires FirstMentioned(DistinctValues(t.rows, AssociateColumns[k]), ql).Some?
    ensures AssociatesFrom(t, ql, k).Ok? && AssociatesFrom(t, ql, k).value != []
  {
    var column := AssociateColumns[k];
    var names := DistinctValues(t.rows, column);
    var n := names[FirstMentioned(names, ql).value];
    assert n in names;
    var i :| 0 <= i < |t.rows| && Get(t.rows[i], column) == Text(n);
    assert NamedAs(column, Lower(n))(t.rows[i]);
    assert t.rows[i] in AssociatesFrom(t, ql, k).value;
  }

  /** The scan order: when the columns before `k` exist and mention nothing,
      and name `names[j]` is the first value of column `k`, in order of first
      appearance, that the query mentions, the result is exactly the rows
      whose column-`k` value equals that name, case-insensitively. When column
      `k` is missing instead, the scan raises `KeyError` for it. */
  lemma {:induction false} AssociatesFirstMention(t: Table, q: string, k: nat)
    requires k < |AssociateColumns|
    requires forall i :: 0 <= i < k ==> AssociateColumns[i] in t.columns && !Mentioned(t, Lower(q), i)
    ensures AssociateColumns[k] !in t.columns ==> AssociateMatches(t, q) == Err(KeyError(AssociateColumns[k]))
    ensures AssociateColumns[k] in t.columns && Mentioned(t, Lower(q), k) ==>
      var names := DistinctValues(t.rows, AssociateColumns[k]);
      var j := FirstMentioned(names, Lower(q)).value;
      && j < |names|
      && Contains(Lower(q), Lower(names[j]))
      && (forall i :: 0 <= i < j ==> !Contains(Lower(q), Lower(names[i])))
      && AssociateMatches(t, q).Ok?
      && forall row :: row in AssociateMatches(t, q).value <==>
           row in t.rows && Get(row, AssociateColumns[k]).Text?
           && Lower(Get(row, AssociateColumns[k]).text) == Lower(names[j])
  {
    var ql := Lower(q);
    var i := 0;
    while i < k
      invariant 0 <= i <= k
      invariant AssociatesFrom(t, ql, i) == AssociatesFrom(t, ql, 0)
    {
      MentionedIffFirstMentioned(t, ql, i);
      i := i + 1;
    }
    MentionedIffFirstMentioned(t, ql, k);
  }

  // ---------------------------------------------------------------------
  // match_floor_suite_property: re.findall(r'KEYWORD\s+([a-zA-Z0-9]+)', ...)
  // ---------------------------------------------------------------------

  /** Length of the run of whitespace at the start of `s`. */
  function SpaceRun(s: string): (n: nat)
    ensures n <= |s| && (forall i :: 0 <= i < n ==> IsSpace(s[i])) && (n < |s| ==> !IsSpace(s[n]))
  {
    if s != [] && IsSpace(s[0]) then 1 + SpaceRun(s[1..]) else 0
  }

  /** Length of the run of `[a-zA-Z0-9]` at the start of `s`. */
  function AlnumRun(s: string): (n: nat)
    ensures n <= |s| && (forall i :: 0 <= i < n ==> IsAlnum(s[i])) && (n < |s| ==> !IsAlnum(s[n]))
  {
    if s != [] && IsAlnum(s[0]) then 1 + AlnumRun(s[1..]) else 0
  }

  ghost predicate AllAlnum(t: string) { forall c :: c in t ==> IsAlnum(c) }

  /** The pattern `KEYWORD\s+([a-zA-Z0-9]+)` matches at the start of `s` with
      `w` whitespace characters and a token of `a` characters. */
  ghost predicate PatternAt(s: string, keyword: string, w: int, a: int) {
    && keyword <= s && 0 < w && 0 < a && |keyword| + w + a <= |s|
    && AllSpace(s[|keyword|..|keyword| + w])
    && AllAlnum(s[|keyword| + w..|keyword| + w + a])
  }

  /** One attempt of the pattern at the start of `s`: the captured token and
      the length of the whole match. `MatchAtMeaning` states what it answers
      in both directions. */
  function MatchAt(s: string, keyword: string): (r: Option<(string, nat)>)
    ensures r.Some? ==> var (token, n) := r.value;
      && keyword <= s && |keyword| < n <= |s| && |token| < n
      && token != [] && (forall i :: 0 <= i < |token| ==> IsAlnum(token[i]))
      && token == s[n - |token|..n]
      && (n < |s| ==> !IsAlnum(s[n]))
  {
    if !(keyword <= s) then None
    else
      var w := SpaceRun(s[|keyword|..]);
      var a := AlnumRun(s[|keyword| + w..]);
      if w == 0 || a == 0 then None
      else
        assert s[|keyword| + w..][a..] == s[|keyword| + w + a..];
        Some((s[|keyword| + w..|keyword| + w + a], |keyword| + w + a))
  }

  /** None exactly when the pattern cannot match at the start of `s`;
      otherwise the match is the keyword, whitespace, then the token, which
      is the longest run of `[a-zA-Z0-9]` that follows. `\s+` and the token
      class share no character, so the greedy match is the only one. */
  lemma MatchAtMeaning(s: string, keyword: string)
    ensures MatchAt(s, keyword).None? <==> forall w, a :: !PatternAt(s, keyword, w, a)
    ensures MatchAt(s, keyword).Some? ==> var (token, n) := MatchAt(s, keyword).value;
      PatternAt(s, keyword, n - |token| - |keyword|, |token|)
  {
    if keyword <= s {
      var w := SpaceRun(s[|keyword|..]);
      var a := AlnumRun(s[|keyword| + w..]);
      if w == 0 || a == 0 {
        NoPatternAt(s, keyword);
      } else {
        SomePatternAt(s, keyword, w, a);
      }
    }
  }

  lemma SomePatternAt(s: string, keyword: string, w: nat, a: nat)
    requires keyword <= s && w == SpaceRun(s[|keyword|..]) && a == AlnumRun(s[|keyword| + w..])
    requires w > 0 && a > 0
    ensures PatternAt(s, keyword, w, a)
  {
    var k := |keyword|;
    forall c | c in s[k..k + w] ensures IsSpace(c) {
      var i :| 0 <= i < w && s[k..k + w][i] == c;
      assert s[k..][i] == c;
    }
    forall c | c in s[k + w..k + w + a] ensures IsAlnum(c) {
      var i :| 0 <= i < a && s[k + w..k + w + a][i] == c;
      assert s[k + w..][i] == c;
    }
  }

  /** When the whitespace run after the keyword, or the alphanumeric run
      after that, is empty, the pattern matches with no split at all. */
  lemma NoPatternAt(s: string, keyword: string)
    requires keyword <= s
    requires var w := SpaceRun(s[|keyword|..]);
      w == 0 || AlnumRun(s[|keyword| + w..]) == 0
    ensures forall w, a :: !PatternAt(s, keyword, w, a)
  {
    var k := |keyword|;
    var sw := SpaceRun(s[k..]);
    var aw := AlnumRun(s[k + sw..]);
    forall w, a | 0 < w && 0 < a && k + w + a <= |s| ensures !PatternAt(s, keyword, w, a) {
      if w < sw {
        assert s[k..][w] == s[k + w] == s[k + w..k + w + a][0];
        assert !IsAlnum(s[k + w]);
      } else if w == sw {
        assert s[k + sw..][0] == s[k + w] == s[k + w..k + w + a][0];
        assert !IsAlnum(s[k + w]);
      } else {
        assert s[k..][sw] == s[k + sw] == s[k..k + w][sw];
        assert !IsSpace(s[k + sw]);
      }
    }
  }

  /** `re.findall`: scanning left to right, each match's token, the scan
      resuming after the match. */
  function FindTokens(s: string, keyword: string): (r: seq<string>)
    ensures forall token :: token in r ==> token != [] && forall i :: 0 <= i < |token| ==> IsAlnum(token[i])
    decreases |s|
  {
    if s == [] then []
    else
      match MatchAt(s, keyword)
      case Some((token, n)) => [token] + FindTokens(s[n..], keyword)
      case None => FindTokens(s[1..], keyword)
  }

  /** `findall` takes the match at the leftmost position where the pattern
      matches, then goes on after that match. */
  lemma FindTokensLeftmost(s: string, keyword: string, i: nat)
    requires i < |s| && MatchAt(s[i..], keyword).Some?
    requires forall j :: 0 <= j < i ==> MatchAt(s[j..], keyword).None?
    ensures var (token, n) := MatchAt(s[i..], keyword).value;
      i + n <= |s| && FindTokens(s, keyword) == [token] + FindTokens(s[i + n..], keyword)
  {
    FindTokensSkip(s, keyword, i);
    var n := MatchAt(s[i..], keyword).value.1;
    assert s[i..][n..] == s[i + n..];
  }

  /** Positions where the pattern does not match contribute nothing. */
  lemma {:induction false} FindTokensSkip(s: string, keyword: string, i: nat)
    requires i <= |s|
    requires forall j :: 0 <= j < i ==> MatchAt(s[j..], keyword).None?
    ensures FindTokens(s, keyword) == FindTokens(s[i..], keyword)
  {
    if i == 0 {
      assert s[0..] == s;
    } else {
      var t := s[1..];
      assert MatchAt(s[0..], keyword).None?;
      assert s[0..] == s;
      assert FindTokens(s, keyword) == FindTokens(t, keyword);
      forall j | 0 <= j < i - 1 ensures MatchAt(t[j..], keyword).None? {
        assert t[j..] == s[j + 1..];
      }
      FindTokensSkip(t, keyword, i - 1);
      assert t[i - 1..] == s[i..];
    }
  }

  /** Every token `findall` returns is the capture of a match at some
      position. */
  lemma {:induction false} FindTokensCaptures(s: string, keyword: string)
    ensures forall token :: token in FindTokens(s, keyword) ==> IsCapture(s, keyword, token)
    decreases |s|
  {
    if s != [] {
      var m := MatchAt(s, keyword);
      var skip := if m.Some? then m.value.1 else 1;
      var rest := FindTokens(s[skip..], keyword);
      FindTokensCaptures(s[skip..], keyword);
      forall token | token in rest ensures IsCapture(s, keyword, token) {
        CaptureShift(s, keyword, skip, token);
      }
      if m.Some? {
        assert FindTokens(s, keyword) == [m.value.0] + rest;
        assert s[0..] == s;
        assert IsCapture(s, keyword, m.value.0);
      } else {
        assert FindTokens(s, keyword) == rest;
      }
    }
  }

  /** A capture in a suffix of `s` is a capture in `s`. */
  lemma CaptureShift(s: string, keyword: string, m: nat, token: string)
    requires m <= |s| && IsCapture(s[m..], keyword, token)
    ensures IsCapture(s, keyword, token)
  {
    var i :| 0 <= i < |s[m..]| && MatchAt(s[m..][i..], keyword).Some?
      && MatchAt(s[m..][i..], keyword).value.0 == token;
    assert s[m..][i..] == s[m + i..];
  }

  /** `token` is what the pattern captures at some position of `s`. */
  ghost predicate IsCapture(s: string, keyword: string, token: string) {
    exists i :: 0 <= i < |s| && MatchAt(s[i..], keyword).Some? && MatchAt(s[i..], keyword).value.0 == token
  }

  /** `findall` finds nothing exactly when the pattern matches at no position. */
  lemma {:induction false} FindTokensEmptyIff(s: string, keyword: string)
    ensures FindTokens(s, keyword) == [] <==> forall i :: 0 <= i < |s| ==> MatchAt(s[i..], keyword).None?
    decreases |s|
  {
    if s != [] {
      assert s[0..] == s;
      if MatchAt(s, keyword).None? {
        FindTokensEmptyIff(s[1..], keyword);
        forall i | 1 <= i < |s| ensures s[i..] == s[1..][i - 1..] { }
      }
    }
  }

  function FloorTokens(q: string): seq<string> { FindTokens(Lower(q), "floor") }
  function SuiteTokens(q: string): seq<string> { FindTokens(Lower(q), "suite") }

  /** `df[column].str.lower().isin(tokens)`: NaN is never in the list. */
  function HasToken(column: string, tokens: seq<string>): Row -> bool {
    row => Get(row, column).Text? && Lower(Get(row, column).text) in tokens
  }

  /** The rows for one column, indexed only when tokens were found: without
      tokens nothing is looked up, so a missing column raises only when
      there are tokens. */
  function TokenRows(t: Table, column: string, tokens: seq<string>): (r: Result<seq<Row>>)
    ensures tokens == [] ==> r == Ok([])
    ensures r.Err? <==> tokens != [] && column !in t.columns
    ensures r.Err? ==> r.error == KeyError(column)
    ensures r.Ok? ==> forall row :: row in r.value <==> row in t.rows && HasToken(column, tokens)(row)
  {
    if tokens == [] then Ok([])
    else if column !in t.columns then Err(KeyError(column))
    else Ok(Filter(t.rows, HasToken(column, tokens)))
  }

  /** `match_floor_suite_property`: the floor matches, then the suite matches,
      without repeats. */
  function FloorSuiteMatches(t: Table, q: string): (r: Result<seq<Row>>)
    ensures FloorTokens(q) == [] && SuiteTokens(q) == [] ==> r == Ok([])
    ensures r == Err(KeyError("Floor")) <==> FloorTokens(q) != [] && "Floor" !in t.columns
    ensures r == Err(KeyError("Suite")) <==>
      (FloorTokens(q) == [] || "Floor" in t.columns) && SuiteTokens(q) != [] && "Suite" !in t.columns
    ensures r.Err? ==> r.error == KeyError("Floor") || r.error == KeyError("Suite")
    ensures r.Ok? ==> forall row :: row in r.value ==> row in t.rows
    ensures r.Ok? ==> NoDup(r.value) && forall row :: row in r.value <==>
      row in t.rows && (HasToken("Floor", FloorTokens(q))(row) || HasToken("Suite", SuiteTokens(q))(row))
  {
    match TokenRows(t, "Floor", FloorTokens(q))
    case Err(e) => Err(e)
    case Ok(floors) =>
      match TokenRows(t, "Suite", SuiteTokens(q))
      case Err(e) => Err(e)
      case Ok(suites) => Ok(Dedup(floors + suites))
  }

  /** The floor matches come first: a row a floor token picks is listed
      before a row only a suite token picks. */
  lemma FloorBeforeSuite(t: Table, q: string, i: nat, j: nat)
    requires FloorSuiteMatches(t, q).Ok?
    requires i < |FloorSuiteMatches(t, q).value| && j < |FloorSuiteMatches(t, q).value|
    requires HasToken("Floor", FloorTokens(q))(FloorSuiteMatches(t, q).value[i])
    requires !HasToken("Floor", FloorTokens(q))(FloorSuiteMatches(t, q).value[j])
    ensures i < j
  {
    var r := FloorSuiteMatches(t, q).value;
    var floors := TokenRows(t, "Floor", FloorTokens(q)).value;
    var suites := TokenRows(t, "Suite", SuiteTokens(q)).value;
    var all := floors + suites;
    assert r == Dedup(all);
    var x, y := r[i], r[j];
    assert x in r && y in r;
    assert x in floors && y !in floors;
    var fx, fy := FirstIndex(all, x), FirstIndex(all, y);
    var kx :| 0 <= kx < |floors| && floors[kx] == x;
    FirstIndexAtMost(all, x, kx);
    assert forall k :: 0 <= k < |floors| ==> all[k] == floors[k];
    assert all[fy] == y;
    if j < i {
      DedupKeepsFirstAppearanceOrder(all, j, i);
    }
  }

  // ---------------------------------------------------------------------
  // match_property_name
  // ---------------------------------------------------------------------

  const PropertyAddress := "Property Address"

  /** The default threshold of `match_property_name`. */
  const Threshold := 80

  /** A `fuzz.partial_ratio` score. */
  type Score = n: int | 0 <= n <= 100

  /** The similarity function, applied as `partial_ratio(query.lower(), address.lower())`. */
  type Scorer = (string, string) -> Score

  function Reaches(ql: string, score: Scorer, threshold: int): string -> bool {
    address => score(ql, Lower(address)) >= threshold
  }

  /** `df["Property Address"].isin(addresses)`. */
  function AtAddress(addresses: seq<string>): Row -> bool {
    row => Get(row, PropertyAddress).Text? && Get(row, PropertyAddress).text in addresses
  }

  /** `match_property_name`: the rows at every distinct address scoring at
      least the threshold; the threshold itself is included. */
  function PropertyMatches(t: Table, q: string, score: Scorer, threshold: int): (r: Result<seq<Row>>)
    ensures r.Err? <==> PropertyAddress !in t.columns
    ensures r.Err? ==> r.error == KeyError(PropertyAddress)
    ensures r.Ok? ==> forall row :: row in r.value ==> row in t.rows
    ensures r.Ok? ==> forall row :: row in r.value <==>
      row in t.rows && Get(row, PropertyAddress).Text?
      && score(Lower(q), Lower(Get(row, PropertyAddress).text)) >= threshold
    ensures r.Ok? ==> (r.value == [] <==>
      forall a :: a in DistinctValues(t.rows, PropertyAddress) ==> score(Lower(q), Lower(a)) < threshold)
  {
    if PropertyAddress !in t.columns then Err(KeyError(PropertyAddress))
    else
      var addresses := DistinctValues(t.rows, PropertyAddress);
      var hits := Filter(addresses, Reaches(Lower(q), score, threshold));
      if hits != [] then
        var a := hits[0];
        assert a in addresses;
        var i :| 0 <= i < |t.rows| && Get(t.rows[i], PropertyAddress) == Text(a);
        assert t.rows[i] in Filter(t.rows, AtAddress(hits));
        Ok(Filter(t.rows, AtAddress(hits)))
      else
        Ok([])
  }

  /** `match_property_name`, collecting the matching addresses in a loop. */
  method MatchPropertyName(t: Table, q: string, score: Scorer, threshold: int) returns (r: Result<seq<Row>>)
    ensures r == PropertyMatches(t, q, score, threshold)
  {
    if PropertyAddress !in t.columns {
      return Err(KeyError(PropertyAddress));
    }
    var ql := Lower(q);
    var addresses := DistinctValues(t.rows, PropertyAddress);
    var matches: seq<string> := [];
    for i := 0 to |addresses|
      invariant matches == Filter(addresses[..i], Reaches(ql, score, threshold))
    {
      assert addresses[..i + 1][..i] == addresses[..i];
      if score(ql, Lower(addresses[i])) >= threshold {
        matches := matches + [addresses[i]];
      }
    }
    assert addresses[..|addresses|] == addresses;
    if matches != [] {
      return Ok(Filter(t.rows, AtAddress(matches)));
    }
    return Ok([]);
  }

  // ---------------------------------------------------------------------
  // parse_and_filter
  // ---------------------------------------------------------------------

  /** The tail of `parse_and_filter`: drop the empty answers; with none left
      there is no result, otherwise the rest concatenated without repeats. */
  function Combine<T(==,!new)>(outputs: seq<seq<T>>): (r: Option<seq<T>>)
    ensures r.None? <==> forall k :: 0 <= k < |outputs| ==> outputs[k] == []
    ensures r.Some? ==> r.value == Dedup(Flatten(outputs))
    ensures r.Some? ==> (r.value != [] && NoDup(r.value)
      && forall x :: x in r.value <==> exists k :: 0 <= k < |outputs| && x in outputs[k])
  {
    var kept := Filter(outputs, NonEmpty);
    assert forall k :: 0 <= k < |outputs| && outputs[k] != [] ==> outputs[k] in kept;
    if kept == [] then None
    else
      assert kept[0] in outputs && kept[0] != [] && kept[0][0] in Flatten(kept);
      FlattenSkipsEmpty(outputs);
      Some(Dedup(Flatten(kept)))
  }

  /** Combined answers come in order of first appearance across the answers
      taken in their fixed order. */
  lemma CombineOrder<T(!new)>(outputs: seq<seq<T>>, i: nat, j: nat)
    requires Combine(outputs).Some? && i < j < |Combine(outputs).value|
    ensures var r := Combine(outputs).value;
      FirstIndex(Flatten(outputs), r[i]) < FirstIndex(Flatten(outputs), r[j])
  {
    DedupKeepsFirstAppearanceOrder(Flatten(outputs), i, j);
  }

  /** `parse_and_filter`: the four matchers run in the order price, associate,
      floor/suite, address; the first exception ends the query. */
  function ParseAndFilter(t: Table, q: string, score: Scorer): (r: Result<Option<seq<Row>>>)
    ensures r.Ok? <==> (PriceMatches(t, q).Ok? && AssociateMatches(t, q).Ok?
      && FloorSuiteMatches(t, q).Ok? && PropertyMatches(t, q, score, Threshold).Ok?)
    ensures r.Ok? ==> r.value == Combine(MatcherOutputs(t, q, score))
    ensures PriceMatches(t, q).Err? ==> r == Err(PriceMatches(t, q).error)
    ensures PriceMatches(t, q).Ok? && AssociateMatches(t, q).Err? ==>
      r == Err(AssociateMatches(t, q).error)
    ensures PriceMatches(t, q).Ok? && AssociateMatches(t, q).Ok? && FloorSuiteMatches(t, q).Err? ==>
      r == Err(FloorSuiteMatches(t, q).error)
    ensures
      (&& PriceMatches(t, q).Ok? && AssociateMatches(t, q).Ok? && FloorSuiteMatches(t, q).Ok?
       && PropertyMatches(t, q, score, Threshold).Err?) ==>
      r == Err(PropertyMatches(t, q, score, Threshold).error)
  {
    match PriceMatches(t, q)
    case Err(e) => Err(e)
    case Ok(price) =>
      match AssociateMatches(t, q)
      case Err(e) => Err(e)
      case Ok(associate) =>
        match FloorSuiteMatches(t, q)
        case Err(e) => Err(e)
        case Ok(location) =>
          match PropertyMatches(t, q, score, Threshold)
          case Err(e) => Err(e)
          case Ok(address) => Ok(Combine([price, associate, location, address]))
  }

  /** The four answers, in the order `parse_and_filter` lists them. */
  function MatcherOutputs(t: Table, q: string, score: Scorer): seq<seq<Row>>
    requires PriceMatches(t, q).Ok? && AssociateMatches(t, q).Ok?
    requires FloorSuiteMatches(t, q).Ok? && PropertyMatches(t, q, score, Threshold).Ok?
  {
    [PriceMatches(t, q).value, AssociateMatches(t, q).value,
     FloorSuiteMatches(t, q).value, PropertyMatches(t, q, score, Threshold).value]
  }

  /** What `parse_and_filter` promises when no matcher raises: no result
      exactly when every matcher found nothing; otherwise a non-empty answer
      without repeats, each of whose rows some matcher found and is a row of
      the table (so a listing two matchers found appears once). */
  lemma ParseAndFilterResult(t: Table, q: string, score: Scorer)
    requires ParseAndFilter(t, q, score).Ok?
    ensures var outputs := MatcherOutputs(t, q, score);
      && (ParseAndFilter(t, q, score).value.None? <==> forall k :: 0 <= k < 4 ==> outputs[k] == [])
      && (ParseAndFilter(t, q, score).value.Some? ==>
            var rows := ParseAndFilter(t, q, score).value.value;
            && rows != [] && NoDup(rows)
            && (forall row :: row in rows <==> exists k :: 0 <= k < 4 && row in outputs[k])
            && (forall row :: row in rows ==> row in t.rows))
  {
    MatchersFromTable(t, q, score);
  }

  /** Every matcher answers with rows of the table. */
  lemma MatchersFromTable(t: Table, q: string, score: Scorer)
    requires PriceMatches(t, q).Ok? && AssociateMatches(t, q).Ok?
    requires FloorSuiteMatches(t, q).Ok? && PropertyMatches(t, q, score, Threshold).Ok?
    ensures forall k, row :: 0 <= k < 4 && row in MatcherOutputs(t, q, score)[k] ==> row in t.rows
  {
    PriceOutputFromTable(t, q, score);
    AssociateOutputFromTable(t, q, score);
    FloorSuiteOutputFromTable(t, q, score);
    PropertyOutputFromTable(t, q, score);
    FromRows(MatcherOutputs(t, q, score), t.rows);
  }

  lemma PriceOutputFromTable(t: Table, q: string, score: Scorer)
    requires PriceMatches(t, q).Ok? && AssociateMatches(t, q).Ok?
    requires FloorSuiteMatches(t, q).Ok? && PropertyMatches(t, q, score, Threshold).Ok?
    ensures forall row :: row in MatcherOutputs(t, q, score)[0] ==> row in t.rows
  {
  }

  lemma AssociateOutputFromTable(t: Table, q: string, score: Scorer)
    requires PriceMatches(t, q).Ok? && AssociateMatches(t, q).Ok?
    requires FloorSuiteMatches(t, q).Ok? && PropertyMatches(t, q, score, Threshold).Ok?
    ensures forall row :: row in MatcherOutputs(t, q, score)[1] ==> row in t.rows
  {
  }

  lemma FloorSuiteOutputFromTable(t: Table, q: string, score: Scorer)
    requires PriceMatches(t, q).Ok? && AssociateMatches(t, q).Ok?
    requires FloorSuiteMatches(t, q).Ok? && PropertyMatches(t, q, score, Threshold).Ok?
    ensures forall row :: row in MatcherOutputs(t, q, score)[2] ==> row in t.rows
  {
  }

  lemma PropertyOutputFromTable(t: Table, q: string, score: Scorer)
    requires PriceMatches(t, q).Ok? && AssociateMatches(t, q).Ok?
    requires FloorSuiteMatches(t, q).Ok? && PropertyMatches(t, q, score, Threshold).Ok?
    ensures forall row :: row in MatcherOutputs(t, q, score)[3] ==> row in t.rows
  {
  }

  lemma FromRows(outputs: seq<seq<Row>>, rows: seq<Row>)
    requires |outputs| == 4
    requires forall row :: row in outputs[0] ==> row in rows
    requires forall row :: row in outputs[1] ==> row in rows
    requires forall row :: row in outputs[2] ==> row in rows
    requires forall row :: row in outputs[3] ==> row in rows
    ensures forall k, row :: 0 <= k < 4 && row in outputs[k] ==> row in rows
  {
    forall k, row | 0 <= k < 4 && row in outputs[k] ensures row in rows {
      if k == 0 {
      } else if k == 1 {
      } else if k == 2 {
      } else {
      }
    }
  }

  /** The answer lists rows in order of first appearance across the price,
      associate, floor/suite and address answers, in that order. */
  lemma ParseAndFilterOrder(t: Table, q: string, score: Scorer, i: nat, j: nat)
    requires ParseAndFilter(t, q, score).Ok? && ParseAndFilter(t, q, score).value.Some?
    requires i < j < |ParseAndFilter(t, q, score).value.value|
    ensures var rows := ParseAndFilter(t, q, score).value.value;
      var all := Flatten(MatcherOutputs(t, q, score));
      rows[i] in all && rows[j] in all && FirstIndex(all, rows[i]) < FirstIndex(all, rows[j])
  {
    CombineOrder(MatcherOutputs(t, q, score), i, j);
  }
}
