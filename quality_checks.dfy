/** The five per-row quality checks on a batch of LEI records and the step that
    attaches their results to the batch as new columns. */
module QualityChecks {
  import opened Frames

  // The five required columns, by their flattened dotted paths.
  const LeiColumn := "lei"
  const LegalNameColumn := "entity.legalName.name"
  const CountryColumn := "entity.legalAddress.country"
  const InitialDateColumn := "registration.initialRegistrationDate"
  const RenewalDateColumn := "registration.nextRenewalDate"
  const RequiredColumns: seq<string> :=
    [LeiColumn, LegalNameColumn, CountryColumn, InitialDateColumn, RenewalDateColumn]

  // The five flag columns the checks add, in the order they are added.
  const CompletenessColumn := "Completeness"
  const CountryValidColumn := "CountryValid"
  const DateConsistentColumn := "DateConsistent"
  const UniqueLeiColumn := "UniqueLEI"
  const NotExpiredColumn := "NotExpired"
  const FlagColumns: set<string> :=
    {CompletenessColumn, CountryValidColumn, DateConsistentColumn, UniqueLeiColumn, NotExpiredColumn}

  /** The column names the engine reads and writes are pairwise distinct. */
  lemma ColumnNamesDistinct()
    ensures {LeiColumn, LegalNameColumn, CountryColumn, InitialDateColumn, RenewalDateColumn} !! FlagColumns
    ensures InitialDateColumn != RenewalDateColumn && CompletenessColumn != CountryValidColumn
    ensures DateConsistentColumn != UniqueLeiColumn && UniqueLeiColumn != NotExpiredColumn
    ensures DateConsistentColumn != NotExpiredColumn
  {
  }

  /** A schema with nothing missing from the required columns has each of them. */
  lemma RequiredPresent(schema: set<string>)
    requires MissingFrom(schema, RequiredColumns) == {}
    ensures LeiColumn in schema && LegalNameColumn in schema && CountryColumn in schema
    ensures InitialDateColumn in schema && RenewalDateColumn in schema
  {
    assert LeiColumn in RequiredColumns && LegalNameColumn in RequiredColumns && CountryColumn in RequiredColumns;
    assert InitialDateColumn in RequiredColumns && RenewalDateColumn in RequiredColumns;
  }

  /** The five check results of one row. */
  datatype Flags = Flags(complete: bool, countryValid: bool, dateConsistent: bool,
                         uniqueLei: bool, notExpired: bool)

  /** The names of `names` that the schema lacks. */
  function MissingFrom(schema: set<string>, names: seq<string>): (m: set<string>)
    ensures forall c :: c in m <==> c in names && c !in schema
  {
    set c | c in names && c !in schema
  }

  /** `df[column]`: the column, or a lookup error when the schema lacks it. */
  function Lookup(schema: set<string>, rows: seq<Row>, column: string): (r: Result<seq<Cell>>)
    ensures r.Err? <==> column !in schema
    ensures r.Err? ==> r.error == MissingColumns({column})
    ensures r.Ok? ==> r.value == Column(rows, column)
  {
    if column in schema then Ok(Column(rows, column)) else Err(MissingColumns({column}))
  }

  // ---------------------------------------------------------------- Completeness

  /** Whether none of the cells of `row` in `names` is missing. */
  predicate NoneMissing(row: Row, names: seq<string>)
    ensures NoneMissing(row, names) <==> forall c :: c in names ==> CellOf(row, c).Some?
  {
    names == [] || (CellOf(row, names[0]).Some? && NoneMissing(row, names[1..]))
  }

  /** `check_completeness`: selecting the required columns fails when the schema
      lacks any of them; otherwise a row is complete iff its five required cells
      are all present. */
  function CheckCompleteness(schema: set<string>, rows: seq<Row>): (r: Result<seq<bool>>)
    ensures r.Err? <==> exists c :: c in RequiredColumns && c !in schema
    ensures r.Err? ==> r.error == MissingColumns(MissingFrom(schema, RequiredColumns))
    ensures r.Ok? ==> |r.value| == |rows|
    ensures r.Ok? ==> forall i :: 0 <= i < |rows| ==>
              (r.value[i] <==>
                 && CellOf(rows[i], LeiColumn).Some?
                 && CellOf(rows[i], LegalNameColumn).Some?
                 && CellOf(rows[i], CountryColumn).Some?
                 && CellOf(rows[i], InitialDateColumn).Some?
                 && CellOf(rows[i], RenewalDateColumn).Some?)
  {
    var missing := MissingFrom(schema, RequiredColumns);
    if missing != {} then
      assert exists c :: c in missing;
      Err(MissingColumns(missing))
    else
      Ok(seq(|rows|, i requires 0 <= i < |rows| => NoneMissing(rows[i], RequiredColumns)))
  }

  // ---------------------------------------------------------------- Country

  /** `check_country_validity`: a row is valid iff its country cell holds a string
      of the code set; a missing or non-string cell is not in the set. */
  function CheckCountryValidity(schema: set<string>, rows: seq<Row>, codes: set<string>)
    : (r: Result<seq<bool>>)
    ensures r.Err? <==> CountryColumn !in schema
    ensures r.Err? ==> r.error == MissingColumns({CountryColumn})
    ensures r.Ok? ==> |r.value| == |rows|
    ensures r.Ok? ==> forall i :: 0 <= i < |rows| ==>
              (r.value[i] <==> exists code :: code in codes && CellOf(rows[i], CountryColumn) == Some(Str(code)))
  {
    var country := Lookup(schema, rows, CountryColumn);
    if country.Err? then Err(country.error)
    else
      Ok(seq(|rows|, i requires 0 <= i < |rows| =>
               country.value[i].Some? && country.value[i].value.Str? && country.value[i].value.s in codes))
  }

  // ---------------------------------------------------------------- Dates

  /** What the date parser makes of a string: not a date, the explicit
      not-a-time value, or an instant. */
  datatype ParsedText = Invalid | NaT | At(instant: int)

  type DateParser = string -> ParsedText

  /** `pd.to_datetime` on one cell: a missing cell becomes NaT (`None`), an
      instant stays, a number is read as an offset on the time line, a string is
      handed to the parser, and a boolean or an unparseable string raises. */
  function ToDateTime(cell: Cell, column: string, parse: DateParser): (r: Result<Option<int>>)
    ensures r.Err? ==> r.error == UnparseableDate(column)
    ensures r.Err? <==> cell.Some? && (cell.value.Bool? || (cell.value.Str? && parse(cell.value.s) == Invalid))
    ensures r == Ok(None) <==> cell == None || (cell.value.Str? && parse(cell.value.s) == NaT)
    ensures cell.Some? && cell.value.Instant? ==> r == Ok(Some(cell.value.t))
  {
    match cell
    case None => Ok(None)
    case Some(Instant(t)) => Ok(Some(t))
    case Some(Num(n)) => Ok(Some(n))
    case Some(Bool(_)) => Err(UnparseableDate(column))
    case Some(Str(s)) =>
      match parse(s)
      case Invalid => Err(UnparseableDate(column))
      case NaT => Ok(None)
      case At(t) => Ok(Some(t))
  }

  /** `pd.to_datetime` on a whole column: it fails if any cell fails, and
      otherwise converts every cell. */
  function ToDateTimeColumn(cells: seq<Cell>, column: string, parse: DateParser)
    : (r: Result<seq<Option<int>>>)
    ensures r.Ok? <==> forall i :: 0 <= i < |cells| ==> ToDateTime(cells[i], column, parse).Ok?
    ensures r.Err? ==> r.error == UnparseableDate(column)
    ensures r.Ok? ==> |r.value| == |cells|
    ensures r.Ok? ==> forall i :: 0 <= i < |cells| ==> Ok(r.value[i]) == ToDateTime(cells[i], column, parse)
  {
    if cells == [] then Ok([])
    else
      var head := ToDateTime(cells[0], column, parse);
      if head.Err? then Err(head.error)
      else
        var tail := ToDateTimeColumn(cells[1..], column, parse);
        if tail.Err? then tail
        else
          assert forall i :: 1 <= i < |cells| ==> cells[1..][i - 1] == cells[i];
          Ok([head.value] + tail.value)
  }

  /** `pd.to_datetime(df[column])`: the lookup error comes first, then a parse error. */
  function ParseDates(schema: set<string>, rows: seq<Row>, column: string, parse: DateParser)
    : (r: Result<seq<Option<int>>>)
    ensures r.Ok? ==> column in schema && |r.value| == |rows|
    ensures r.Ok? ==> forall i :: 0 <= i < |rows| ==> Ok(r.value[i]) == ToDateTime(CellOf(rows[i], column), column, parse)
    ensures r.Err? <==> column !in schema || exists i :: 0 <= i < |rows| && ToDateTime(CellOf(rows[i], column), column, parse).Err?
    ensures r.Err? && column !in schema ==> r.error == MissingColumns({column})
    ensures r.Err? && column in schema ==> r.error == UnparseableDate(column)
  {
    var cells := Lookup(schema, rows, column);
    if cells.Err? then Err(cells.error) else ToDateTimeColumn(cells.value, column, parse)
  }

  /** The cell holding a parsed date; NaT is a missing cell. */
  function InstantCell(t: Option<int>): Cell
  {
    if t.Some? then Some(Instant(t.value)) else None
  }

  /** The cells holding a column of parsed dates. */
  function InstantCells(ts: seq<Option<int>>): (c: seq<Cell>)
    ensures |c| == |ts|
    ensures forall i :: 0 <= i < |ts| ==> c[i] == InstantCell(ts[i])
  {
    seq(|ts|, i requires 0 <= i < |ts| => InstantCell(ts[i]))
  }

  /** Parsing an already parsed column changes nothing, so a second
      `pd.to_datetime` on it gives back the same instants. */
  lemma ReparseIsIdentity(ts: seq<Option<int>>, column: string, parse: DateParser)
    ensures ToDateTimeColumn(InstantCells(ts), column, parse) == Ok(ts)
  {
    var r := ToDateTimeColumn(InstantCells(ts), column, parse);
    assert forall i :: 0 <= i < |ts| ==> ToDateTime(InstantCells(ts)[i], column, parse) == Ok(ts[i]);
    assert r.Ok?;
    assert |r.value| == |ts|;
    assert forall i :: 0 <= i < |ts| ==> r.value[i] == ts[i];
    assert r.value == ts;
  }

  /** `b > a` on two dates, where any comparison with NaT is false. */
  predicate After(b: Option<int>, a: Option<int>)
  {
    b.Some? && a.Some? && b.value > a.value
  }

  /** The value `check_date_consistency` returns: both date columns must parse
      (initial first), and a row is consistent iff its renewal date is strictly
      after its initial registration date, NaT on either side giving false. */
  function DateConsistency(schema: set<string>, rows: seq<Row>, parse: DateParser): (r: Result<seq<bool>>)
    ensures r.Ok? <==> ParseDates(schema, rows, InitialDateColumn, parse).Ok?
                       && ParseDates(schema, rows, RenewalDateColumn, parse).Ok?
    ensures r.Err? ==> r.error == if ParseDates(schema, rows, InitialDateColumn, parse).Err?
                                 then ParseDates(schema, rows, InitialDateColumn, parse).error
                                 else ParseDates(schema, rows, RenewalDateColumn, parse).error
    ensures r.Ok? ==> |r.value| == |rows|
    ensures r.Ok? ==> forall i :: 0 <= i < |rows| ==>
              var a := ParseDates(schema, rows, InitialDateColumn, parse).value[i];
              var b := ParseDates(schema, rows, RenewalDateColumn, parse).value[i];
              (r.value[i] <==> a.Some? && b.Some? && a.value < b.value)
  {
    var init := ParseDates(schema, rows, InitialDateColumn, parse);
    if init.Err? then Err(init.error)
    else
      var renew := ParseDates(schema, rows, RenewalDateColumn, parse);
      if renew.Err? then Err(renew.error)
      else Ok(seq(|rows|, i requires 0 <= i < |rows| => After(renew.value[i], init.value[i])))
  }

  /** The rows after lines that overwrite the two date columns with their parsed
      values: nothing changes when the initial column fails, and only the
      initial column changes when the renewal column then fails. */
  function ParsedDatesRows(schema: set<string>, rows: seq<Row>, parse: DateParser): (r: seq<Row>)
    ensures |r| == |rows|
    ensures ParseDates(schema, rows, InitialDateColumn, parse).Err? ==> r == rows
    ensures forall i :: 0 <= i < |rows| ==> rows[i].Keys <= r[i].Keys <= rows[i].Keys + {InitialDateColumn, RenewalDateColumn}
    ensures forall i, k :: 0 <= i < |rows| && k in rows[i] && k != InitialDateColumn && k != RenewalDateColumn ==>
              r[i][k] == rows[i][k]
    ensures ParseDates(schema, rows, InitialDateColumn, parse).Ok? ==>
              Column(r, InitialDateColumn) == InstantCells(ParseDates(schema, rows, InitialDateColumn, parse).value)
    ensures DateConsistency(schema, rows, parse).Ok? ==>
              Column(r, RenewalDateColumn) == InstantCells(ParseDates(schema, rows, RenewalDateColumn, parse).value)
  {
    var init := ParseDates(schema, rows, InitialDateColumn, parse);
    if init.Err? then rows
    else
      var withInit := SetColumn(rows, InitialDateColumn, InstantCells(init.value));
      var renew := ParseDates(schema, rows, RenewalDateColumn, parse);
      if renew.Err? then withInit
      else SetColumn(withInit, RenewalDateColumn, InstantCells(renew.value))
  }

  /** `check_date_consistency`: overwrites the two date columns of the frame in
      place with their parsed values, then compares them. */
  method CheckDateConsistency(df: Frame, parse: DateParser) returns (r: Result<seq<bool>>)
    requires df.Valid()
    modifies df
    ensures df.Valid() && df.schema == old(df.schema)
    ensures r == DateConsistency(old(df.schema), old(df.rows), parse)
    ensures df.rows == ParsedDatesRows(old(df.schema), old(df.rows), parse)
  {
    var init := ParseDates(df.schema, df.rows, InitialDateColumn, parse);
    if init.Err? {
      return Err(init.error);
    }
    df.Assign(InitialDateColumn, InstantCells(init.value));
    SetColumnKeepsOthers(old(df.rows), InitialDateColumn, InstantCells(init.value), RenewalDateColumn);
    var renew := ParseDates(df.schema, df.rows, RenewalDateColumn, parse);
    assert renew == ParseDates(old(df.schema), old(df.rows), RenewalDateColumn, parse);
    if renew.Err? {
      return Err(renew.error);
    }
    df.Assign(RenewalDateColumn, InstantCells(renew.value));
    var n := |df.rows|;
    r := Ok(seq(n, i requires 0 <= i < n => After(renew.value[i], init.value[i])));
  }

  // ---------------------------------------------------------------- Uniqueness

  /** Marks each cell that is neither in `seen` nor equal to an earlier cell:
      one left-to-right pass that remembers what it has met. */
  function FirstSeen(cells: seq<Cell>, seen: set<Cell>): (r: seq<bool>)
    ensures |r| == |cells|
    ensures forall i :: 0 <= i < |cells| ==>
              (r[i] <==> cells[i] !in seen && forall j :: 0 <= j < i ==> cells[j] != cells[i])
  {
    if cells == [] then []
    else
      var rest := FirstSeen(cells[1..], seen + {cells[0]});
      assert forall i :: 1 <= i < |cells| ==> cells[1..][i - 1] == cells[i];
      [cells[0] !in seen] + rest
  }

  /** `~duplicated()` with pandas' default of keeping the first occurrence: a cell
      is flagged iff no earlier cell equals it (two missing cells are equal). */
  function NotDuplicated(cells: seq<Cell>): (r: seq<bool>)
    ensures |r| == |cells|
    ensures forall i :: 0 <= i < |cells| ==> (r[i] <==> forall j :: 0 <= j < i ==> cells[j] != cells[i])
  {
    FirstSeen(cells, {})
  }

  /** `check_uniqueness`: a row is unique iff no earlier row has the same `lei`. */
  function CheckUniqueness(schema: set<string>, rows: seq<Row>): (r: Result<seq<bool>>)
    ensures r.Err? <==> LeiColumn !in schema
    ensures r.Err? ==> r.error == MissingColumns({LeiColumn})
    ensures r.Ok? ==> |r.value| == |rows|
    ensures r.Ok? ==> forall i :: 0 <= i < |rows| ==>
              (r.value[i] <==> forall j :: 0 <= j < i ==> CellOf(rows[j], LeiColumn) != CellOf(rows[i], LeiColumn))
  {
    var lei := Lookup(schema, rows, LeiColumn);
    if lei.Err? then Err(lei.error) else Ok(NotDuplicated(lei.value))
  }

  /** The number of true flags. */
  function CountTrue(flags: seq<bool>): nat
  {
    if flags == [] then 0 else (if flags[0] then 1 else 0) + CountTrue(flags[1..])
  }

  /** The distinct values of a column. */
  function Distinct(cells: seq<Cell>): set<Cell>
  {
    set c | c in cells
  }

  lemma {:induction false} FirstSeenCount(cells: seq<Cell>, seen: set<Cell>)
    ensures CountTrue(FirstSeen(cells, seen)) == |Distinct(cells) - seen|
  {
    if cells != [] {
      var c := cells[0];
      var rest := cells[1..];
      FirstSeenCount(rest, seen + {c});
      assert FirstSeen(cells, seen)[1..] == FirstSeen(rest, seen + {c});
      assert Distinct(cells) == {c} + Distinct(rest) by {
        assert forall x :: x in cells <==> x == c || x in rest;
      }
      if c in seen {
        assert Distinct(cells) - seen == Distinct(rest) - (seen + {c});
      } else {
        assert Distinct(cells) - seen == {c} + (Distinct(rest) - (seen + {c}));
      }
    } else {
      assert Distinct(cells) == {};
    }
  }

  /** As many rows are flagged unique as there are distinct `lei` values. */
  lemma UniqueCountIsDistinctCount(cells: seq<Cell>)
    ensures CountTrue(NotDuplicated(cells)) == |Distinct(cells)|
  {
    FirstSeenCount(cells, {});
  }

  /** The index of the first cell equal to `v`. */
  function FirstIndex(cells: seq<Cell>, v: Cell): (k: nat)
    requires v in cells
    ensures k < |cells| && cells[k] == v
    ensures forall j :: 0 <= j < k ==> cells[j] != v
  {
    if cells[0] == v then 0 else 1 + FirstIndex(cells[1..], v)
  }

  /** Every `lei` value is flagged at exactly one row, its first occurrence;
      every later occurrence is not flagged. */
  lemma FlaggedExactlyAtFirstOccurrence(cells: seq<Cell>, v: Cell)
    requires v in cells
    ensures NotDuplicated(cells)[FirstIndex(cells, v)]
    ensures forall i :: 0 <= i < |cells| && cells[i] == v ==>
                        (NotDuplicated(cells)[i] <==> i == FirstIndex(cells, v))
  {
  }

  /** `[A, B, A]` is flagged `[true, true, false]`. */
  lemma UniquenessExample(a: Cell, b: Cell)
    requires a != b
    ensures NotDuplicated([a, b, a]) == [true, true, false]
  {
  }

  // ---------------------------------------------------------------- Expiry

  /** `check_if_expired`: a row is not expired iff its renewal date is on or after
      `now`; NaT compares false. */
  function CheckIfExpired(schema: set<string>, rows: seq<Row>, parse: DateParser, now: int)
    : (r: Result<seq<bool>>)
    ensures r.Err? <==> ParseDates(schema, rows, RenewalDateColumn, parse).Err?
    ensures r.Err? ==> r.error == ParseDates(schema, rows, RenewalDateColumn, parse).error
    ensures r.Ok? ==> |r.value| == |rows|
    ensures r.Ok? ==> forall i :: 0 <= i < |rows| ==>
              var t := ParseDates(schema, rows, RenewalDateColumn, parse).value[i];
              (r.value[i] <==> t.Some? && t.value >= now)
  {
    var renew := ParseDates(schema, rows, RenewalDateColumn, parse);
    if renew.Err? then Err(renew.error)
    else Ok(seq(|rows|, i requires 0 <= i < |rows| => renew.value[i].Some? && renew.value[i].value >= now))
  }

  // ---------------------------------------------------------------- The engine

  /** A row as the engine leaves it: the five flag cells added, the two date
      cells replaced by their parsed values, every other cell as it was. */
  function Annotate(row: Row, init: Option<int>, renew: Option<int>, f: Flags): (r: Row)
    ensures r.Keys == row.Keys + {InitialDateColumn, RenewalDateColumn} + FlagColumns
    ensures forall k :: k in row && k !in FlagColumns && k != InitialDateColumn && k != RenewalDateColumn ==>
              r[k] == row[k]
    ensures r[InitialDateColumn] == InstantCell(init) && r[RenewalDateColumn] == InstantCell(renew)
    ensures && r[CompletenessColumn] == Some(Bool(f.complete))
            && r[CountryValidColumn] == Some(Bool(f.countryValid))
            && r[DateConsistentColumn] == Some(Bool(f.dateConsistent))
            && r[UniqueLeiColumn] == Some(Bool(f.uniqueLei))
            && r[NotExpiredColumn] == Some(Bool(f.notExpired))
  {
    row[CompletenessColumn := Some(Bool(f.complete))]
       [CountryValidColumn := Some(Bool(f.countryValid))]
       [InitialDateColumn := InstantCell(init)]
       [RenewalDateColumn := InstantCell(renew)]
       [DateConsistentColumn := Some(Bool(f.dateConsistent))]
       [UniqueLeiColumn := Some(Bool(f.uniqueLei))]
       [NotExpiredColumn := Some(Bool(f.notExpired))]
  }

  /** The seven column assignments of the engine, in order. */
  function EngineRows(rows: seq<Row>, complete: seq<Cell>, country: seq<Cell>, init: seq<Cell>,
                      renew: seq<Cell>, dates: seq<Cell>, unique: seq<Cell>, current: seq<Cell>): (r: seq<Row>)
    requires |complete| == |country| == |init| == |renew| == |dates| == |unique| == |current| == |rows|
    ensures |r| == |rows|
    ensures forall i :: 0 <= i < |rows| ==>
              && r[i].Keys == rows[i].Keys + {InitialDateColumn, RenewalDateColumn} + FlagColumns
              && r[i][CompletenessColumn] == complete[i] && r[i][CountryValidColumn] == country[i]
              && r[i][InitialDateColumn] == init[i] && r[i][RenewalDateColumn] == renew[i]
              && r[i][DateConsistentColumn] == dates[i] && r[i][UniqueLeiColumn] == unique[i]
              && r[i][NotExpiredColumn] == current[i]
    ensures forall i, k :: 0 <= i < |rows| && k in rows[i] && k !in FlagColumns
                           && k != InitialDateColumn && k != RenewalDateColumn
                           ==> r[i][k] == rows[i][k]
  {
    var flagged := SetColumn(SetColumn(rows, CompletenessColumn, complete), CountryValidColumn, country);
    var parsed := SetColumn(SetColumn(flagged, InitialDateColumn, init), RenewalDateColumn, renew);
    SetColumn(SetColumn(SetColumn(parsed, DateConsistentColumn, dates), UniqueLeiColumn, unique),
              NotExpiredColumn, current)
  }

  /** The batch `run_quality_checks` produces, as the sequence of column
      assignments it makes, every check evaluated on the batch as it came in.
      Once completeness has found the five required columns, only a date column
      that does not parse can still fail. */
  function CheckedRows(schema: set<string>, rows: seq<Row>, codes: set<string>, parse: DateParser, now: int)
    : (r: Result<seq<Row>>)
    ensures r.Ok? <==> && MissingFrom(schema, RequiredColumns) == {}
                       && ParseDates(schema, rows, InitialDateColumn, parse).Ok?
                       && ParseDates(schema, rows, RenewalDateColumn, parse).Ok?
    ensures r.Err? ==> r.error == if MissingFrom(schema, RequiredColumns) != {}
                                 then MissingColumns(MissingFrom(schema, RequiredColumns))
                                 else DateConsistency(schema, rows, parse).error
  {
    var complete := CheckCompleteness(schema, rows);
    if complete.Err? then Err(complete.error)
    else
      var dates := DateConsistency(schema, rows, parse);
      if dates.Err? then Err(dates.error)
      else
        assert CountryColumn in RequiredColumns && LeiColumn in RequiredColumns;
        var country := CheckCountryValidity(schema, rows, codes).value;
        var unique := CheckUniqueness(schema, rows).value;
        var current := CheckIfExpired(schema, rows, parse, now).value;
        var init := ParseDates(schema, rows, InitialDateColumn, parse).value;
        var renew := ParseDates(schema, rows, RenewalDateColumn, parse).value;
        Ok(EngineRows(rows, BoolCells(complete.value), BoolCells(country), InstantCells(init),
                      InstantCells(renew), BoolCells(dates.value), BoolCells(unique), BoolCells(current)))
  }

  /** What a successful run does to the batch: the same rows in the same order,
      each annotated with the results of the five checks at its own position. */
  lemma CheckedRowsAreAnnotated(schema: set<string>, rows: seq<Row>, codes: set<string>, parse: DateParser, now: int)
    requires CheckedRows(schema, rows, codes, parse, now).Ok?
    ensures |CheckedRows(schema, rows, codes, parse, now).value| == |rows|
    ensures forall i :: 0 <= i < |rows| ==>
              CheckedRows(schema, rows, codes, parse, now).value[i] ==
              Annotate(rows[i],
                       ParseDates(schema, rows, InitialDateColumn, parse).value[i],
                       ParseDates(schema, rows, RenewalDateColumn, parse).value[i],
                       Flags(CheckCompleteness(schema, rows).value[i],
                             CheckCountryValidity(schema, rows, codes).value[i],
                             DateConsistency(schema, rows, parse).value[i],
                             CheckUniqueness(schema, rows).value[i],
                             CheckIfExpired(schema, rows, parse, now).value[i]))
  {
    assert CountryColumn in RequiredColumns && LeiColumn in RequiredColumns;
  }

  /** The country check reads only the country column. */
  lemma CountryReadsOnlyCountry(s1: set<string>, r1: seq<Row>, s2: set<string>, r2: seq<Row>, codes: set<string>)
    requires (CountryColumn in s1 <==> CountryColumn in s2) && Column(r1, CountryColumn) == Column(r2, CountryColumn)
    ensures CheckCountryValidity(s1, r1, codes) == CheckCountryValidity(s2, r2, codes)
  {
    assert |r1| == |Column(r1, CountryColumn)|;
  }

  /** The uniqueness check reads only the `lei` column. */
  lemma UniquenessReadsOnlyLei(s1: set<string>, r1: seq<Row>, s2: set<string>, r2: seq<Row>)
    requires (LeiColumn in s1 <==> LeiColumn in s2) && Column(r1, LeiColumn) == Column(r2, LeiColumn)
    ensures CheckUniqueness(s1, r1) == CheckUniqueness(s2, r2)
  {
  }

  /** Parsing reads only the parsed column. */
  lemma ParseReadsOnlyColumn(s1: set<string>, r1: seq<Row>, s2: set<string>, r2: seq<Row>, column: string, parse: DateParser)
    requires (column in s1 <==> column in s2) && Column(r1, column) == Column(r2, column)
    ensures ParseDates(s1, r1, column, parse) == ParseDates(s2, r2, column, parse)
  {
  }

  /** The expiry check reads only the parsed renewal column. */
  lemma ExpiryReadsOnlyRenewal(s1: set<string>, r1: seq<Row>, s2: set<string>, r2: seq<Row>, parse: DateParser, now: int)
    requires ParseDates(s1, r1, RenewalDateColumn, parse) == ParseDates(s2, r2, RenewalDateColumn, parse)
    requires |r1| == |r2|
    ensures CheckIfExpired(s1, r1, parse, now) == CheckIfExpired(s2, r2, parse, now)
  {
  }

  /** After the dates are parsed and two more flags are assigned, the renewal
      column holds the parsed renewal dates. */
  lemma RenewalAfterParse(rows: seq<Row>, init: seq<Option<int>>, renew: seq<Option<int>>,
                          dates: seq<bool>, unique: seq<bool>)
    requires |init| == |renew| == |dates| == |unique| == |rows|
    ensures var parsed := SetColumn(SetColumn(rows, InitialDateColumn, InstantCells(init)),
                                    RenewalDateColumn, InstantCells(renew));
            Column(SetColumn(SetColumn(parsed, DateConsistentColumn, BoolCells(dates)), UniqueLeiColumn, BoolCells(unique)),
                   RenewalDateColumn) == InstantCells(renew)
  {
  }

  /** The two flags assigned before the dates are parsed leave the date columns alone. */
  lemma DatesUnchangedByFlags(rows: seq<Row>, complete: seq<Cell>, country: seq<Cell>)
    requires |complete| == |country| == |rows|
    ensures var flagged := SetColumn(SetColumn(rows, CompletenessColumn, complete), CountryValidColumn, country);
            && Column(flagged, InitialDateColumn) == Column(rows, InitialDateColumn)
            && Column(flagged, RenewalDateColumn) == Column(rows, RenewalDateColumn)
  {
  }

  /** No assignment the engine makes before the uniqueness check touches `lei`. */
  lemma LeiUnchangedByEngine(rows: seq<Row>, complete: seq<Cell>, country: seq<Cell>,
                             init: seq<Cell>, renew: seq<Cell>, dates: seq<Cell>)
    requires |complete| == |country| == |init| == |renew| == |dates| == |rows|
    ensures Column(SetColumn(SetColumn(SetColumn(SetColumn(SetColumn(rows, CompletenessColumn, complete),
                       CountryValidColumn, country), InitialDateColumn, init), RenewalDateColumn, renew),
                       DateConsistentColumn, dates), LeiColumn)
            == Column(rows, LeiColumn)
  {
  }

  /** `run_quality_checks`: assigns the five flag columns into the frame in place,
      one check after the other. When a date column does not parse, the two flags
      assigned before it stay, as does the initial date column if it was parsed. */
  method RunQualityChecks(df: Frame, codes: set<string>, parse: DateParser, now: int) returns (r: Outcome)
    requires df.Valid()
    modifies df
    ensures df.Valid()
    ensures var spec := CheckedRows(old(df.schema), old(df.rows), codes, parse, now);
      && (r.Pass? <==> spec.Ok?)
      && (spec.Ok? ==> df.schema == old(df.schema) + FlagColumns && df.rows == spec.value)
      && (spec.Err? ==> r == Fail(spec.error))
    ensures r.Fail? && MissingFrom(old(df.schema), RequiredColumns) != {} ==>
              df.schema == old(df.schema) && df.rows == old(df.rows)
    ensures r.Fail? && MissingFrom(old(df.schema), RequiredColumns) == {} ==>
              var flagged := SetColumn(SetColumn(old(df.rows),
                                 CompletenessColumn, BoolCells(CheckCompleteness(old(df.schema), old(df.rows)).value)),
                                 CountryValidColumn, BoolCells(CheckCountryValidity(old(df.schema), old(df.rows), codes).value));
              && df.schema == old(df.schema) + {CompletenessColumn, CountryValidColumn}
              && df.rows == ParsedDatesRows(df.schema, flagged, parse)
  {
    ghost var schema0, rows0 := df.schema, df.rows;
    var complete := CheckCompleteness(df.schema, df.rows);
    if complete.Err? {
      return Fail(complete.error);
    }
    ColumnNamesDistinct();
    RequiredPresent(schema0);
    df.Assign(CompletenessColumn, BoolCells(complete.value));
    SetColumnKeepsOthers(rows0, CompletenessColumn, BoolCells(complete.value), CountryColumn);
    CountryReadsOnlyCountry(df.schema, df.rows, schema0, rows0, codes);
    var country := CheckCountryValidity(df.schema, df.rows, codes);
    assert country == CheckCountryValidity(schema0, rows0, codes);
    df.Assign(CountryValidColumn, BoolCells(country.value));
    ghost var schema1, rows1 := df.schema, df.rows;
    DatesUnchangedByFlags(rows0, BoolCells(complete.value), BoolCells(country.value));
    ParseReadsOnlyColumn(schema1, rows1, schema0, rows0, InitialDateColumn, parse);
    ParseReadsOnlyColumn(schema1, rows1, schema0, rows0, RenewalDateColumn, parse);
    var dates := CheckDateConsistency(df, parse);
    if dates.Err? {
      assert CheckedRows(schema0, rows0, codes, parse, now) == Err(dates.error);
      return Fail(dates.error);
    }
    ghost var init := ParseDates(schema0, rows0, InitialDateColumn, parse).value;
    ghost var renew := ParseDates(schema0, rows0, RenewalDateColumn, parse).value;
    df.Assign(DateConsistentColumn, BoolCells(dates.value));
    LeiUnchangedByEngine(rows0, BoolCells(complete.value), BoolCells(country.value),
                         InstantCells(init), InstantCells(renew), BoolCells(dates.value));
    UniquenessReadsOnlyLei(df.schema, df.rows, schema0, rows0);
    var unique := CheckUniqueness(df.schema, df.rows);
    assert unique == CheckUniqueness(schema0, rows0);
    df.Assign(UniqueLeiColumn, BoolCells(unique.value));
    ReparseIsIdentity(renew, RenewalDateColumn, parse);
    RenewalAfterParse(rows1, init, renew, dates.value, unique.value);
    ExpiryReadsOnlyRenewal(df.schema, df.rows, schema0, rows0, parse, now);
    var current := CheckIfExpired(df.schema, df.rows, parse, now);
    assert current == CheckIfExpired(schema0, rows0, parse, now);
    df.Assign(NotExpiredColumn, BoolCells(current.value));
    assert df.rows == EngineRows(rows0, BoolCells(complete.value), BoolCells(country.value), InstantCells(init),
                                 InstantCells(renew), BoolCells(dates.value), BoolCells(unique.value),
                                 BoolCells(current.value));
    assert df.schema == schema0 + FlagColumns;
    return Pass;
  }
}
