/** The weighted quality score of each row and its bucketed label. */
module Scoring {
  import opened Frames
  import opened QualityChecks

  /** The flag columns and their weights, in the order they are summed. */
  const Weights: seq<(string, int)> := [
    (CompletenessColumn, 40),
    (CountryValidColumn, 15),
    (DateConsistentColumn, 15),
    (UniqueLeiColumn, 15),
    (NotExpiredColumn, 15)
  ]

  const ScoreColumn := "QualityScore"
  const LabelColumn := "QualityLabel"

  datatype Label = Poor | Moderate | Good

  /** The category text of a label. */
  function LabelName(l: Label): string
  {
    match l
    case Poor => "Poor"
    case Moderate => "Moderate"
    case Good => "Good"
  }

  /** The order of the labels: Poor below Moderate below Good. */
  function Rank(l: Label): nat
  {
    match l
    case Poor => 0
    case Moderate => 1
    case Good => 2
  }

  // ---------------------------------------------------------------- Score of a flag set

  function BoolToInt(b: bool): int
  {
    if b then 1 else 0
  }

  /** Every score a row can get. */
  const ReachableScores: set<int> := {0, 15, 30, 40, 45, 55, 60, 70, 85, 100}

  /** The weighted sum of the five flags. */
  function Score(f: Flags): (s: int)
    ensures 0 <= s <= 100
    ensures s in ReachableScores
    ensures s == 40 * BoolToInt(f.complete) + 15 * CountOthers(f)
  {
    40 * BoolToInt(f.complete) + 15 * BoolToInt(f.countryValid) + 15 * BoolToInt(f.dateConsistent)
      + 15 * BoolToInt(f.uniqueLei) + 15 * BoolToInt(f.notExpired)
  }

  /** How many of the four flags other than completeness hold. */
  function CountOthers(f: Flags): (n: nat)
    ensures n <= 4
  {
    BoolToInt(f.countryValid) + BoolToInt(f.dateConsistent) + BoolToInt(f.uniqueLei) + BoolToInt(f.notExpired)
  }

  /** Each value of the reachable set is the score of some flag set. */
  lemma EveryReachableScoreOccurs(s: int)
    requires s in ReachableScores
    ensures exists f :: Score(f) == s
  {
    if s == 0 { assert Score(Flags(false, false, false, false, false)) == 0; }
    else if s == 15 { assert Score(Flags(false, true, false, false, false)) == 15; }
    else if s == 30 { assert Score(Flags(false, true, true, false, false)) == 30; }
    else if s == 40 { assert Score(Flags(true, false, false, false, false)) == 40; }
    else if s == 45 { assert Score(Flags(false, true, true, true, false)) == 45; }
    else if s == 55 { assert Score(Flags(true, true, false, false, false)) == 55; }
    else if s == 60 { assert Score(Flags(false, true, true, true, true)) == 60; }
    else if s == 70 { assert Score(Flags(true, true, true, false, false)) == 70; }
    else if s == 85 { assert Score(Flags(true, true, true, true, false)) == 85; }
    else { assert Score(Flags(true, true, true, true, true)) == 100; }
  }

  /** All flags give 100, no flag gives 0, completeness alone gives 40. */
  lemma ScoreExtremes()
    ensures Score(Flags(true, true, true, true, true)) == 100
    ensures Score(Flags(false, false, false, false, false)) == 0
    ensures Score(Flags(true, false, false, false, false)) == 40
  {
  }

  // ---------------------------------------------------------------- Label of a score

  /** `pd.cut` with the right-closed bins (-1, 60], (60, 80], (80, 100]: a score
      outside (-1, 100] gets no label (NaN). */
  function Cut(score: int): (l: Option<Label>)
    ensures l.Some? <==> -1 < score <= 100
    ensures l == Some(Poor) <==> -1 < score <= 60
    ensures l == Some(Moderate) <==> 60 < score <= 80
    ensures l == Some(Good) <==> 80 < score <= 100
  {
    if score <= -1 then None
    else if score <= 60 then Some(Poor)
    else if score <= 80 then Some(Moderate)
    else if score <= 100 then Some(Good)
    else None
  }

  /** Every score a flag set can get has a label. */
  lemma LabelIsTotal(f: Flags)
    ensures Cut(Score(f)).Some?
  {
  }

  /** A higher score never gets a worse label. */
  lemma LabelIsMonotone(s1: int, s2: int)
    requires -1 < s1 <= s2 <= 100
    ensures Rank(Cut(s1).value) <= Rank(Cut(s2).value)
  {
  }

  /** The bucket edges: 0 and 60 are Poor, 61, 70 and 80 Moderate, 81 and 85 Good;
      -1 and 101 fall outside every bin. */
  lemma LabelBoundaries()
    ensures Cut(0) == Some(Poor) && Cut(60) == Some(Poor)
    ensures Cut(61) == Some(Moderate) && Cut(70) == Some(Moderate) && Cut(80) == Some(Moderate)
    ensures Cut(81) == Some(Good) && Cut(85) == Some(Good) && Cut(100) == Some(Good)
    ensures Cut(-1) == None && Cut(101) == None
  {
  }

  /** An incomplete row scores at most 60 and is therefore Poor. */
  lemma IncompleteIsPoor(f: Flags)
    requires !f.complete
    ensures Score(f) <= 60
    ensures Cut(Score(f)) == Some(Poor)
  {
  }

  /** A complete row's label depends only on how many of the other four flags
      hold: at most one gives Poor, two give Moderate, three or four give Good. */
  lemma CompleteLabelByCount(f: Flags)
    requires f.complete
    ensures CountOthers(f) <= 1 ==> Cut(Score(f)) == Some(Poor)
    ensures CountOthers(f) == 2 ==> Cut(Score(f)) == Some(Moderate)
    ensures CountOthers(f) >= 3 ==> Cut(Score(f)) == Some(Good)
  {
  }

  /** A complete, unique, date-consistent record with no valid country and a past
      renewal date scores 70, which is Moderate. */
  lemma EndToEndExample()
    ensures Score(Flags(true, false, true, true, false)) == 70
    ensures Cut(70) == Some(Moderate)
  {
  }

  // ---------------------------------------------------------------- The frame step

  /** `astype(int)` on one cell: booleans become 0 or 1, numbers and instants
      their integer; a missing cell or a string cannot be cast. */
  function AsInt(cell: Cell, column: string): (r: Result<int>)
    ensures r.Err? ==> r.error == NotConvertible(column)
    ensures cell == Some(Bool(true)) ==> r == Ok(1)
    ensures cell == Some(Bool(false)) ==> r == Ok(0)
  {
    match cell
    case Some(Bool(b)) => Ok(BoolToInt(b))
    case Some(Num(n)) => Ok(n)
    case Some(Instant(t)) => Ok(t)
    case Some(Str(_)) => Err(NotConvertible(column))
    case None => Err(NotConvertible(column))
  }

  /** `astype(int)` on a column: it fails if any cell fails. */
  function AsIntColumn(cells: seq<Cell>, column: string): (r: Result<seq<int>>)
    ensures r.Ok? <==> forall i :: 0 <= i < |cells| ==> AsInt(cells[i], column).Ok?
    ensures r.Err? ==> r.error == NotConvertible(column)
    ensures r.Ok? ==> |r.value| == |cells|
    ensures r.Ok? ==> forall i :: 0 <= i < |cells| ==> Ok(r.value[i]) == AsInt(cells[i], column)
  {
    if cells == [] then Ok([])
    else
      var head := AsInt(cells[0], column);
      if head.Err? then Err(head.error)
      else
        var tail := AsIntColumn(cells[1..], column);
        if tail.Err? then tail
        else
          assert forall i :: 1 <= i < |cells| ==> cells[1..][i - 1] == cells[i];
          Ok([head.value] + tail.value)
  }

  /** The score column after the first `k` weighted flag columns are added in:
      the first column that is missing or cannot be cast stops the sum. */
  function PartialScores(schema: set<string>, rows: seq<Row>, k: nat): (r: Result<seq<int>>)
    requires k <= |Weights|
    ensures r.Ok? ==> |r.value| == |rows|
    ensures r.Err? <==> exists j :: 0 <= j < k && (Weights[j].0 !in schema
                                                  || AsIntColumn(Column(rows, Weights[j].0), Weights[j].0).Err?)
    ensures r.Err? ==> exists j :: 0 <= j < k && (r.error == MissingColumns({Weights[j].0})
                                                 || r.error == NotConvertible(Weights[j].0))
  {
    if k == 0 then Ok(seq(|rows|, _ => 0))
    else
      var prev := PartialScores(schema, rows, k - 1);
      if prev.Err? then prev
      else
        var (check, weight) := Weights[k - 1];
        var cells := Lookup(schema, rows, check);
        if cells.Err? then Err(cells.error)
        else
          var ints := AsIntColumn(cells.value, check);
          if ints.Err? then Err(ints.error)
          else Ok(seq(|rows|, i requires 0 <= i < |rows| => prev.value[i] + ints.value[i] * weight))
  }

  /** Once a column stops the sum, the later columns are not looked at. */
  lemma {:induction false} FirstErrorStops(schema: set<string>, rows: seq<Row>, k: nat, m: nat)
    requires k <= m <= |Weights|
    requires PartialScores(schema, rows, k).Err?
    ensures PartialScores(schema, rows, m) == PartialScores(schema, rows, k)
    decreases m - k
  {
    if k < m {
      FirstErrorStops(schema, rows, k, m - 1);
    }
  }

  /** The five flags of a row whose flag cells all hold booleans. */
  predicate HasBooleanFlags(row: Row)
  {
    && CellOf(row, CompletenessColumn).Some? && CellOf(row, CompletenessColumn).value.Bool?
    && CellOf(row, CountryValidColumn).Some? && CellOf(row, CountryValidColumn).value.Bool?
    && CellOf(row, DateConsistentColumn).Some? && CellOf(row, DateConsistentColumn).value.Bool?
    && CellOf(row, UniqueLeiColumn).Some? && CellOf(row, UniqueLeiColumn).value.Bool?
    && CellOf(row, NotExpiredColumn).Some? && CellOf(row, NotExpiredColumn).value.Bool?
  }

  function FlagsOf(row: Row): Flags
    requires HasBooleanFlags(row)
  {
    Flags(CellOf(row, CompletenessColumn).value.b, CellOf(row, CountryValidColumn).value.b,
          CellOf(row, DateConsistentColumn).value.b, CellOf(row, UniqueLeiColumn).value.b,
          CellOf(row, NotExpiredColumn).value.b)
  }

  /** Rows whose five flag columns hold booleans are scored without error, each
      with the weighted sum of its flags. */
  lemma ScoresOfBooleanFlags(schema: set<string>, rows: seq<Row>)
    requires FlagColumns <= schema
    requires forall i :: 0 <= i < |rows| ==> HasBooleanFlags(rows[i])
    ensures PartialScores(schema, rows, |Weights|).Ok?
    ensures forall i :: 0 <= i < |rows| ==> PartialScores(schema, rows, |Weights|).value[i] == Score(FlagsOf(rows[i]))
  {
    PartialScoresOfBooleanFlags(schema, rows, |Weights|);
    forall i | 0 <= i < |rows| ensures PartialSum(FlagsOf(rows[i]), |Weights|) == Score(FlagsOf(rows[i])) {
      PartialSumIsScore(FlagsOf(rows[i]));
    }
  }

  /** After `k` weighted columns, each row holds the sum of its first `k` weighted flags. */
  lemma {:induction false} PartialScoresOfBooleanFlags(schema: set<string>, rows: seq<Row>, k: nat)
    requires k <= |Weights| && FlagColumns <= schema
    requires forall i :: 0 <= i < |rows| ==> HasBooleanFlags(rows[i])
    ensures PartialScores(schema, rows, k).Ok?
    ensures forall i :: 0 <= i < |rows| ==> PartialScores(schema, rows, k).value[i] == PartialSum(FlagsOf(rows[i]), k)
  {
    if k > 0 {
      PartialScoresOfBooleanFlags(schema, rows, k - 1);
      var check := Weights[k - 1].0;
      assert check in FlagColumns;
      forall i | 0 <= i < |rows| ensures AsInt(CellOf(rows[i], check), check) == Ok(BoolToInt(FlagAt(FlagsOf(rows[i]), k - 1))) {
        FlagCell(rows[i], k - 1);
      }
    }
  }

  /** The `k`-th weighted column of a row with boolean flags holds the `k`-th flag. */
  lemma FlagCell(row: Row, k: nat)
    requires HasBooleanFlags(row) && k < |Weights|
    ensures CellOf(row, Weights[k].0) == Some(Bool(FlagAt(FlagsOf(row), k)))
  {
  }

  /** Summing all five weights gives the score. */
  lemma PartialSumIsScore(f: Flags)
    ensures PartialSum(f, |Weights|) == Score(f)
  {
    assert PartialSum(f, 1) == 40 * BoolToInt(f.complete);
    assert PartialSum(f, 2) == PartialSum(f, 1) + 15 * BoolToInt(f.countryValid);
    assert PartialSum(f, 3) == PartialSum(f, 2) + 15 * BoolToInt(f.dateConsistent);
    assert PartialSum(f, 4) == PartialSum(f, 3) + 15 * BoolToInt(f.uniqueLei);
  }

  /** The flag that the `k`-th weight multiplies. */
  function FlagAt(f: Flags, k: nat): bool
    requires k < |Weights|
  {
    if k == 0 then f.complete
    else if k == 1 then f.countryValid
    else if k == 2 then f.dateConsistent
    else if k == 3 then f.uniqueLei
    else f.notExpired
  }

  /** The sum of the first `k` weighted flags. */
  function PartialSum(f: Flags, k: nat): int
    requires k <= |Weights|
  {
    if k == 0 then 0 else PartialSum(f, k - 1) + BoolToInt(FlagAt(f, k - 1)) * Weights[k - 1].1
  }

  /** The batch `calculate_quality_score` produces: the score column and its label
      column added. */
  function ScoredRows(schema: set<string>, rows: seq<Row>): (r: Result<seq<Row>>)
    ensures r.Ok? <==> PartialScores(schema, rows, |Weights|).Ok?
    ensures r.Err? ==> r.error == PartialScores(schema, rows, |Weights|).error
  {
    var scores := PartialScores(schema, rows, |Weights|);
    if scores.Err? then Err(scores.error)
    else Ok(SetColumn(SetColumn(rows, ScoreColumn, ScoreCells(scores.value)), LabelColumn, LabelCells(scores.value)))
  }

  function ScoreCells(scores: seq<int>): (c: seq<Cell>)
    ensures |c| == |scores|
    ensures forall i :: 0 <= i < |scores| ==> c[i] == Some(Num(scores[i]))
  {
    seq(|scores|, i requires 0 <= i < |scores| => Some(Num(scores[i])))
  }

  /** The label cell of a score; a score outside every bin gets a missing cell. */
  function LabelCell(score: int): (c: Cell)
    ensures c.Some? <==> -1 < score <= 100
    ensures -1 < score <= 60 ==> c == Some(Str("Poor"))
    ensures 60 < score <= 80 ==> c == Some(Str("Moderate"))
    ensures 80 < score <= 100 ==> c == Some(Str("Good"))
  {
    match Cut(score)
    case Some(l) => Some(Str(LabelName(l)))
    case None => None
  }

  function LabelCells(scores: seq<int>): (c: seq<Cell>)
    ensures |c| == |scores|
    ensures forall i :: 0 <= i < |scores| ==> c[i] == LabelCell(scores[i])
  {
    seq(|scores|, i requires 0 <= i < |scores| => LabelCell(scores[i]))
  }

  /** Scoring keeps every row in place, adds only the score and label columns,
      and leaves every other cell, the flag cells among them, as it was. */
  lemma ScoringKeepsRows(schema: set<string>, rows: seq<Row>)
    requires ScoredRows(schema, rows).Ok?
    ensures var r := ScoredRows(schema, rows).value;
      && |r| == |rows|
      && (forall i :: 0 <= i < |rows| ==> r[i].Keys == rows[i].Keys + {ScoreColumn, LabelColumn})
      && (forall i, k :: 0 <= i < |rows| && k in rows[i] && k != ScoreColumn && k != LabelColumn ==>
                         r[i][k] == rows[i][k])
      && (forall i :: 0 <= i < |rows| ==>
            var s := PartialScores(schema, rows, |Weights|).value[i];
            r[i][ScoreColumn] == Some(Num(s)) && r[i][LabelColumn] == LabelCell(s))
  {
  }

  /** The five check results of row `i` of a batch the checks accept. */
  function CheckFlags(schema: set<string>, rows: seq<Row>, codes: set<string>, parse: DateParser, now: int, i: nat): Flags
    requires CheckedRows(schema, rows, codes, parse, now).Ok? && i < |rows|
  {
    assert CountryColumn in RequiredColumns && LeiColumn in RequiredColumns;
    Flags(CheckCompleteness(schema, rows).value[i],
          CheckCountryValidity(schema, rows, codes).value[i],
          DateConsistency(schema, rows, parse).value[i],
          CheckUniqueness(schema, rows).value[i],
          CheckIfExpired(schema, rows, parse, now).value[i])
  }

  /** An annotated row carries its five flags as booleans. */
  lemma AnnotatedFlags(row: Row, init: Option<int>, renew: Option<int>, f: Flags)
    ensures HasBooleanFlags(Annotate(row, init, renew, f))
    ensures FlagsOf(Annotate(row, init, renew, f)) == f
  {
  }

  /** Rows carrying the boolean flags `flags` are scored, row by row, with the
      weighted sum of their flags, and every such score has a label. */
  lemma FlaggedRowsAreScored(schema: set<string>, rows: seq<Row>, flags: seq<Flags>)
    requires FlagColumns <= schema && |flags| == |rows|
    requires forall i :: 0 <= i < |rows| ==> HasBooleanFlags(rows[i]) && FlagsOf(rows[i]) == flags[i]
    ensures ScoredRows(schema, rows).Ok?
    ensures |ScoredRows(schema, rows).value| == |rows|
    ensures forall i :: 0 <= i < |rows| ==>
              && ScoredRows(schema, rows).value[i][ScoreColumn] == Some(Num(Score(flags[i])))
              && Cut(Score(flags[i])).Some?
              && ScoredRows(schema, rows).value[i][LabelColumn] == Some(Str(LabelName(Cut(Score(flags[i])).value)))
  {
    ScoresOfBooleanFlags(schema, rows);
    ScoringKeepsRows(schema, rows);
  }

  /** Checks and then scoring: every row the checks accept is scored with the
      weighted sum of its own five check results, and that score has a label. */
  lemma CheckedRowsAreScored(schema: set<string>, rows: seq<Row>, codes: set<string>, parse: DateParser, now: int)
    requires CheckedRows(schema, rows, codes, parse, now).Ok?
    ensures var checked := CheckedRows(schema, rows, codes, parse, now).value;
      && ScoredRows(schema + FlagColumns, checked).Ok?
      && |ScoredRows(schema + FlagColumns, checked).value| == |rows|
      && forall i :: 0 <= i < |rows| ==>
           var s := Score(CheckFlags(schema, rows, codes, parse, now, i));
           && ScoredRows(schema + FlagColumns, checked).value[i][ScoreColumn] == Some(Num(s))
           && Cut(s).Some?
           && ScoredRows(schema + FlagColumns, checked).value[i][LabelColumn] == Some(Str(LabelName(Cut(s).value)))
  {
    var checked := CheckedRows(schema, rows, codes, parse, now).value;
    var flags := seq(|rows|, i requires 0 <= i < |rows| => CheckFlags(schema, rows, codes, parse, now, i));
    CheckedRowsAreAnnotated(schema, rows, codes, parse, now);
    forall i | 0 <= i < |rows|
      ensures HasBooleanFlags(checked[i]) && FlagsOf(checked[i]) == flags[i]
    {
      AnnotatedFlags(rows[i], ParseDates(schema, rows, InitialDateColumn, parse).value[i],
                     ParseDates(schema, rows, RenewalDateColumn, parse).value[i], flags[i]);
    }
    FlaggedRowsAreScored(schema + FlagColumns, checked, flags);
  }

  /** `calculate_quality_score`: sums the weighted flag columns in a loop, then
      assigns the score and label columns into the frame in place. */
  method CalculateQualityScore(df: Frame) returns (r: Outcome)
    requires df.Valid()
    modifies df
    ensures df.Valid()
    ensures var spec := ScoredRows(old(df.schema), old(df.rows));
      && (r.Pass? <==> spec.Ok?)
      && (spec.Ok? ==> df.schema == old(df.schema) + {ScoreColumn, LabelColumn} && df.rows == spec.value)
      && (spec.Err? ==> r == Fail(spec.error) && df.schema == old(df.schema) && df.rows == old(df.rows))
  {
    var n := |df.rows|;
    var score: seq<int> := seq(n, _ => 0);
    var k := 0;
    while k < |Weights|
      invariant 0 <= k <= |Weights|
      invariant PartialScores(df.schema, df.rows, k) == Ok(score)
      invariant df.schema == old(df.schema) && df.rows == old(df.rows)
    {
      var (check, weight) := Weights[k];
      if check !in df.schema {
        FirstErrorStops(df.schema, df.rows, k + 1, |Weights|);
        return Fail(MissingColumns({check}));
      }
      var ints := AsIntColumn(Column(df.rows, check), check);
      if ints.Err? {
        FirstErrorStops(df.schema, df.rows, k + 1, |Weights|);
        return Fail(ints.error);
      }
      score := seq(n, i requires 0 <= i < n => score[i] + ints.value[i] * weight);
      k := k + 1;
    }
    df.Assign(ScoreColumn, ScoreCells(score));
    df.Assign(LabelColumn, LabelCells(score));
    return Pass;
  }
}
