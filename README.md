# LEI record quality pipeline, modelled in Dafny

This project models the core of a pipeline that grades Legal Entity Identifier
(LEI) records, and it proves properties of that model. The pipeline has three parts:

- **Flattening.** Each GLEIF record's `attributes` object loses six identifier
  keys, and its nested dictionaries and lists are flattened into dotted
  column names (`entity.legalAddress.country`, `entity.otherNames.1.name`).
- **Checks.** A batch of flat rows goes through five per-row checks:
  completeness of five required fields, a valid ISO alpha-2 country code,
  the renewal date strictly after the initial registration date, the first
  occurrence of its `lei`, and a renewal date not yet passed. The checks
  write their results into the batch as five new boolean columns.
- **Scoring.** A weighted score (40/15/15/15/15) is computed from the five
  flags, and a label (Poor, Moderate, Good) from the bins (-1, 60],
  (60, 80] and (80, 100].

Files:

- `frames.dfy` (module `Frames`): cells, rows, errors, and the data frame
  `Frame`. A frame is a class whose rows are reassigned when a column is set.
- `quality_checks.dfy` (module `QualityChecks`): the five checks as functions
  of the batch. It also holds the two in-place steps of the engine, as methods
  on a `Frame`: the overwriting of the date columns and the assignment of the
  five flag columns.
- `scoring.dfy` (module `Scoring`): the score and label, the loop that sums the
  weighted flag columns, and the assignment of the score and label columns.
- `leaf_nodes.dfy` (module `LeafNodes`): the JSON value datatype, the
  recursive flattening method, and the per-record pop-then-flatten step with
  an object that is popped in place.

How the model represents the data:

- **Cells.** A cell is `Option<Value>`, where `None` stands for null, NaN and NaT.
- **Rows and batches.** A row maps column names to cells. A batch is a schema
  (the set of column names) plus a sequence of rows.
- **Missing columns.** Indexing a column that is not in the schema is an error
  (`MissingColumns`), as a `KeyError` is in the source.
- **Dates.** A date is an `Option<int>`: an instant on a fixed time line, or NaT.
- **Parameters.** Date parsing is a parameter `parse: string -> ParsedText`
  (not a date, NaT, or an instant). So are the current instant `now` and the
  set of valid country codes.

Two behaviours of the code that a reader might expect to be otherwise:

- **Uniqueness.** `~df["lei"].duplicated()` uses pandas' default `keep='first'`.
  The first row with a given `lei` therefore counts as unique, and only later
  rows with the same `lei` are flagged: `[A, B, A]` gives `[true, true, false]`.
  Not every row that shares an identifier is flagged. Two missing `lei` cells
  count as equal.
- **Dates that do not parse.** A bad date raises, and the whole run fails; it
  does not give a per-row `false`. The run then stops with the frame partly
  updated: the Completeness and CountryValid columns are already there, and
  the initial date column stays parsed when only the renewal column fails.

## Model

| member | source | states |
|---|---|---|
| Frames.Frame.Assign | utils/data_quality_checks.py:29-33 | `df[column] = values` sets the column in every row (adding it to the schema if new) and keeps every row's keys equal to the schema |
| Frames.SetColumnKeepsOthers | utils/data_quality_checks.py:29-33 | assigning one column leaves every other column of the batch as it was |
| Frames.SetColumnReadBack | utils/data_quality_checks.py:29-33 | reading back an assigned column gives exactly the assigned values |
| Frames.SetColumn | utils/data_quality_checks.py:29-33 | after `df[column] = values` each row has its old columns plus `column`, holds `values[i]` there, and keeps every other cell |
| Frames.Frame.CellsFollowSchema | utils/data_quality_checks.py:7 | in a valid frame every schema column is stored in every row, and a column outside the schema reads as missing |
| QualityChecks.CheckCompleteness | utils/data_quality_checks.py:4-8 | fails with the set of missing names iff a required column is absent from the schema; otherwise one flag per row, true iff all five required cells are non-null |
| QualityChecks.CheckCountryValidity | utils/data_quality_checks.py:10-13 | fails iff the country column is absent; otherwise a row is valid iff its country cell is a string in the code set (null and non-strings give false) |
| QualityChecks.Lookup | utils/data_quality_checks.py:13 | `df[column]` raises a missing-column error iff the column is outside the schema, and otherwise gives that column of every row |
| QualityChecks.ToDateTime | utils/data_quality_checks.py:17-18 | converting a cell fails iff it is a boolean or a string the parser rejects; it gives NaT iff the cell is missing or the parser says NaT; an instant converts to itself |
| QualityChecks.ToDateTimeColumn | utils/data_quality_checks.py:17-18 | converting a column succeeds iff every cell converts, and then converts each cell on its own, in order |
| QualityChecks.ParseDates | utils/data_quality_checks.py:17-18 | parsing a date column fails with a lookup error when it is absent, with a parse error when some cell does not parse, and otherwise gives one date per row |
| QualityChecks.ParsedDatesRows | utils/data_quality_checks.py:17-18 | overwriting the date columns changes nothing when the initial column fails; only the two date columns can change or be added; on success each holds its parsed dates, and the initial column does even when the renewal column fails |
| QualityChecks.ReparseIsIdentity | utils/data_quality_checks.py:25 | converting an already converted column again gives back the same dates |
| QualityChecks.DateConsistency | utils/data_quality_checks.py:15-19 | succeeds iff both date columns parse (the initial column's error first); a row is consistent iff both dates exist and renewal is strictly later (equal dates and NaT give false) |
| QualityChecks.CheckDateConsistency | utils/data_quality_checks.py:15-19 | returns that result and overwrites the date columns in the frame with their parsed values, only the initial one when the renewal column fails, and nothing else |
| QualityChecks.NotDuplicated | utils/data_quality_checks.py:22 | a cell is flagged iff no earlier cell equals it |
| QualityChecks.CheckUniqueness | utils/data_quality_checks.py:21-22 | fails iff `lei` is absent; otherwise a row is unique iff no earlier row has the same `lei` |
| QualityChecks.FirstSeenCount | utils/data_quality_checks.py:22 | the one-pass marking of first occurrences flags as many cells as there are distinct values not already seen |
| QualityChecks.UniqueCountIsDistinctCount | utils/data_quality_checks.py:22 | the number of rows flagged unique equals the number of distinct `lei` values |
| QualityChecks.FlaggedExactlyAtFirstOccurrence | utils/data_quality_checks.py:22 | each `lei` value is flagged at its first occurrence and at no later occurrence |
| QualityChecks.UniquenessExample | utils/data_quality_checks.py:22 | `[A, B, A]` gives `[true, true, false]` |
| QualityChecks.CheckIfExpired | utils/data_quality_checks.py:24-25 | fails iff the renewal column does not parse; otherwise a row is current iff its renewal date exists and is on or after `now` (inclusive) |
| QualityChecks.Annotate | utils/data_quality_checks.py:28-34 | a row as the engine leaves it has its old columns plus the five flag columns; its date cells hold the parsed dates, its flag cells the given flags, and every other cell is unchanged |
| QualityChecks.EngineRows | utils/data_quality_checks.py:29-33 | after the seven assignments each row has its old columns plus the two date and five flag columns, holds the assigned cell in each of them, and keeps every other cell |
| QualityChecks.CheckedRows | utils/data_quality_checks.py:28-34 | the engine succeeds iff no required column is missing and both date columns parse, and reports the first error otherwise |
| QualityChecks.CheckedRowsAreAnnotated | utils/data_quality_checks.py:28-34 | on success, row count and order are kept and every row is annotated with its own check results and parsed dates |
| QualityChecks.CountryReadsOnlyCountry | utils/data_quality_checks.py:13 | the country check depends only on the country column |
| QualityChecks.UniquenessReadsOnlyLei | utils/data_quality_checks.py:22 | the uniqueness check depends only on the `lei` column |
| QualityChecks.ParseReadsOnlyColumn | utils/data_quality_checks.py:17-18 | parsing a date column depends only on that column |
| QualityChecks.ExpiryReadsOnlyRenewal | utils/data_quality_checks.py:25 | the expiry check depends only on the parsed renewal dates |
| QualityChecks.DatesUnchangedByFlags | utils/data_quality_checks.py:29-31 | the first two flag assignments leave both date columns unchanged |
| QualityChecks.LeiUnchangedByEngine | utils/data_quality_checks.py:29-32 | no assignment before the uniqueness check changes the `lei` column |
| QualityChecks.RenewalAfterParse | utils/data_quality_checks.py:31-33 | by the time the expiry check runs, the renewal column holds the parsed renewal dates |
| QualityChecks.RunQualityChecks | utils/data_quality_checks.py:28-34 | passes iff the engine succeeds, leaving exactly the annotated rows with the five flag columns added; on a missing column nothing changes; on a date error it leaves the two earlier flags and the partly parsed dates |
| Scoring.Score | utils/scoring.py:3-13 | the weighted flag sum lies in 0..100 and in {0, 15, 30, 40, 45, 55, 60, 70, 85, 100}, and equals 40 for completeness plus 15 per other flag |
| Scoring.EveryReachableScoreOccurs | utils/scoring.py:3-13 | each of the ten reachable scores is the score of some flag combination |
| Scoring.ScoreExtremes | utils/scoring.py:3-13 | all flags give 100, none give 0, completeness alone gives 40 |
| Scoring.Cut | utils/scoring.py:16-20 | a score gets Poor iff it is in (-1, 60], Moderate iff in (60, 80], Good iff in (80, 100], and no label otherwise |
| Scoring.LabelIsTotal | utils/scoring.py:16-20 | every reachable score has a label |
| Scoring.LabelIsMonotone | utils/scoring.py:16-20 | a higher score never gets a worse label |
| Scoring.LabelBoundaries | utils/scoring.py:16-20 | 0 and 60 are Poor, 61, 70 and 80 Moderate, 81, 85 and 100 Good; -1 and 101 get no label |
| Scoring.LabelCell | utils/scoring.py:16-20 | the label cell is Poor on (-1, 60], Moderate on (60, 80], Good on (80, 100], and missing outside (-1, 100] |
| Scoring.IncompleteIsPoor | utils/scoring.py:3-20 | a row that is not complete scores at most 60 and is Poor |
| Scoring.CompleteLabelByCount | utils/scoring.py:3-20 | a complete row is Poor with at most one other flag, Moderate with two, Good with three or four |
| Scoring.EndToEndExample | utils/scoring.py:3-20 | a complete, date-consistent, unique record with an invalid country code and a passed renewal date scores 40 + 15 + 15 = 70, which is Moderate |
| Scoring.AsInt | utils/scoring.py:13 | `astype(int)` turns true into 1 and false into 0, and fails only with a conversion error |
| Scoring.AsIntColumn | utils/scoring.py:13 | casting a column succeeds iff every cell casts, and then casts each cell in order |
| Scoring.PartialScores | utils/scoring.py:11-13 | summing the first k weighted columns fails iff one of them is missing or cannot be cast, and the error names one of those columns |
| Scoring.FirstErrorStops | utils/scoring.py:12-13 | the first flag column that is missing or cannot be cast decides the error; later columns are not reached |
| Scoring.PartialScoresOfBooleanFlags | utils/scoring.py:11-13 | after k weighted columns, each boolean-flagged row holds the sum of its first k weighted flags |
| Scoring.ScoresOfBooleanFlags | utils/scoring.py:11-13 | rows whose flag columns hold booleans are scored without error, each with the weighted sum of its flags |
| Scoring.FlagCell | utils/scoring.py:12-13 | the k-th weighted column of a flagged row holds the k-th flag |
| Scoring.PartialSumIsScore | utils/scoring.py:3-13 | summing all five weights in dictionary order gives the score |
| Scoring.ScoredRows | utils/scoring.py:11-20 | scoring succeeds iff the weighted sum can be formed, with the same error otherwise |
| Scoring.ScoringKeepsRows | utils/scoring.py:15-20 | scoring keeps the rows, adds only the score and label columns, and leaves every other cell, the flags among them, unchanged |
| Scoring.AnnotatedFlags | utils/scoring.py:12-13 | a row annotated by the checks carries its five flags as booleans |
| Scoring.FlaggedRowsAreScored | utils/scoring.py:11-20 | rows with boolean flags get the weighted sum of their own flags as score and the label of that score |
| Scoring.CheckedRowsAreScored | utils/scoring.py:11-20 | every row the checks accept is scored with the weighted sum of its own five check results and labelled |
| Scoring.CalculateQualityScore | utils/scoring.py:2-22 | passes iff the scoring succeeds, and then adds exactly the score and label columns of every row; on failure reports the error and leaves the frame unchanged |
| LeafNodes.NatToString | utils/fetch_data.py:32-33 | a list index is written as a non-empty numeral without a dot |
| LeafNodes.ExtractLeafNodes | utils/fetch_data.py:23-40 | the recursive walk with its two loops computes exactly the flat map of dotted paths |
| LeafNodes.MemberSource | utils/fetch_data.py:27-29 | every key of a dictionary's map comes from the last member that produces it and carries its value |
| LeafNodes.MembersSource | utils/fetch_data.py:27-29 | the same for all keys at once |
| LeafNodes.MembersLastWins | utils/fetch_data.py:27-29 | a key produced by a member and by no later member is in the map with that member's value |
| LeafNodes.ItemSource | utils/fetch_data.py:31-34 | every key of a list's map comes from the last element that produces it and carries its value |
| LeafNodes.ItemsSource | utils/fetch_data.py:31-34 | the same for all keys at once |
| LeafNodes.ItemsLastWins | utils/fetch_data.py:31-34 | a key produced by an element and by no later element is in the map with that element's value |
| LeafNodes.FullKey | utils/fetch_data.py:28 | a member key is the bare key at the top level, and `parent.` followed by the key below a non-empty parent |
| LeafNodes.IndexKey | utils/fetch_data.py:32-33 | an element key is always `parent.` followed by the element number, even at the top level |
| LeafNodes.Leaves | utils/fetch_data.py:36-38 | a scalar gives exactly one key, its parent key, holding the scalar |
| LeafNodes.MembersLeaves | utils/fetch_data.py:26-29 | a dictionary with no members gives no keys, and every key its last member produces is in the result |
| LeafNodes.ItemsLeaves | utils/fetch_data.py:31-34 | an empty list gives no keys, and every key its last element produces is in the result |
| LeafNodes.LeavesUnderParent | utils/fetch_data.py:26-38 | a scalar occupies exactly its parent key; under a non-empty parent every key of a dictionary or list starts with `parent.` |
| LeafNodes.LeavesAreUnder | utils/fetch_data.py:26-38 | every output key is the parent key or lies below it |
| LeafNodes.TopLevelDictKey | utils/fetch_data.py:28 | every top-level key is one of the member keys or lies below it (no dot is prepended at the top level), and carries the value of the last member producing it |
| LeafNodes.ListElementsNumberedFromOne | utils/fetch_data.py:32-33 | the element at position j is flattened under `parent.(j+1)` |
| LeafNodes.ValuesAreLeaves | utils/fetch_data.py:36-38 | every value of the flat map is one of the input's scalars |
| LeafNodes.EmptyIffNoLeaf | utils/fetch_data.py:26-34 | the flat map is empty iff the input holds no scalar, so empty dictionaries and lists contribute nothing |
| LeafNodes.LastProducer | utils/fetch_data.py:27-29 | every key some member produces appears in the dictionary's map |
| LeafNodes.LastItemProducer | utils/fetch_data.py:31-34 | every key some element produces appears in the list's map |
| LeafNodes.CollidingPathsExample | utils/fetch_data.py:29 | a member `a.b` followed by `a: {b: ...}` keeps the later value |
| LeafNodes.TopLevelListExample | utils/fetch_data.py:32-33 | a list at the top level yields the keys `.1`, `.2` |
| LeafNodes.Without | utils/fetch_data.py:53 | removing a key keeps exactly the other members and their keys |
| LeafNodes.LastValue | utils/fetch_data.py:52 | the value found for a present key belongs to a member with that key |
| LeafNodes.Get | utils/fetch_data.py:52 | `item['attributes']` fails on a non-dictionary or absent key, and otherwise returns a member's value |
| LeafNodes.PopKeys | utils/fetch_data.py:53 | popping keys in order only removes members, keeps every member whose key is not popped, and on failure reports a popped key that is absent from what is left |
| LeafNodes.PopKeysSucceeds | utils/fetch_data.py:53 | popping distinct keys succeeds iff all are present, reports a missing one otherwise, and leaves exactly the members whose key was not popped |
| LeafNodes.JsonObject.Pop | utils/fetch_data.py:53 | `pop` without default removes the key from the object and returns its value, or raises for an absent key and changes nothing |
| LeafNodes.FlattenedItem | utils/fetch_data.py:52-55 | the flat record exists only when the item has an attributes object, and the only errors are a non-dictionary, a missing `attributes` key or a missing removed key |
| LeafNodes.FlattenItem | utils/fetch_data.py:52-55 | looks up the attributes, pops the six keys in place one after the other, then flattens what is left |
| LeafNodes.FlattenFailsOnMissingKey | utils/fetch_data.py:52-53 | the transform fails iff the attributes are missing or not an object, or one of the six keys is absent, which is then reported |
| LeafNodes.RemoveKeysDistinct | utils/fetch_data.py:17 | the six removed keys are pairwise distinct |
| LeafNodes.PoppedKeysAreGone | utils/fetch_data.py:53-55 | after popping, no flattened key has a popped key as its first segment, given non-empty dot-free member keys |
| LeafNodes.RemovedKeysAreGone | utils/fetch_data.py:53-55 | no key of a flattened record starts with one of the six removed keys, given non-empty dot-free attribute keys |
| LeafNodes.PoppedKeysNeedDotFreeKeys | utils/fetch_data.py:53-55 | without dot-free keys the guarantee fails: popping `bic` from members `bic` and `bic.x` leaves the key `bic.x`, whose first segment is `bic` |

## Left out

- `app.py` (dashboard, charts, widgets, the label help texts) is not part of this model; nor is `utils/utils.py` (a database query).
- The module-level side effects of `utils/fetch_data.py` are not modelled. These are the working-directory change, the environment loading, the engine creation and the fetch performed on import. They are I/O.
- The GLEIF HTTP request, its status check and the loop that collects the flat records into a list (`utils/fetch_data.py:43-51`, `56-60`) are I/O around the modelled per-record step.
- The SQL table creation, the column adding and the insertion of new LEIs (`utils/fetch_data.py:64-101`) are database behaviour.
- Parsing date strings, including time zones, is not modelled. It is the parameter `parse`. A comparison between time-zone-aware and naive dates, which raises in pandas, is not modelled.
- QualityChecks.ToDateTimeColumn: parses each cell on its own. pandas 2 `to_datetime` without a `format` instead infers one format from the first non-null string, and raises on cells written in another format.
- The clock `pd.Timestamp.today(tz='utc')` is the parameter `now`.
- The contents of `pycountry.countries` are the parameter `codes`.
- Floating-point values are not modelled: numbers are integers and a float NaN is a missing cell.
- pandas dtypes, index alignment, the categorical dtype of the label column and column order are not modelled; the schema is a set.
- Scoring.AsInt: treats every string as not convertible, whereas pandas casts a string of digits to its integer.
- A modelled JSON dictionary may repeat a key, which a Python dict cannot. Lookups take the last member with the key and `pop` removes every member with it, which agrees with Python whenever the keys are distinct.
- LeafNodes.FlattenItem: pops from a fresh object holding the attributes. The popped keys are therefore not visible through the enclosing item, as they are in the source, where the item and its attributes are aliased.
