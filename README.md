# Traffic-violation pipeline: a Dafny model

This project models the data-processing core of a small traffic-violation
pipeline. The pipeline is written in PySpark (`test_spark.py`) and comes with
plain Python list examples (`Assingment.py`). It models five parts:

- **Ingestion** (`ingestion.dfy`): `read_data` picks a Spark reader from the
  lower-cased file extension, as `os.path.splitext` computes it, and raises
  "Unsupported file format. Use CSV or JSON." for any other extension.
- **Cleaning** (`cleaning.dfy`): the four DataFrame steps, in their source order.
  1. A null `vehicle_type` becomes "Unknown".
  2. Rows with a null `violation_id` are dropped.
  3. `timestamp` is converted, and an unparseable value becomes null.
  4. Only rows whose `violation_type` is Speeding, Red Light, Illegal Turn or
     Illegal Parking are kept.
- **Enrichment** (`enrichment.dfy`): `latitude` and `longitude` are parts 0 and 1
  of the location's comma split, cast to double. They are set only when the
  location contains a comma.
- **Report** (`report.dfy`): the summary counts. These are the row total, the
  null count per column, the violation-type and vehicle-type distributions, and
  the numbers of rows with a latitude and with a longitude.
- **Speed checks** (`speed_check.dfy`): the speeds above a limit, the sorted
  speeds, and the number of speeds above the limit.

`job.dfy` chains read, clean, enrich and report into one run. `records.dfy`
holds the row types of each stage: raw rows, rows with a parsed timestamp, and
rows with coordinates. `seqs.dfy` holds the frame operations the stages share:
filter, projection, group-by count and the sum of a map's values.
`wrappers.dfy` holds `Option` and `Result`.

The model is pure throughout, as the source is. Each DataFrame statement
returns a new frame, so each stage is a function from a sequence of rows to a
sequence of rows. Spark's `to_timestamp` and its string-to-double cast are
passed in as parameters: functions from a string to an `Option`, where `None`
means the text did not parse. Reading a file is the parameter `load` of
`Job.Run`.

Three facts about the code shape what is proved:

- Each coordinate column comes from its own cast. A location such as "40.7,abc"
  therefore gives a latitude and no longitude (`Enrichment.LatitudeWithoutLongitude`).
  The two columns are not always null together.
- Parts 0 and 1 of the comma split are taken however many parts there are, so
  "a,b,c" gives the same coordinates as "a,b" (`Enrichment.CoordinatesFromParts`).
- Only the model's row types differ between the input and the output of the
  cleaning chain: the timestamp is a string going in and a parsed timestamp
  coming out. Run again on its own output, the chain is the identity, since
  `to_timestamp` returns a timestamp column unchanged and the fill and the
  filters then do nothing (`Cleaning.CleanIdempotent`, through `Cleaning.Reclean`).
  Each step's idempotence is stated as well (`Cleaning.CleaningStepsIdempotent`),
  and so is the pass of clean rows read with string timestamps
  (`Cleaning.CleanFixedPoint`).

## Model

| member | source | states |
|---|---|---|
| Ingestion.LastIndexOf | test_spark.py:55 | the result is -1 or an index holding the character, and no later index holds it |
| Ingestion.LastIndexOfIs | test_spark.py:55 | an index holding the character with none after it is the last index |
| Ingestion.LastIndexOfAppend | test_spark.py:55 | appending text without the character leaves its last index unchanged |
| Ingestion.Extension | test_spark.py:55 | the extension is a suffix of the path; when non-empty it starts with '.' and has no other '.' and no '/' |
| Ingestion.Lower | test_spark.py:55 | the result has no upper-case ASCII letter, and every character that is not one is kept |
| Ingestion.LowerIdempotent | test_spark.py:55 | lower-casing twice is lower-casing once |
| Ingestion.ReadData | test_spark.py:54-62 | every failure carries the unsupported-format message |
| Ingestion.ExtensionOfSuffix | test_spark.py:55 | a '.'-and-letters suffix is the extension exactly when the stem's last path component is not only dots |
| Ingestion.LowerExtensionIs | test_spark.py:55-56 | the lower-cased extension equals a lower-case literal exactly when the path ends in it in any case after a base name |
| Ingestion.ReadDataCsv | test_spark.py:55-57 | the CSV reader is chosen exactly for paths ending in ".csv" in any letter case after a base name |
| Ingestion.ReadDataJson | test_spark.py:55-59 | the JSON reader is chosen exactly for paths ending in ".json" in any letter case after a base name |
| Records.ColumnListed | test_spark.py:97 | the column list names every column of the final frame |
| Seqs.Filter | test_spark.py:69 | the result keeps exactly the elements satisfying the predicate, in order, as a subsequence, and is no longer than the input |
| Seqs.FilterMultiset | test_spark.py:69 | a kept element keeps all its occurrences; a dropped one keeps none |
| Seqs.FilterKeepsAll | test_spark.py:69 | a filter whose predicate holds for every element returns its input |
| Seqs.FilterAllKept | test_spark.py:69 | a filter that keeps as many elements as it is given has a predicate holding for every element |
| Seqs.FilterIdempotent | test_spark.py:69 | filtering twice with one predicate equals filtering once |
| Seqs.Project | test_spark.py:100 | the projection has one entry per row, computed from that row |
| Seqs.GroupCountsSpec | test_spark.py:100-103 | the counts of `groupBy(...).count()`, as computed by `Seqs.GroupCounts`: the group keys are exactly the values that occur, each counted with its multiplicity (totals in `Seqs.GroupCountsTotal`, per column in `Report.Distribution`) |
| Seqs.GroupCountsTotal | test_spark.py:100-103 | the group counts sum to the number of rows |
| Cleaning.FillVehicleTypes | test_spark.py:68 | row count is kept; a null vehicle type becomes "Unknown", a non-null one is unchanged, and no other field changes |
| Cleaning.DropNullIds | test_spark.py:69 | the kept rows all have an id; a row is kept iff it has one; order is kept |
| Cleaning.DropNullIdsOccurrences | test_spark.py:69 | every copy of a row with an id survives, and no copy of a row without one |
| Cleaning.ParseTimestamps | test_spark.py:72-75 | row count is kept; only the timestamp changes; null stays null; a text becomes the parser's result, null when it does not parse |
| Cleaning.KeepValidTypes | test_spark.py:78-79 | the kept rows all have an allowed violation type; a row is kept iff it has one; order is kept |
| Cleaning.KeepValidTypesOccurrences | test_spark.py:78-79 | every copy of a row with an allowed type survives, and no copy of any other row |
| Cleaning.DefaultIsNotValidType | test_spark.py:68-79 | the vehicle-type default "Unknown" is not an allowed violation type |
| Cleaning.Clean | test_spark.py:68-79 | cleaning never adds rows |
| Cleaning.NormalizeAll | test_spark.py:68-75 | each row is rewritten by the two field rewrites, and row count and order are kept |
| Cleaning.CleanIsOnePass | test_spark.py:68-79 | the four steps equal one row-by-row rewrite followed by one filter on id and allowed type |
| Cleaning.KeptRows | test_spark.py:68-79 | the single filter on id and allowed type keeps an ordered subsequence of the rewritten rows, invents none, and keeps a row iff it has both |
| Cleaning.KeptRowsAreClean | test_spark.py:68-79 | every row that filter keeps has an id, a vehicle type and an allowed violation type |
| Cleaning.CleanIsSubsequence | test_spark.py:68-79 | the cleaned frame is an ordered subsequence of the rewritten input; no row is invented; a rewritten row is kept iff it has an id and an allowed type |
| Cleaning.CleanRowsAreClean | test_spark.py:68-79 | every cleaned row has an id, a vehicle type and an allowed violation type, and none has violation type "Unknown" |
| Cleaning.RowSurvival | test_spark.py:68-79 | a single row survives exactly when it has an id and an allowed type, whatever its timestamp |
| Cleaning.CleanFixedPoint | test_spark.py:68-79 | rows that are already clean pass with only their timestamp converted |
| Cleaning.CleaningStepsIdempotent | test_spark.py:68-79 | the fill, the id filter and the type filter each change nothing when run twice |
| Cleaning.RecleanKeepsCleanRows | test_spark.py:68-79 | a second run of the chain, with the timestamp left as it is, returns rows that all have an id, a vehicle type and an allowed type unchanged |
| Cleaning.CleanIdempotent | test_spark.py:68-79 | running the chain again on the cleaned frame returns that frame unchanged |
| Enrichment.Split | test_spark.py:84 | a split always has at least one part |
| Enrichment.SplitParts | test_spark.py:84 | no part holds the separator, and there is more than one part iff the text holds the separator |
| Enrichment.JoinCons | test_spark.py:84 | joining a first part before further parts puts the separator after it |
| Enrichment.JoinSplit | test_spark.py:84 | joining the parts of a split restores the text |
| Enrichment.JoinSplitStep | test_spark.py:84 | the induction step of the split/join round trip |
| Enrichment.SplitWithoutSeparator | test_spark.py:84 | a text without the separator is one part |
| Enrichment.SplitAtFirst | test_spark.py:84 | the text before the first separator is the first part, and the rest is split on |
| Enrichment.SplitJoin | test_spark.py:84 | splitting joined separator-free parts restores the parts |
| Enrichment.SplitFirstTwo | test_spark.py:84-88 | of "a,b" followed by nothing or ",…", the first two parts are a and b |
| Enrichment.EnrichRecord | test_spark.py:82-89 | the other columns are copied; without a comma both coordinates are null; with one, latitude is the cast of part 0 and longitude of part 1 |
| Enrichment.CoordinatesFromParts | test_spark.py:82-89 | the location "a,b" or "a,b,…" gives latitude cast(a) and longitude cast(b), and further parts are ignored |
| Enrichment.CoordinatesNeedComma | test_spark.py:84-88 | a populated latitude or longitude implies the location has a comma |
| Enrichment.LatitudeWithoutLongitude | test_spark.py:82-89 | "40.7,abc" gives a latitude and a null longitude when "abc" does not parse |
| Enrichment.Enrich | test_spark.py:82-89 | one enriched row per input row, in order, with the input's columns unchanged |
| Report.NullCount | test_spark.py:97 | the null count of a column is at most the row count |
| Report.NullCountExtremes | test_spark.py:97 | the null count is 0 iff no row is null there, and equals the row count iff every row is |
| Report.NullCounts | test_spark.py:97 | every column has an entry, and it is that column's null count |
| Report.NotNullPlusNull | test_spark.py:97-106 | the rows passing an is-not-null filter plus the null count give the row count |
| Report.CoordinateComplements | test_spark.py:97-106 | the rows with a latitude (longitude) plus the rows where it is null give the row count |
| Report.Summarize | test_spark.py:93-106 | the total is the row count; every column has a null count; every null and coordinate count is at most the total |
| Report.NoNullsReported | test_spark.py:97 | a column with no nulls is reported with null count 0 |
| Report.CoordinateCounts | test_spark.py:97-106 | the populated latitude (longitude) count plus the latitude (longitude) null count is the row count |
| Report.Distribution | test_spark.py:100-103 | the distribution's keys are exactly the values in the column, each with its number of rows, and the counts sum to the row count |
| Report.ViolationTypeCountsAddUp | test_spark.py:100 | the violation-type counts sum to the total and have the type of every row as a key |
| Report.VehicleTypeCountsAddUp | test_spark.py:103 | the vehicle-type counts sum to the total and have the type of every row as a key |
| Report.EmptySummary | test_spark.py:93-106 | an empty frame reports zero rows, zero nulls, no groups and no coordinates |
| Job.Pipeline | test_spark.py:68-89 | the final frame has no more rows than were read |
| Job.PipelineRows | test_spark.py:68-89 | every final row has an id, a vehicle type and an allowed violation type, and has coordinates only if its location has a comma |
| Job.ReportOfCleanRows | test_spark.py:97 | over such rows, the id, vehicle-type and violation-type null counts are 0 |
| Job.GroupsOfCleanRows | test_spark.py:100-103 | over such rows, the violation-type groups are allowed types and the vehicle-type groups are non-null |
| Job.PipelineReport | test_spark.py:65-106 | the report on the final frame has no null ids or types, only allowed violation-type groups, and at most the rows read |
| Job.Run | test_spark.py:54-106 | the run fails exactly when the extension is unsupported, with that message. Otherwise it reports at most the rows loaded, every column has a null count, the id and type null counts are 0, the violation-type groups are allowed types and the vehicle-type groups are non-null |
| Job.MalformedTimestampIsKept | test_spark.py:68-89 | a row with a malformed timestamp and no vehicle type is kept with a null timestamp, "Unknown" and both coordinates |
| Job.NullIdIsDropped | test_spark.py:69 | a row without an id is dropped |
| Job.DisallowedTypeIsDropped | test_spark.py:78-79 | a row whose violation type is not on the list is dropped |
| SpeedCheck.Violators | Assingment.py:5 | the violators are exactly the speeds above the limit, in their original order |
| SpeedCheck.ViolatorsIsFilter | Assingment.py:5 | the comprehension is the filter on "above the limit" |
| SpeedCheck.ViolatorsOccurrences | Assingment.py:5 | each speed above the limit is kept as often as it occurs; no other speed is kept |
| SpeedCheck.ViolationCount | Assingment.py:15 | the count is at most the number of speeds |
| SpeedCheck.ViolationCountIsViolators | Assingment.py:5-15 | the count equals the number of violators |
| SpeedCheck.ViolationCountExtremes | Assingment.py:15 | the count is 0 iff every speed is at or below the limit, and is the number of speeds iff every speed is above it |
| SpeedCheck.Insert | Assingment.py:9 | insertion adds exactly one element |
| SpeedCheck.InsertMultiset | Assingment.py:9 | insertion adds one occurrence of the element and keeps the others |
| SpeedCheck.InsertOrdered | Assingment.py:9 | inserting into an ordered sequence keeps it ordered |
| SpeedCheck.SortedSpeeds | Assingment.py:9 | sorting keeps the number of speeds |
| SpeedCheck.SortedSpeedsSpec | Assingment.py:9 | the sorted speeds are non-decreasing and a permutation of the speeds |
| SpeedCheck.OrderedPermutationUnique | Assingment.py:9 | two ordered sequences with the same elements are equal, so the sorted result is the only one |
| SpeedCheck.SortedSpeedsIdempotent | Assingment.py:9 | sorting sorted speeds changes nothing |
| SpeedCheck.Examples | Assingment.py:2-16 | for the example speeds and limit 60, the violators are [67, 89, 120, 75], the count is 4 and the sorted speeds are [45, 54, 67, 75, 89, 120] |

## Left out

- Spark session start and stop (test_spark.py:10, 118): runtime bootstrap with no data logic.
- Synthetic data generation (test_spark.py:22-51): it depends on `random` and the clock. The generated rows are an input to the model.
- The actual file reading by `spark.read.csv` and `spark.read.json`: this is I/O and library schema inference. `Job.Run` receives it as the parameter `load`, given the reader that `read_data` chose. `load` is total: a read that fails (a missing path, or content Spark cannot parse, raising an analysis error at `spark.read.csv` or `spark.read.json`) is not modelled, so `Job.Run` failing exactly when the extension is unsupported holds of the model only.
- CSV schema inference: with `inferSchema=True` Spark may type the timestamp column as a timestamp. The model treats it as a string column, like the declared JSON schema, before conversion.
- The exact parsing of Spark's `to_timestamp` with pattern `yyyy-MM-dd HH:mm:ss`, and its string-to-double cast, are parameters. Doubles are modelled as reals, with no floating-point rounding. Two Spark behaviours fall outside these `Option`-returning parameters. First, `to_timestamp` and the cast can raise an error instead of returning null: under ANSI mode, or when Spark 3's datetime-parser upgrade check rejects a string. Second, casting "NaN" or "Infinity" gives a non-null double that no real number stands for.
- The Parquet export (test_spark.py:110-112) and all console output (`print`, `.show()`, Assingment.py:6, 10, 16): these are I/O and return no value the pipeline uses.
- `Ingestion.Lower`: does not model Unicode case mapping beyond ASCII 'A'-'Z', because the model's strings are sequences of characters with no Unicode tables.
- `Ingestion.Extension`: models POSIX paths ('/' separator) only, not Windows drive letters or '\\' separators.
- `Report.Summarize`: the group counts are maps, so the row order that `groupBy(...).count().show()` prints is not modelled. Spark does not fix that order.
- `SpeedCheck.SortedSpeeds`: sorts by insertion rather than Python's Timsort. `SpeedCheck.OrderedPermutationUnique` shows the result is the same.
