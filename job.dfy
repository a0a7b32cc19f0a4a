/** The script's flow: read, clean, enrich, report. */
module Job {
  import opened Wrappers
  import opened Seqs
  import opened Records
  import opened Ingestion
  import opened Cleaning
  import opened Enrichment
  import opened Report

  /** `df_clean` at the end of the chain: the cleaning steps, then the two derived
    * columns. */
  function Pipeline(rows: seq<RawRecord>, parseTimestamp: TimestampParser, parseDouble: DoubleParser)
    : (out: seq<EnrichedRecord>)
    ensures |out| <= |rows|
  {
    Enrich(Clean(rows, parseTimestamp), parseDouble)
  }

  /** Every row of the final frame has an id, a vehicle type and an allowed violation
    * type, and has coordinates only when its location holds a comma. */
  lemma PipelineRows(rows: seq<RawRecord>, parseTimestamp: TimestampParser, parseDouble: DoubleParser)
    ensures forall e | e in Pipeline(rows, parseTimestamp, parseDouble) ::
      && e.violationId.Some?
      && e.vehicleType.Some?
      && e.violationType.Some? && e.violationType.value in ValidTypes
      && (e.latitude.Some? || e.longitude.Some? ==> HasComma(e.location))
  {
    var cleaned := Clean(rows, parseTimestamp);
    var out := Pipeline(rows, parseTimestamp, parseDouble);
    CleanRowsAreClean(rows, parseTimestamp);
    forall e | e in out
      ensures && e.violationId.Some?
              && e.vehicleType.Some?
              && e.violationType.Some? && e.violationType.value in ValidTypes
              && (e.latitude.Some? || e.longitude.Some? ==> HasComma(e.location))
    {
      var i :| 0 <= i < |out| && out[i] == e;
      assert cleaned[i] in cleaned;
      CoordinatesNeedComma(cleaned[i], parseDouble);
    }
  }

  /** The report over rows that all have an id, a vehicle type and an allowed
    * violation type. */
  lemma ReportOfCleanRows(out: seq<EnrichedRecord>)
    requires forall e | e in out ::
      e.violationId.Some? && e.vehicleType.Some? && e.violationType.Some?
    ensures var s := Summarize(out);
      && s.nullCounts[ViolationId] == 0
      && s.nullCounts[VehicleType] == 0
      && s.nullCounts[ViolationType] == 0
  {
    NoNullsReported(out, ViolationId);
    NoNullsReported(out, VehicleType);
    NoNullsReported(out, ViolationType);
  }

  /** The groups of the report over such rows are allowed violation types and
    * non-null vehicle types. */
  lemma GroupsOfCleanRows(out: seq<EnrichedRecord>)
    requires forall e | e in out ::
      e.violationId.Some? && e.vehicleType.Some? && e.violationType.Some? && e.violationType.value in ValidTypes
    ensures forall k | k in Summarize(out).violationTypeCounts :: k.Some? && k.value in ValidTypes
    ensures forall k | k in Summarize(out).vehicleTypeCounts :: k.Some?
  {
    Distribution(out, ViolationTypeOf);
    Distribution(out, VehicleTypeOf);
  }

  /** The report over the final frame: no null ids, vehicle types or violation types,
    * only allowed violation types among the groups, and at most as many rows as
    * were read. */
  lemma PipelineReport(rows: seq<RawRecord>, parseTimestamp: TimestampParser, parseDouble: DoubleParser)
    ensures var s := Summarize(Pipeline(rows, parseTimestamp, parseDouble));
      && s.totalRows <= |rows|
      && s.nullCounts[ViolationId] == 0
      && s.nullCounts[VehicleType] == 0
      && s.nullCounts[ViolationType] == 0
      && (forall k | k in s.violationTypeCounts :: k.Some? && k.value in ValidTypes)
      && (forall k | k in s.vehicleTypeCounts :: k.Some?)
  {
    PipelineRows(rows, parseTimestamp, parseDouble);
    ReportOfCleanRows(Pipeline(rows, parseTimestamp, parseDouble));
    GroupsOfCleanRows(Pipeline(rows, parseTimestamp, parseDouble));
  }

  /** The whole run on one input path: the unsupported-extension error aborts it;
    * otherwise the rows the chosen reader yields are cleaned, enriched and reported,
    * and the report has no null ids or types and only allowed violation types.
    * Reading the file is the parameter `load`. */
  function Run(path: string, load: Reader -> seq<RawRecord>,
               parseTimestamp: TimestampParser, parseDouble: DoubleParser)
    : (r: Result<Summary, string>)
    ensures r.Failure? <==> ReadData(path).Failure?
    ensures r.Failure? ==> r.error == UnsupportedFormat
    ensures r.Success? ==> r.value.totalRows <= |load(ReadData(path).value)|
    ensures r.Success? ==> forall c: Column :: c in r.value.nullCounts
    ensures r.Success? ==>
      && r.value.nullCounts[ViolationId] == 0
      && r.value.nullCounts[VehicleType] == 0
      && r.value.nullCounts[ViolationType] == 0
      && (forall k | k in r.value.violationTypeCounts :: k.Some? && k.value in ValidTypes)
      && (forall k | k in r.value.vehicleTypeCounts :: k.Some?)
  {
    match ReadData(path)
    case Failure(e) => Failure(e)
    case Success(reader) =>
      PipelineReport(load(reader), parseTimestamp, parseDouble);
      Success(Summarize(Pipeline(load(reader), parseTimestamp, parseDouble)))
  }

  /** A row with a malformed timestamp, a coordinate location and no vehicle type is
    * kept, with vehicle type "Unknown", a null timestamp and both coordinates. */
  lemma MalformedTimestampIsKept(parseTimestamp: TimestampParser, parseDouble: DoubleParser)
    requires parseTimestamp("malformed").None?
    requires parseDouble("40.7") == Some(40.7) && parseDouble("-74.0") == Some(-74.0)
    ensures Pipeline([RawRecord(Some("V1"), Some("malformed"), Some("40.7,-74.0"), Some("Speeding"), None, Some(3))],
                     parseTimestamp, parseDouble)
         == [EnrichedRecord(Some("V1"), None, Some("40.7,-74.0"), Some("Speeding"), Some("Unknown"), Some(3),
                            Some(40.7), Some(-74.0))]
  {
    var r := RawRecord(Some("V1"), Some("malformed"), Some("40.7,-74.0"), Some("Speeding"), None, Some(3));
    RowSurvival(r, parseTimestamp);
    var p := Normalize(r, parseTimestamp);
    assert "40.7,-74.0" == "40.7" + [Comma] + "-74.0" + [];
    CoordinatesFromParts(p, parseDouble, "40.7", "-74.0", []);
  }

  /** A row without an id is dropped. */
  lemma NullIdIsDropped(parseTimestamp: TimestampParser, parseDouble: DoubleParser)
    ensures Pipeline([RawRecord(None, Some("2024-01-01 10:00:00"), Some("INT001"), Some("Speeding"), Some("Car"), Some(2))],
                     parseTimestamp, parseDouble) == []
  {
    RowSurvival(RawRecord(None, Some("2024-01-01 10:00:00"), Some("INT001"), Some("Speeding"), Some("Car"), Some(2)),
                parseTimestamp);
  }

  /** A row whose violation type is not on the allow-list is dropped. */
  lemma DisallowedTypeIsDropped(parseTimestamp: TimestampParser, parseDouble: DoubleParser)
    ensures Pipeline([RawRecord(Some("V2"), Some("2024-01-01 10:00:00"), Some("INT002"), Some("Jaywalking"), Some("Car"), Some(1))],
                     parseTimestamp, parseDouble) == []
  {
    var r := RawRecord(Some("V2"), Some("2024-01-01 10:00:00"), Some("INT002"), Some("Jaywalking"), Some("Car"), Some(1));
    RowSurvival(r, parseTimestamp);
    assert "Jaywalking" !in ValidTypes by {
      assert "Jaywalking"[0] == 'J';
      forall t | t in ValidTypes ensures t[0] != 'J' {
      }
    }
  }
}
