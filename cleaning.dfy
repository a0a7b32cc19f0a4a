/** The cleaning chain: default the vehicle type, drop rows without an id,
  * convert the timestamp, keep the allowed violation types. */
module Cleaning {
  import opened Wrappers
  import opened Seqs
  import opened Records

  /** The value `fillna` puts in a null `vehicle_type`. */
  const VehicleTypeDefault: string := "Unknown"

  /** The violation types the category filter keeps. */
  const ValidTypes: seq<string> := ["Speeding", "Red Light", "Illegal Turn", "Illegal Parking"]

  /** `fillna({"vehicle_type": "Unknown"})` on one row. */
  function FillVehicleType(r: RawRecord): RawRecord {
    if r.vehicleType.None? then r.(vehicleType := Some(VehicleTypeDefault)) else r
  }

  /** `fillna({"vehicle_type": "Unknown"})` on the frame: no row is added or removed,
    * a null vehicle type becomes "Unknown" and nothing else changes. */
  function FillVehicleTypes(rows: seq<RawRecord>): (out: seq<RawRecord>)
    ensures |out| == |rows|
    ensures forall i | 0 <= i < |rows| :: out[i].vehicleType.Some?
    ensures forall i | 0 <= i < |rows| ::
      rows[i].vehicleType.None? ==> out[i].vehicleType == Some(VehicleTypeDefault)
    ensures forall i | 0 <= i < |rows| :: rows[i].vehicleType.Some? ==> out[i] == rows[i]
    ensures forall i | 0 <= i < |rows| :: out[i] == rows[i].(vehicleType := out[i].vehicleType)
  {
    if rows == [] then [] else [FillVehicleType(rows[0])] + FillVehicleTypes(rows[1..])
  }

  /** `col("violation_id").isNotNull()` */
  predicate HasId(r: RawRecord) {
    r.violationId.Some?
  }

  /** `filter(col("violation_id").isNotNull())`: exactly the rows with an id, in order. */
  function DropNullIds(rows: seq<RawRecord>): (out: seq<RawRecord>)
    ensures forall r | r in out :: r.violationId.Some?
    ensures forall r | r in rows :: r in out <==> r.violationId.Some?
    ensures forall r | r in out :: r in rows
    ensures IsSubseq(out, rows)
  {
    Filter(rows, HasId)
  }

  /** Every copy of a row with an id is kept, and no copy of a row without one. */
  lemma DropNullIdsOccurrences(rows: seq<RawRecord>)
    ensures forall r | r in rows ::
      multiset(DropNullIds(rows))[r] == if HasId(r) then multiset(rows)[r] else 0
  {
    FilterMultiset(rows, HasId);
  }

  /** `to_timestamp("timestamp", "yyyy-MM-dd HH:mm:ss")` on one row. */
  function ParseTimestamp(r: RawRecord, parse: TimestampParser): ParsedRecord {
    ParsedRecord(r.violationId, CastNullable(r.timestamp, parse), r.location,
                 r.violationType, r.vehicleType, r.severity)
  }

  /** Every column but `timestamp` is the same in the two rows. */
  predicate SameExceptTimestamp(p: ParsedRecord, r: RawRecord) {
    && p.violationId == r.violationId
    && p.location == r.location
    && p.violationType == r.violationType
    && p.vehicleType == r.vehicleType
    && p.severity == r.severity
  }

  /** `withColumn("timestamp", to_timestamp(...))`: no row is added or removed,
    * only the timestamp changes, a null stays null and a text that does not match
    * the pattern becomes null. */
  function ParseTimestamps(rows: seq<RawRecord>, parse: TimestampParser): (out: seq<ParsedRecord>)
    ensures |out| == |rows|
    ensures forall i | 0 <= i < |rows| :: SameExceptTimestamp(out[i], rows[i])
    ensures forall i | 0 <= i < |rows| :: rows[i].timestamp.None? ==> out[i].timestamp.None?
    ensures forall i | 0 <= i < |rows| ::
      rows[i].timestamp.Some? ==> out[i].timestamp == parse(rows[i].timestamp.value)
  {
    if rows == [] then [] else [ParseTimestamp(rows[0], parse)] + ParseTimestamps(rows[1..], parse)
  }

  /** `col("violation_type").isin(valid_types)`; a null type is not kept. */
  predicate HasValidType(p: ParsedRecord) {
    p.violationType.Some? && p.violationType.value in ValidTypes
  }

  /** `filter(col("violation_type").isin(valid_types))` */
  function KeepValidTypes(rows: seq<ParsedRecord>): (out: seq<ParsedRecord>)
    ensures forall p | p in out :: HasValidType(p)
    ensures forall p | p in rows :: p in out <==> HasValidType(p)
    ensures forall p | p in out :: p in rows
    ensures IsSubseq(out, rows)
  {
    Filter(rows, HasValidType)
  }

  /** Every copy of a row with an allowed type is kept, and no copy of any other row. */
  lemma KeepValidTypesOccurrences(rows: seq<ParsedRecord>)
    ensures forall p | p in rows ::
      multiset(KeepValidTypes(rows))[p] == if HasValidType(p) then multiset(rows)[p] else 0
  {
    FilterMultiset(rows, HasValidType);
  }

  /** "Unknown" is not an allowed violation type: the allowed ones differ from it
    * in their first letter. */
  lemma DefaultIsNotValidType()
    ensures VehicleTypeDefault !in ValidTypes
  {
    assert VehicleTypeDefault[0] == 'U';
    forall t | t in ValidTypes ensures t[0] != 'U' {
    }
  }

  /** What every row of the cleaned frame satisfies. */
  predicate IsClean(p: ParsedRecord) {
    p.violationId.Some? && p.vehicleType.Some? && HasValidType(p)
  }

  /** The cleaning chain of `df_clean`, in the order the statements run. */
  function Clean(rows: seq<RawRecord>, parse: TimestampParser): (out: seq<ParsedRecord>)
    ensures |out| <= |rows|
  {
    KeepValidTypes(ParseTimestamps(DropNullIds(FillVehicleTypes(rows)), parse))
  }

  /** The two field rewrites of the chain applied to one input row. */
  function Normalize(r: RawRecord, parse: TimestampParser): ParsedRecord {
    ParseTimestamp(FillVehicleType(r), parse)
  }

  /** The two filters of the chain, asked of one rewritten row. */
  predicate Keep(p: ParsedRecord) {
    p.violationId.Some? && HasValidType(p)
  }

  /** `Normalize` on every row. */
  function NormalizeAll(rows: seq<RawRecord>, parse: TimestampParser): (out: seq<ParsedRecord>)
    ensures |out| == |rows|
    ensures forall i | 0 <= i < |rows| :: out[i] == Normalize(rows[i], parse)
  {
    if rows == [] then [] else [Normalize(rows[0], parse)] + NormalizeAll(rows[1..], parse)
  }

  /** The chain is one row-by-row rewrite followed by one filter: whether a row
    * survives depends on that row alone, and the survivors keep their order. */
  lemma {:induction false} CleanIsOnePass(rows: seq<RawRecord>, parse: TimestampParser)
    ensures Clean(rows, parse) == Filter(NormalizeAll(rows, parse), Keep)
  {
    if rows != [] {
      var r, t := rows[0], rows[1..];
      CleanIsOnePass(t, parse);
      var f := FillVehicleType(r);
      assert FillVehicleTypes(rows) == [f] + FillVehicleTypes(t);
      assert NormalizeAll(rows, parse) == [Normalize(r, parse)] + NormalizeAll(t, parse);
      var ids := Filter(FillVehicleTypes(t), HasId);
      if HasId(f) {
        assert DropNullIds(FillVehicleTypes(rows)) == [f] + ids;
        assert ParseTimestamps([f] + ids, parse) == [ParseTimestamp(f, parse)] + ParseTimestamps(ids, parse);
      } else {
        assert DropNullIds(FillVehicleTypes(rows)) == ids;
      }
    }
  }

  /** The one filter of `CleanIsOnePass` keeps an ordered subsequence of the
    * rewritten rows, invents none, and keeps a rewritten row iff `Keep` holds. */
  lemma KeptRows(rows: seq<RawRecord>, parse: TimestampParser)
    ensures IsSubseq(Filter(NormalizeAll(rows, parse), Keep), NormalizeAll(rows, parse))
    ensures forall p | p in Filter(NormalizeAll(rows, parse), Keep) ::
      exists i :: 0 <= i < |rows| && p == Normalize(rows[i], parse)
    ensures forall i | 0 <= i < |rows| ::
      Normalize(rows[i], parse) in Filter(NormalizeAll(rows, parse), Keep) <==> Keep(Normalize(rows[i], parse))
  {
    var all := NormalizeAll(rows, parse);
    forall p | p in Filter(all, Keep)
      ensures exists i :: 0 <= i < |rows| && p == Normalize(rows[i], parse)
    {
      var i :| 0 <= i < |all| && all[i] == p;
    }
    forall i | 0 <= i < |rows|
      ensures Normalize(rows[i], parse) in Filter(all, Keep) <==> Keep(Normalize(rows[i], parse))
    {
      assert all[i] in all;
    }
  }

  /** The cleaned frame is the rewritten input with some rows left out, in order;
    * no row is invented, and a rewritten row is kept exactly when it has an id and
    * an allowed type. */
  lemma CleanIsSubsequence(rows: seq<RawRecord>, parse: TimestampParser)
    ensures IsSubseq(Clean(rows, parse), NormalizeAll(rows, parse))
    ensures forall p | p in Clean(rows, parse) ::
      exists i :: 0 <= i < |rows| && p == Normalize(rows[i], parse)
    ensures forall i | 0 <= i < |rows| ::
      Normalize(rows[i], parse) in Clean(rows, parse) <==> Keep(Normalize(rows[i], parse))
  {
    CleanIsOnePass(rows, parse);
    KeptRows(rows, parse);
  }

  /** Every cleaned row has an id, a vehicle type and an allowed violation type;
    * in particular no violation type is null or "Unknown". */
  lemma CleanRowsAreClean(rows: seq<RawRecord>, parse: TimestampParser)
    ensures forall p | p in Clean(rows, parse) :: IsClean(p)
    ensures forall p | p in Clean(rows, parse) :: p.violationType != Some(VehicleTypeDefault)
  {
    CleanIsOnePass(rows, parse);
    KeptRowsAreClean(rows, parse);
    DefaultIsNotValidType();
  }

  /** The rows the one filter keeps are clean. */
  lemma KeptRowsAreClean(rows: seq<RawRecord>, parse: TimestampParser)
    ensures forall p | p in Filter(NormalizeAll(rows, parse), Keep) :: IsClean(p)
  {
    var all := NormalizeAll(rows, parse);
    forall p | p in Filter(all, Keep) ensures IsClean(p) {
      var i :| 0 <= i < |all| && all[i] == p;
    }
  }


  /** A single row survives exactly when it has an id and an allowed type; its
    * timestamp, parseable or not, plays no part. */
  lemma RowSurvival(r: RawRecord, parse: TimestampParser)
    ensures Clean([r], parse) ==
      if r.violationId.Some? && r.violationType.Some? && r.violationType.value in ValidTypes
      then [Normalize(r, parse)] else []
  {
    CleanIsOnePass([r], parse);
    assert NormalizeAll([r], parse) == [Normalize(r, parse)];
  }

  /** Rows that already have an id, a vehicle type and an allowed violation type
    * pass the chain with only their timestamp converted. */
  lemma CleanFixedPoint(rows: seq<RawRecord>, parse: TimestampParser)
    requires forall r | r in rows ::
      r.violationId.Some? && r.vehicleType.Some? && r.violationType.Some? && r.violationType.value in ValidTypes
    ensures Clean(rows, parse) == ParseTimestamps(rows, parse)
  {
    assert FillVehicleTypes(rows) == rows;
    FilterKeepsAll(rows, HasId);
    var parsed := ParseTimestamps(rows, parse);
    forall p | p in parsed ensures HasValidType(p) {
      var i :| 0 <= i < |parsed| && parsed[i] == p;
      assert rows[i] in rows;
    }
    FilterKeepsAll(parsed, HasValidType);
  }

  /** Each step of the chain that stays within one row type changes nothing when
    * it is run a second time. */
  lemma CleaningStepsIdempotent(rows: seq<RawRecord>, parsed: seq<ParsedRecord>)
    ensures FillVehicleTypes(FillVehicleTypes(rows)) == FillVehicleTypes(rows)
    ensures DropNullIds(DropNullIds(rows)) == DropNullIds(rows)
    ensures KeepValidTypes(KeepValidTypes(parsed)) == KeepValidTypes(parsed)
  {
    FilterIdempotent(rows, HasId);
    FilterIdempotent(parsed, HasValidType);
  }
  /** `fillna({"vehicle_type": "Unknown"})` on a row whose timestamp is already a
    * TimestampType value. */
  function FillParsedVehicleType(p: ParsedRecord): ParsedRecord {
    p.(vehicleType := if p.vehicleType.None? then Some(VehicleTypeDefault) else p.vehicleType)
  }

  /** `col("violation_id").isNotNull()` on a row with a parsed timestamp. */
  predicate HasParsedId(p: ParsedRecord) {
    p.violationId.Some?
  }

  /** The chain run again on its own output. `to_timestamp` on a column that is
    * already TimestampType returns each value unchanged, so the timestamp step is
    * the identity here; the fill and the two filters are as before. */
  function Reclean(rows: seq<ParsedRecord>): seq<ParsedRecord> {
    KeepValidTypes(Filter(Project(rows, FillParsedVehicleType), HasParsedId))
  }

  /** Clean rows pass a second run of the chain unchanged. */
  lemma RecleanKeepsCleanRows(rows: seq<ParsedRecord>)
    requires forall p | p in rows :: IsClean(p)
    ensures Reclean(rows) == rows
  {
    var filled := Project(rows, FillParsedVehicleType);
    forall i | 0 <= i < |rows| ensures filled[i] == rows[i] {
      assert rows[i] in rows;
    }
    assert filled == rows;
    FilterKeepsAll(rows, HasParsedId);
    FilterKeepsAll(rows, HasValidType);
  }

  /** The chain is idempotent: running it again on the cleaned frame changes
    * nothing. */
  lemma CleanIdempotent(rows: seq<RawRecord>, parse: TimestampParser)
    ensures Reclean(Clean(rows, parse)) == Clean(rows, parse)
  {
    CleanRowsAreClean(rows, parse);
    RecleanKeepsCleanRows(Clean(rows, parse));
  }
}
