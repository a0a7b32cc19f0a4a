/** The summary report over the cleaned and enriched frame. */
module Report {
  import opened Wrappers
  import opened Seqs
  import opened Records

  /** `count(when(col(c).isNull(), c))`: the number of rows where column `c` is null. */
  function NullCount(rows: seq<EnrichedRecord>, c: Column): (n: nat)
    ensures n <= |rows|
  {
    if rows == [] then 0
    else
      assert rows == [rows[0]] + rows[1..];
      (if IsNull(rows[0], c) then 1 else 0) + NullCount(rows[1..], c)
  }

  /** A column's null count is zero exactly when no row is null there, and equals
    * the row count exactly when every row is. */
  lemma {:induction false} NullCountExtremes(rows: seq<EnrichedRecord>, c: Column)
    ensures NullCount(rows, c) == 0 <==> forall r | r in rows :: !IsNull(r, c)
    ensures NullCount(rows, c) == |rows| <==> forall r | r in rows :: IsNull(r, c)
  {
    if rows != [] {
      NullCountExtremes(rows[1..], c);
      assert rows == [rows[0]] + rows[1..];
    }
  }

  /** The null count of every column, as the one-row frame of the report has them. */
  function NullCounts(rows: seq<EnrichedRecord>): (m: map<Column, nat>)
    ensures forall c: Column :: c in m
    ensures forall c: Column :: m[c] == NullCount(rows, c)
  {
    assert forall c: Column :: c in Columns by {
      forall c: Column ensures c in Columns {
        ColumnListed(c);
      }
    }
    map c | c in Columns :: NullCount(rows, c)
  }

  /** `col("latitude").isNotNull()` */
  predicate HasLatitude(r: EnrichedRecord) {
    r.latitude.Some?
  }

  /** `col("longitude").isNotNull()` */
  predicate HasLongitude(r: EnrichedRecord) {
    r.longitude.Some?
  }

  /** The `violation_type` column. */
  function ViolationTypeOf(r: EnrichedRecord): Option<string> {
    r.violationType
  }

  /** The `vehicle_type` column. */
  function VehicleTypeOf(r: EnrichedRecord): Option<string> {
    r.vehicleType
  }

  /** Rows kept by an is-not-null filter on a column plus that column's null count
    * are all the rows. */
  lemma {:induction false} NotNullPlusNull(rows: seq<EnrichedRecord>, p: EnrichedRecord -> bool, c: Column)
    requires forall r :: p(r) == !IsNull(r, c)
    ensures |Filter(rows, p)| + NullCount(rows, c) == |rows|
  {
    if rows != [] {
      assert rows[0] in rows;
      NotNullPlusNull(rows[1..], p, c);
    }
  }

  /** `NotNullPlusNull` for the two derived columns. */
  lemma CoordinateComplements(rows: seq<EnrichedRecord>)
    ensures |Filter(rows, HasLatitude)| + NullCount(rows, Latitude) == |rows|
    ensures |Filter(rows, HasLongitude)| + NullCount(rows, Longitude) == |rows|
  {
    NotNullPlusNull(rows, HasLatitude, Latitude);
    NotNullPlusNull(rows, HasLongitude, Longitude);
  }

  /** The figures the report prints (total rows, nulls per column, the two
    * distributions, populated latitudes and longitudes). */
  datatype Summary = Summary(
    totalRows: nat,
    nullCounts: map<Column, nat>,
    violationTypeCounts: map<Option<string>, nat>,
    vehicleTypeCounts: map<Option<string>, nat>,
    latitudeCount: nat,
    longitudeCount: nat)

  /** The report over a frame; every count in it is bounded by the row count. */
  function Summarize(rows: seq<EnrichedRecord>): (s: Summary)
    ensures s.totalRows == |rows|
    ensures forall c: Column :: c in s.nullCounts
    ensures forall c | c in s.nullCounts :: s.nullCounts[c] <= s.totalRows
    ensures s.latitudeCount <= s.totalRows && s.longitudeCount <= s.totalRows
  {
    Summary(
      |rows|,
      NullCounts(rows),
      GroupCounts(Project(rows, ViolationTypeOf)),
      GroupCounts(Project(rows, VehicleTypeOf)),
      |Filter(rows, HasLatitude)|,
      |Filter(rows, HasLongitude)|)
  }

  /** A column with no null in any row is reported with null count zero. */
  lemma NoNullsReported(rows: seq<EnrichedRecord>, c: Column)
    requires forall r | r in rows :: !IsNull(r, c)
    ensures Summarize(rows).nullCounts[c] == 0
  {
    NullCountExtremes(rows, c);
  }

  /** The populated latitude (longitude) count and the latitude (longitude) null
    * count add up to the row count. */
  lemma CoordinateCounts(rows: seq<EnrichedRecord>)
    ensures Summarize(rows).latitudeCount + Summarize(rows).nullCounts[Latitude] == |rows|
    ensures Summarize(rows).longitudeCount + Summarize(rows).nullCounts[Longitude] == |rows|
  {
    CoordinateComplements(rows);
  }

  /** The distribution of one column: its keys are exactly the values in the column,
    * each with the number of rows holding it, and the counts sum to the row count. */
  lemma Distribution(rows: seq<EnrichedRecord>, f: EnrichedRecord -> Option<string>)
    ensures SumValues(GroupCounts(Project(rows, f))) == |rows|
    ensures forall r | r in rows :: f(r) in GroupCounts(Project(rows, f))
    ensures forall k | k in GroupCounts(Project(rows, f)) :: exists r | r in rows :: f(r) == k
    ensures forall k | k in GroupCounts(Project(rows, f)) ::
      GroupCounts(Project(rows, f))[k] == multiset(Project(rows, f))[k]
  {
    var column := Project(rows, f);
    GroupCountsSpec(column);
    GroupCountsTotal(column);
    forall r | r in rows ensures f(r) in column {
      var i :| 0 <= i < |rows| && rows[i] == r;
      assert column[i] == f(r);
    }
    forall k | k in column ensures exists r | r in rows :: f(r) == k {
      var i :| 0 <= i < |column| && column[i] == k;
      assert rows[i] in rows;
    }
  }

  /** The reported violation-type distribution sums to the row count and has a
    * key for the type of every row. */
  lemma ViolationTypeCountsAddUp(rows: seq<EnrichedRecord>)
    ensures SumValues(Summarize(rows).violationTypeCounts) == Summarize(rows).totalRows
    ensures forall r | r in rows :: r.violationType in Summarize(rows).violationTypeCounts
  {
    assert Summarize(rows).violationTypeCounts == GroupCounts(Project(rows, ViolationTypeOf));
    Distribution(rows, ViolationTypeOf);
  }

  /** The reported vehicle-type distribution sums to the row count and has a key
    * for the vehicle type of every row. */
  lemma VehicleTypeCountsAddUp(rows: seq<EnrichedRecord>)
    ensures SumValues(Summarize(rows).vehicleTypeCounts) == Summarize(rows).totalRows
    ensures forall r | r in rows :: r.vehicleType in Summarize(rows).vehicleTypeCounts
  {
    assert Summarize(rows).vehicleTypeCounts == GroupCounts(Project(rows, VehicleTypeOf));
    Distribution(rows, VehicleTypeOf);
  }

  /** An empty frame reports zero rows, zero nulls, no groups and no coordinates. */
  lemma EmptySummary()
    ensures Summarize([]).totalRows == 0
    ensures forall c: Column :: Summarize([]).nullCounts[c] == 0
    ensures Summarize([]).violationTypeCounts == map[]
    ensures Summarize([]).vehicleTypeCounts == map[]
    ensures Summarize([]).latitudeCount == 0 && Summarize([]).longitudeCount == 0
  {
  }
}
