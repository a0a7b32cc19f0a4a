/** The rows of the violation DataFrame at each stage of the pipeline. */
module Records {
  import opened Wrappers

  /** A value of Spark's TimestampType, broken into the fields of the pattern
    * `yyyy-MM-dd HH:mm:ss`. */
  datatype DateTime = DateTime(year: int, month: int, day: int, hour: int, minute: int, second: int)

  /** Spark's `to_timestamp(_, "yyyy-MM-dd HH:mm:ss")` on one non-null string:
    * `None` when the text does not match the pattern. */
  type TimestampParser = string -> Option<DateTime>

  /** Spark's cast of one non-null string to DoubleType: `None` when the text
    * is not a number. Doubles are modelled as reals. */
  type DoubleParser = string -> Option<real>

  /** A row as read with the declared schema: every column is nullable. */
  datatype RawRecord = RawRecord(
    violationId: Option<string>,
    timestamp: Option<string>,
    location: Option<string>,
    violationType: Option<string>,
    vehicleType: Option<string>,
    severity: Option<int>)

  /** A row after the timestamp column has been converted to TimestampType. */
  datatype ParsedRecord = ParsedRecord(
    violationId: Option<string>,
    timestamp: Option<DateTime>,
    location: Option<string>,
    violationType: Option<string>,
    vehicleType: Option<string>,
    severity: Option<int>)

  /** A row with the derived `latitude` and `longitude` columns appended. */
  datatype EnrichedRecord = EnrichedRecord(
    violationId: Option<string>,
    timestamp: Option<DateTime>,
    location: Option<string>,
    violationType: Option<string>,
    vehicleType: Option<string>,
    severity: Option<int>,
    latitude: Option<real>,
    longitude: Option<real>)

  /** The columns an enriched row shares with the row it was derived from. */
  function Base(e: EnrichedRecord): ParsedRecord {
    ParsedRecord(e.violationId, e.timestamp, e.location, e.violationType, e.vehicleType, e.severity)
  }

  /** A Spark function applied to a nullable column: null in, null out. */
  function CastNullable<V>(o: Option<string>, parse: string -> Option<V>): (r: Option<V>)
    ensures o.None? ==> r.None?
    ensures o.Some? ==> r == parse(o.value)
  {
    match o
    case None => None
    case Some(s) => parse(s)
  }

  /** The columns of the cleaned DataFrame, in `df_clean.columns` order. */
  datatype Column =
    ViolationId | Timestamp | Location | ViolationType | VehicleType | Severity | Latitude | Longitude

  const Columns: seq<Column> :=
    [ViolationId, Timestamp, Location, ViolationType, VehicleType, Severity, Latitude, Longitude]

  /** `Columns` lists every column. */
  lemma ColumnListed(c: Column)
    ensures c in Columns
  {
    match c
    case ViolationId => assert Columns[0] == c;
    case Timestamp => assert Columns[1] == c;
    case Location => assert Columns[2] == c;
    case ViolationType => assert Columns[3] == c;
    case VehicleType => assert Columns[4] == c;
    case Severity => assert Columns[5] == c;
    case Latitude => assert Columns[6] == c;
    case Longitude => assert Columns[7] == c;
  }

  /** `col(c).isNull()` on one row. */
  predicate IsNull(r: EnrichedRecord, c: Column) {
    match c
    case ViolationId => r.violationId.None?
    case Timestamp => r.timestamp.None?
    case Location => r.location.None?
    case ViolationType => r.violationType.None?
    case VehicleType => r.vehicleType.None?
    case Severity => r.severity.None?
    case Latitude => r.latitude.None?
    case Longitude => r.longitude.None?
  }
}
