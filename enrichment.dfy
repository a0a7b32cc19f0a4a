/** Latitude and longitude derived from a "lat,lon" location. */
module Enrichment {
  import opened Wrappers
  import opened Records

  /** The separator of a coordinate pair. */
  const Comma: char := ','

  /** Spark's `split(str, sep)`: every part between separators, empty ones included,
    * so a text with k separators has k + 1 parts. */
  function Split(s: string, sep: char): (parts: seq<string>)
    ensures |parts| >= 1
    decreases |s|
  {
    if s == [] then [""]
    else
      var rest := Split(s[1..], sep);
      if s[0] == sep then [""] + rest
      else [[s[0]] + rest[0]] + rest[1..]
  }

  /** No part holds the separator, and there is more than one part exactly when
    * the text holds the separator. */
  lemma {:induction false} SplitParts(s: string, sep: char)
    ensures forall p | p in Split(s, sep) :: sep !in p
    ensures |Split(s, sep)| == 1 <==> sep !in s
    decreases |s|
  {
    if s != [] {
      SplitParts(s[1..], sep);
      assert s == [s[0]] + s[1..];
      var rest := Split(s[1..], sep);
      if s[0] != sep {
        assert rest[0] in rest;
        forall p | p in Split(s, sep) ensures sep !in p {
          if p != [s[0]] + rest[0] {
            assert p in rest[1..];
          }
        }
      }
    }
  }

  /** The parts put back together with the separator between them. */
  function Join(parts: seq<string>, sep: char): string {
    if parts == [] then ""
    else if |parts| == 1 then parts[0]
    else parts[0] + [sep] + Join(parts[1..], sep)
  }

  /** Joining a first part before at least one more puts the separator after it. */
  lemma JoinCons(x: string, parts: seq<string>, sep: char)
    requires parts != []
    ensures Join([x] + parts, sep) == x + [sep] + Join(parts, sep)
  {
    assert ([x] + parts)[1..] == parts;
  }

  /** Joining the parts of a split gives back the text. */
  lemma {:induction false} JoinSplit(s: string, sep: char)
    ensures Join(Split(s, sep), sep) == s
    decreases |s|
  {
    if s != [] {
      var rest := Split(s[1..], sep);
      JoinSplit(s[1..], sep);
      JoinSplitStep(s, sep, rest);
    }
  }

  /** One step of `JoinSplit`: a character in front of a text whose split joins back. */
  lemma JoinSplitStep(s: string, sep: char, rest: seq<string>)
    requires s != [] && rest == Split(s[1..], sep)
    requires Join(rest, sep) == s[1..]
    ensures Join(Split(s, sep), sep) == s
  {
    assert s == [s[0]] + s[1..];
    if s[0] == sep {
      JoinCons("", rest, sep);
    } else if |rest| > 1 {
      JoinCons(rest[0], rest[1..], sep);
      JoinCons([s[0]] + rest[0], rest[1..], sep);
      assert rest == [rest[0]] + rest[1..];
    }
  }

  /** A text without the separator is a single part. */
  lemma {:induction false} SplitWithoutSeparator(a: string, sep: char)
    requires sep !in a
    ensures Split(a, sep) == [a]
    decreases |a|
  {
    if a != [] {
      SplitWithoutSeparator(a[1..], sep);
      assert a == [a[0]] + a[1..];
    }
  }

  /** The text before the first separator is the first part; the rest is split on. */
  lemma {:induction false} SplitAtFirst(a: string, sep: char, b: string)
    requires sep !in a
    ensures Split(a + [sep] + b, sep) == [a] + Split(b, sep)
    decreases |a|
  {
    if a == [] {
      assert a + [sep] + b == [sep] + b;
      assert ([sep] + b)[1..] == b;
    } else {
      SplitAtFirst(a[1..], sep, b);
      assert (a + [sep] + b)[1..] == a[1..] + [sep] + b;
      assert a == [a[0]] + a[1..];
    }
  }

  /** Splitting parts that were joined gives back the parts, when no part holds the
    * separator. */
  lemma {:induction false} SplitJoin(parts: seq<string>, sep: char)
    requires |parts| >= 1
    requires forall p | p in parts :: sep !in p
    ensures Split(Join(parts, sep), sep) == parts
  {
    if |parts| == 1 {
      SplitWithoutSeparator(parts[0], sep);
    } else {
      assert parts[0] in parts;
      SplitJoin(parts[1..], sep);
      SplitAtFirst(parts[0], sep, Join(parts[1..], sep));
    }
  }

  /** `getItem(i)` on the array of parts: null past its end. */
  function Item(parts: seq<string>, i: nat): (r: Option<string>)
    ensures r.Some? <==> i < |parts|
    ensures r.Some? ==> r.value == parts[i]
  {
    if i < |parts| then Some(parts[i]) else None
  }

  /** `col("location").contains(",")`; a null location is not a coordinate pair. */
  predicate HasComma(location: Option<string>) {
    location.Some? && Comma in location.value
  }

  /** The two `withColumn` steps on one row: when the location holds a comma,
    * latitude is part 0 and longitude part 1 of its split, cast to double;
    * otherwise both are null. The other columns are copied. */
  function EnrichRecord(p: ParsedRecord, parse: DoubleParser): (e: EnrichedRecord)
    ensures Base(e) == p
    ensures !HasComma(p.location) ==> e.latitude.None? && e.longitude.None?
    ensures HasComma(p.location) ==>
      && |Split(p.location.value, Comma)| >= 2
      && e.latitude == parse(Split(p.location.value, Comma)[0])
      && e.longitude == parse(Split(p.location.value, Comma)[1])
  {
    SplitParts(if p.location.Some? then p.location.value else [], Comma);
    var latitude :=
      if HasComma(p.location) then CastNullable(Item(Split(p.location.value, Comma), 0), parse) else None;
    var longitude :=
      if HasComma(p.location) then CastNullable(Item(Split(p.location.value, Comma), 1), parse) else None;
    EnrichedRecord(p.violationId, p.timestamp, p.location, p.violationType, p.vehicleType, p.severity,
                   latitude, longitude)
  }

  /** Text `a`, separator, `b`, then nothing or another separator: `a` and `b` are
    * the first two parts. */
  lemma SplitFirstTwo(a: string, sep: char, b: string, tail: string)
    requires sep !in a && sep !in b
    requires tail == [] || tail[0] == sep
    ensures |Split(a + [sep] + b + tail, sep)| >= 2
    ensures Split(a + [sep] + b + tail, sep)[0] == a
    ensures Split(a + [sep] + b + tail, sep)[1] == b
  {
    assert a + [sep] + b + tail == a + [sep] + (b + tail);
    SplitAtFirst(a, sep, b + tail);
    if tail == [] {
      assert b + tail == b;
      SplitWithoutSeparator(b, sep);
    } else {
      assert b + tail == b + [sep] + tail[1..];
      SplitAtFirst(b, sep, tail[1..]);
    }
  }

  /** A location `a,b` followed by nothing or by more comma-separated parts gives
    * latitude from `a` and longitude from `b`; further parts are ignored. */
  lemma CoordinatesFromParts(p: ParsedRecord, parse: DoubleParser, a: string, b: string, tail: string)
    requires p.location == Some(a + [Comma] + b + tail)
    requires Comma !in a && Comma !in b
    requires tail == [] || tail[0] == Comma
    ensures EnrichRecord(p, parse).latitude == parse(a)
    ensures EnrichRecord(p, parse).longitude == parse(b)
  {
    assert p.location.value[|a|] == Comma;
    SplitFirstTwo(a, Comma, b, tail);
  }

  /** A populated latitude or longitude means the location held a comma. */
  lemma CoordinatesNeedComma(p: ParsedRecord, parse: DoubleParser)
    ensures EnrichRecord(p, parse).latitude.Some? ==> HasComma(p.location)
    ensures EnrichRecord(p, parse).longitude.Some? ==> HasComma(p.location)
  {
  }

  /** The two derived columns need not be null together: "40.7,abc" gives a
    * latitude and no longitude when "abc" does not parse. */
  lemma LatitudeWithoutLongitude(p: ParsedRecord, parse: DoubleParser)
    requires p.location == Some("40.7,abc")
    requires parse("40.7").Some? && parse("abc").None?
    ensures EnrichRecord(p, parse).latitude.Some?
    ensures EnrichRecord(p, parse).longitude.None?
  {
    assert "40.7,abc" == "40.7" + [Comma] + "abc" + [];
    CoordinatesFromParts(p, parse, "40.7", "abc", []);
  }

  /** The enrichment of the frame: one output row per input row, in order. */
  function Enrich(rows: seq<ParsedRecord>, parse: DoubleParser): (out: seq<EnrichedRecord>)
    ensures |out| == |rows|
    ensures forall i | 0 <= i < |rows| :: Base(out[i]) == rows[i]
    ensures forall i | 0 <= i < |rows| :: out[i] == EnrichRecord(rows[i], parse)
  {
    if rows == [] then [] else [EnrichRecord(rows[0], parse)] + Enrich(rows[1..], parse)
  }
}
