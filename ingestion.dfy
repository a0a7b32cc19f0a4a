/** `read_data`: the input format is chosen from the lower-cased file extension. */
module Ingestion {
  import opened Wrappers

  /** The two Spark readers `read_data` can pick. */
  datatype Reader =
    | CsvWithInferredSchema   // spark.read.csv(path, header=True, inferSchema=True)
    | JsonWithDeclaredSchema  // spark.read.json(path, schema=schema)

  /** The message of the ValueError raised for any other extension. */
  const UnsupportedFormat: string := "Unsupported file format. Use CSV or JSON."

  /** Python's `s.rfind(c)`: the last index holding `c`, or -1. */
  function LastIndexOf(s: string, c: char): (i: int)
    ensures -1 <= i < |s|
    ensures i >= 0 ==> s[i] == c
    ensures forall j | i < j < |s| :: s[j] != c
  {
    if s == [] then -1
    else if s[|s| - 1] == c then |s| - 1
    else LastIndexOf(s[..|s| - 1], c)
  }

  /** The last index of `c` is the one index that holds `c` with no `c` after it. */
  lemma LastIndexOfIs(s: string, c: char, i: int)
    requires i == -1 || (0 <= i < |s| && s[i] == c)
    requires forall j | i < j < |s| :: s[j] != c
    ensures LastIndexOf(s, c) == i
  {
  }

  /** Text appended without `c` does not move the last `c`. */
  lemma LastIndexOfAppend(stem: string, tail: string, c: char)
    requires c !in tail
    ensures LastIndexOf(stem + tail, c) == LastIndexOf(stem, c)
  {
    var i := LastIndexOf(stem, c);
    var s := stem + tail;
    forall j | i < j < |s| ensures s[j] != c {
      if j >= |stem| {
        assert s[j] == tail[j - |stem|];
      }
    }
    LastIndexOfIs(s, c, i);
  }

  /** The last path component of `stem` has a character other than '.'. */
  predicate HasBaseName(stem: string) {
    exists k :: LastIndexOf(stem, '/') < k < |stem| && stem[k] != '.'
  }

  /** `os.path.splitext(path)[1]` with POSIX separators: from the last '.' of the last
    * path component to the end, unless that component is only dots before it (so
    * ".csv" and "..csv" have no extension); otherwise empty. */
  function Extension(path: string): (ext: string)
    ensures |ext| <= |path| && ext == path[|path| - |ext|..]
    ensures ext != [] ==> ext[0] == '.' && '.' !in ext[1..] && '/' !in ext
  {
    var sepIndex := LastIndexOf(path, '/');
    var dotIndex := LastIndexOf(path, '.');
    if dotIndex > sepIndex && exists k :: sepIndex < k < dotIndex && path[k] != '.' then
      assert forall j | 0 < j < |path| - dotIndex :: path[dotIndex..][j] == path[dotIndex + j];
      path[dotIndex..]
    else []
  }

  /** `str.lower()` on one character, for the ASCII letters. */
  function LowerChar(c: char): char {
    if 'A' <= c <= 'Z' then (c as int + 32) as char else c
  }

  /** `str.lower()` for the ASCII letters; every other character is kept. */
  function Lower(s: string): (r: string)
    ensures |r| == |s|
    ensures forall i | 0 <= i < |s| :: r[i] == LowerChar(s[i])
    ensures forall i | 0 <= i < |r| :: !('A' <= r[i] <= 'Z')
    ensures forall i | 0 <= i < |s| :: !('A' <= s[i] <= 'Z') ==> r[i] == s[i]
  {
    seq(|s|, i requires 0 <= i < |s| => LowerChar(s[i]))
  }

  /** Lower-casing twice is lower-casing once. */
  lemma LowerIdempotent(s: string)
    ensures Lower(Lower(s)) == Lower(s)
  {
  }

  /** `read_data(file_path)`: the reader for a ".csv" or ".json" extension after
    * lower-casing, and the ValueError otherwise. */
  function ReadData(path: string): (r: Result<Reader, string>)
    ensures r.Failure? ==> r.error == UnsupportedFormat
  {
    var ext := Lower(Extension(path));
    if ext == ".csv" then Success(CsvWithInferredSchema)
    else if ext == ".json" then Success(JsonWithDeclaredSchema)
    else Failure(UnsupportedFormat)
  }

  /** A lower-cased suffix that is '.' followed by letters is the extension of a
    * path whose stem has a base name. */
  lemma ExtensionOfSuffix(path: string, n: nat)
    requires 2 <= n <= |path|
    requires LowerChar(path[|path| - n]) == '.'
    requires forall i | |path| - n < i < |path| :: 'a' <= LowerChar(path[i]) <= 'z'
    ensures Extension(path) == path[|path| - n..] <==> HasBaseName(path[..|path| - n])
  {
    var stem, e := path[..|path| - n], path[|path| - n..];
    assert path == stem + e;
    assert e[0] == '.';
    forall i | 1 <= i < n ensures e[i] != '.' && e[i] != '/' {
      assert 'a' <= LowerChar(path[|stem| + i]) <= 'z';
    }
    assert '/' !in e by {
      forall i | 0 <= i < n ensures e[i] != '/' {
      }
    }
    LastIndexOfAppend(stem, e, '/');
    forall j | |stem| < j < |path| ensures path[j] != '.' {
      assert path[j] == e[j - |stem|];
    }
    LastIndexOfIs(path, '.', |stem|);
    var sepIndex := LastIndexOf(path, '/');
    if HasBaseName(stem) {
      var k :| sepIndex < k < |stem| && stem[k] != '.';
      assert path[k] != '.';
    }
  }

  /** A lower-case extension `lit` ('.' then letters) is what `Lower(Extension(path))`
    * yields exactly when the path ends in `lit` in any letter case after a base name. */
  lemma {:induction false} LowerExtensionIs(path: string, lit: string)
    requires 2 <= |lit| && lit[0] == '.'
    requires forall i | 1 <= i < |lit| :: 'a' <= lit[i] <= 'z'
    ensures Lower(Extension(path)) == lit <==>
      |path| >= |lit| && Lower(path[|path| - |lit|..]) == lit && HasBaseName(path[..|path| - |lit|])
  {
    var n := |lit|;
    if |path| >= n && Lower(path[|path| - n..]) == lit {
      var e := path[|path| - n..];
      assert LowerChar(path[|path| - n]) == Lower(e)[0];
      forall i | |path| - n < i < |path| ensures 'a' <= LowerChar(path[i]) <= 'z' {
        assert LowerChar(path[i]) == Lower(e)[i - (|path| - n)];
      }
      ExtensionOfSuffix(path, n);
    }
    var ext := Extension(path);
    if Lower(ext) == lit {
      assert |ext| == n;
      assert ext == path[|path| - n..];
    }
  }

  /** The CSV reader is chosen exactly for a path ending in ".csv" in any letter
    * case, after a non-empty base name. */
  lemma ReadDataCsv(path: string)
    ensures ReadData(path) == Success(CsvWithInferredSchema) <==>
      |path| >= 4 && Lower(path[|path| - 4..]) == ".csv" && HasBaseName(path[..|path| - 4])
  {
    var lit := ".csv";
    assert lit[1] == 'c' && lit[2] == 's' && lit[3] == 'v';
    LowerExtensionIs(path, lit);
  }

  /** The JSON reader is chosen exactly for a path ending in ".json" in any letter
    * case, after a non-empty base name. */
  lemma ReadDataJson(path: string)
    ensures ReadData(path) == Success(JsonWithDeclaredSchema) <==>
      |path| >= 5 && Lower(path[|path| - 5..]) == ".json" && HasBaseName(path[..|path| - 5])
  {
    var lit := ".json";
    assert lit[1] == 'j' && lit[2] == 's' && lit[3] == 'o' && lit[4] == 'n';
    assert |".csv"| != |lit|;
    LowerExtensionIs(path, lit);
  }
}
