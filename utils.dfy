/** The helpers of `cmip6py/commons/utils.py`: type tests, extension stripping, dates and spans. */
module Utils {
  import opened PyValues
  import opened Errors
  import opened Strings

  /** `isinstance(x, Iterable) and not isinstance(x, (str, bytes, bytearray))`. */
  function IsIterableButNotString(v: Value): (r: bool)
    ensures v.Str? || v.Bytes? ==> !r
    ensures r <==> v.List? || v.Tuple? || v.SetOf?
  {
    match v
    case List(_) => true
    case Tuple(_) => true
    case SetOf(_) => true
    case _ => false
  }

  // ---------------------------------------------------------------- file names

  /** `s.rfind(c)`: the last index of `c`, or -1. */
  function RFind(s: string, c: char): (i: int)
    ensures -1 <= i < |s|
    ensures i >= 0 ==> s[i] == c && forall j :: i < j < |s| ==> s[j] != c
    ensures i == -1 ==> c !in s
  {
    if |s| == 0 then -1
    else if s[|s| - 1] == c then |s| - 1
    else
      assert forall x :: x in s ==> x in s[..|s| - 1] || x == s[|s| - 1];
      RFind(s[..|s| - 1], c)
  }

  /** `PurePath(name).suffix`: from the last dot, unless that dot is first or last. */
  function Suffix(name: string): string
  {
    var i := RFind(name, '.');
    if 0 < i < |name| - 1 then name[i..] else ""
  }

  /** `PurePath(name).stem`: the name without its suffix. */
  function Stem(name: string): (r: string)
    ensures Suffix(name) != "" ==> |r| < |name| && name == r + Suffix(name)
    ensures Suffix(name) == "" ==> r == name
  {
    var i := RFind(name, '.');
    if 0 < i < |name| - 1 then name[..i] else name
  }

  /** `PurePath(name).with_suffix(suffix)`, which refuses an empty name. */
  function WithSuffix(name: string, suffix: string): (r: Result<string>)
    ensures r.Err? <==> name == ""
    ensures r.Ok? ==> r.value == Stem(name) + suffix
  {
    if name == "" then Err(ValueError) else Ok(Stem(name) + suffix)
  }

  /** What `remove_all_extensions` computes: suffixes stripped until none is left. */
  function StripAll(name: string): (r: string)
    ensures Suffix(r) == ""
    ensures r <= name
    decreases |name|
  {
    if Suffix(name) == "" then name else StripAll(Stem(name))
  }

  /** `remove_all_extensions`: strips the suffix while there is one. */
  method RemoveAllExtensions(filePath: string) returns (r: string)
    ensures r == StripAll(filePath)
    ensures Suffix(r) == "" && r <= filePath
  {
    var p := filePath;
    while Suffix(p) != ""
      invariant StripAll(p) == StripAll(filePath)
      invariant p <= filePath
      decreases |p|
    {
      p := Stem(p);
    }
    r := p;
  }

  /** Stripping all extensions twice is stripping them once. */
  lemma StripAllIdempotent(name: string)
    ensures StripAll(StripAll(name)) == StripAll(name)
  {
  }

  // ---------------------------------------------------------------- dates

  /** A calendar date; `DateTime` below is the part Python's `datetime` admits. */
  datatype Date = Date(year: int, month: int, day: int)

  predicate IsLeap(y: int)
  {
    y % 4 == 0 && (y % 100 != 0 || y % 400 == 0)
  }

  function DaysInMonth(y: int, m: int): int
    requires 1 <= m <= 12
  {
    if m == 2 then (if IsLeap(y) then 29 else 28)
    else if m == 4 || m == 6 || m == 9 || m == 11 then 30
    else 31
  }

  predicate ValidDate(d: Date)
  {
    1 <= d.year <= 9999 && 1 <= d.month <= 12 && 1 <= d.day <= DaysInMonth(d.year, d.month)
  }

  type DateTime = d: Date | ValidDate(d) witness Date(1, 1, 1)

  /** Chronological order of dates (Python's `<` on `datetime`). */
  predicate DateLess(a: Date, b: Date)
  {
    a.year < b.year || (a.year == b.year && (a.month < b.month || (a.month == b.month && a.day < b.day)))
  }

  predicate IsDigit(c: char)
  {
    '0' <= c <= '9'
  }

  function DigitValue(c: char): (n: nat)
    requires IsDigit(c)
    ensures n < 10 && DigitChar(n) == c
  {
    (c as int) - ('0' as int)
  }

  predicate AllDigits(s: string)
  {
    forall i :: 0 <= i < |s| ==> IsDigit(s[i])
  }

  /** `n` written with exactly two digits. */
  function Digits2(n: nat): (s: string)
    requires n < 100
    ensures |s| == 2 && AllDigits(s)
  {
    [DigitChar(n / 10), DigitChar(n % 10)]
  }

  /** `n` written with exactly four digits. */
  function Digits4(n: nat): (s: string)
    requires n < 10000
    ensures |s| == 4 && AllDigits(s)
  {
    [DigitChar(n / 1000), DigitChar(n / 100 % 10), DigitChar(n / 10 % 10), DigitChar(n % 10)]
  }

  function Value2(s: string): nat
    requires |s| == 2 && AllDigits(s)
  {
    10 * DigitValue(s[0]) + DigitValue(s[1])
  }

  function Value4(s: string): nat
    requires |s| == 4 && AllDigits(s)
  {
    1000 * DigitValue(s[0]) + 100 * DigitValue(s[1]) + 10 * DigitValue(s[2]) + DigitValue(s[3])
  }

  /**
   * `datetime.strptime(s, "%Y%m%d")` on eight digits: year, month and day
   * read at fixed widths, and the date must exist.
   */
  function ParseDate(s: string): (r: Option<DateTime>)
  {
    if |s| == 8 && AllDigits(s) then
      var d := Date(Value4(s[..4]), Value2(s[4..6]), Value2(s[6..]));
      if ValidDate(d) then Some(d) else None
    else None
  }

  /** `dt.strftime("%Y%m%d")`. */
  function FormatDate(d: DateTime): (s: string)
    ensures |s| == 8 && AllDigits(s)
  {
    Digits4(d.year) + Digits2(d.month) + Digits2(d.day)
  }

  /** `convert_esgf_file_datetime` on a string: `strptime(s, "%Y%m%d")`, `ValueError` if it does not parse. */
  function ConvertEsgfFileDatetime(s: string): (r: Result<DateTime>)
    ensures r.Ok? <==> ParseDate(s).Some?
    ensures r.Ok? ==> FormatDate(r.value) == s
    ensures r.Err? ==> r.error == ValueError
  {
    match ParseDate(s)
    case Some(d) =>
      FormatOfParse(s);
      Ok(d)
    case None => Err(ValueError)
  }

  /** `convert_version_to_datetime`: `strptime(version, "v%Y%m%d")`. */
  function ConvertVersionToDatetime(version: string): (r: Result<DateTime>)
    ensures r.Ok? ==> version == "v" + FormatDate(r.value)
    ensures r.Err? ==> r.error == ValueError
  {
    if |version| > 0 && version[0] == 'v' && ParseDate(version[1..]).Some? then
      var d := ParseDate(version[1..]).value;
      FormatOfParse(version[1..]);
      assert version == "v" + version[1..];
      Ok(d)
    else
      Err(ValueError)
  }

  /** A version parses exactly when it is `v` followed by a formatted date. */
  lemma VersionFormat(version: string)
    ensures ConvertVersionToDatetime(version).Ok? <==> exists d: DateTime :: version == "v" + FormatDate(d)
  {
    if ConvertVersionToDatetime(version).Err? {
      UnparsableVersion(version);
    }
  }

  lemma UnparsableVersion(version: string)
    requires !(|version| > 0 && version[0] == 'v' && ParseDate(version[1..]).Some?)
    ensures forall d: DateTime :: version != "v" + FormatDate(d)
  {
    forall d: DateTime ensures version != "v" + FormatDate(d) {
      if version == "v" + FormatDate(d) {
        ParseOfFormat(d);
      }
    }
  }

  lemma Digits2RoundTrip(n: nat)
    requires n < 100
    ensures Value2(Digits2(n)) == n
  {
    DigitRoundTrip(n / 10);
    DigitRoundTrip(n % 10);
  }

  lemma Digits4RoundTrip(n: nat)
    requires n < 10000
    ensures Value4(Digits4(n)) == n
  {
    var s := Digits4(n);
    var a, b, c, d := n / 1000, n / 100 % 10, n / 10 % 10, n % 10;
    DigitRoundTrip(a);
    DigitRoundTrip(b);
    DigitRoundTrip(c);
    DigitRoundTrip(d);
    assert Value4(s) == 1000 * a + 100 * b + 10 * c + d;
    Decompose4(n);
  }

  /** A digit's character reads back as the digit. */
  lemma DigitRoundTrip(d: nat)
    requires d < 10
    ensures DigitValue(DigitChar(d)) == d
  {
  }

  /** A number below 10000 is the sum of its four decimal digits' place values. */
  lemma Decompose4(n: nat)
    requires n < 10000
    ensures 1000 * (n / 1000) + 100 * (n / 100 % 10) + 10 * (n / 10 % 10) + n % 10 == n
  {
    assert n == 10 * (n / 10) + n % 10;
    assert n / 10 == 10 * (n / 100) + n / 10 % 10;
    assert n / 100 == 10 * (n / 1000) + n / 100 % 10;
  }

  /** Four decimal digits' place values add up to a number whose digits they are. */
  lemma Compose4(a: nat, b: nat, c: nat, d: nat)
    requires a < 10 && b < 10 && c < 10 && d < 10
    ensures var n := 1000 * a + 100 * b + 10 * c + d;
            n < 10000 && n / 1000 == a && n / 100 % 10 == b && n / 10 % 10 == c && n % 10 == d
  {
    var n := 1000 * a + 100 * b + 10 * c + d;
    assert n / 1000 == a;
    assert n / 100 == 10 * a + b;
    assert n / 10 == 100 * a + 10 * b + c;
  }

  lemma Value2RoundTrip(s: string)
    requires |s| == 2 && AllDigits(s)
    ensures Value2(s) < 100 && Digits2(Value2(s)) == s
  {
    var a, b := DigitValue(s[0]), DigitValue(s[1]);
    assert (10 * a + b) / 10 == a && (10 * a + b) % 10 == b;
  }

  lemma Value4RoundTrip(s: string)
    requires |s| == 4 && AllDigits(s)
    ensures Value4(s) < 10000 && Digits4(Value4(s)) == s
  {
    var a, b, c, d := DigitValue(s[0]), DigitValue(s[1]), DigitValue(s[2]), DigitValue(s[3]);
    Compose4(a, b, c, d);
    var n := Value4(s);
    assert n == 1000 * a + 100 * b + 10 * c + d;
    assert Digits4(n) == [DigitChar(a), DigitChar(b), DigitChar(c), DigitChar(d)];
  }

  /** Formatting a date and parsing it back gives the date. */
  lemma ParseOfFormat(d: DateTime)
    ensures ParseDate(FormatDate(d)) == Some(d)
  {
    var s := FormatDate(d);
    assert s[..4] == Digits4(d.year) && s[4..6] == Digits2(d.month) && s[6..] == Digits2(d.day);
    Digits4RoundTrip(d.year);
    Digits2RoundTrip(d.month);
    Digits2RoundTrip(d.day);
  }

  /** A string that parses as a date is that date's formatting. */
  lemma FormatOfParse(s: string)
    requires ParseDate(s).Some?
    ensures FormatDate(ParseDate(s).value) == s
  {
    Value4RoundTrip(s[..4]);
    Value2RoundTrip(s[4..6]);
    Value2RoundTrip(s[6..]);
    assert s == s[..4] + s[4..6] + s[6..];
  }

  lemma DigitCharOrder(a: nat, b: nat)
    requires a < 10 && b < 10
    ensures DigitChar(a) < DigitChar(b) <==> a < b
    ensures DigitChar(a) == DigitChar(b) <==> a == b
  {
    assert DigitChar(a) as int == a + '0' as int;
    assert DigitChar(b) as int == b + '0' as int;
  }

  /** Splitting a number at a power of ten orders it lexicographically by the two halves. */
  lemma SplitOrder(x: nat, y: nat, p: nat)
    requires p == 10 || p == 100
    ensures x < y <==> x / p < y / p || (x / p == y / p && x % p < y % p)
  {
  }

  lemma Digits2Order(x: nat, y: nat)
    requires x < 100 && y < 100
    ensures Less(Digits2(x), Digits2(y)) <==> x < y
    ensures Digits2(x) == Digits2(y) <==> x == y
  {
    Digits2RoundTrip(x);
    Digits2RoundTrip(y);
    var s, t := Digits2(x), Digits2(y);
    DigitCharOrder(x / 10, y / 10);
    DigitCharOrder(x % 10, y % 10);
    assert s[1..] == [s[1]] && t[1..] == [t[1]];
    assert [s[1]][1..] == [] && [t[1]][1..] == [];
    assert Less([s[1]], [t[1]]) <==> s[1] < t[1];
    assert Less(s, t) <==> s[0] < t[0] || (s[0] == t[0] && s[1] < t[1]);
    SplitOrder(x, y, 10);
  }

  lemma Digits4Split(x: nat)
    requires x < 10000
    ensures Digits4(x) == Digits2(x / 100) + Digits2(x % 100)
  {
    assert x / 100 / 10 == x / 1000;
    assert x / 100 % 10 == x / 100 % 10;
    assert x % 100 / 10 == x / 10 % 10;
    assert x % 100 % 10 == x % 10;
  }

  lemma Digits4Order(x: nat, y: nat)
    requires x < 10000 && y < 10000
    ensures Less(Digits4(x), Digits4(y)) <==> x < y
    ensures Digits4(x) == Digits4(y) <==> x == y
  {
    Digits4RoundTrip(x);
    Digits4RoundTrip(y);
    Digits4Split(x);
    Digits4Split(y);
    LessConcat(Digits2(x / 100), Digits2(x % 100), Digits2(y / 100), Digits2(y % 100));
    Digits2Order(x / 100, y / 100);
    Digits2Order(x % 100, y % 100);
    SplitOrder(x, y, 100);
  }

  /** Formatted dates compare as strings the way the dates compare in time. */
  lemma FormatDateOrder(d: DateTime, e: DateTime)
    ensures Less(FormatDate(d), FormatDate(e)) <==> DateLess(d, e)
  {
    Digits4Order(d.year, e.year);
    Digits2Order(d.month, e.month);
    Digits2Order(d.day, e.day);
    LessConcat(Digits4(d.year), Digits2(d.month) + Digits2(d.day), Digits4(e.year), Digits2(e.month) + Digits2(e.day));
    LessConcat(Digits2(d.month), Digits2(d.day), Digits2(e.month), Digits2(e.day));
    assert FormatDate(d) == Digits4(d.year) + (Digits2(d.month) + Digits2(d.day));
    assert FormatDate(e) == Digits4(e.year) + (Digits2(e.month) + Digits2(e.day));
  }

  /**
   * On well-formed `vYYYYMMDD` stamps, Python's string order is the
   * chronological order, and distinct stamps are distinct dates.
   */
  lemma VersionOrderIsChronological(a: string, b: string)
    requires ConvertVersionToDatetime(a).Ok? && ConvertVersionToDatetime(b).Ok?
    ensures Less(a, b) <==> DateLess(ConvertVersionToDatetime(a).value, ConvertVersionToDatetime(b).value)
    ensures a == b <==> ConvertVersionToDatetime(a).value == ConvertVersionToDatetime(b).value
  {
    var d, e := ConvertVersionToDatetime(a).value, ConvertVersionToDatetime(b).value;
    LessConcat("v", FormatDate(d), "v", FormatDate(e));
    FormatDateOrder(d, e);
  }

  // ---------------------------------------------------------------- ESGF file names

  /** The last `_`-separated segment of the name without its extensions. */
  function LastSegment(fileName: string): string
  {
    var parts := Split(StripAll(fileName), '_');
    parts[|parts| - 1]
  }

  /**
   * `extract_esgf_file_datetimes(name, as_datetime=False)`: the two
   * `-`-separated halves of the last segment; unpacking raises `ValueError`
   * unless there are exactly two.
   */
  function ExtractEsgfFileDatetimes(fileName: string): (r: Result<(string, string)>)
    ensures r.Ok? <==> Count(LastSegment(fileName), '-') == 1
    ensures r.Ok? ==> LastSegment(fileName) == r.value.0 + "-" + r.value.1
    ensures r.Ok? ==> '-' !in r.value.0 && '-' !in r.value.1 && '_' !in r.value.0 && '_' !in r.value.1
    ensures r.Err? ==> r.error == ValueError
  {
    var parts := Split(StripAll(fileName), '_');
    var last := parts[|parts| - 1];
    var halves := Split(last, '-');
    SplitParts(StripAll(fileName), '_');
    SplitParts(last, '-');
    JoinSplit(last, '-');
    assert last in parts;
    if |halves| == 2 then
      assert halves[0] in halves && halves[1] in halves;
      assert forall c :: c in halves[0] ==> c in last by {
        assert last == halves[0] + "-" + halves[1];
      }
      assert forall c :: c in halves[1] ==> c in last by {
        assert last == halves[0] + "-" + halves[1];
      }
      Ok((halves[0], halves[1]))
    else Err(ValueError)
  }

  /** `extract_esgf_file_datetimes(name, as_datetime=True)`: both halves parsed with `%Y%m%d`. */
  function ExtractEsgfFileDates(fileName: string): (r: Result<(DateTime, DateTime)>)
    ensures r.Ok? ==> ExtractEsgfFileDatetimes(fileName).Ok? &&
                      FormatDate(r.value.0) == ExtractEsgfFileDatetimes(fileName).value.0 &&
                      FormatDate(r.value.1) == ExtractEsgfFileDatetimes(fileName).value.1
  {
    var (start, stop) :- ExtractEsgfFileDatetimes(fileName);
    var s :- ConvertEsgfFileDatetime(start);
    var e :- ConvertEsgfFileDatetime(stop);
    Ok((s, e))
  }

  /** An ESGF file name: `<prefix>_<start>-<stop>.nc`. */
  function EsgfFileName(prefix: string, start: DateTime, stop: DateTime): string
  {
    prefix + "_" + FormatDate(start) + "-" + FormatDate(stop) + ".nc"
  }

  lemma {:induction false} SplitLastSegment(a: string, b: string, sep: char)
    requires sep !in b
    ensures var parts := Split(a + [sep] + b, sep); |parts| >= 2 && parts[|parts| - 1] == b
    decreases |a|
  {
    if |a| == 0 {
      assert a + [sep] + b == [sep] + b;
      assert ([sep] + b)[1..] == b;
      SplitWithoutSep(b, sep);
    } else {
      SplitLastSegment(a[1..], b, sep);
      assert (a + [sep] + b)[1..] == a[1..] + [sep] + b;
    }
  }

  lemma NoDigitsIn(s: string, c: char)
    requires AllDigits(s) && !IsDigit(c)
    ensures c !in s
  {
  }

  /** A dot-free name with `.nc` appended loses exactly that extension. */
  lemma StripNc(base: string)
    requires '.' !in base && |base| > 0
    ensures StripAll(base + ".nc") == base
  {
    var name := base + ".nc";
    assert name[|base|] == '.' && name[|base| + 1..] == "nc";
    assert RFind(name, '.') == |base|;
    assert name[..|base|] == base;
    assert Stem(name) == base;
    assert RFind(base, '.') == -1;
  }

  /** The date part `<start>-<stop>` of a file name splits into the two formatted dates. */
  lemma DatePartSplits(start: DateTime, stop: DateTime)
    ensures Split(FormatDate(start) + "-" + FormatDate(stop), '-') == [FormatDate(start), FormatDate(stop)]
  {
    NoDigitsIn(FormatDate(start), '-');
    NoDigitsIn(FormatDate(stop), '-');
    SplitAfterSep(FormatDate(start), FormatDate(stop), '-');
    SplitWithoutSep(FormatDate(stop), '-');
  }

  /**
   * The dates written into a file name are the dates read back from it,
   * provided the prefix has no dot (a dot in it would be read as an extension).
   */
  lemma EsgfFileNameRoundTrip(prefix: string, start: DateTime, stop: DateTime)
    requires '.' !in prefix
    ensures ExtractEsgfFileDates(EsgfFileName(prefix, start, stop)) == Ok((start, stop))
  {
    var name := EsgfFileName(prefix, start, stop);
    EsgfFileNameDatetimes(prefix, start, stop);
    ParseOfFormat(start);
    ParseOfFormat(stop);
    assert ConvertEsgfFileDatetime(FormatDate(start)) == Ok(start);
    assert ConvertEsgfFileDatetime(FormatDate(stop)) == Ok(stop);
  }

  /** The two date strings read back from a file name are the ones written into it. */
  lemma EsgfFileNameDatetimes(prefix: string, start: DateTime, stop: DateTime)
    requires '.' !in prefix
    ensures ExtractEsgfFileDatetimes(EsgfFileName(prefix, start, stop)) == Ok((FormatDate(start), FormatDate(stop)))
  {
    var digits := FormatDate(start) + "-" + FormatDate(stop);
    NoDigitsIn(FormatDate(start), '.');
    NoDigitsIn(FormatDate(stop), '.');
    NoDigitsIn(FormatDate(start), '_');
    NoDigitsIn(FormatDate(stop), '_');
    assert EsgfFileName(prefix, start, stop) == prefix + ['_'] + digits + ".nc";
    LastSegmentOf(prefix, digits);
    DatePartSplits(start, stop);
  }

  /** The last segment of `<prefix>_<digits>.nc` is `digits` when neither holds a dot and `digits` no underscore. */
  lemma LastSegmentOf(prefix: string, digits: string)
    requires '.' !in prefix && '.' !in digits && '_' !in digits
    ensures LastSegment(prefix + ['_'] + digits + ".nc") == digits
  {
    var base := prefix + ['_'] + digits;
    NotInJoined(prefix, digits, '_', '.');
    StripNc(base);
    LastSegmentStripped(base + ".nc", base);
    SplitLastSegment(prefix, digits, '_');
  }

  lemma NotInJoined(a: string, b: string, sep: char, c: char)
    requires c !in a && c !in b && c != sep
    ensures c !in a + [sep] + b
  {
  }

  lemma LastSegmentStripped(name: string, base: string)
    requires StripAll(name) == base
    ensures var parts := Split(base, '_'); LastSegment(name) == parts[|parts| - 1]
  {
  }

  // ---------------------------------------------------------------- spans

  /**
   * `overlapping_spans`: the file's last year may equal the span's first,
   * but the file's first year must be before the span's end.
   */
  predicate OverlappingSpans(fileStartYear: int, fileStopYear: int, expStartYear: int, expStopYear: int)
  {
    fileStartYear < expStopYear && fileStopYear >= expStartYear
  }

  /** Year `y` lies in the file's closed span and in the experiment's half-open span. */
  predicate SharedYear(y: int, fileStart: int, fileStop: int, expStart: int, expStop: int)
  {
    fileStart <= y <= fileStop && expStart <= y < expStop
  }

  /** For well-formed spans, overlap means a shared year of `[fileStart, fileStop]` and `[expStart, expStop)`. */
  lemma OverlapIsSharedYear(fileStart: int, fileStop: int, expStart: int, expStop: int)
    requires fileStart <= fileStop && expStart < expStop
    ensures OverlappingSpans(fileStart, fileStop, expStart, expStop) <==>
            exists y :: SharedYear(y, fileStart, fileStop, expStart, expStop)
  {
    if OverlappingSpans(fileStart, fileStop, expStart, expStop) {
      var y := if fileStart < expStart then expStart else fileStart;
      assert SharedYear(y, fileStart, fileStop, expStart, expStop);
    }
  }

  /** The boundary asymmetry: touching at the file's end counts, touching at its start does not. */
  lemma OverlapBoundaries()
    ensures OverlappingSpans(1850, 1900, 1900, 1950)
    ensures !OverlappingSpans(1900, 1950, 1850, 1900)
  {
  }
}
