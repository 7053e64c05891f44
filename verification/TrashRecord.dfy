/** Which texts are .trashinfo records, spelled out for every text. */
module TrashRecord {
  import opened Base
  import opened PathBytes
  import opened RecordName
  import opened TrashInfo
  import PercentCodec

  // ----- the two values -----

  predicate BeginsGroup(line: bytes) {
    |line| >= 2 && line[0] == Ascii("[")[0] && line[|line| - 1] == Ascii("]")[0]
  }

  /** Line k is the first one after the header with this key, no line up to there begins another group, and it gives
      the key this value. */
  predicate FirstWithKey(lines: seq<bytes>, key: bytes, k: int, value: bytes) {
    && 0 < k < |lines| && lines[k] == key + value
    && (forall j :: 0 < j < k ==> !(key <= lines[j]) && !BeginsGroup(lines[j]))
  }

  lemma {:induction false} FirstValueExactly(lines: seq<bytes>, key: bytes, value: bytes)
    requires lines != [] && key != [] && key[0] != '[' as int
    ensures FirstValue(lines[1..], key) == Some(value) <==> exists k :: FirstWithKey(lines, key, k, value)
    decreases |lines|
  {
    if exists k :: FirstWithKey(lines, key, k, value) {
      var k :| FirstWithKey(lines, key, k, value);
      ValueAt(lines, key, k, value);
    }
    if FirstValue(lines[1..], key) == Some(value) { var k := WhereValue(lines, key, value); }
  }

  lemma {:induction false} WhereValue(lines: seq<bytes>, key: bytes, value: bytes) returns (k: int)
    requires lines != [] && FirstValue(lines[1..], key) == Some(value)
    ensures FirstWithKey(lines, key, k, value)
    decreases |lines|
  {
    var rest := lines[1..];
    assert lines[1] == rest[0];
    if key <= rest[0] {
      k := 1;
      assert rest[0] == key + rest[0][|key|..];
    } else {
      var n := WhereValue(rest, key, value);
      k := n + 1;
      forall j | 0 < j < k ensures !(key <= lines[j]) && !BeginsGroup(lines[j]) {
        if j > 1 { assert lines[j] == rest[j - 1]; }
      }
    }
  }

  lemma {:induction false} ValueAt(lines: seq<bytes>, key: bytes, k: int, value: bytes)
    requires key != [] && key[0] != '[' as int && FirstWithKey(lines, key, k, value)
    ensures FirstValue(lines[1..], key) == Some(value)
    decreases k
  {
    var rest := lines[1..];
    assert lines[1] == rest[0];
    if k > 1 {
      forall j | 0 < j < k - 1 ensures !(key <= rest[j]) && !BeginsGroup(rest[j]) { assert rest[j] == lines[j + 1]; }
      ValueAt(rest, key, k - 1, value);
    } else {
      assert rest[0][0] == key[0];
    }
  }

  /** The path as it is written: absolute in the home Trash, relative in the Trash of a mounted file system. */
  function PathText(path: seq<bytes>, basis: Basis): bytes {
    (if basis.HomeAbsolute? then Ascii("/") else []) + PercentCodec.EncodeComponents(path)
  }

  /** A path value means a path exactly if it is the text of a valid path of at most 1024 components and 262144 bytes,
      before and after encoding. */
  lemma PathExact(value: bytes, basis: Basis, path: seq<bytes>)
    ensures ParsePath(value, basis) == Some(path) <==>
              && !basis.OtherBasis? && ValidPath(path) && value == PathText(path, basis)
              && |path| <= 1024 && RawLength(path) <= 262144 && |PercentCodec.EncodeComponents(path)| <= 262144
  {
    var e := PercentCodec.EncodeComponents(path);
    assert Ascii("/") == [SLASH] && [] + e == e && (Ascii("/") + e)[1..] == e;
    PercentCodec.DecodeExactly(e, path, PercentCodec.DEFAULT_LIMITS);
    if value != [] {
      PercentCodec.DecodeExactly(value, path, PercentCodec.DEFAULT_LIMITS);
      PercentCodec.DecodeExactly(value[1..], path, PercentCodec.DEFAULT_LIMITS);
      assert value == [value[0]] + value[1..];
    }
    if PercentCodec.Decode(e, PercentCodec.DEFAULT_LIMITS).Some? { DecodedStart(e); }
    hide PercentCodec.Decode, PercentCodec.EncodeComponents, ValidPath;
  }

  // ----- tokens and moments -----

  /** The token of a Trash entry: "ldc-" and 16 to 241 hexadecimal digits in small letters. */
  predicate TokenShape(token: bytes) {
    20 <= |token| <= 245 && token[..4] == Ascii("ldc-") && forall i :: 4 <= i < |token| ==> token[i] in HEX_DIGITS
  }

  lemma TokenExactly(token: bytes)
    ensures ValidTrashToken(token) <==> TokenShape(token)
  {
    forall b: byte ensures ('0' as int <= b <= '9' as int || 'a' as int <= b <= 'f' as int) <==> b in HEX_DIGITS { HexDigitExactly(b); }
    var tail := token[if |token| < 4 then |token| else 4..];
    assert forall i :: 0 <= i < |tail| ==> tail[i] == token[4 + i];
    assert forall i :: 4 <= i < |token| ==> token[i] == tail[i - 4];
    hide HEX_DIGITS;
  }

  // ----- records -----

  /** The text has a first line [Trash Info], no NUL and no carriage return, and at most a mebibyte; the first Path and
      the first DeletionDate before another group, in any order, with anything between, are the path and a date. */
  ghost predicate IsRecord(contents: bytes, path: seq<bytes>, basis: Basis, clock: Clock)
    requires ValidClock(clock)
  {
    && 0 < |contents| <= 1048576 && 0 !in contents && 13 !in contents
    && var lines := Split(contents, 10);
       && lines[0] == Ascii("[Trash Info]")
       && (exists k :: FirstWithKey(lines, Ascii("Path="), k, PathText(path, basis)))
       && (exists k :: FirstWithKey(lines, Ascii("DeletionDate="), k, Format(clock)))
  }

  predicate Acceptable(path: seq<bytes>, basis: Basis, clock: Clock) {
    && !basis.OtherBasis? && ValidPath(path)
    && |path| <= 1024 && RawLength(path) <= 262144 && |PercentCodec.EncodeComponents(path)| <= 262144
    && ValidClock(clock) && clock.year >= 1 && clock != Clock(1, 1, 1, 0, 0, 0)
  }

  /** The parser accepts exactly the records, for a well-formed token, and yields what they say. */
  lemma ParseExactly(parser: DateParser, contents: bytes, token: bytes, basis: Basis, info: Info)
    requires ReadsBack(parser)
    ensures Parse(parser, contents, token, basis) == Some(info) <==>
              && TokenShape(token) && info == Info(token, basis, info.path, Moment(info.deletedAt.clock, 0, 0))
              && Acceptable(info.path, basis, info.deletedAt.clock) && IsRecord(contents, info.path, basis, info.deletedAt.clock)
  {
    TokenExactly(token);
    Keys();
    ParseReads(parser, contents, token, basis, info);
    var lines := Split(contents, 10);
    var path, clock := info.path, info.deletedAt.clock;
    FirstValueExactly(lines, PATH_KEY, PathText(path, basis));
    if ValidClock(clock) { FirstValueExactly(lines, DATE_KEY, Format(clock)); }
    var p, d := FirstValue(lines[1..], PATH_KEY), FirstValue(lines[1..], DATE_KEY);
    if p.Some? { PathExact(p.value, basis, path); }
    if d.Some? { DateExactly(parser, d.value, clock); }
    PathExact(PathText(path, basis), basis, path);
    if ValidClock(clock) { DateExactly(parser, Format(clock), clock); }
    hide ValidTrashToken, TokenShape, PathText, PercentCodec.EncodeComponents, ValidPath, ParsePath, ParseDate, Format, ValidClock;
    hide FirstWithKey, FirstValue, Split;
  }

  /** The writer accepts exactly the valid records and writes this text. */
  lemma MarshalExactly(i: Info, text: bytes)
    ensures Marshal(i) == Some(text) <==>
              && TokenShape(i.token) && !i.basis.OtherBasis? && ValidPath(i.path)
              && |i.path| <= 1024 && RawLength(i.path) <= 262144 && |PercentCodec.EncodeComponents(i.path)| <= 262144
              && ValidClock(i.deletedAt.clock) && i.deletedAt.clock.year >= 1 && i.deletedAt.nanosecond == 0
              && Seconds(i.deletedAt.clock) != i.deletedAt.offset
              && text == Ascii("[Trash Info]\nPath=") + PathText(i.path, i.basis) + Ascii("\nDeletionDate=") + Format(i.deletedAt.clock) + Ascii("\n")
  {
    TokenExactly(i.token);
    var e := PercentCodec.EncodeComponents(i.path);
    PercentCodec.DecodeExactly(e, i.path, PercentCodec.DEFAULT_LIMITS);
    if PercentCodec.Decode(e, PercentCodec.DEFAULT_LIMITS).Some? {
      var p := PercentCodec.Decode(e, PercentCodec.DEFAULT_LIMITS).value;
      PercentCodec.DecodeExactly(e, p, PercentCodec.DEFAULT_LIMITS);
      if ValidPath(i.path) { PercentCodec.EncodingIsInjective(i.path, p); }
    }
    if ValidInfo(i) {
      MarshalSucceeds(i);
      ContentsText(PathText(i.path, i.basis), Format(i.deletedAt.clock));
      SamePathText(i);
    }
    hide ValidTrashToken, TokenShape, PathText, PathValue, ValidPath, PercentCodec.EncodeComponents, PercentCodec.Decode, Format, Contents, Seconds, ValidClock;
  }

  lemma ContentsText(path: bytes, date: bytes)
    ensures Contents(path, date) == Ascii("[Trash Info]\nPath=") + path + Ascii("\nDeletionDate=") + date + Ascii("\n")
  {
    Literals();
    Regroup(HEADER, PATH_KEY, path, DATE_KEY, date);
    hide HEADER, PATH_KEY, DATE_KEY;
  }

  lemma Literals()
    ensures Ascii("[Trash Info]\nPath=") == HEADER + [NEWLINE] + PATH_KEY
    ensures Ascii("\nDeletionDate=") == [NEWLINE] + DATE_KEY && Ascii("\n") == [NEWLINE]
  {
  }

  lemma Regroup(header: bytes, key: bytes, path: bytes, other: bytes, date: bytes)
    ensures header + [NEWLINE] + ((key + path) + [NEWLINE] + ((other + date) + [NEWLINE] + [])) ==
              (header + [NEWLINE] + key) + path + ([NEWLINE] + other) + date + [NEWLINE]
  {
  }

  lemma SamePathText(i: Info)
    requires ValidInfo(i)
    ensures PathValue(i) == PathText(i.path, i.basis)
  {
    hide PercentCodec.EncodeComponents;
    assert [] + PercentCodec.EncodeComponents(i.path) == PercentCodec.EncodeComponents(i.path);
    assert Ascii("/") == [SLASH];
  }

  // ----- the calendar -----

  const MONTHS: seq<nat> := [31, 28, 31, 30, 31, 30, 31, 31, 30, 31, 30, 31]

  /** The Gregorian calendar, carried back to the year 1. */
  lemma {:induction false} Gregorian(year: nat)
    requires year >= 1
    ensures DaysBeforeYear(year) == 365 * (year - 1) + (year - 1) / 4 - (year - 1) / 100 + (year - 1) / 400
  {
    if year > 1 {
      Gregorian(year - 1);
      LeapYears(year - 2);
      hide Leap;
    }
  }

  lemma LeapYears(n: nat)
    ensures (if Leap(n + 1) then 1 else 0) == ((n + 1) / 4 - n / 4) - ((n + 1) / 100 - n / 100) + ((n + 1) / 400 - n / 400)
  {
    var q := n / 400;
    var r := n - 400 * q;
    assert n / 4 == 100 * q + r / 4 && (n + 1) / 4 == 100 * q + (r + 1) / 4;
    assert n / 100 == 4 * q + r / 100 && (n + 1) / 100 == 4 * q + (r + 1) / 100;
    assert (n + 1) / 400 == q + (r + 1) / 400;
  }

  lemma MonthLengths(year: nat, month: nat)
    requires year >= 1 && 1 <= month <= 12
    ensures month != 2 ==> DaysIn(year, month) == MONTHS[month - 1]
    ensures DaysIn(year, 2) == 28 + DaysBeforeYear(year + 1) - DaysBeforeYear(year) - 365
    ensures DaysBeforeMonth(year, 13) == DaysBeforeYear(year + 1) - DaysBeforeYear(year)
  {
    var d := DaysIn(year, 2);
    hide Leap;
    assert DaysBeforeMonth(year, 2) == 31;
    assert DaysBeforeMonth(year, 3) == 31 + d;
    assert DaysBeforeMonth(year, 4) == 62 + d;
    assert DaysBeforeMonth(year, 5) == 92 + d;
    assert DaysBeforeMonth(year, 6) == 123 + d;
    assert DaysBeforeMonth(year, 7) == 153 + d;
    assert DaysBeforeMonth(year, 8) == 184 + d;
    assert DaysBeforeMonth(year, 9) == 215 + d;
    assert DaysBeforeMonth(year, 10) == 245 + d;
    assert DaysBeforeMonth(year, 11) == 276 + d;
    assert DaysBeforeMonth(year, 12) == 306 + d;
  }

  /** The last second of a month is followed by the first of the next, and one day has 86400. */
  lemma MonthsFollow(year: nat, month: nat)
    requires year >= 1 && 1 <= month <= 12
    ensures Seconds(Clock(year, month, DaysIn(year, month), 23, 59, 59)) + 1 ==
              Seconds(if month < 12 then Clock(year, month + 1, 1, 0, 0, 0) else Clock(year + 1, 1, 1, 0, 0, 0))
  {
    MonthLengths(year, month);
    assert DaysBeforeMonth(year, month + 1) == DaysBeforeMonth(year, month) + DaysIn(year, month);
    hide DaysIn, DaysBeforeYear;
  }

  /** The first second of 1970, where Unix begins to count, is 719162 days after the first of year one. */
  lemma UnixEpoch()
    ensures Seconds(Clock(1970, 1, 1, 0, 0, 0)) == 62135596800
  {
    Gregorian(1970);
    hide DaysBeforeYear;
  }

  /** Four digits of the year and two of all else, in this order. */
  lemma FormatExample()
    ensures Format(Clock(2024, 2, 29, 13, 5, 9)) == Ascii("2024-02-29T13:05:09")
  {
  }

  /** What the parser looks at. */
  lemma ParseReads(parser: DateParser, contents: bytes, token: bytes, basis: Basis, info: Info)
    requires ReadsBack(parser)
    ensures Parse(parser, contents, token, basis) == Some(info) <==>
              && ValidTrashToken(token) && !basis.OtherBasis? && ReadableSize(contents)
              && var lines := Split(contents, NEWLINE);
                 var p, d := FirstValue(lines[1..], PATH_KEY), FirstValue(lines[1..], DATE_KEY);
                 && lines[0] == HEADER && p.Some? && d.Some?
                 && ParsePath(p.value, basis) == Some(info.path) && ParseDate(parser, d.value) == Some(info.deletedAt.clock)
                 && info == Info(token, basis, info.path, Moment(info.deletedAt.clock, 0, 0))
  {
    var lines := Split(contents, NEWLINE);
    var p, d := FirstValue(lines[1..], PATH_KEY), FirstValue(lines[1..], DATE_KEY);
    if p.Some? && d.Some? && ValidTrashToken(token) { ResultIsValid(parser, token, basis, p.value, d.value); }
    hide ValidInfo, ParsePath, ParseDate, FirstValue, Split, ValidTrashToken, ReadableSize;
  }

  lemma ResultIsValid(parser: DateParser, token: bytes, basis: Basis, p: bytes, d: bytes)
    requires ReadsBack(parser) && ValidTrashToken(token)
    ensures var path, clock := ParsePath(p, basis), ParseDate(parser, d);
            path.Some? && clock.Some? ==> ValidInfo(Info(token, basis, path.value, Moment(clock.value, 0, 0)))
  {
    var path, clock := ParsePath(p, basis), ParseDate(parser, d);
    if path.Some? && clock.Some? {
      PathExact(p, basis, path.value);
      PercentCodec.DecodeExactly(PercentCodec.EncodeComponents(path.value), path.value, PercentCodec.DEFAULT_LIMITS);
    }
    hide PercentCodec.Decode, PercentCodec.EncodeComponents, ValidPath, ValidTrashToken, ParsePath, Seconds, Format;
  }

  lemma Keys()
    ensures HEADER == Ascii("[Trash Info]") && PATH_KEY == Ascii("Path=") && DATE_KEY == Ascii("DeletionDate=")
    ensures PATH_KEY != [] && PATH_KEY[0] != '[' as int && DATE_KEY != [] && DATE_KEY[0] != '[' as int
  {
  }
}
