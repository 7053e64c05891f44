/** The .trashinfo record (Freedesktop Trash Specification 1.0, "Contents of a trash directory"): writing and reading. */
module TrashInfo {
  import opened Base
  import opened PathBytes
  import opened RecordName
  import PercentCodec

  const NEWLINE: byte := 10
  const RETURN: byte := 13
  const HEADER := Ascii("[Trash Info]")
  const PATH_KEY := Ascii("Path=")
  const DATE_KEY := Ascii("DeletionDate=")
  const MAXIMUM_BYTES := 1048576
  const DATE_LENGTH := 19

  // ----- wall clocks -----

  datatype Clock = Clock(year: nat, month: nat, day: nat, hour: nat, minute: nat, second: nat)

  const EPOCH := Clock(1, 1, 1, 0, 0, 0)

  predicate Leap(year: nat) {
    year % 4 == 0 && (year % 100 != 0 || year % 400 == 0)
  }

  function DaysIn(year: nat, month: nat): nat {
    match month
    case 2 => if Leap(year) then 29 else 28
    case 4 => 30
    case 6 => 30
    case 9 => 30
    case 11 => 30
    case _ => 31
  }

  predicate ValidClock(c: Clock) {
    c.year <= 9999 && 1 <= c.month <= 12 && 1 <= c.day <= DaysIn(c.year, c.month) && c.hour < 24 && c.minute < 60 && c.second < 60
  }

  function DaysBeforeYear(year: nat): nat {
    if year <= 1 then 0 else DaysBeforeYear(year - 1) + if Leap(year - 1) then 366 else 365
  }

  function DaysBeforeMonth(year: nat, month: nat): nat {
    if month <= 1 then 0 else DaysBeforeMonth(year, month - 1) + DaysIn(year, month - 1)
  }

  /** Seconds from 0001-01-01T00:00:00 to a clock reading of the year 1 or later. */
  function Seconds(c: Clock): int {
    (DaysBeforeYear(c.year) + DaysBeforeMonth(c.year, c.month) + c.day - 1) * 86400 + c.hour * 3600 + c.minute * 60 + c.second
  }

  /** A clock reading in a zone that is `offset` seconds east of UTC. */
  datatype Moment = Moment(clock: Clock, offset: int, nanosecond: nat)

  /** The zero time is an instant, not a clock reading. */
  predicate IsZero(m: Moment) {
    Seconds(m.clock) == m.offset && m.nanosecond == 0
  }

  predicate ValidMoment(m: Moment) {
    ValidClock(m.clock) && !IsZero(m) && m.nanosecond == 0 && 1 <= m.clock.year <= 9999
  }

  lemma {:induction false} YearsPass(year: nat)
    requires year >= 1
    ensures DaysBeforeYear(year) >= 0 && (DaysBeforeYear(year) == 0 <==> year == 1)
  {
    if year > 1 { YearsPass(year - 1); }
  }

  /** In UTC only the very first second is the zero time. */
  lemma {:induction false} ZeroInUtc(c: Clock)
    requires ValidClock(c) && c.year >= 1
    ensures IsZero(Moment(c, 0, 0)) <==> c == EPOCH
  {
    YearsPass(c.year);
    if c.month > 1 { assert DaysBeforeMonth(c.year, c.month) >= DaysIn(c.year, c.month - 1); }
  }

  const DASHES := [DASH]
  const TEE: bytes := ['T' as int]
  const COLON: bytes := [':' as int]

  /** 2006-01-02T15:04:05 in the reference layout. */
  function Format(c: Clock): (r: bytes)
    requires ValidClock(c)
    ensures |r| == DATE_LENGTH && NEWLINE !in r && RETURN !in r && 0 !in r
  {
    TwoDigits(c.year / 100) + TwoDigits(c.year % 100) + DASHES + TwoDigits(c.month) + DASHES + TwoDigits(c.day) + TEE
    + TwoDigits(c.hour) + COLON + TwoDigits(c.minute) + COLON + TwoDigits(c.second)
  }

  function Digits(s: bytes, low: nat, high: nat): nat
    requires low <= high <= |s|
    decreases high
  {
    if low == high then 0 else 10 * Digits(s, low, high - 1) + Digit(s[high - 1])
  }

  function Digit(b: byte): nat {
    if '0' as int <= b <= '9' as int then (b as int) - ('0' as int) else 0
  }

  /** The clock reading of a text in the layout year-month-dayThour:minute:second. */
  function ReadClock(s: bytes): Clock
    requires |s| == DATE_LENGTH
  {
    Clock(Digits(s, 0, 4), Digits(s, 5, 7), Digits(s, 8, 10), Digits(s, 11, 13), Digits(s, 14, 16), Digits(s, 17, 19))
  }

  lemma TwoDigitsRead(s: bytes, at: nat, n: nat)
    requires at + 2 <= |s| && n < 100 && s[at..at + 2] == TwoDigits(n)
    ensures Digits(s, at, at + 2) == n
    ensures at >= 2 ==> Digits(s, at - 2, at + 2) == 100 * Digits(s, at - 2, at) + n
  {
    assert s[at] == s[at..at + 2][0] && s[at + 1] == s[at..at + 2][1];
    assert Digits(s, at, at) == 0;
    assert Digits(s, at, at + 1) == n / 10;
    if at >= 2 { assert Digits(s, at - 2, at + 1) == 10 * Digits(s, at - 2, at) + n / 10; }
  }

  /** Format writes each number at its place in the layout: the place decides what is read back. */
  lemma FormatReads(c: Clock)
    requires ValidClock(c)
    ensures ReadClock(Format(c)) == c
    ensures var s := Format(c); s[4] == s[7] == DASH && s[10] == 'T' as int && s[13] == s[16] == ':' as int
  {
    var s := Format(c);
    hide TwoDigits, Digits;
    FormatParts(c);
    TwoDigitsRead(s, 0, c.year / 100);
    TwoDigitsRead(s, 2, c.year % 100);
    TwoDigitsRead(s, 5, c.month);
    TwoDigitsRead(s, 8, c.day);
    TwoDigitsRead(s, 11, c.hour);
    TwoDigitsRead(s, 14, c.minute);
    TwoDigitsRead(s, 17, c.second);
  }

  lemma FormatParts(c: Clock)
    requires ValidClock(c)
    ensures var s := Format(c);
            && s[0..2] == TwoDigits(c.year / 100) && s[2..4] == TwoDigits(c.year % 100) && s[5..7] == TwoDigits(c.month)
            && s[8..10] == TwoDigits(c.day) && s[11..13] == TwoDigits(c.hour) && s[14..16] == TwoDigits(c.minute) && s[17..19] == TwoDigits(c.second)
            && s[4] == s[7] == DASH && s[10] == 'T' as int && s[13] == s[16] == ':' as int
  {
    hide TwoDigits;
  }

  /** There is such a parser: the one that reads the layout. */
  lemma LayoutReadsBack()
    ensures ReadsBack(s => if |s| == DATE_LENGTH && ValidClock(ReadClock(s)) then Some(ReadClock(s)) else None)
  {
    hide Format, ReadClock;
    forall c | ValidClock(c) ensures ReadClock(Format(c)) == c { FormatReads(c); }
  }

  /** The library's date parser: it reads back what Format prints. What else it takes is left open. */
  type DateParser = bytes -> Option<Clock>

  ghost predicate ReadsBack(parser: DateParser) {
    && (forall c :: ValidClock(c) ==> parser(Format(c)) == Some(c))
    && (forall s :: parser(s).Some? ==> ValidClock(parser(s).value))
  }

  function ParseDate(parser: DateParser, value: bytes): Option<Clock> {
    if |value| != DATE_LENGTH then None
    else
      match parser(value)
      case None => None
      case Some(c) =>
        if !ValidClock(c) then None
        else if Format(c) != value then None
        else if !ValidMoment(Moment(c, 0, 0)) then None
        else Some(c)
  }

  lemma DateExactly(parser: DateParser, value: bytes, c: Clock)
    requires ReadsBack(parser)
    ensures ParseDate(parser, value) == Some(c) <==> ValidClock(c) && value == Format(c) && c.year >= 1 && c != EPOCH
  {
    hide Format, Seconds;
    if ValidClock(c) && c.year >= 1 { ZeroInUtc(c); }
  }

  // ----- records -----

  datatype Basis = HomeAbsolute | TopDirectoryRelative | OtherBasis(number: nat)

  datatype Info = Info(token: bytes, basis: Basis, path: seq<bytes>, deletedAt: Moment)

  predicate ValidTrashToken(token: bytes) {
    && 0 < |token| <= 245
    && TOKEN_PREFIX <= token && |token| - |TOKEN_PREFIX| >= 16
    && IsLowerHex(token[|TOKEN_PREFIX|..])
  }

  predicate ValidInfo(i: Info) {
    && ValidTrashToken(i.token) && !i.basis.OtherBasis? && ValidPath(i.path)
    && PercentCodec.Decode(PercentCodec.EncodeComponents(i.path), PercentCodec.DEFAULT_LIMITS).Some?
    && ValidMoment(i.deletedAt)
  }

  function PathValue(i: Info): bytes {
    if i.basis == HomeAbsolute then [SLASH] + PercentCodec.EncodeComponents(i.path) else PercentCodec.EncodeComponents(i.path)
  }

  function Contents(pathValue: bytes, date: bytes): bytes {
    HEADER + [NEWLINE] + ((PATH_KEY + pathValue) + [NEWLINE] + ((DATE_KEY + date) + [NEWLINE] + []))
  }

  function Marshal(i: Info): Option<bytes> {
    if !ValidInfo(i) then None
    else
      var contents := Contents(PathValue(i), Format(i.deletedAt.clock));
      if |contents| > MAXIMUM_BYTES then None else Some(contents)
  }

  // ----- reading -----

  predicate GroupHeader(line: bytes) {
    |line| >= 2 && line[0] == '[' as int && line[|line| - 1] == ']' as int
  }

  /** The value of the first line with this key, before any further group. */
  function FirstValue(lines: seq<bytes>, key: bytes): Option<bytes> {
    if lines == [] || GroupHeader(lines[0]) then None
    else if key <= lines[0] then Some(lines[0][|key|..])
    else FirstValue(lines[1..], key)
  }

  function ParsePath(value: bytes, basis: Basis): Option<seq<bytes>> {
    if value == [] || basis.OtherBasis? then None
    else if basis == HomeAbsolute then
      if value[0] != SLASH || |value| == 1 then None else PercentCodec.Decode(value[1..], PercentCodec.DEFAULT_LIMITS)
    else if value[0] == SLASH then None
    else PercentCodec.Decode(value, PercentCodec.DEFAULT_LIMITS)
  }

  function ParseValues(parser: DateParser, path: Option<bytes>, date: Option<bytes>, token: bytes, basis: Basis): Option<Info> {
    if path.None? || date.None? then None
    else
      match ParsePath(path.value, basis)
      case None => None
      case Some(p) =>
        match ParseDate(parser, date.value)
        case None => None
        case Some(c) =>
          var i := Info(token, basis, p, Moment(c, 0, 0));
          if ValidInfo(i) then Some(i) else None
  }

  predicate ReadableSize(contents: bytes) {
    0 < |contents| <= MAXIMUM_BYTES && 0 !in contents && RETURN !in contents
  }

  function Parse(parser: DateParser, contents: bytes, token: bytes, basis: Basis): Option<Info> {
    if !ValidTrashToken(token) || basis.OtherBasis? || !ReadableSize(contents) then None
    else
      var lines := Split(contents, NEWLINE);
      if lines[0] != HEADER then None
      else ParseValues(parser, FirstValue(lines[1..], PATH_KEY), FirstValue(lines[1..], DATE_KEY), token, basis)
  }

  /** The loop over the lines. */
  method FindValues(lines: seq<bytes>) returns (path: Option<bytes>, date: Option<bytes>)
    ensures path == FirstValue(lines, PATH_KEY) && date == FirstValue(lines, DATE_KEY)
  {
    path, date := None, None;
    var index := 0;
    while index < |lines|
      invariant 0 <= index <= |lines|
      invariant FirstValue(lines, PATH_KEY) == if path.Some? then path else FirstValue(lines[index..], PATH_KEY)
      invariant FirstValue(lines, DATE_KEY) == if date.Some? then date else FirstValue(lines[index..], DATE_KEY)
    {
      var line := lines[index];
      assert lines[index..][1..] == lines[index + 1..];
      KeysDiffer(line);
      if GroupHeader(line) { return; }
      if path.None? && PATH_KEY <= line { path := Some(line[|PATH_KEY|..]); }
      else if date.None? && DATE_KEY <= line { date := Some(line[|DATE_KEY|..]); }
      index := index + 1;
    }
  }

  lemma KeysDiffer(line: bytes)
    ensures !(PATH_KEY <= line && DATE_KEY <= line)
  {
    assert PATH_KEY[0] != DATE_KEY[0];
  }

  method ParseTrashInfo(parser: DateParser, contents: bytes, token: bytes, basis: Basis) returns (info: Option<Info>)
    ensures info == Parse(parser, contents, token, basis)
  {
    hide ValidInfo, ParseDate, ParsePath;
    if !ValidTrashToken(token) { return None; }
    if basis.OtherBasis? { return None; }
    if !ReadableSize(contents) { return None; }
    var lines := Split(contents, NEWLINE);
    if lines[0] != HEADER { return None; }
    var path, date := FindValues(lines[1..]);
    info := ParseValues(parser, path, date, token, basis);
  }

  // ----- the round trip -----

  predicate Plain(s: bytes) {
    0 !in s && NEWLINE !in s && RETURN !in s
  }

  lemma PlainJoin(a: bytes, b: bytes)
    requires Plain(a) && Plain(b)
    ensures Plain(a + b)
  {
  }

  lemma PlainByte(b: byte)
    ensures Plain(PercentCodec.EncodeByte(b))
  {
  }

  lemma {:induction false} PlainComponent(component: bytes)
    ensures Plain(PercentCodec.EncodeComponent(component))
  {
    if component != [] {
      var n := |component| - 1;
      PlainComponent(component[..n]);
      PlainByte(component[n]);
      PlainJoin(PercentCodec.EncodeComponent(component[..n]), PercentCodec.EncodeByte(component[n]));
    }
  }

  lemma {:induction false} PlainPath(path: seq<bytes>)
    ensures Plain(PercentCodec.EncodeComponents(path))
  {
    if |path| == 1 {
      PlainComponent(path[0]);
    } else if |path| > 1 {
      var n := |path| - 1;
      PlainPath(path[..n]);
      PlainComponent(path[n]);
      hide Plain, PercentCodec.EncodeComponent;
      PlainSlash();
      PlainJoin(PercentCodec.EncodeComponents(path[..n]), [SLASH]);
      PlainJoin(PercentCodec.EncodeComponents(path[..n]) + [SLASH], PercentCodec.EncodeComponent(path[n]));
    }
  }

  lemma PlainSlash()
    ensures Plain([SLASH])
  {
  }

  lemma ContentsLines(pathValue: bytes, date: bytes)
    requires Plain(pathValue) && Plain(date)
    ensures Split(Contents(pathValue, date), NEWLINE) == [HEADER, PATH_KEY + pathValue, DATE_KEY + date, []]
    ensures |Contents(pathValue, date)| == |pathValue| + |date| + 33
    ensures 0 !in Contents(pathValue, date) && RETURN !in Contents(pathValue, date)
  {
    var last := (DATE_KEY + date) + [NEWLINE] + [];
    var middle := (PATH_KEY + pathValue) + [NEWLINE] + last;
    hide Split;
    SplitNothing();
    SplitFirst(DATE_KEY + date, NEWLINE, []);
    SplitFirst(PATH_KEY + pathValue, NEWLINE, last);
    SplitFirst(HEADER, NEWLINE, middle);
  }

  lemma SplitNothing()
    ensures Split([], NEWLINE) == [[]]
  {
  }

  lemma ValuesOfContents(pathValue: bytes, date: bytes)
    ensures FirstValue([PATH_KEY + pathValue, DATE_KEY + date, []], PATH_KEY) == Some(pathValue)
    ensures FirstValue([PATH_KEY + pathValue, DATE_KEY + date, []], DATE_KEY) == Some(date)
  {
    var p, d := PATH_KEY + pathValue, DATE_KEY + date;
    KeysDiffer(p);
    KeysDiffer(d);
    assert p[|PATH_KEY|..] == pathValue && d[|DATE_KEY|..] == date;
    assert p[0] == PATH_KEY[0] && d[0] == DATE_KEY[0];
    assert [p, d, []][1..] == [d, []];
    assert PATH_KEY <= p && DATE_KEY <= d;
  }

  lemma EncodedShape(i: Info)
    requires ValidInfo(i)
    ensures var e := PercentCodec.EncodeComponents(i.path);
            |e| > 0 && |e| <= 262144 && e[0] != SLASH && PercentCodec.Decode(e, PercentCodec.DEFAULT_LIMITS) == Some(i.path)
  {
    var e := PercentCodec.EncodeComponents(i.path);
    var p := PercentCodec.Decode(e, PercentCodec.DEFAULT_LIMITS).value;
    PercentCodec.DecodeExactly(e, p, PercentCodec.DEFAULT_LIMITS);
    hide PercentCodec.EncodeComponents, ValidPath;
    PercentCodec.EncodingIsInjective(i.path, p);
    DecodedStart(e);
  }

  lemma DecodedStart(e: bytes)
    requires PercentCodec.Decode(e, PercentCodec.DEFAULT_LIMITS).Some?
    ensures e != [] && e[0] != SLASH
  {
  }

  lemma PathValueParses(i: Info)
    requires ValidInfo(i)
    ensures |PathValue(i)| <= 262145 && Plain(PathValue(i)) && ParsePath(PathValue(i), i.basis) == Some(i.path)
  {
    EncodedShape(i);
    PlainPath(i.path);
    var e := PercentCodec.EncodeComponents(i.path);
    assert ([SLASH] + e)[1..] == e;
    hide ValidInfo, PercentCodec.EncodeComponents, PercentCodec.Decode;
  }

  /** The size check of the writer never fires. */
  lemma MarshalSucceeds(i: Info)
    requires ValidInfo(i)
    ensures Marshal(i) == Some(Contents(PathValue(i), Format(i.deletedAt.clock)))
  {
    PathValueParses(i);
    ContentsLines(PathValue(i), Format(i.deletedAt.clock));
    hide ValidInfo, PathValue, Contents, Format, ParsePath;
  }

  /** A valid record is read back with its token, basis, path and wall clock, in UTC, unless its wall clock reads
      0001-01-01T00:00:00: that reading is a valid deletion time only outside UTC, and is refused on the way back. */
  lemma RoundTrip(parser: DateParser, i: Info)
    requires ReadsBack(parser) && ValidInfo(i)
    ensures Marshal(i).Some?
    ensures Parse(parser, Marshal(i).value, i.token, i.basis) ==
              if i.deletedAt.clock == EPOCH then None else Some(i.(deletedAt := Moment(i.deletedAt.clock, 0, 0)))
  {
    var c := i.deletedAt.clock;
    assert ValidClock(c) && c.year >= 1 && ValidTrashToken(i.token) && !i.basis.OtherBasis?;
    MarshalSucceeds(i);
    PathValueParses(i);
    DateExactly(parser, Format(c), c);
    ClockValid(i);
    ContentsLines(PathValue(i), Format(c));
    ValuesOfContents(PathValue(i), Format(c));
    OtherClock(parser, c);
    hide ValidInfo, PathValue, Contents, Format, ParsePath, ParseDate, FirstValue, Split, ValidTrashToken, Marshal;
    assert [HEADER, PATH_KEY + PathValue(i), DATE_KEY + Format(c), []][1..] == [PATH_KEY + PathValue(i), DATE_KEY + Format(c), []];
  }

  lemma ClockValid(i: Info)
    requires ValidInfo(i)
    ensures i.deletedAt.clock != EPOCH ==> ValidInfo(i.(deletedAt := Moment(i.deletedAt.clock, 0, 0)))
  {
    ZeroInUtc(i.deletedAt.clock);
    hide Seconds;
  }

  /** A printed clock is read as itself or not at all. */
  lemma OtherClock(parser: DateParser, c: Clock)
    requires ReadsBack(parser) && ValidClock(c)
    ensures ParseDate(parser, Format(c)).Some? ==> ParseDate(parser, Format(c)) == Some(c)
  {
    hide Format, Seconds;
  }

  lemma EarlyIsValid(i: Info)
    requires ValidInfo(i)
    ensures ValidInfo(i.(deletedAt := Moment(EPOCH, 3600, 0)))
  {
    EpochSeconds();
    hide Seconds, ValidPath, ValidTrashToken, PercentCodec.Decode, PercentCodec.EncodeComponents;
  }

  /** The exceptional reading does occur: one hour east of UTC it is a valid deletion time. */
  lemma EpochEastOfUtc(parser: DateParser, i: Info)
    requires ReadsBack(parser) && ValidInfo(i)
    ensures var early := i.(deletedAt := Moment(EPOCH, 3600, 0));
            ValidInfo(early) && Marshal(early).Some? && Parse(parser, Marshal(early).value, early.token, early.basis) == None
  {
    hide *;
    var early := i.(deletedAt := Moment(EPOCH, 3600, 0));
    EarlyIsValid(i);
    EpochClock(early);
    RoundTrip(parser, early);
  }

  lemma EpochSeconds()
    ensures ValidClock(EPOCH) && Seconds(EPOCH) == 0
  {
    ZeroInUtc(Clock(1, 1, 1, 0, 0, 0));
  }

  lemma EpochClock(i: Info)
    requires i.deletedAt == Moment(EPOCH, 3600, 0)
    ensures i.deletedAt.clock == EPOCH
  {
  }

  // ----- lines that do not matter -----

  /** A line that adds nothing after the given ones: no group, and no key that is not there already. */
  predicate Idle(before: seq<bytes>, line: bytes) {
    && !GroupHeader(line)
    && (PATH_KEY <= line ==> FirstValue(before, PATH_KEY).Some?)
    && (DATE_KEY <= line ==> FirstValue(before, DATE_KEY).Some?)
  }

  lemma {:induction false} IdleValue(before: seq<bytes>, line: bytes, after: seq<bytes>, key: bytes)
    requires !GroupHeader(line) && (key <= line ==> FirstValue(before, key).Some?)
    ensures FirstValue(before + [line] + after, key) == FirstValue(before + after, key)
  {
    if before == [] {
      assert before + [line] + after == [line] + after && before + after == after;
      assert ([line] + after)[1..] == after;
    } else {
      assert (before + [line] + after)[1..] == before[1..] + [line] + after;
      assert (before + after)[1..] == before[1..] + after;
      if !GroupHeader(before[0]) && !(key <= before[0]) { IdleValue(before[1..], line, after, key); }
    }
  }

  lemma SplitStep(x: byte, text: bytes)
    ensures Split([x] + text, NEWLINE) ==
              if x == NEWLINE then [[]] + Split(text, NEWLINE) else [[x] + Split(text, NEWLINE)[0]] + Split(text, NEWLINE)[1..]
  {
    assert ([x] + text)[1..] == text;
  }

  lemma {:induction false} SplitConcat(a: bytes, b: bytes)
    ensures Split(a + [NEWLINE] + b, NEWLINE) == Split(a, NEWLINE) + Split(b, NEWLINE)
  {
    SplitNothing();
    hide Split;
    if a == [] {
      assert a + [NEWLINE] + b == [NEWLINE] + b;
      SplitStep(NEWLINE, b);
    } else {
      var x, tail := a[0], a[1..];
      SplitConcat(tail, b);
      assert a == [x] + tail && a + [NEWLINE] + b == [x] + (tail + [NEWLINE] + b);
      SplitStep(x, tail);
      SplitStep(x, tail + [NEWLINE] + b);
      var rest, more := Split(tail, NEWLINE), Split(b, NEWLINE);
      assert (rest + more)[0] == rest[0] && (rest + more)[1..] == rest[1..] + more;
      if x == NEWLINE { assert [[]] + (rest + more) == [[]] + rest + more; }
      else { assert [[x] + rest[0]] + (rest[1..] + more) == [[x] + rest[0]] + rest[1..] + more; }
    }
  }

  lemma SameValuesSameParse(parser: DateParser, s: bytes, t: bytes, token: bytes, basis: Basis)
    requires ReadableSize(s) && ReadableSize(t)
    requires var l, m := Split(s, NEWLINE), Split(t, NEWLINE);
             && l[0] == m[0] && FirstValue(l[1..], PATH_KEY) == FirstValue(m[1..], PATH_KEY)
             && FirstValue(l[1..], DATE_KEY) == FirstValue(m[1..], DATE_KEY)
    ensures Parse(parser, s, token, basis) == Parse(parser, t, token, basis)
  {
    hide Split, ReadableSize, FirstValue, ParseValues, ValidTrashToken;
  }

  lemma ReadableWithout(a: bytes, line: bytes, b: bytes)
    requires ReadableSize(a + [NEWLINE] + line + [NEWLINE] + b)
    ensures ReadableSize(a + [NEWLINE] + b)
  {
    var short, long := a + [NEWLINE] + b, a + [NEWLINE] + line + [NEWLINE] + b;
    assert forall x :: x in short ==> x in long;
  }

  lemma LinesAround(a: bytes, line: bytes, b: bytes)
    requires NEWLINE !in line
    ensures Split(a + [NEWLINE] + line + [NEWLINE] + b, NEWLINE) == Split(a, NEWLINE) + [line] + Split(b, NEWLINE)
  {
    hide Split;
    assert a + [NEWLINE] + line + [NEWLINE] + b == a + [NEWLINE] + (line + [NEWLINE] + b);
    SplitConcat(a, line + [NEWLINE] + b);
    SplitFirst(line, NEWLINE, b);
    assert Split(a, NEWLINE) + ([line] + Split(b, NEWLINE)) == Split(a, NEWLINE) + [line] + Split(b, NEWLINE);
  }

  lemma TailOfLines(before: seq<bytes>, more: seq<bytes>)
    requires before != []
    ensures (before + more)[0] == before[0] && (before + more)[1..] == before[1..] + more
  {
  }

  lemma IdleValues(before: seq<bytes>, line: bytes, after: seq<bytes>)
    requires Idle(before, line)
    ensures FirstValue(before + [line] + after, PATH_KEY) == FirstValue(before + after, PATH_KEY)
    ensures FirstValue(before + [line] + after, DATE_KEY) == FirstValue(before + after, DATE_KEY)
  {
    IdleValue(before, line, after, PATH_KEY);
    IdleValue(before, line, after, DATE_KEY);
    hide FirstValue;
  }

  /** Within the size bound, a further line that is no group and repeats or names no key changes nothing. */
  lemma IdleLineIgnored(parser: DateParser, a: bytes, line: bytes, b: bytes, token: bytes, basis: Basis)
    requires NEWLINE !in line && ReadableSize(a + [NEWLINE] + line + [NEWLINE] + b)
    requires Idle(Split(a, NEWLINE)[1..], line)
    ensures Parse(parser, a + [NEWLINE] + line + [NEWLINE] + b, token, basis) == Parse(parser, a + [NEWLINE] + b, token, basis)
  {
    hide *;
    var before, after := Split(a, NEWLINE), Split(b, NEWLINE);
    IdleValues(before[1..], line, after);
    ReadableWithout(a, line, b);
    LinesAround(a, line, b);
    SplitConcat(a, b);
    assert before + [line] + after == before + ([line] + after);
    assert before[1..] + [line] + after == before[1..] + ([line] + after);
    TailOfLines(before, [line] + after);
    TailOfLines(before, after);
    SameValuesSameParse(parser, a + [NEWLINE] + line + [NEWLINE] + b, a + [NEWLINE] + b, token, basis);
  }
}
