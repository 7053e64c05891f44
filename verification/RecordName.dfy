/** Identities of immutable ledger records and the file names derived from them. */
module RecordName {
  import opened Base

  datatype RecordId = RecordId(digest: bytes, token: bytes, ordinal: nat)

  /** The identity of one recovery: all its records carry the same digest and token. */
  datatype Key = Key(digest: bytes, token: bytes)

  const MAXIMUM_ORDINAL := 15
  const HEX_BYTES := 64
  const TOKEN_PREFIX := Ascii("ldc-")
  const RECORD_PREFIX := Ascii("ldc-ledger-v1-")
  const RECORD_SUFFIX := Ascii(".cbor")
  const DASH: byte := '-' as int

  predicate IsLowerHex(text: bytes) {
    forall i :: 0 <= i < |text| ==> '0' as int <= text[i] <= '9' as int || 'a' as int <= text[i] <= 'f' as int
  }

  predicate ValidDigest(digest: bytes) {
    |digest| == HEX_BYTES && IsLowerHex(digest)
  }

  predicate ValidToken(token: bytes) {
    TOKEN_PREFIX <= token && |token| == |TOKEN_PREFIX| + HEX_BYTES && IsLowerHex(token[|TOKEN_PREFIX|..])
  }

  predicate ValidId(id: RecordId) {
    ValidDigest(id.digest) && ValidToken(id.token) && id.ordinal <= MAXIMUM_ORDINAL
  }

  /** Two decimal digits. */
  function TwoDigits(n: nat): (r: bytes)
    requires n < 100
    ensures |r| == 2 && forall i :: 0 <= i < 2 ==> '0' as int <= r[i] <= '9' as int
  {
    ['0' as int + n / 10, '0' as int + n % 10]
  }

  function Basename(id: RecordId): bytes
    requires id.ordinal < 100
  {
    RECORD_PREFIX + id.digest + [DASH] + id.token + [DASH] + TwoDigits(id.ordinal) + RECORD_SUFFIX
  }

  // ----- reading a name back -----

  /** Go's strings.Split on a one-byte separator. */
  function Split(text: bytes, separator: byte): (parts: seq<bytes>)
    ensures |parts| > 0
  {
    if text == [] then [[]]
    else
      var rest := Split(text[1..], separator);
      if text[0] == separator then [[]] + rest else [[text[0]] + rest[0]] + rest[1..]
  }

  lemma {:induction false} SplitOne(text: bytes, separator: byte)
    requires separator !in text
    ensures Split(text, separator) == [text]
  {
    if text != [] {
      SplitOne(text[1..], separator);
      assert text == [text[0]] + text[1..];
    }
  }

  lemma {:induction false} SplitFirst(text: bytes, separator: byte, rest: bytes)
    requires separator !in text
    ensures Split(text + [separator] + rest, separator) == [text] + Split(rest, separator)
  {
    var whole := text + [separator] + rest;
    if text == [] {
      assert whole[1..] == rest;
    } else {
      assert whole[1..] == text[1..] + [separator] + rest;
      SplitFirst(text[1..], separator, rest);
      assert text == [text[0]] + text[1..];
    }
  }

  /** The parts with the separator between them. */
  function Joined(parts: seq<bytes>, separator: byte): bytes
    requires parts != []
  {
    if |parts| == 1 then parts[0] else parts[0] + [separator] + Joined(parts[1..], separator)
  }

  /** Splitting undoes joining parts that do not contain the separator, and nothing else. */
  lemma {:induction false} SplitExactly(text: bytes, separator: byte, parts: seq<bytes>)
    ensures Split(text, separator) == parts <==>
              parts != [] && (forall i :: 0 <= i < |parts| ==> separator !in parts[i]) && Joined(parts, separator) == text
  {
    SplitJoins(text, separator);
    if parts != [] && (forall i :: 0 <= i < |parts| ==> separator !in parts[i]) && Joined(parts, separator) == text { JoinSplits(parts, separator); }
  }

  lemma {:induction false} SplitJoins(text: bytes, separator: byte)
    ensures Joined(Split(text, separator), separator) == text
    ensures forall i :: 0 <= i < |Split(text, separator)| ==> separator !in Split(text, separator)[i]
  {
    if text != [] {
      SplitJoins(text[1..], separator);
      var rest, parts := Split(text[1..], separator), Split(text, separator);
      assert text == [text[0]] + text[1..];
      if text[0] == separator { assert parts[1..] == rest; } else { assert parts[1..] == rest[1..] && parts[0] == [text[0]] + rest[0]; }
      forall i | 0 <= i < |parts| ensures separator !in parts[i] {
        if text[0] == separator && i > 0 { assert parts[i] == rest[i - 1]; }
        if text[0] != separator && i > 0 { assert parts[i] == rest[i]; }
      }
    }
  }

  lemma {:induction false} JoinSplits(parts: seq<bytes>, separator: byte)
    requires parts != [] && forall i :: 0 <= i < |parts| ==> separator !in parts[i]
    ensures Split(Joined(parts, separator), separator) == parts
  {
    if |parts| == 1 {
      SplitOne(parts[0], separator);
    } else {
      JoinSplits(parts[1..], separator);
      SplitFirst(parts[0], separator, Joined(parts[1..], separator));
      assert parts == [parts[0]] + parts[1..];
    }
  }

  /** An out-of-range ordinal stands for malformed digits. */
  function ParseOrdinal(text: bytes): nat {
    if |text| != 2 || !('0' as int <= text[0] <= '9' as int) || !('0' as int <= text[1] <= '9' as int) then MAXIMUM_ORDINAL + 1
    else (text[0] - '0' as int) * 10 + (text[1] - '0' as int)
  }

  function FromBasename(name: bytes): Option<RecordId> {
    if !(RECORD_PREFIX <= name) || |name| < |RECORD_SUFFIX| || name[|name| - |RECORD_SUFFIX|..] != RECORD_SUFFIX then None
    else
      // TrimPrefix, then TrimSuffix only if the suffix is still there.
      var trimmed := name[|RECORD_PREFIX|..];
      var body := if |trimmed| >= |RECORD_SUFFIX| && trimmed[|trimmed| - |RECORD_SUFFIX|..] == RECORD_SUFFIX
                  then trimmed[..|trimmed| - |RECORD_SUFFIX|] else trimmed;
      var parts := Split(body, DASH);
      if |parts| != 4 || parts[1] != Ascii("ldc") then None
      else
        var id := RecordId(parts[0], TOKEN_PREFIX + parts[2], ParseOrdinal(parts[3]));
        if !ValidId(id) then None
        else if Basename(id) != name then None
        else Some(id)
  }

  lemma HexHasNoDash(text: bytes)
    requires IsLowerHex(text)
    ensures DASH !in text
  {
  }

  /** Names and identities correspond one to one: a name is read back exactly when it was derived. */
  lemma NamesRoundTrip(name: bytes, id: RecordId)
    ensures FromBasename(name) == Some(id) <==> ValidId(id) && name == Basename(id)
  {
    if ValidId(id) && name == Basename(id) {
      var hex := id.token[|TOKEN_PREFIX|..];
      var ldc, digits := Ascii("ldc"), TwoDigits(id.ordinal);
      assert id.token == TOKEN_PREFIX + hex;
      assert TOKEN_PREFIX == ldc + [DASH];
      var body := id.digest + [DASH] + (ldc + [DASH] + (hex + [DASH] + digits));
      assert name == RECORD_PREFIX + body + RECORD_SUFFIX;
      assert name[|RECORD_PREFIX|..] == body + RECORD_SUFFIX;
      assert (body + RECORD_SUFFIX)[..|body|] == body;
      HexHasNoDash(id.digest);
      HexHasNoDash(hex);
      SplitFirst(id.digest, DASH, ldc + [DASH] + (hex + [DASH] + digits));
      SplitFirst(ldc, DASH, hex + [DASH] + digits);
      SplitFirst(hex, DASH, digits);
      SplitOne(digits, DASH);
      assert Split(body, DASH) == [id.digest, ldc, hex, digits];
      assert ParseOrdinal(digits) == id.ordinal;
    }
  }

  lemma BasenamesDiffer(a: RecordId, b: RecordId)
    requires ValidId(a) && ValidId(b) && Basename(a) == Basename(b)
    ensures a == b
  {
    NamesRoundTrip(Basename(a), a);
    NamesRoundTrip(Basename(b), b);
  }

  // ----- the shapes, spelled out -----

  const HEX_DIGITS := DIGITS + Ascii("abcdef")

  lemma HexDigitExactly(b: byte)
    ensures ('0' as int <= b <= '9' as int || 'a' as int <= b <= 'f' as int) <==> b in HEX_DIGITS
  {
    RunOfBytes(DIGITS, 48, b);
    RunOfBytes(Ascii("abcdef"), 97, b);
    hide DIGITS;
  }

  /** An identity is valid exactly if the digest is 64 hexadecimal digits, the token "ldc-" and 64 more, and the
      ordinal at most 15; its file name then has 155 bytes. */
  lemma IdExactly(id: RecordId)
    ensures ValidId(id) <==>
              && |id.digest| == 64 && (forall i :: 0 <= i < 64 ==> id.digest[i] in HEX_DIGITS)
              && |id.token| == 68 && id.token[..4] == Ascii("ldc-") && (forall i :: 4 <= i < 68 ==> id.token[i] in HEX_DIGITS)
              && id.ordinal <= 15
    ensures ValidId(id) ==>
              Basename(id) == Ascii("ldc-ledger-v1-") + id.digest + Ascii("-") + id.token + Ascii("-")
                              + [48 + id.ordinal / 10, 48 + id.ordinal % 10] + Ascii(".cbor")
    ensures ValidId(id) ==> |Basename(id)| == 155
  {
    forall b: byte ensures ('0' as int <= b <= '9' as int || 'a' as int <= b <= 'f' as int) <==> b in HEX_DIGITS { HexDigitExactly(b); }
    assert Ascii("-") == [DASH];
    var tail := id.token[if |id.token| < 4 then |id.token| else 4..];
    assert forall i :: 0 <= i < |tail| ==> tail[i] == id.token[4 + i];
    assert forall i :: 4 <= i < |id.token| ==> id.token[i] == tail[i - 4];
    hide HEX_DIGITS;
  }
}
