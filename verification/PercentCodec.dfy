/** The canonical percent form of raw-byte paths (sections 2.1 and 2.3 of RFC 3986), encoded and decoded. */
module PercentCodec {
  import opened Base
  import opened PathBytes

  const PERCENT: byte := 0x25

  datatype Limits = Limits(inputBytes: int, components: int, decodedBytes: int) {
    predicate Valid() { inputBytes > 0 && components > 0 && decodedBytes > 0 }
  }

  const DEFAULT_LIMITS := Limits(262144, 1024, 262144)

  // ----- bytes -----

  predicate Unreserved(b: byte) {
    || 'a' as int <= b <= 'z' as int || 'A' as int <= b <= 'Z' as int || '0' as int <= b <= '9' as int
    || b == '-' as int || b == '.' as int || b == '_' as int || b == '~' as int
  }

  function UpperHex(n: nat): byte
    requires n < 16
  {
    if n < 10 then '0' as int + n else 'A' as int + n - 10
  }

  function HexDigit(b: byte): Option<nat> {
    if '0' as int <= b <= '9' as int then Some((b as int) - '0' as int)
    else if 'A' as int <= b <= 'F' as int then Some((b as int) - 'A' as int + 10)
    else None
  }

  lemma HexRoundTrip(n: nat, b: byte)
    requires n < 16
    ensures HexDigit(b) == Some(n) <==> b == UpperHex(n)
  {
  }

  function EncodeByte(b: byte): (r: bytes)
    ensures 1 <= |r| <= 3
  {
    if Unreserved(b) then [b] else [PERCENT, UpperHex(b / 16), UpperHex(b % 16)]
  }

  function EncodeComponent(component: bytes): bytes {
    if component == [] then [] else EncodeComponent(component[..|component| - 1]) + EncodeByte(component[|component| - 1])
  }

  function EncodeComponents(components: seq<bytes>): bytes {
    if components == [] then []
    else if |components| == 1 then EncodeComponent(components[0])
    else EncodeComponents(components[..|components| - 1]) + [SLASH] + EncodeComponent(components[|components| - 1])
  }

  /** The inner loop: one component's bytes. */
  method AppendComponent(before: bytes, component: bytes) returns (encoded: bytes)
    ensures encoded == before + EncodeComponent(component)
  {
    hide Unreserved, UpperHex;
    encoded := before;
    var at := 0;
    while at < |component|
      invariant 0 <= at <= |component|
      invariant encoded == before + EncodeComponent(component[..at])
    {
      var value := component[at];
      assert component[..at + 1][..at] == component[..at];
      assert EncodeComponent(component[..at + 1]) == EncodeComponent(component[..at]) + EncodeByte(value);
      if Unreserved(value) { encoded := encoded + [value]; }
      else { encoded := encoded + [PERCENT, UpperHex(value / 16), UpperHex(value % 16)]; }
      at := at + 1;
    }
    assert component[..at] == component;
  }

  /** Nothing for an invalid path. */
  method PercentEncode(path: seq<bytes>) returns (encoded: bytes)
    ensures encoded == if ValidPath(path) then EncodeComponents(path) else []
  {
    if !ValidPath(path) { return []; }
    hide ValidPath, EncodeComponent;
    encoded := [];
    var index := 0;
    while index < |path|
      invariant 0 <= index <= |path|
      invariant encoded == EncodeComponents(path[..index])
    {
      if index > 0 { encoded := encoded + [SLASH]; }
      encoded := AppendComponent(encoded, path[index]);
      assert path[..index + 1][..index] == path[..index];
      index := index + 1;
    }
    assert path[..index] == path;
  }

  // ----- the characters, spelled out -----

  const UPPER_HEX := Ascii("0123456789ABCDEF")

  lemma UnreservedExactly(b: byte)
    ensures Unreserved(b) <==> b in CAPITALS + SMALL_LETTERS + DIGITS + Ascii("-._~")
  {
    Alphabets(b);
    assert Ascii("-._~") == ['-' as int, '.' as int, '_' as int, '~' as int];
    hide CAPITALS, SMALL_LETTERS, DIGITS;
  }

  lemma UpperHexExactly(n: nat, b: byte)
    requires n < 16
    ensures UpperHex(n) == UPPER_HEX[n]
    ensures HexDigit(b) == Some(n) <==> b == UPPER_HEX[n]
  {
    HexRoundTrip(n, b);
  }

  /** Letters, digits and four marks stand for themselves, every other byte for its two capital hexadecimal digits. */
  lemma ByteExactly(b: byte)
    ensures EncodeByte(b) == if b in CAPITALS + SMALL_LETTERS + DIGITS + Ascii("-._~") then [b]
                             else Ascii("%") + [UPPER_HEX[b / 16], UPPER_HEX[b % 16]]
  {
    UnreservedExactly(b);
    UpperHexExactly(b / 16, b);
    UpperHexExactly(b % 16, b);
    assert Ascii("%") == [PERCENT];
    hide CAPITALS, SMALL_LETTERS, DIGITS, UPPER_HEX, Unreserved;
  }

  /** The encoding keeps the order of the bytes and adds nothing. */
  lemma {:induction false} EncodeJoin(a: bytes, b: bytes)
    ensures EncodeComponent([]) == [] && forall x: byte :: EncodeComponent([x]) == EncodeByte(x)
    ensures EncodeComponent(a + b) == EncodeComponent(a) + EncodeComponent(b)
  {
    hide EncodeByte;
    forall x: byte ensures EncodeComponent([x]) == EncodeByte(x) { assert [x][..0] == []; assert [] + EncodeByte(x) == EncodeByte(x); }
    if b == [] {
      assert a + b == a;
    } else {
      var n := |b| - 1;
      EncodeJoin(a, b[..n]);
      assert (a + b)[..|a + b| - 1] == a + b[..n];
    }
  }

  /** And the order of the components, with a slash between any two. */
  lemma {:induction false} EncodeSeparates(p: seq<bytes>, q: seq<bytes>)
    requires p != [] && q != []
    ensures forall c: bytes :: EncodeComponents([c]) == EncodeComponent(c)
    ensures EncodeComponents(p + q) == EncodeComponents(p) + Ascii("/") + EncodeComponents(q)
  {
    hide EncodeComponent;
    assert Ascii("/") == [SLASH];
    var n := |q| - 1;
    EncodeLast(p, q);
    if n == 0 {
      assert p + q[..0] == p;
    } else {
      EncodeSeparates(p, q[..n]);
      EncodeLast([], q);
      assert [] + q == q && [] + q[..n] == q[..n];
      hide EncodeComponents;
      EncodedAssociates(EncodeComponents(p), EncodeComponents(q[..n]), EncodeComponent(q[n]));
    }
  }

  // ----- the grammar of canonical forms -----

  /** One escape at the head of s. */
  function Escape(s: bytes): Option<byte> {
    if |s| < 3 then None
    else
      match (HexDigit(s[1]), HexDigit(s[2]))
      case (Some(high), Some(low)) => if Unreserved(16 * high + low) then None else Some(16 * high + low)
      case _ => None
  }

  /** The components of s, the first of them continuing `current`; None if s is not in canonical form. */
  function Parse(s: bytes, current: bytes): Option<seq<bytes>>
    decreases |s|
  {
    if s == [] then if current == [] then None else Some([current])
    else if s[0] == SLASH then
      if current == [] then None
      else (match Parse(s[1..], []) case None => None case Some(rest) => Some([current] + rest))
    else if Unreserved(s[0]) then Parse(s[1..], current + [s[0]])
    else if s[0] == PERCENT then
      (match Escape(s) case None => None case Some(b) => Parse(s[3..], current + [b]))
    else None
  }

  lemma EncodeAppend(component: bytes, b: byte)
    ensures EncodeComponent(component + [b]) == EncodeComponent(component) + EncodeByte(b)
  {
    assert (component + [b])[..|component|] == component;
  }

  lemma EscapeExactly(s: bytes, b: byte)
    requires |s| >= 3 && s[0] == PERCENT
    ensures Escape(s) == Some(b) <==> !Unreserved(b) && s[..3] == EncodeByte(b)
  {
    if Escape(s) == Some(b) {
      var high, low := HexDigit(s[1]).value, HexDigit(s[2]).value;
      assert b / 16 == high && b % 16 == low;
    }
    HexRoundTrip(b / 16, s[1]);
    HexRoundTrip(b % 16, s[2]);
  }

  lemma EncodePrepend(first: bytes, rest: seq<bytes>)
    requires rest != []
    ensures EncodeComponents([first] + rest) == EncodeComponent(first) + [SLASH] + EncodeComponents(rest)
  {
    hide EncodeComponent;
    EncodeSeparates([first], rest);
    assert Ascii("/") == [SLASH];
  }

  lemma EncodeLast(before: seq<bytes>, rest: seq<bytes>)
    requires rest != [] && |before + rest| > 1
    ensures var n := |rest| - 1;
            EncodeComponents(before + rest) == EncodeComponents(before + rest[..n]) + [SLASH] + EncodeComponent(rest[n])
  {
    hide EncodeComponent;
    assert (before + rest)[..|before + rest| - 1] == before + rest[..|rest| - 1];
  }

  lemma EncodedAssociates(a: bytes, b: bytes, c: bytes)
    ensures a + [SLASH] + b + [SLASH] + c == a + [SLASH] + (b + [SLASH] + c)
  {
  }

  /** p is what the text s, after the component begun as `current`, encodes. */
  predicate Denotes(p: seq<bytes>, current: bytes, s: bytes) {
    && p != [] && (forall i :: 0 <= i < |p| ==> p[i] != []) && current <= p[0]
    && EncodeComponents(p) == EncodeComponent(current) + s
  }

  lemma DenotesAfterSlash(p: seq<bytes>, current: bytes, s: bytes)
    requires current != [] && Denotes(p, [], s)
    ensures Denotes([current] + p, current, [SLASH] + s)
  {
    hide EncodeComponents, EncodeComponent;
    DenotesNothingYet(p, s);
    var q := [current] + p;
    assert EncodeComponents(q) == EncodeComponent(current) + ([SLASH] + s) by {
      hide Denotes;
      EncodePrepend(current, p);
      assert EncodeComponent(current) + [SLASH] + s == EncodeComponent(current) + ([SLASH] + s);
    }
    assert q[0] == current && forall i :: 0 < i < |q| ==> q[i] == p[i - 1];
  }

  lemma DenotesNothingYet(p: seq<bytes>, s: bytes)
    requires Denotes(p, [], s)
    ensures EncodeComponents(p) == s
  {
    hide EncodeComponents;
    assert EncodeComponent([]) + s == s;
  }

  lemma DenotesAfterByte(p: seq<bytes>, current: bytes, b: byte, s: bytes)
    requires Denotes(p, current + [b], s)
    ensures Denotes(p, current, EncodeByte(b) + s)
  {
    EncodeAppend(current, b);
    hide EncodeComponents, EncodeComponent, EncodeByte;
    assert EncodeComponent(current) + EncodeByte(b) + s == EncodeComponent(current) + (EncodeByte(b) + s);
  }

  /** What parses is the encoding of what it parses to. */
  lemma {:induction false} ParseSound(s: bytes, current: bytes)
    requires Parse(s, current).Some?
    ensures Denotes(Parse(s, current).value, current, s)
    decreases |s|
  {
    if s == [] {
      assert Parse(s, current) == Some([current]);
      assert EncodeComponent(current) + s == EncodeComponent(current);
    } else if s[0] == SLASH {
      ParseSound(s[1..], []);
      DenotesAfterSlash(Parse(s[1..], []).value, current, s[1..]);
      assert s == [SLASH] + s[1..];
      hide Denotes;
    } else if Unreserved(s[0]) {
      ParseSound(s[1..], current + [s[0]]);
      DenotesAfterByte(Parse(s, current).value, current, s[0], s[1..]);
      assert s == EncodeByte(s[0]) + s[1..];
      hide Denotes;
    } else {
      var b := Escape(s).value;
      ParseSound(s[3..], current + [b]);
      EscapeExactly(s, b);
      DenotesAfterByte(Parse(s, current).value, current, b, s[3..]);
      assert s == s[..3] + s[3..];
      hide Denotes;
    }
  }

  /** Parsing eats an encoded component. */
  lemma {:induction false} ParseEats(component: bytes, s: bytes, current: bytes)
    requires SLASH !in component
    ensures Parse(EncodeComponent(component) + s, current) == Parse(s, current + component)
    decreases |component|
  {
    if component == [] {
      assert EncodeComponent(component) + s == s && current + component == current;
    } else {
      var n := |component| - 1;
      var last := component[n];
      var tail := EncodeByte(last) + s;
      assert EncodeComponent(component) + s == EncodeComponent(component[..n]) + tail;
      ParseEats(component[..n], tail, current);
      assert current + component == current + component[..n] + [last];
      ParseEatsByte(last, s, current + component[..n]);
    }
  }

  lemma ParseEatsByte(b: byte, s: bytes, current: bytes)
    requires b != SLASH
    ensures Parse(EncodeByte(b) + s, current) == Parse(s, current + [b])
  {
    var tail := EncodeByte(b) + s;
    if Unreserved(b) {
      assert tail[1..] == s;
    } else {
      assert tail[..3] == EncodeByte(b) && tail[3..] == s;
      EscapeExactly(tail, b);
    }
  }

  /** Every encoding parses to what was encoded. */
  lemma {:induction false} ParseComplete(p: seq<bytes>)
    requires p != [] && forall i :: 0 <= i < |p| ==> p[i] != [] && SLASH !in p[i]
    ensures Parse(EncodeComponents(p), []) == Some(p)
    decreases |p|
  {
    if |p| == 1 {
      ParseLast(p[0]);
      assert p == [p[0]];
    } else {
      var rest := p[1..];
      assert p == [p[0]] + rest;
      hide Parse, EncodeComponents;
      ParseComplete(rest);
      ParseFirst(p[0], rest);
    }
  }

  lemma ParseLast(last: bytes)
    requires last != [] && SLASH !in last
    ensures Parse(EncodeComponents([last]), []) == Some([last])
  {
    ParseEats(last, [], []);
    assert EncodeComponent(last) + [] == EncodeComponent(last) && [] + last == last;
  }

  lemma ParseFirst(first: bytes, rest: seq<bytes>)
    requires first != [] && SLASH !in first && rest != [] && Parse(EncodeComponents(rest), []) == Some(rest)
    ensures Parse(EncodeComponents([first] + rest), []) == Some([first] + rest)
  {
    EncodePrepend(first, rest);
    var tail := [SLASH] + EncodeComponents(rest);
    assert EncodeComponent(first) + [SLASH] + EncodeComponents(rest) == EncodeComponent(first) + tail;
    ParseEats(first, tail, []);
    assert [] + first == first && tail[1..] == EncodeComponents(rest);
    hide EncodeComponents, EncodeComponent;
  }

  // ----- the decoder -----

  predicate Within(s: bytes, p: seq<bytes>, limits: Limits) {
    |s| <= limits.inputBytes && |p| <= limits.components && RawLength(p) <= limits.decodedBytes
  }

  /** What the decoder computes. */
  function Decode(s: bytes, limits: Limits): Option<seq<bytes>> {
    if !limits.Valid() then None
    else
      match Parse(s, [])
      case None => None
      case Some(p) => if Within(s, p, limits) && ValidPath(p) then Some(p) else None
  }

  /** Decoding accepts exactly the encodings of valid paths within the budgets, and yields exactly the path. */
  lemma DecodeExactly(s: bytes, p: seq<bytes>, limits: Limits)
    requires limits.Valid()
    ensures Decode(s, limits) == Some(p) <==> ValidPath(p) && s == EncodeComponents(p) && Within(s, p, limits)
  {
    if Decode(s, limits) == Some(p) {
      ParseSound(s, []);
      assert EncodeComponent([]) + s == s;
    }
    if ValidPath(p) && s == EncodeComponents(p) { ParseComplete(p); }
  }

  /** Two valid paths never share an encoding, and an accepted text is its own canonical form. */
  lemma EncodingIsInjective(p: seq<bytes>, q: seq<bytes>)
    requires ValidPath(p) && ValidPath(q) && EncodeComponents(p) == EncodeComponents(q)
    ensures p == q
  {
    ParseComplete(p);
    ParseComplete(q);
  }

  function Slashes(s: bytes): nat {
    if s == [] then 0 else Slashes(s[1..]) + if s[0] == SLASH then 1 else 0
  }

  lemma {:induction false} ParsedSlashes(s: bytes, current: bytes)
    requires Parse(s, current).Some?
    ensures |Parse(s, current).value| == Slashes(s) + 1
    decreases |s|
  {
    if s == [] {
    } else if s[0] == SLASH {
      ParsedSlashes(s[1..], []);
    } else if Unreserved(s[0]) {
      ParsedSlashes(s[1..], current + [s[0]]);
    } else {
      ParsedSlashes(s[3..], current + [Escape(s).value]);
      HexIsNoSlash(s);
      assert s[1..][1..] == s[2..] && s[2..][1..] == s[3..];
      assert Slashes(s[2..]) == Slashes(s[3..]);
      assert Slashes(s[1..]) == Slashes(s[2..]);
    }
  }

  lemma HexIsNoSlash(s: bytes)
    requires Escape(s).Some?
    ensures |s| >= 3 && s[1] != SLASH && s[2] != SLASH
  {
  }

  lemma {:induction false} ParsedRaw(s: bytes, current: bytes)
    requires Parse(s, current).Some?
    ensures RawLength(Parse(s, current).value) >= |current|
    decreases |s|
  {
    if s == [] {
    } else if s[0] == SLASH {
      assert ([current] + Parse(s[1..], []).value)[1..] == Parse(s[1..], []).value;
    } else if Unreserved(s[0]) {
      ParsedRaw(s[1..], current + [s[0]]);
    } else {
      ParsedRaw(s[3..], current + [Escape(s).value]);
    }
  }

  /** The components already read, before what the rest parses to. */
  function Prepend(components: seq<bytes>, rest: Option<seq<bytes>>): Option<seq<bytes>> {
    match rest case None => None case Some(p) => Some(components + p)
  }

  lemma {:induction false} RawLengthJoin(a: seq<bytes>, b: seq<bytes>)
    ensures RawLength(a + b) == RawLength(a) + RawLength(b)
  {
    if a == [] {
      assert a + b == b;
    } else {
      assert (a + b)[1..] == a[1..] + b;
      RawLengthJoin(a[1..], b);
    }
  }

  lemma SlashesNext(s: bytes, n: nat)
    requires n < |s|
    ensures Slashes(s[n..]) == Slashes(s[n + 1..]) + if s[n] == SLASH then 1 else 0
  {
    assert s[n..][1..] == s[n + 1..];
  }

  /** The counting pass: whether there are more components than allowed. */
  method TooManyComponents(encoded: bytes, limit: int) returns (tooMany: bool)
    requires limit > 0
    ensures tooMany <==> Slashes(encoded) + 1 > limit
  {
    var count := 1;
    var index := 0;
    while index < |encoded|
      invariant 0 <= index <= |encoded| && 1 <= count <= limit
      invariant Slashes(encoded) + 1 == count + Slashes(encoded[index..])
    {
      SlashesNext(encoded, index);
      if encoded[index] == SLASH {
        if count >= limit { return true; }
        count := count + 1;
      }
      index := index + 1;
    }
    return false;
  }

  /** The decoding pass. */
  method DecodeComponents(encoded: bytes, limit: int) returns (result: Option<seq<bytes>>)
    requires limit > 0
    ensures result == match Parse(encoded, []) case None => None case Some(p) => if RawLength(p) <= limit then Some(p) else None
  {
    hide Escape;
    var components: seq<bytes> := [];
    var component: bytes := [];
    var decoded := 0;
    var index := 0;
    assert encoded[0..] == encoded;
    if Parse(encoded, []).Some? { assert [] + Parse(encoded, []).value == Parse(encoded, []).value; }
    while index < |encoded|
      invariant 0 <= index <= |encoded| && 0 <= decoded <= limit
      invariant decoded == RawLength(components) + |component|
      invariant Parse(encoded, []) == Prepend(components, Parse(encoded[index..], component))
    {
      var value := encoded[index];
      var rest := encoded[index..];
      assert rest[1..] == encoded[index + 1..];
      if value == SLASH {
        if component == [] { return None; }
        RawLengthJoin(components, [component]);
        PrependMore(components, component, Parse(encoded[index + 1..], []));
        components := components + [component];
        component := [];
        index := index + 1;
      } else if Unreserved(value) {
        if decoded >= limit {
          BudgetExceeded(components, rest[1..], component + [value]);
          return None;
        }
        component := component + [value];
        decoded := decoded + 1;
        index := index + 1;
      } else if value == PERCENT {
        var escaped := Escape(rest);
        if escaped.None? { return None; }
        EscapeLength(rest);
        assert rest[3..] == encoded[index + 3..];
        if decoded >= limit {
          BudgetExceeded(components, rest[3..], component + [escaped.value]);
          return None;
        }
        component := component + [escaped.value];
        decoded := decoded + 1;
        index := index + 3;
      } else {
        return None;
      }
    }
    assert encoded[index..] == [];
    if component == [] { return None; }
    RawLengthJoin(components, [component]);
    return Some(components + [component]);
  }

  lemma EscapeLength(s: bytes)
    requires Escape(s).Some?
    ensures |s| >= 3
  {
  }

  lemma PrependMore(components: seq<bytes>, component: bytes, rest: Option<seq<bytes>>)
    ensures Prepend(components, match rest case None => None case Some(p) => Some([component] + p)) == Prepend(components + [component], rest)
  {
    if rest.Some? { assert components + ([component] + rest.value) == components + [component] + rest.value; }
  }

  /** Once the budget is used up no continuation comes back within it. */
  lemma BudgetExceeded(components: seq<bytes>, rest: bytes, current: bytes)
    ensures Parse(rest, current).Some? ==> RawLength(components + Parse(rest, current).value) >= RawLength(components) + |current|
  {
    if Parse(rest, current).Some? {
      ParsedRaw(rest, current);
      RawLengthJoin(components, Parse(rest, current).value);
    }
  }

  method PercentDecodeWithLimits(encoded: bytes, limits: Limits) returns (path: Option<seq<bytes>>)
    ensures path == Decode(encoded, limits)
  {
    hide Parse, ValidPath;
    if !limits.Valid() { return None; }
    assert Parse([], []) == None by { ParseNothing(); }
    if |encoded| == 0 { return None; }
    if |encoded| > limits.inputBytes { return None; }
    var tooMany := TooManyComponents(encoded, limits.components);
    if Parse(encoded, []).Some? { ParsedSlashes(encoded, []); }
    if tooMany { return None; }
    var components := DecodeComponents(encoded, limits.decodedBytes);
    if components.None? { return None; }
    return if ValidPath(components.value) then components else None;
  }

  lemma ParseNothing()
    ensures Parse([], []) == None
  {
  }

  /** Encoding and decoding are inverse on the default budgets' domain. */
  lemma RoundTrip(p: seq<bytes>)
    requires ValidPath(p) && Within(EncodeComponents(p), p, DEFAULT_LIMITS)
    ensures Decode(EncodeComponents(p), DEFAULT_LIMITS) == Some(p)
  {
    DecodeExactly(EncodeComponents(p), p, DEFAULT_LIMITS);
  }
}
