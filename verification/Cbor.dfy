/** The canonical CBOR scanner (section 4.2.1 of RFC 8949) and the values it accepts. */
module Cbor {
  import opened Base
  import opened Utf8

  const UINT64_BOUND := 0x1_0000_0000_0000_0000
  const INT64_BOUND := 0x8000_0000_0000_0000

  datatype Pair = Pair(key: Value, value: Value)

  /** The data items schema v1 uses. NInt(n) is the integer -1 - n. */
  datatype Value =
    | UInt(n: nat)
    | NInt(n: nat)
    | Bytes(content: bytes)
    | Text(content: bytes)
    | Array(items: seq<Value>)
    | Map(pairs: seq<Pair>)
    | False
    | True
    | Null

  // ----- the deterministic encoding -----

  /** How many bytes carry the argument after the initial byte: as few as possible. */
  function Width(argument: nat): (w: nat)
    ensures w == 0 || w == 1 || w == 2 || w == 4 || w == 8
  {
    if argument < 24 then 0
    else if argument < 0x100 then 1
    else if argument < 0x1_0000 then 2
    else if argument < 0x1_0000_0000 then 4
    else 8
  }

  /** The shortest head for a major type and an argument. */
  function Head(major: nat, argument: nat): (h: bytes)
    requires major < 8
    ensures |h| == 1 + Width(argument) && h[0] / 32 == major
  {
    var w := Width(argument);
    var additional := if w == 0 then argument else if w == 1 then 24 else if w == 2 then 25 else if w == 4 then 26 else 27;
    [major * 32 + additional] + if w == 0 then [] else BigEndian(argument, w)
  }

  function Encode(v: Value): (b: bytes)
    ensures |b| > 0
    decreases v, 1
  {
    match v
    case UInt(n) => Head(0, n)
    case NInt(n) => Head(1, n)
    case Bytes(content) => Head(2, |content|) + content
    case Text(content) => Head(3, |content|) + content
    case Array(items) => Head(4, |items|) + EncodeItems(items)
    case Map(pairs) => Head(5, |pairs|) + EncodePairs(pairs)
    case False => [0xF4]
    case True => [0xF5]
    case Null => [0xF6]
  }

  function EncodeItems(items: seq<Value>): bytes
    decreases items, 0
  {
    if items == [] then [] else Encode(items[0]) + EncodeItems(items[1..])
  }

  function EncodePairs(pairs: seq<Pair>): bytes
    decreases pairs, 0
  {
    if pairs == [] then []
    else
      assert pairs[0].key < pairs[0] && pairs[0].value < pairs[0];
      Encode(pairs[0].key) + Encode(pairs[0].value) + EncodePairs(pairs[1..])
  }

  // ----- the budgets -----

  /** Decode budgets; every field is a Go int. */
  datatype Limits = Limits(
    maxFrameBytes: int,
    maxDepth: int,
    maxActions: int,
    maxMapPairs: int,
    maxArrayItems: int,
    maxScalarBytes: int,
    maxPathComponents: int,
    maxEncodedPathBytes: int)
  {
    predicate Valid() {
      && 0 < maxFrameBytes < INT64_BOUND && 0 < maxDepth < INT64_BOUND && 0 < maxActions < INT64_BOUND
      && 0 < maxMapPairs < INT64_BOUND && 0 < maxArrayItems < INT64_BOUND && 0 < maxScalarBytes < INT64_BOUND
      && 0 < maxPathComponents < INT64_BOUND && 0 < maxEncodedPathBytes < INT64_BOUND
      && maxActions <= maxArrayItems
      && maxPathComponents <= maxArrayItems
      && maxEncodedPathBytes <= maxFrameBytes
    }
  }

  const COMPONENTS := Ascii("components")
  const ACTIONS := Ascii("actions")

  predicate HasComponents(pairs: seq<Pair>) {
    exists i :: 0 <= i < |pairs| && pairs[i].key == Text(COMPONENTS)
  }

  /** The counts of the two arrays that have budgets of their own. */
  predicate MemberWithin(p: Pair, limits: Limits) {
    && (p.key == Text(COMPONENTS) ==> p.value.Array? && |p.value.items| <= limits.maxPathComponents)
    && (p.key == Text(ACTIONS) ==> p.value.Array? && |p.value.items| <= limits.maxActions)
  }

  /** Strictly ascending encoded keys. */
  predicate AscendingKeys(pairs: seq<Pair>) {
    forall i :: 0 < i < |pairs| ==> Less(Encode(pairs[i - 1].key), Encode(pairs[i].key))
  }

  /** v, at nesting level depth, respects every rule and budget of the scanner. */
  predicate Within(v: Value, depth: nat, limits: Limits)
    decreases v
  {
    match v
    case UInt(n) => n < UINT64_BOUND
    case NInt(n) => n < UINT64_BOUND
    case Bytes(content) => |content| <= limits.maxScalarBytes
    case Text(content) => |content| <= limits.maxScalarBytes && ValidUtf8(content)
    case Array(items) =>
      && depth + 1 <= limits.maxDepth
      && |items| <= limits.maxArrayItems
      && forall i :: 0 <= i < |items| ==> Within(items[i], depth + 1, limits)
    case Map(pairs) =>
      && depth + 1 <= limits.maxDepth
      && |pairs| <= limits.maxMapPairs
      && AscendingKeys(pairs)
      && (forall i :: 0 <= i < |pairs| ==>
            Within(pairs[i].key, depth + 1, limits) && Within(pairs[i].value, depth + 1, limits) && MemberWithin(pairs[i], limits))
      && (HasComponents(pairs) ==> |Encode(v)| <= limits.maxEncodedPathBytes)
    case _ => true
  }

  /** Every value under this name is an array of at most so many items. */
  predicate Budgeted(pairs: seq<Pair>, name: bytes, budget: int) {
    forall i :: 0 <= i < |pairs| && pairs[i].key == Text(name) ==> pairs[i].value.Array? && |pairs[i].value.items| <= budget
  }

  predicate Names(pairs: seq<Pair>, name: bytes) {
    exists i :: 0 <= i < |pairs| && pairs[i].key == Text(name)
  }

  predicate Ascending(keys: seq<bytes>) {
    forall i, j :: 0 <= i < j < |keys| ==> Less(keys[i], keys[j])
  }

  function EncodedKeys(pairs: seq<Pair>): (keys: seq<bytes>)
    ensures |keys| == |pairs| && forall i :: 0 <= i < |pairs| ==> keys[i] == Encode(pairs[i].key)
  {
    seq(|pairs|, i requires 0 <= i < |pairs| => Encode(pairs[i].key))
  }

  /** What a map must respect, spelled out: at most so many pairs, keys in strictly ascending order of their encodings, and
      the arrays called components and actions within budgets of their own, the first of them also in the bytes of the
      whole map. */
  lemma MapRules(pairs: seq<Pair>, depth: nat, limits: Limits)
    ensures Within(Map(pairs), depth, limits) <==>
              && depth < limits.maxDepth && |pairs| <= limits.maxMapPairs && Ascending(EncodedKeys(pairs))
              && (forall i :: 0 <= i < |pairs| ==> Within(pairs[i].key, depth + 1, limits) && Within(pairs[i].value, depth + 1, limits))
              && Budgeted(pairs, Ascii("components"), limits.maxPathComponents) && Budgeted(pairs, Ascii("actions"), limits.maxActions)
              && (Names(pairs, Ascii("components")) ==> |Encode(Map(pairs))| <= limits.maxEncodedPathBytes)
  {
    hide Encode, Less;
    MembersBudgeted(pairs, limits);
    assert HasComponents(pairs) <==> Names(pairs, Ascii("components"));
    var keys := EncodedKeys(pairs);
    if AscendingKeys(pairs) {
      forall i, j | 0 <= i < j < |keys| ensures Less(keys[i], keys[j]) { AscendingFurther(pairs, i, j); }
    }
    if Ascending(keys) {
      forall i | 0 < i < |pairs| ensures Less(Encode(pairs[i - 1].key), Encode(pairs[i].key)) {
        assert Less(keys[i - 1], keys[i]);
      }
    }
  }

  lemma MembersBudgeted(pairs: seq<Pair>, limits: Limits)
    ensures (forall i :: 0 <= i < |pairs| ==> MemberWithin(pairs[i], limits)) <==>
              Budgeted(pairs, Ascii("components"), limits.maxPathComponents) && Budgeted(pairs, Ascii("actions"), limits.maxActions)
  {
  }

  lemma {:induction false} AscendingFurther(pairs: seq<Pair>, i: nat, j: nat)
    requires AscendingKeys(pairs) && i < j < |pairs|
    ensures Less(Encode(pairs[i].key), Encode(pairs[j].key))
    decreases j
  {
    hide Encode;
    if i < j - 1 {
      AscendingFurther(pairs, i, j - 1);
      LessTransitive(Encode(pairs[i].key), Encode(pairs[j - 1].key), Encode(pairs[j].key));
    }
  }

  /** The ordinary profile. */
  const DEFAULT_LIMITS := Limits(4194304, 16, 1024, 128, 2048, 1048576, 1024, 262144)

  function Fields(l: Limits): seq<int> {
    [l.maxFrameBytes, l.maxDepth, l.maxActions, l.maxMapPairs, l.maxArrayItems, l.maxScalarBytes, l.maxPathComponents, l.maxEncodedPathBytes]
  }

  /** Limits are valid exactly if all are positive Go ints and the narrower ones stay inside the wider ones. */
  lemma LimitsExactly(l: Limits)
    ensures l.Valid() <==>
              && (forall x :: x in Fields(l) ==> 1 <= x <= 9223372036854775807)
              && l.maxArrayItems >= l.maxActions && l.maxArrayItems >= l.maxPathComponents && l.maxFrameBytes >= l.maxEncodedPathBytes
    ensures DEFAULT_LIMITS.Valid()
  {
    var xs := Fields(l);
    if forall x :: x in xs ==> 1 <= x <= 9223372036854775807 {
      assert xs[0] in xs && xs[1] in xs && xs[2] in xs && xs[3] in xs && xs[4] in xs && xs[5] in xs && xs[6] in xs && xs[7] in xs;
    }
  }

  // ----- a piece of a frame -----

  predicate At(data: bytes, offset: nat, piece: bytes) {
    offset + |piece| <= |data| && data[offset..offset + |piece|] == piece
  }

  lemma AtParts(data: bytes, offset: nat, a: bytes, b: bytes)
    ensures At(data, offset, a + b) <==> At(data, offset, a) && At(data, offset + |a|, b)
  {
    if At(data, offset, a + b) {
      assert data[offset..offset + |a|] == data[offset..offset + |a + b|][..|a|] == a;
      assert data[offset + |a|..offset + |a + b|] == data[offset..offset + |a + b|][|a|..] == b;
    }
    if At(data, offset, a) && At(data, offset + |a|, b) {
      assert data[offset..offset + |a + b|] == data[offset..offset + |a|] + data[offset + |a|..offset + |a| + |b|];
    }
  }

  // ----- heads -----

  /** The big-endian argument of the given width after the initial byte, refused below the least value
      that needs that width. */
  function WideArgument(data: bytes, offset: nat, width: nat, least: nat): (r: Option<(nat, nat)>)
  {
    if offset + width >= |data| then None
    else
      var value := FromBigEndian(data[offset + 1..offset + 1 + width]);
      if value < least then None else Some((value, offset + 1 + width))
  }

  /** The argument of the head at offset and the offset after it, if minimally encoded. */
  function ScanArgument(data: bytes, offset: nat): (r: Option<(nat, nat)>)
    requires offset < |data|
    ensures r.Some? ==> offset < r.value.1 <= |data|
  {
    var additional := data[offset] % 32;
    if additional < 24 then Some((additional, offset + 1))
    else if additional == 24 then WideArgument(data, offset, 1, 24)
    else if additional == 25 then WideArgument(data, offset, 2, 0x100)
    else if additional == 26 then WideArgument(data, offset, 4, 0x1_0000)
    else if additional == 27 then WideArgument(data, offset, 8, 0x1_0000_0000)
    else None
  }

  lemma Powers()
    ensures Power256(1) == 0x100 && Power256(2) == 0x1_0000 && Power256(4) == 0x1_0000_0000 && Power256(8) == UINT64_BOUND
  {
    assert Power256(2) == 256 * Power256(1);
    assert Power256(3) == 256 * Power256(2);
    assert Power256(4) == 256 * Power256(3);
    assert Power256(5) == 256 * Power256(4);
    assert Power256(6) == 256 * Power256(5);
    assert Power256(7) == 256 * Power256(6);
  }

  /** An accepted head is the shortest head of its argument. */
  lemma ArgumentSound(data: bytes, offset: nat)
    requires offset < |data| && ScanArgument(data, offset).Some?
    ensures var (argument, next) := ScanArgument(data, offset).value;
            && argument < UINT64_BOUND
            && next == offset + |Head(data[offset] / 32, argument)|
            && At(data, offset, Head(data[offset] / 32, argument))
  {
    hide BigEndian, FromBigEndian, Power256;
    var (argument, next) := ScanArgument(data, offset).value;
    var tail := data[offset + 1..next];
    assert data[offset..next] == [data[offset]] + tail;
    if tail != [] {
      assert argument == FromBigEndian(tail);
      FromBigEndianRoundTrip(tail);
      Powers();
      assert Width(argument) == |tail|;
    }
  }

  /** Every shortest head is accepted, whatever follows it. */
  lemma ArgumentComplete(data: bytes, offset: nat, major: nat, argument: nat)
    requires major < 8 && argument < UINT64_BOUND
    requires At(data, offset, Head(major, argument))
    ensures ScanArgument(data, offset) == Some((argument, offset + |Head(major, argument)|))
    ensures data[offset] / 32 == major
  {
    var h := Head(major, argument);
    var w := Width(argument);
    assert data[offset] == data[offset..offset + |h|][0] == h[0];
    assert data[offset + 1..offset + |h|] == data[offset..offset + |h|][1..] == h[1..];
    if w > 0 {
      Powers();
      BigEndianRoundTrip(argument, w);
    }
  }

  // ----- the specification of the scanner: it also returns the value it recognised -----

  function Parse(data: bytes, offset: nat, depth: nat, limits: Limits): (r: Option<(Value, nat)>)
    ensures r.Some? ==> offset < r.value.1 <= |data|
    decreases |data| - offset, 0
  {
    if offset >= |data| then None else
    var major := data[offset] / 32;
    match ScanArgument(data, offset)
    case None => None
    case Some((argument, next)) =>
      if major == 0 then Some((UInt(argument), next))
      else if major == 1 then Some((NInt(argument), next))
      else if major == 2 || major == 3 then
        if argument > limits.maxScalarBytes || argument > |data| - next then None
        else
          var content := data[next..next + argument];
          if major == 2 then Some((Bytes(content), next + argument))
          else if ValidUtf8(content) then Some((Text(content), next + argument))
          else None
      else if major == 4 then
        if depth + 1 > limits.maxDepth || argument > limits.maxArrayItems then None
        else
          match ParseItems(data, next, argument, depth + 1, limits)
          case None => None
          case Some((items, end)) => Some((Array(items), end))
      else if major == 5 then
        if depth + 1 > limits.maxDepth || argument > limits.maxMapPairs then None
        else
          match ParsePairs(data, next, argument, None, depth + 1, limits)
          case None => None
          case Some((pairs, end)) =>
            if HasComponents(pairs) && end - offset > limits.maxEncodedPathBytes then None
            else Some((Map(pairs), end))
      else if major == 7 then
        if argument == 20 then Some((False, next))
        else if argument == 21 then Some((True, next))
        else if argument == 22 then Some((Null, next))
        else None
      else None
  }

  function ParseItems(data: bytes, offset: nat, count: nat, depth: nat, limits: Limits): (r: Option<(seq<Value>, nat)>)
    requires offset <= |data|
    ensures r.Some? ==> offset <= r.value.1 <= |data| && |r.value.0| == count
    decreases |data| - offset, 1
  {
    if count == 0 then Some(([], offset))
    else
      match Parse(data, offset, depth, limits)
      case None => None
      case Some((v, next)) =>
        match ParseItems(data, next, count - 1, depth, limits)
        case None => None
        case Some((vs, end)) => Some(([v] + vs, end))
  }

  /** previous is the encoding of the key before the first of these pairs, if any. */
  function ParsePairs(data: bytes, offset: nat, count: nat, previous: Option<bytes>, depth: nat, limits: Limits): (r: Option<(seq<Pair>, nat)>)
    requires offset <= |data|
    ensures r.Some? ==> offset <= r.value.1 <= |data| && |r.value.0| == count
    decreases |data| - offset, 1
  {
    if count == 0 then Some(([], offset))
    else
      match Parse(data, offset, depth, limits)
      case None => None
      case Some((key, middle)) =>
        if previous.Some? && !Less(previous.value, data[offset..middle]) then None
        else
          match Parse(data, middle, depth, limits)
          case None => None
          case Some((value, next)) =>
            if !MemberWithin(Pair(key, value), limits) then None
            else
              match ParsePairs(data, next, count - 1, Some(data[offset..middle]), depth, limits)
              case None => None
              case Some((rest, end)) => Some(([Pair(key, value)] + rest, end))
  }

  // ----- soundness: what is recognised is the encoding of a value within the limits -----

  /** The head of an encoding and what follows the head. */
  function Split(v: Value): (r: (nat, nat, bytes))
    ensures r.0 < 8 && Encode(v) == Head(r.0, r.1) + r.2
  {
    match v
    case UInt(n) => (0, n, [])
    case NInt(n) => (1, n, [])
    case Bytes(content) => (2, |content|, content)
    case Text(content) => (3, |content|, content)
    case Array(items) => (4, |items|, EncodeItems(items))
    case Map(pairs) => (5, |pairs|, EncodePairs(pairs))
    case False => (7, 20, [])
    case True => (7, 21, [])
    case Null => (7, 22, [])
  }

  lemma {:induction false} ParseSound(data: bytes, offset: nat, depth: nat, limits: Limits)
    requires limits.Valid() && Parse(data, offset, depth, limits).Some?
    ensures var (v, end) := Parse(data, offset, depth, limits).value;
            Within(v, depth, limits) && At(data, offset, Encode(v)) && end == offset + |Encode(v)|
    decreases |data| - offset, 0
  {
    hide Head, ScanArgument, ParseItems, ParsePairs, EncodeItems, EncodePairs;
    var (v, end) := Parse(data, offset, depth, limits).value;
    ArgumentSound(data, offset);
    var (argument, next) := ScanArgument(data, offset).value;
    var (major, _, rest) := Split(v);
    if v.Array? {
      ItemsSound(data, next, argument, depth + 1, limits);
    } else if v.Map? {
      PairsSound(data, next, argument, None, depth + 1, limits);
    }
    assert major == data[offset] / 32 && end == next + |rest|;
    assert At(data, next, rest);
    AtParts(data, offset, Head(major, argument), rest);
    assert end - offset == |Encode(v)|;
    assert Within(v, depth, limits);
  }

  lemma {:induction false} ItemsSound(data: bytes, offset: nat, count: nat, depth: nat, limits: Limits)
    requires limits.Valid() && offset <= |data| && ParseItems(data, offset, count, depth, limits).Some?
    ensures var (vs, end) := ParseItems(data, offset, count, depth, limits).value;
            && At(data, offset, EncodeItems(vs)) && end == offset + |EncodeItems(vs)|
            && forall i :: 0 <= i < |vs| ==> Within(vs[i], depth, limits)
    decreases |data| - offset, 1
  {
    hide Parse, Within, Encode;
    if count > 0 {
      hide At;
      ParseSound(data, offset, depth, limits);
      var (v, next) := Parse(data, offset, depth, limits).value;
      ItemsSound(data, next, count - 1, depth, limits);
      var vs := ParseItems(data, offset, count, depth, limits).value.0;
      assert vs[1..] == ParseItems(data, next, count - 1, depth, limits).value.0;
      AtParts(data, offset, Encode(v), EncodeItems(vs[1..]));
    }
  }

  predicate PairWithin(p: Pair, depth: nat, limits: Limits) {
    Within(p.key, depth, limits) && Within(p.value, depth, limits) && MemberWithin(p, limits)
  }

  lemma {:induction false} PairsSound(data: bytes, offset: nat, count: nat, previous: Option<bytes>, depth: nat, limits: Limits)
    requires limits.Valid() && offset <= |data| && ParsePairs(data, offset, count, previous, depth, limits).Some?
    ensures var (pairs, end) := ParsePairs(data, offset, count, previous, depth, limits).value;
            && At(data, offset, EncodePairs(pairs)) && end == offset + |EncodePairs(pairs)|
            && AscendingKeys(pairs)
            && (count > 0 && previous.Some? ==> Less(previous.value, Encode(pairs[0].key)))
            && forall i :: 0 <= i < |pairs| ==> PairWithin(pairs[i], depth, limits)
    decreases |data| - offset, 1
  {
    hide Parse, Within, Encode;
    if count > 0 {
      ParseSound(data, offset, depth, limits);
      var (key, middle) := Parse(data, offset, depth, limits).value;
      ParseSound(data, middle, depth, limits);
      var (value, next) := Parse(data, middle, depth, limits).value;
      PairsSound(data, next, count - 1, Some(data[offset..middle]), depth, limits);
      var pairs := ParsePairs(data, offset, count, previous, depth, limits).value.0;
      var rest := ParsePairs(data, next, count - 1, Some(data[offset..middle]), depth, limits).value.0;
      assert pairs[1..] == rest && pairs[0] == Pair(key, value);
      AtParts(data, offset, Encode(key), Encode(value));
      AtParts(data, offset, Encode(key) + Encode(value), EncodePairs(rest));
      forall i | 0 < i < |pairs| ensures Less(Encode(pairs[i - 1].key), Encode(pairs[i].key)) {
        if i > 1 { assert pairs[i - 1] == rest[i - 2] && pairs[i] == rest[i - 1]; }
      }
    }
  }

  // ----- completeness: the encoding of every value within the limits is recognised -----

  lemma {:induction false} ParseComplete(v: Value, data: bytes, offset: nat, depth: nat, limits: Limits)
    requires limits.Valid() && Within(v, depth, limits) && At(data, offset, Encode(v))
    ensures Parse(data, offset, depth, limits) == Some((v, offset + |Encode(v)|))
    decreases v, 1
  {
    hide Head, ScanArgument, ParseItems, ParsePairs, EncodeItems, EncodePairs;
    var (major, argument, rest) := Split(v);
    AtParts(data, offset, Head(major, argument), rest);
    ArgumentComplete(data, offset, major, argument);
    var next := offset + |Head(major, argument)|;
    if v.Array? {
      ItemsComplete(v.items, data, next, depth + 1, limits);
    } else if v.Map? {
      PairsComplete(v.pairs, data, next, None, depth + 1, limits);
    }
  }

  lemma {:induction false} ItemsComplete(vs: seq<Value>, data: bytes, offset: nat, depth: nat, limits: Limits)
    requires limits.Valid() && At(data, offset, EncodeItems(vs))
    requires forall i :: 0 <= i < |vs| ==> Within(vs[i], depth, limits)
    ensures ParseItems(data, offset, |vs|, depth, limits) == Some((vs, offset + |EncodeItems(vs)|))
    decreases vs, 0
  {
    hide Parse, Within, Encode, At;
    if vs != [] {
      AtParts(data, offset, Encode(vs[0]), EncodeItems(vs[1..]));
      ParseComplete(vs[0], data, offset, depth, limits);
      ItemsComplete(vs[1..], data, offset + |Encode(vs[0])|, depth, limits);
      assert vs == [vs[0]] + vs[1..];
    }
  }

  lemma {:induction false} PairComplete(p: Pair, data: bytes, offset: nat, depth: nat, limits: Limits)
    requires limits.Valid() && PairWithin(p, depth, limits) && At(data, offset, Encode(p.key) + Encode(p.value))
    ensures var middle := offset + |Encode(p.key)|;
            && Parse(data, offset, depth, limits) == Some((p.key, middle))
            && data[offset..middle] == Encode(p.key)
            && Parse(data, middle, depth, limits) == Some((p.value, middle + |Encode(p.value)|))
    decreases p, 2
  {
    hide Parse, Within, Encode;
    AtParts(data, offset, Encode(p.key), Encode(p.value));
    ParseComplete(p.key, data, offset, depth, limits);
    ParseComplete(p.value, data, offset + |Encode(p.key)|, depth, limits);
  }

  lemma {:induction false} PairsComplete(pairs: seq<Pair>, data: bytes, offset: nat, previous: Option<bytes>, depth: nat, limits: Limits)
    requires limits.Valid() && AscendingKeys(pairs) && At(data, offset, EncodePairs(pairs))
    requires pairs != [] && previous.Some? ==> Less(previous.value, Encode(pairs[0].key))
    requires forall i :: 0 <= i < |pairs| ==> PairWithin(pairs[i], depth, limits)
    ensures ParsePairs(data, offset, |pairs|, previous, depth, limits) == Some((pairs, offset + |EncodePairs(pairs)|))
    decreases pairs, 0
  {
    hide Parse, Within, Encode, At;
    if pairs != [] {
      var p, rest := pairs[0], pairs[1..];
      var both := Encode(p.key) + Encode(p.value);
      AtParts(data, offset, both, EncodePairs(rest));
      PairComplete(p, data, offset, depth, limits);
      assert forall i :: 0 <= i < |rest| ==> rest[i] == pairs[i + 1];
      PairsComplete(rest, data, offset + |both|, Some(Encode(p.key)), depth, limits);
      assert pairs == [p] + rest;
    }
  }

  // ----- the encoding is unambiguous, with no limits at all -----

  /** Every head argument fits 64 bits, as it must in any Go value. */
  predicate Encodable(v: Value)
    decreases v
  {
    match v
    case UInt(n) => n < UINT64_BOUND
    case NInt(n) => n < UINT64_BOUND
    case Bytes(content) => |content| < UINT64_BOUND
    case Text(content) => |content| < UINT64_BOUND
    case Array(items) => |items| < UINT64_BOUND && forall i :: 0 <= i < |items| ==> Encodable(items[i])
    case Map(pairs) =>
      |pairs| < UINT64_BOUND && forall i :: 0 <= i < |pairs| ==> Encodable(pairs[i].key) && Encodable(pairs[i].value)
    case _ => true
  }

  lemma HeadUnambiguous(major: nat, argument: nat, x: bytes, major': nat, argument': nat, y: bytes)
    requires major < 8 && major' < 8 && argument < UINT64_BOUND && argument' < UINT64_BOUND
    requires Head(major, argument) + x == Head(major', argument') + y
    ensures major == major' && argument == argument' && x == y
  {
    var h, h' := Head(major, argument), Head(major', argument');
    var data := h + x;
    assert data[0..|h|] == h && data[0..|h'|] == h';
    ArgumentComplete(data, 0, major, argument);
    ArgumentComplete(data, 0, major', argument');
    assert x == data[|h|..] && y == (h' + y)[|h'|..];
  }

  /** Self-delimiting and injective: one byte string starts with the encoding of at most one value. */
  lemma {:induction false} Unambiguous(v: Value, x: bytes, w: Value, y: bytes)
    requires Encodable(v) && Encodable(w) && Encode(v) + x == Encode(w) + y
    ensures v == w && x == y
    decreases v, 1
  {
    hide Head, EncodeItems, EncodePairs;
    var (major, argument, rest) := Split(v);
    var (major', argument', rest') := Split(w);
    assert Encode(v) + x == Head(major, argument) + (rest + x);
    assert Encode(w) + y == Head(major', argument') + (rest' + y);
    HeadUnambiguous(major, argument, rest + x, major', argument', rest' + y);
    if v.Bytes? || v.Text? {
      Cut(rest, x, rest', y);
    } else if v.Array? {
      ItemsUnambiguous(v.items, x, w.items, y);
    } else if v.Map? {
      PairsUnambiguous(v.pairs, x, w.pairs, y);
    } else {
      Cut([], x, [], y);
    }
  }

  lemma Cut(a: bytes, x: bytes, b: bytes, y: bytes)
    requires a + x == b + y && |a| == |b|
    ensures a == b && x == y
  {
    assert a == (a + x)[..|a|] && b == (b + y)[..|a|];
    assert x == (a + x)[|a|..] && y == (b + y)[|a|..];
  }

  lemma {:induction false} ItemsUnambiguous(vs: seq<Value>, x: bytes, ws: seq<Value>, y: bytes)
    requires |vs| == |ws|
    requires forall i :: 0 <= i < |vs| ==> Encodable(vs[i]) && Encodable(ws[i])
    requires EncodeItems(vs) + x == EncodeItems(ws) + y
    ensures vs == ws && x == y
    decreases vs, 0
  {
    hide Encode, Encodable;
    if vs == [] {
      Cut([], x, [], y);
    } else {
      var x', y' := EncodeItems(vs[1..]) + x, EncodeItems(ws[1..]) + y;
      assert EncodeItems(vs) + x == Encode(vs[0]) + x';
      assert EncodeItems(ws) + y == Encode(ws[0]) + y';
      Unambiguous(vs[0], x', ws[0], y');
      ItemsUnambiguous(vs[1..], x, ws[1..], y);
      assert vs == [vs[0]] + vs[1..] && ws == [ws[0]] + ws[1..];
    }
  }

  lemma {:induction false} PairUnambiguous(p: Pair, x: bytes, q: Pair, y: bytes)
    requires Encodable(p.key) && Encodable(p.value) && Encodable(q.key) && Encodable(q.value)
    requires Encode(p.key) + Encode(p.value) + x == Encode(q.key) + Encode(q.value) + y
    ensures p == q && x == y
    decreases p, 2
  {
    hide Encode, Encodable;
    assert Encode(p.key) + Encode(p.value) + x == Encode(p.key) + (Encode(p.value) + x);
    assert Encode(q.key) + Encode(q.value) + y == Encode(q.key) + (Encode(q.value) + y);
    Unambiguous(p.key, Encode(p.value) + x, q.key, Encode(q.value) + y);
    Unambiguous(p.value, x, q.value, y);
  }

  lemma {:induction false} PairsUnambiguous(ps: seq<Pair>, x: bytes, qs: seq<Pair>, y: bytes)
    requires |ps| == |qs|
    requires forall i :: 0 <= i < |ps| ==>
      Encodable(ps[i].key) && Encodable(ps[i].value) && Encodable(qs[i].key) && Encodable(qs[i].value)
    requires EncodePairs(ps) + x == EncodePairs(qs) + y
    ensures ps == qs && x == y
    decreases ps, 0
  {
    hide Encode, Encodable;
    if ps == [] {
      Cut([], x, [], y);
    } else {
      var p, q := ps[0], qs[0];
      var x', y' := EncodePairs(ps[1..]) + x, EncodePairs(qs[1..]) + y;
      assert EncodePairs(ps) + x == Encode(p.key) + Encode(p.value) + x';
      assert EncodePairs(qs) + y == Encode(q.key) + Encode(q.value) + y';
      PairUnambiguous(p, x', q, y');
      PairsUnambiguous(ps[1..], x, qs[1..], y);
      assert ps == [p] + ps[1..] && qs == [q] + qs[1..];
    }
  }

  /** No encoding is a proper prefix of another: a torn frame is never a frame. */
  lemma PrefixFree(v: Value, w: Value)
    requires Encodable(v) && Encodable(w) && Encode(v) <= Encode(w)
    ensures v == w
  {
    var y := Encode(w)[|Encode(v)|..];
    assert Encode(v) + y == Encode(w) == Encode(w) + [];
    Unambiguous(v, y, w, []);
  }

  // ----- the scanner itself -----

  function End<T>(r: Option<(T, nat)>): Option<nat> {
    if r.Some? then Some(r.value.1) else None
  }

  method ScanCborAdvance(offset: nat, count: nat, length: nat) returns (r: Option<nat>)
    ensures r == if offset <= length && count <= length - offset then Some(offset + count) else None
  {
    if offset > length { return None; }
    if count > length - offset { return None; }
    return Some(offset + count);
  }

  /** Whether the bytes at offset are a definite text item with the wanted content. */
  method CborTextEquals(data: bytes, offset: nat, want: bytes) returns (r: bool)
    requires |want| < UINT64_BOUND
    ensures r <==> At(data, offset, Encode(Text(want)))
  {
    var h := Head(3, |want|);
    assert Encode(Text(want)) == h + want;
    hide Head, ScanArgument, Encode;
    AtParts(data, offset, h, want);
    if offset >= |data| || data[offset] / 32 != 3 { return false; }
    if At(data, offset, h) { ArgumentComplete(data, offset, 3, |want|); }
    var argument := ScanArgument(data, offset);
    if argument == None { return false; }
    var (length, contentOffset) := argument.value;
    ArgumentSound(data, offset);
    if length != |want| { return false; }
    var end := ScanCborAdvance(contentOffset, length, |data|);
    if end == None { return false; }
    hide At;
    r := SameContent(data, contentOffset, want);
  }

  /** The byte loop of cborTextEquals. */
  method SameContent(data: bytes, offset: nat, want: bytes) returns (r: bool)
    requires offset + |want| <= |data|
    ensures r <==> At(data, offset, want)
  {
    var index := 0;
    while index < |want|
      invariant 0 <= index <= |want|
      invariant forall j :: 0 <= j < index ==> data[offset + j] == want[j]
    {
      if data[offset + index] != want[index] {
        assert data[offset..offset + |want|][index] != want[index];
        return false;
      }
      index := index + 1;
    }
    assert data[offset..offset + |want|] == want;
    return true;
  }

  /** The count check on the array that follows a "components" or "actions" key. */
  method ScanArrayHeader(data: bytes, offset: nat, limit: int) returns (ok: bool)
    ensures ok <==> offset < |data| && data[offset] / 32 == 4 && ScanArgument(data, offset).Some? && ScanArgument(data, offset).value.0 <= limit
  {
    if offset >= |data| || data[offset] / 32 != 4 { return false; }
    var argument := ScanArgument(data, offset);
    if argument == None { return false; }
    return argument.value.0 <= limit;
  }

  /** The text check made before an item is scanned agrees with the value scanned. */
  lemma TextKey(data: bytes, offset: nat, depth: nat, limits: Limits, want: bytes)
    requires limits.Valid() && |want| < UINT64_BOUND && Parse(data, offset, depth, limits).Some?
    ensures Parse(data, offset, depth, limits).value.0 == Text(want) <==> At(data, offset, Encode(Text(want)))
  {
    hide Parse, Head, Within, ScanArgument;
    var v := Parse(data, offset, depth, limits).value.0;
    ParseSound(data, offset, depth, limits);
    var e, e' := Encode(v), Encode(Text(want));
    if At(data, offset, e') {
      WithinEncodable(v, depth, limits);
      assert data[offset..] == e + data[offset + |e|..] == e' + data[offset + |e'|..];
      Unambiguous(v, data[offset + |e|..], Text(want), data[offset + |e'|..]);
    }
  }

  lemma {:induction false} WithinEncodable(v: Value, depth: nat, limits: Limits)
    requires limits.Valid() && Within(v, depth, limits)
    ensures Encodable(v)
    decreases v
  {
    match v
    case Array(items) =>
      forall i | 0 <= i < |items| ensures Encodable(items[i]) { WithinEncodable(items[i], depth + 1, limits); }
    case Map(pairs) =>
      forall i | 0 <= i < |pairs| ensures Encodable(pairs[i].key) && Encodable(pairs[i].value) {
        WithinEncodable(pairs[i].key, depth + 1, limits);
        WithinEncodable(pairs[i].value, depth + 1, limits);
      }
    case _ =>
  }

  /** The header check made before the member's value is scanned agrees with the value's own count. */
  lemma ArrayHeader(data: bytes, offset: nat, depth: nat, limits: Limits, limit: int)
    requires Parse(data, offset, depth, limits).Some?
    ensures var v := Parse(data, offset, depth, limits).value.0;
            v.Array? && |v.items| <= limit <==>
            data[offset] / 32 == 4 && ScanArgument(data, offset).Some? && ScanArgument(data, offset).value.0 <= limit
  {
  }

  /** The recursive scanner: it finds the end of the item at offset, or fails, exactly as Parse does. */
  method ScanCborItem(data: bytes, offset: nat, depth: nat, limits: Limits) returns (r: Option<nat>)
    requires limits.Valid()
    ensures r == End(Parse(data, offset, depth, limits))
    decreases |data| - offset, 0
  {
    hide Within, Encode, Head, ScanArgument, ValidUtf8, At;
    if offset >= |data| { return None; }
    var major := data[offset] / 32;
    var head := ScanArgument(data, offset);
    if head == None { return None; }
    var (argument, next) := head.value;
    if major == 0 || major == 1 { return Some(next); }
    if major == 2 || major == 3 {
      if argument > limits.maxScalarBytes { return None; }
      var end := ScanCborAdvance(next, argument, |data|);
      if end == None { return None; }
      if major == 3 && !ValidUtf8(data[next..end.value]) { return None; }
      return end;
    }
    if major == 4 {
      if depth + 1 > limits.maxDepth || argument > limits.maxArrayItems { return None; }
      ghost var start := next;
      var index := 0;
      while index < argument
        invariant offset < start <= next <= |data| && index <= argument
        invariant End(ParseItems(data, start, argument, depth + 1, limits)) == End(ParseItems(data, next, argument - index, depth + 1, limits))
      {
        var item := ScanCborItem(data, next, depth + 1, limits);
        if item == None { return None; }
        next := item.value;
        index := index + 1;
      }
      return Some(next);
    }
    if major == 5 {
      if depth + 1 > limits.maxDepth || argument > limits.maxMapPairs { return None; }
      r := ScanCborMap(data, offset, next, argument, depth + 1, limits);
      return;
    }
    if major == 7 && (argument == 20 || argument == 21 || argument == 22) { return Some(next); }
    return None;
  }

  /** The pairs of a map whose head is at mapOffset and whose content starts at start. */
  method ScanCborMap(data: bytes, mapOffset: nat, start: nat, argument: nat, depth: nat, limits: Limits) returns (r: Option<nat>)
    requires limits.Valid() && mapOffset < start <= |data|
    ensures var p := ParsePairs(data, start, argument, None, depth, limits);
            r == if p.Some? && !(HasComponents(p.value.0) && p.value.1 - mapOffset > limits.maxEncodedPathBytes) then Some(p.value.1) else None
    decreases |data| - start, 1
  {
    hide Parse, Encode, Head, Within, ScanArgument, At, Less;
    var next := start;
    var hasComponents := false;
    var previous: Option<bytes> := None;
    var index := 0;
    ghost var whole := ParsePairs(data, start, argument, None, depth, limits);
    while index < argument
      invariant start <= next <= |data| && index <= argument
      invariant var rest := ParsePairs(data, next, argument - index, previous, depth, limits);
                && End(whole) == End(rest)
                && (whole.Some? ==> (HasComponents(whole.value.0) <==> hasComponents || HasComponents(rest.value.0)))
    {
      ghost var before := ParsePairs(data, next, argument - index, previous, depth, limits);
      var keyOffset := next;
      var isComponents := CborTextEquals(data, keyOffset, COMPONENTS);
      if isComponents { hasComponents := true; }
      var key := ScanCborItem(data, keyOffset, depth, limits);
      if key == None { return None; }
      TextKey(data, keyOffset, depth, limits, COMPONENTS);
      TextKey(data, keyOffset, depth, limits, ACTIONS);
      next := key.value;
      if previous.Some? && !Less(previous.value, data[keyOffset..next]) { return None; }
      previous := Some(data[keyOffset..next]);
      ghost var valueScanned := Parse(data, next, depth, limits);
      if valueScanned.Some? {
        ArrayHeader(data, next, depth, limits, limits.maxPathComponents);
        ArrayHeader(data, next, depth, limits, limits.maxActions);
      }
      if isComponents {
        var ok := ScanArrayHeader(data, next, limits.maxPathComponents);
        if !ok { return None; }
      }
      var isActions := CborTextEquals(data, keyOffset, ACTIONS);
      if isActions {
        var ok := ScanArrayHeader(data, next, limits.maxActions);
        if !ok { return None; }
      }
      var value := ScanCborItem(data, next, depth, limits);
      if value == None { return None; }
      next := value.value;
      index := index + 1;
      ghost var rest := ParsePairs(data, next, argument - index, previous, depth, limits);
      if before.Some? {
        assert before.value.0 == [before.value.0[0]] + rest.value.0;
        assert forall i :: 0 <= i < |rest.value.0| ==> rest.value.0[i] == before.value.0[i + 1];
        assert HasComponents(before.value.0) <==> isComponents || HasComponents(rest.value.0);
      }
    }
    if hasComponents && next - mapOffset > limits.maxEncodedPathBytes { return None; }
    return Some(next);
  }

  /** A frame is accepted exactly when it is the encoding of a value within the limits... */
  method ScanCanonicalCbor(data: bytes, limits: Limits) returns (ok: bool)
    ensures ok <==> limits.Valid() && |data| <= limits.maxFrameBytes && exists v :: Within(v, 0, limits) && data == Encode(v)
  {
    if !limits.Valid() { return false; }
    if |data| == 0 { return false; }
    if |data| > limits.maxFrameBytes { return false; }
    var end := ScanCborItem(data, 0, 0, limits);
    FrameParses(data, limits);
    if end == None { return false; }
    return end.value == |data|;
  }

  lemma FrameParses(data: bytes, limits: Limits)
    requires limits.Valid()
    ensures End(Parse(data, 0, 0, limits)) == Some(|data|) <==> exists v :: Within(v, 0, limits) && data == Encode(v)
  {
    assert data[0..|data|] == data;
    if End(Parse(data, 0, 0, limits)) == Some(|data|) {
      ParseSound(data, 0, 0, limits);
    }
    forall v | Within(v, 0, limits) && data == Encode(v)
      ensures End(Parse(data, 0, 0, limits)) == Some(|data|)
    {
      ParseComplete(v, data, 0, 0, limits);
    }
  }

  /** ... and that value is unique. */
  lemma AcceptedValueUnique(data: bytes, limits: Limits, v: Value, w: Value)
    requires limits.Valid() && Within(v, 0, limits) && Within(w, 0, limits)
    requires data == Encode(v) && data == Encode(w)
    ensures v == w
  {
    WithinEncodable(v, 0, limits);
    WithinEncodable(w, 0, limits);
    PrefixFree(v, w);
  }
}
