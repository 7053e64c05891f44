/** Bytes, results, bytewise order and big-endian numbers shared by every module. */
module Base {
  type byte = b: int | 0 <= b < 256
  type bytes = seq<byte>

  datatype Option<+T> = None | Some(value: T)

  datatype Result<+T, +E> = Success(value: T) | Failure(error: E)

  /** The outcome of a validator: nothing, or the class of its error. */
  datatype Check<+E> = Pass | Fail(error: E)

  /** Error numbers of the system calls that are told apart. */
  datatype Errno =
    | EEXIST | ENOTEMPTY | EXDEV | ENOSYS | EINVAL | EOPNOTSUPP | EROFS | ENOENT | ENOTDIR | ELOOP
    | EINTR | EAGAIN | OtherErrno(code: nat)

  /** What the kernel promises of a no-replace rename: after these errors it has had no effect. After any other it may. */
  const NO_EFFECT: set<Errno> := {EEXIST, ENOTEMPTY, EXDEV, ENOSYS, EINVAL, EOPNOTSUPP, EROFS, ENOENT, ENOTDIR, ELOOP}

  /** The ASCII bytes of a literal. */
  function Ascii(text: string): (r: bytes)
    requires forall i :: 0 <= i < |text| ==> text[i] < 128 as char
    ensures |r| == |text|
    ensures forall i :: 0 <= i < |text| ==> r[i] == text[i] as int
  {
    seq(|text|, i requires 0 <= i < |text| => text[i] as int)
  }

  // ----- bytewise order (Go's bytes.Compare and string comparison) -----

  predicate Less(a: bytes, b: bytes) {
    if b == [] then false
    else if a == [] then true
    else if a[0] != b[0] then a[0] < b[0]
    else Less(a[1..], b[1..])
  }

  lemma {:induction false} LessAsymmetric(a: bytes, b: bytes)
    requires Less(a, b)
    ensures !Less(b, a)
  {
    if a != [] && a[0] == b[0] { LessAsymmetric(a[1..], b[1..]); }
  }

  lemma {:induction false} LessTransitive(a: bytes, b: bytes, c: bytes)
    requires Less(a, b) && Less(b, c)
    ensures Less(a, c)
  {
    if a != [] && a[0] == b[0] && b[0] == c[0] { LessTransitive(a[1..], b[1..], c[1..]); }
  }

  lemma {:induction false} LessTrichotomy(a: bytes, b: bytes)
    ensures Less(a, b) || a == b || Less(b, a)
  {
    if a != [] && b != [] && a[0] == b[0] {
      LessTrichotomy(a[1..], b[1..]);
      assert a == [a[0]] + a[1..] && b == [b[0]] + b[1..];
    }
  }

  lemma {:induction false} LessAtDifference(a: bytes, b: bytes, n: nat)
    requires n < |a| && n < |b| && a[..n] == b[..n] && a[n] < b[n]
    ensures Less(a, b)
  {
    if n > 0 {
      assert a[..n][0] == b[..n][0];
      assert a[1..][..n - 1] == a[..n][1..] && b[1..][..n - 1] == b[..n][1..];
      LessAtDifference(a[1..], b[1..], n - 1);
    }
  }

  lemma {:induction false} FirstDifference(a: bytes, b: bytes) returns (n: nat)
    requires Less(a, b)
    ensures n <= |a| && n < |b| && a[..n] == b[..n] && (n < |a| ==> a[n] < b[n])
  {
    n := 0;
    if a != [] && a[0] == b[0] {
      var m := FirstDifference(a[1..], b[1..]);
      n := m + 1;
      assert a[..n] == [a[0]] + a[1..][..m] && b[..n] == [b[0]] + b[1..][..m];
    }
  }

  lemma {:induction false} PrefixIsLess(a: bytes, b: bytes)
    requires a < b
    ensures Less(a, b)
  {
    if a != [] {
      assert a == b[..|a|];
      assert a[1..] == b[1..][..|a| - 1];
      PrefixIsLess(a[1..], b[1..]);
    }
  }

  /** The texts agree up to n, and there a has the smaller byte. */
  predicate SmallerAt(a: bytes, b: bytes, n: nat) {
    n < |a| && n < |b| && a[..n] == b[..n] && a[n] < b[n]
  }

  /** The order is decided at the first difference; a proper prefix comes first. */
  lemma LessExactly(a: bytes, b: bytes)
    ensures Less(a, b) <==> a < b || exists n :: SmallerAt(a, b, n)
  {
    if Less(a, b) {
      var n := FirstDifference(a, b);
      if n == |a| { assert a == a[..n]; } else { assert SmallerAt(a, b, n); }
    }
    if a < b { PrefixIsLess(a, b); }
    if exists n :: SmallerAt(a, b, n) {
      var n :| SmallerAt(a, b, n);
      LessAtDifference(a, b, n);
    }
  }

  /** Texts of one length are compared part by part. */
  lemma {:induction false} LessJoin(a: bytes, x: bytes, b: bytes, y: bytes)
    requires |a| == |b|
    ensures Less(a + x, b + y) <==> Less(a, b) || (a == b && Less(x, y))
  {
    if a == [] {
      assert a + x == x && b + y == y;
    } else {
      assert (a + x)[1..] == a[1..] + x && (b + y)[1..] == b[1..] + y;
      LessJoin(a[1..], x, b[1..], y);
      assert a == [a[0]] + a[1..] && b == [b[0]] + b[1..];
      LessIrreflexive(a);
    }
  }

  lemma {:induction false} LessIrreflexive(a: bytes)
    ensures !Less(a, a)
  {
    if a != [] { LessIrreflexive(a[1..]); }
  }

  // ----- alphabets -----

  const DIGITS := Ascii("0123456789")
  const SMALL_LETTERS := Ascii("abcdefghijklmnopqrstuvwxyz")
  const CAPITALS := Ascii("ABCDEFGHIJKLMNOPQRSTUVWXYZ")

  lemma RunOfBytes(s: bytes, first: byte, b: byte)
    requires forall i :: 0 <= i < |s| ==> s[i] as int == first + i
    ensures b in s <==> first <= b < first + |s|
  {
    if first <= b < first + |s| { assert s[b - first] == b; }
  }

  /** The alphabets are the ranges of the ASCII table. */
  lemma Alphabets(b: byte)
    ensures b in DIGITS <==> '0' as int <= b <= '9' as int
    ensures b in SMALL_LETTERS <==> 'a' as int <= b <= 'z' as int
    ensures b in CAPITALS <==> 'A' as int <= b <= 'Z' as int
  {
    RunOfBytes(DIGITS, 48, b);
    RunOfBytes(SMALL_LETTERS, 97, b);
    RunOfBytes(CAPITALS, 65, b);
  }

  // ----- big-endian numbers of a fixed width -----

  function Power256(width: nat): (r: nat)
    ensures r > 0
  {
    if width == 0 then 1 else 256 * Power256(width - 1)
  }

  /** The low `width` bytes of n, most significant first: Go's byte(n>>24), byte(n>>16), ... */
  function BigEndian(n: nat, width: nat): (r: bytes)
    ensures |r| == width
  {
    if width == 0 then [] else BigEndian(n / 256, width - 1) + [n % 256]
  }

  function FromBigEndian(b: bytes): nat {
    if b == [] then 0 else 256 * FromBigEndian(b[..|b| - 1]) + b[|b| - 1]
  }

  lemma {:induction false} BigEndianRoundTrip(n: nat, width: nat)
    requires n < Power256(width)
    ensures FromBigEndian(BigEndian(n, width)) == n
  {
    if width > 0 {
      BigEndianRoundTrip(n / 256, width - 1);
      assert BigEndian(n, width)[..width - 1] == BigEndian(n / 256, width - 1);
    }
  }

  lemma {:induction false} FromBigEndianRoundTrip(b: bytes)
    ensures FromBigEndian(b) < Power256(|b|)
    ensures BigEndian(FromBigEndian(b), |b|) == b
  {
    if b != [] {
      FromBigEndianRoundTrip(b[..|b| - 1]);
      assert b == b[..|b| - 1] + [b[|b| - 1]];
      assert FromBigEndian(b) / 256 == FromBigEndian(b[..|b| - 1]);
    }
  }
}
