/** Which byte texts are UTF-8 (RFC 3629): the scan that decides it, and the scalar values it stands for. */
module Utf8 {
  import opened Base

  predicate Continuation(b: byte) { 0x80 <= b < 0xC0 }

  predicate ValidUtf8(s: bytes) {
    if s == [] then true
    else if s[0] < 0x80 then ValidUtf8(s[1..])
    else if 0xC2 <= s[0] < 0xE0 then
      |s| >= 2 && Continuation(s[1]) && ValidUtf8(s[2..])
    else if 0xE0 <= s[0] < 0xF0 then
      && |s| >= 3 && Continuation(s[1]) && Continuation(s[2])
      && (s[0] == 0xE0 ==> s[1] >= 0xA0) && (s[0] == 0xED ==> s[1] < 0xA0)
      && ValidUtf8(s[3..])
    else if 0xF0 <= s[0] < 0xF5 then
      && |s| >= 4 && Continuation(s[1]) && Continuation(s[2]) && Continuation(s[3])
      && (s[0] == 0xF0 ==> s[1] >= 0x90) && (s[0] == 0xF4 ==> s[1] < 0x90)
      && ValidUtf8(s[4..])
    else false
  }

  /** A Unicode scalar value: no surrogate. */
  type Scalar = u: nat | u < 0xD800 || 0xE000 <= u < 0x11_0000

  /** The one form of a scalar value (section 3 of RFC 3629). */
  function Form(u: Scalar): (r: bytes)
    ensures 1 <= |r| <= 4
  {
    if u < 0x80 then [u]
    else if u < 0x800 then [0xC0 + u / 64, 0x80 + u % 64]
    else if u < 0x1_0000 then [0xE0 + u / 4096, 0x80 + u / 64 % 64, 0x80 + u % 64]
    else [0xF0 + u / 262144, 0x80 + u / 4096 % 64, 0x80 + u / 64 % 64, 0x80 + u % 64]
  }

  function Forms(us: seq<Scalar>): bytes {
    if us == [] then [] else Form(us[0]) + Forms(us[1..])
  }

  /** The scan takes one form at a time. */
  lemma FormIsTaken(u: Scalar, rest: bytes)
    ensures ValidUtf8(Form(u) + rest) <==> ValidUtf8(rest)
  {
    var s := Form(u) + rest;
    assert s[|Form(u)|..] == rest;
    if u < 0x800 {
      assert u >= 0x80 ==> 2 <= u / 64 < 32;
    } else if u < 0x1_0000 {
      ThreeBytes(u);
    } else {
      FourBytes(u);
    }
  }

  lemma ThreeBytes(u: Scalar)
    requires 0x800 <= u < 0x1_0000
    ensures u / 4096 < 16 && (u / 4096 == 0 ==> u / 64 % 64 >= 0x20) && (u / 4096 == 0xD ==> u / 64 % 64 < 0x20)
  {
    assert u / 64 == u / 4096 * 64 + u / 64 % 64;
  }

  lemma FourBytes(u: Scalar)
    requires 0x1_0000 <= u
    ensures u / 262144 < 5 && (u / 262144 == 0 ==> u / 4096 % 64 >= 0x10) && (u / 262144 == 4 ==> u / 4096 % 64 < 0x10)
  {
    assert u / 4096 == u / 262144 * 64 + u / 4096 % 64;
  }

  /** What the scan takes first is the form of a scalar value. */
  lemma HeadIsForm(s: bytes) returns (u: Scalar)
    requires s != [] && ValidUtf8(s)
    ensures Form(u) <= s && ValidUtf8(s[|Form(u)|..])
  {
    if s[0] < 0x80 {
      u := s[0];
    } else if s[0] < 0xE0 {
      u := (s[0] as int - 0xC0) * 64 + (s[1] as int - 0x80);
    } else if s[0] < 0xF0 {
      u := TripleForm(s[0], s[1], s[2]);
    } else {
      u := QuadForm(s[0], s[1], s[2], s[3]);
    }
  }

  lemma TripleForm(a: byte, b: byte, d: byte) returns (u: Scalar)
    requires 0xE0 <= a < 0xF0 && Continuation(b) && Continuation(d) && (a == 0xE0 ==> b >= 0xA0) && (a == 0xED ==> b < 0xA0)
    ensures Form(u) == [a, b, d]
  {
    var high, middle, low := a - 0xE0, b - 0x80, d - 0x80;
    u := high * 4096 + middle * 64 + low;
    assert u / 64 == high * 64 + middle;
    assert u / 4096 == high;
  }

  lemma QuadForm(a: byte, b: byte, d: byte, e: byte) returns (u: Scalar)
    requires 0xF0 <= a < 0xF5 && Continuation(b) && Continuation(d) && Continuation(e) && (a == 0xF0 ==> b >= 0x90) && (a == 0xF4 ==> b < 0x90)
    ensures Form(u) == [a, b, d, e]
  {
    var top, high, middle, low := a - 0xF0, b - 0x80, d - 0x80, e - 0x80;
    u := top * 262144 + high * 4096 + middle * 64 + low;
    assert u / 64 == top * 4096 + high * 64 + middle;
    assert u / 4096 == top * 64 + high;
    assert u / 262144 == top;
  }

  lemma {:induction false} Scalars(s: bytes) returns (us: seq<Scalar>)
    requires ValidUtf8(s)
    ensures Forms(us) == s
    decreases |s|
  {
    if s == [] {
      us := [];
    } else {
      var u := HeadIsForm(s);
      var rest := Scalars(s[|Form(u)|..]);
      us := [u] + rest;
      assert s == Form(u) + s[|Form(u)|..];
    }
  }

  lemma {:induction false} FormsAreValid(us: seq<Scalar>)
    ensures ValidUtf8(Forms(us))
  {
    if us != [] {
      FormsAreValid(us[1..]);
      FormIsTaken(us[0], Forms(us[1..]));
    }
  }

  /** A text is valid exactly if it is a run of forms of scalar values. */
  lemma ValidExactly(s: bytes)
    ensures ValidUtf8(s) <==> exists us :: Forms(us) == s
  {
    if ValidUtf8(s) { var us := Scalars(s); }
    if us :| Forms(us) == s { FormsAreValid(us); }
  }

  /** And of only one run. */
  lemma {:induction false} FormsInjective(us: seq<Scalar>, vs: seq<Scalar>)
    requires Forms(us) == Forms(vs)
    ensures us == vs
  {
    if us != [] && vs != [] {
      SameForm(us[0], vs[0], Forms(us[1..]), Forms(vs[1..]));
      FormsInjective(us[1..], vs[1..]);
    }
  }

  lemma SameForm(u: Scalar, v: Scalar, s: bytes, t: bytes)
    requires Form(u) + s == Form(v) + t
    ensures u == v && s == t
  {
    var a, b := Form(u) + s, Form(v) + t;
    assert a[0] == Form(u)[0] && b[0] == Form(v)[0];
    FirstByte(u);
    FirstByte(v);
    assert |Form(u)| == |Form(v)|;
    assert Form(u) == a[..|Form(u)|] && s == a[|Form(u)|..] && t == b[|Form(v)|..] && Form(v) == b[..|Form(v)|];
    FormDetermines(u, v);
  }

  lemma FirstByte(u: Scalar)
    ensures var b := Form(u)[0];
            |Form(u)| == if b < 0x80 then 1 else if b < 0xE0 then 2 else if b < 0xF0 then 3 else 4
  {
  }

  /** The bits of a form, put together. */
  function Value(r: bytes): int {
    if |r| == 1 then r[0]
    else if |r| == 2 then (r[0] as int - 0xC0) * 64 + r[1] as int - 0x80
    else if |r| == 3 then (r[0] as int - 0xE0) * 4096 + (r[1] as int - 0x80) * 64 + r[2] as int - 0x80
    else if |r| == 4 then (r[0] as int - 0xF0) * 262144 + (r[1] as int - 0x80) * 4096 + (r[2] as int - 0x80) * 64 + r[3] as int - 0x80
    else 0
  }

  lemma FormValue(u: Scalar)
    ensures Value(Form(u)) == u
  {
    assert u / 64 == u / 4096 * 64 + u / 64 % 64;
    assert u / 4096 == u / 262144 * 64 + u / 4096 % 64;
  }

  lemma FormDetermines(u: Scalar, v: Scalar)
    requires Form(u) == Form(v)
    ensures u == v
  {
    FormValue(u);
    FormValue(v);
  }
}
