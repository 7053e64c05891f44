/** The tagged, length-prefixed encoding of a Trash layout: two valid layouts are encoded alike only if they agree. */
module LayoutBinding {
  import opened Base

  datatype Field = Field(name: bytes, value: bytes)

  datatype Device = Device(major: nat, minor: nat)

  datatype Mount = Mount(id: nat, parent: nat, device: Device, root: bytes, point: bytes, filesystem: bytes, source: bytes)

  datatype Expectation = Expectation(
    namespaceDevice: nat,
    namespaceInode: nat,
    device: Device,
    inode: nat,
    uid: nat,
    gid: nat,
    mode: nat,
    mount: Mount)

  datatype Layout = Layout(
    root: bytes,
    placement: bytes,
    owner: nat,
    basis: bytes,
    prefix: seq<bytes>,
    anchorKind: bytes,
    anchor: Expectation,
    trashRoot: Expectation,
    files: Expectation,
    info: Expectation,
    sharedTop: Option<Expectation>)

  // ----- the widths of the machine -----

  const LIMIT32 := 0x1_0000_0000
  const LIMIT64 := 0x1_0000_0000_0000_0000

  predicate Fits32(n: nat) { n < LIMIT32 }

  predicate Fits64(n: nat) { n < LIMIT64 }

  predicate ValidDevice(d: Device) { Fits32(d.major) && Fits32(d.minor) }

  predicate ValidMount(m: Mount) {
    && Fits64(m.id) && Fits64(m.parent) && ValidDevice(m.device)
    && Fits64(|m.root|) && Fits64(|m.point|) && Fits64(|m.filesystem|) && Fits64(|m.source|)
  }

  predicate ValidExpectation(e: Expectation) {
    && Fits64(e.namespaceDevice) && Fits64(e.namespaceInode) && ValidDevice(e.device) && Fits64(e.inode)
    && Fits32(e.uid) && Fits32(e.gid) && Fits32(e.mode) && ValidMount(e.mount)
  }

  predicate ValidLayout(l: Layout) {
    && Fits64(|l.root|) && Fits64(|l.placement|) && Fits32(l.owner) && Fits64(|l.basis|)
    && Fits64(|l.prefix|) && (forall i :: 0 <= i < |l.prefix| ==> Fits64(|l.prefix[i]|))
    && Fits64(|l.anchorKind|) && ValidExpectation(l.anchor) && ValidExpectation(l.trashRoot)
    && ValidExpectation(l.files) && ValidExpectation(l.info)
    && (l.sharedTop.Some? ==> ValidExpectation(l.sharedTop.value))
  }

  lemma Powers()
    ensures Power256(4) == LIMIT32 && Power256(8) == LIMIT64
  {
    assert Power256(2) == 256 * Power256(1);
    assert Power256(3) == 256 * Power256(2);
    assert Power256(4) == 256 * Power256(3);
    assert Power256(5) == 256 * Power256(4);
    assert Power256(6) == 256 * Power256(5);
    assert Power256(7) == 256 * Power256(6);
  }

  lemma NumberInjective(a: nat, b: nat, width: nat)
    requires (width == 4 && Fits32(a) && Fits32(b)) || (width == 8 && Fits64(a) && Fits64(b))
    requires BigEndian(a, width) == BigEndian(b, width)
    ensures a == b
  {
    Powers();
    hide BigEndian;
    BigEndianRoundTrip(a, width);
    BigEndianRoundTrip(b, width);
  }

  // ----- fields -----

  function EncodeField(f: Field): bytes {
    BigEndian(|f.name|, 8) + f.name + BigEndian(|f.value|, 8) + f.value
  }

  function EncodeFields(fs: seq<Field>): bytes {
    if fs == [] then [] else EncodeFields(fs[..|fs| - 1]) + EncodeField(fs[|fs| - 1])
  }

  predicate ShortField(f: Field) { Fits64(|f.name|) && Fits64(|f.value|) }

  lemma SameHalves<T>(a: seq<T>, x: seq<T>, b: seq<T>, y: seq<T>)
    requires a + x == b + y && |a| == |b|
    ensures a == b && x == y
  {
    assert a == (a + x)[..|a|] && b == (b + y)[..|b|];
    assert x == (a + x)[|a|..] && y == (b + y)[|b|..];
  }

  lemma PartUnambiguous(a: bytes, x: bytes, b: bytes, y: bytes)
    requires Fits64(|a|) && Fits64(|b|) && BigEndian(|a|, 8) + a + x == BigEndian(|b|, 8) + b + y
    ensures a == b && x == y
  {
    hide *;
    var p, q := BigEndian(|a|, 8), BigEndian(|b|, 8);
    assert p + a + x == p + (a + x) && q + b + y == q + (b + y);
    SameHalves(p, a + x, q, b + y);
    NumberInjective(|a|, |b|, 8);
    SameHalves(a, x, b, y);
  }

  lemma FieldUnambiguous(f: Field, x: bytes, g: Field, y: bytes)
    requires ShortField(f) && ShortField(g) && EncodeField(f) + x == EncodeField(g) + y
    ensures f == g && x == y
  {
    hide BigEndian;
    var fv, gv := BigEndian(|f.value|, 8) + f.value + x, BigEndian(|g.value|, 8) + g.value + y;
    assert EncodeField(f) + x == BigEndian(|f.name|, 8) + f.name + fv;
    assert EncodeField(g) + y == BigEndian(|g.name|, 8) + g.name + gv;
    PartUnambiguous(f.name, fv, g.name, gv);
    PartUnambiguous(f.value, x, g.value, y);
  }

  lemma {:induction false} EncodeFieldsFirst(f: Field, rest: seq<Field>)
    ensures EncodeFields([f] + rest) == EncodeField(f) + EncodeFields(rest)
  {
    hide EncodeField;
    var whole := [f] + rest;
    if rest == [] {
      assert whole == [f] && whole[..0] == [];
      assert EncodeField(f) + EncodeFields([]) == EncodeField(f) == EncodeFields([]) + EncodeField(f);
    } else {
      var n := |rest| - 1;
      assert whole[..|whole| - 1] == [f] + rest[..n] && whole[|whole| - 1] == rest[n];
      EncodeFieldsFirst(f, rest[..n]);
      assert EncodeField(f) + EncodeFields(rest[..n]) + EncodeField(rest[n]) == EncodeField(f) + (EncodeFields(rest[..n]) + EncodeField(rest[n]));
    }
  }

  lemma NotEmpty(f: Field, rest: seq<Field>)
    ensures EncodeFields([f] + rest) != []
  {
    EncodeFieldsFirst(f, rest);
  }

  /** The bytes determine the fields. */
  lemma {:induction false} FieldsUnambiguous(a: seq<Field>, b: seq<Field>)
    requires (forall f :: f in a || f in b ==> ShortField(f)) && EncodeFields(a) == EncodeFields(b)
    ensures a == b
    decreases |a|
  {
    if a != [] { NotEmpty(a[0], a[1..]); assert a == [a[0]] + a[1..]; }
    if b != [] { NotEmpty(b[0], b[1..]); assert b == [b[0]] + b[1..]; }
    assert EncodeFields([]) == [];
    if a != [] && b != [] {
      hide EncodeFields, EncodeField, ShortField;
      EncodeFieldsFirst(a[0], a[1..]);
      EncodeFieldsFirst(b[0], b[1..]);
      FieldUnambiguous(a[0], EncodeFields(a[1..]), b[0], EncodeFields(b[1..]));
      FieldsUnambiguous(a[1..], b[1..]);
    }
  }

  // ----- what is encoded -----

  /** The bytes of a field name; all names are ASCII. */
  function Name(text: string): (r: bytes)
    ensures |r| == |text|
  {
    seq(|text|, i requires 0 <= i < |text| => text[i] as int % 128)
  }

  function Text(name: string, value: bytes): Field { Field(Name(name), value) }

  function U32(name: string, n: nat): Field { Text(name, BigEndian(n, 4)) }

  function U64(name: string, n: nat): Field { Text(name, BigEndian(n, 8)) }

  function ExpectationFields(name: string, e: Expectation): (fs: seq<Field>)
    ensures |fs| == 16
  {
    [ U64(name + ".namespace.device", e.namespaceDevice),
      U64(name + ".namespace.inode", e.namespaceInode),
      U32(name + ".device.major", e.device.major),
      U32(name + ".device.minor", e.device.minor),
      U64(name + ".inode", e.inode),
      U32(name + ".uid", e.uid),
      U32(name + ".gid", e.gid),
      U32(name + ".mode", e.mode),
      U64(name + ".mount.id", e.mount.id),
      U64(name + ".mount.parent_id", e.mount.parent),
      U32(name + ".mount.device.major", e.mount.device.major),
      U32(name + ".mount.device.minor", e.mount.device.minor),
      Text(name + ".mount.root", e.mount.root),
      Text(name + ".mount.point", e.mount.point),
      Text(name + ".mount.filesystem", e.mount.filesystem),
      Text(name + ".mount.source", e.mount.source) ]
  }

  function ComponentFields(components: seq<bytes>): (fs: seq<Field>)
    ensures |fs| == |components| && forall i :: 0 <= i < |fs| ==> fs[i] == Text("metadata.prefix.component", components[i])
  {
    seq(|components|, i requires 0 <= i < |components| => Text("metadata.prefix.component", components[i]))
  }

  function HeadFields(l: Layout): (fs: seq<Field>)
    ensures |fs| == 6
  {
    [ Text("version", [0x31]), Text("root", l.root), Text("placement", l.placement), U32("owner_uid", l.owner),
      Text("metadata.basis", l.basis), U64("metadata.prefix.component_count", |l.prefix|) ]
  }

  function RoleFields(l: Layout): (fs: seq<Field>)
    ensures |fs| == 65
  {
    [Text("topology.anchor_kind", l.anchorKind)] + ExpectationFields("topology.anchor", l.anchor)
    + ExpectationFields("roles.trash_root", l.trashRoot) + ExpectationFields("roles.files", l.files) + ExpectationFields("roles.info", l.info)
  }

  function SharedFields(l: Layout): (fs: seq<Field>) {
    if l.sharedTop.Some? then [Text("roles.has_shared_top", [1])] + ExpectationFields("roles.shared_top", l.sharedTop.value)
    else [Text("roles.has_shared_top", [0])]
  }

  function LayoutFields(l: Layout): seq<Field> {
    HeadFields(l) + ComponentFields(l.prefix) + RoleFields(l) + SharedFields(l)
  }

  // ----- the table of tags -----

  const EXPECTATION_TAGS := [
    ".namespace.device", ".namespace.inode", ".device.major", ".device.minor", ".inode", ".uid", ".gid", ".mode",
    ".mount.id", ".mount.parent_id", ".mount.device.major", ".mount.device.minor",
    ".mount.root", ".mount.point", ".mount.filesystem", ".mount.source"]

  /** The tags of an expectation and the values under them: numbers of 64 and 32 bits, and texts as they are. */
  lemma ExpectationTable(name: string, e: Expectation)
    ensures forall i :: 0 <= i < 16 ==> ExpectationFields(name, e)[i].name == Name(name + EXPECTATION_TAGS[i])
    ensures var v := ExpectationFields(name, e);
            && [v[0].value, v[1].value, v[4].value, v[8].value, v[9].value] ==
                 [BigEndian(e.namespaceDevice, 8), BigEndian(e.namespaceInode, 8), BigEndian(e.inode, 8), BigEndian(e.mount.id, 8), BigEndian(e.mount.parent, 8)]
            && [v[2].value, v[3].value, v[10].value, v[11].value] ==
                 [BigEndian(e.device.major, 4), BigEndian(e.device.minor, 4), BigEndian(e.mount.device.major, 4), BigEndian(e.mount.device.minor, 4)]
            && [v[5].value, v[6].value, v[7].value] == [BigEndian(e.uid, 4), BigEndian(e.gid, 4), BigEndian(e.mode, 4)]
            && [v[12].value, v[13].value, v[14].value, v[15].value] == [e.mount.root, e.mount.point, e.mount.filesystem, e.mount.source]
  {
    hide BigEndian, Name;
  }

  /** Where each part of a layout stands, and under which tag. */
  lemma LayoutTable(l: Layout)
    ensures var n, fs := |l.prefix|, LayoutFields(l);
            && |fs| == 6 + n + 65 + (if l.sharedTop.Some? then 17 else 1)
            && fs[0] == Field(Name("version"), Name("1"))
            && fs[1] == Field(Name("root"), l.root) && fs[2] == Field(Name("placement"), l.placement)
            && fs[3] == Field(Name("owner_uid"), BigEndian(l.owner, 4)) && fs[4] == Field(Name("metadata.basis"), l.basis)
            && fs[5] == Field(Name("metadata.prefix.component_count"), BigEndian(n, 8))
            && (forall i :: 0 <= i < n ==> fs[6 + i] == Field(Name("metadata.prefix.component"), l.prefix[i]))
            && fs[6 + n] == Field(Name("topology.anchor_kind"), l.anchorKind)
            && fs[7 + n..23 + n] == ExpectationFields("topology.anchor", l.anchor)
            && fs[23 + n..39 + n] == ExpectationFields("roles.trash_root", l.trashRoot)
            && fs[39 + n..55 + n] == ExpectationFields("roles.files", l.files)
            && fs[55 + n..71 + n] == ExpectationFields("roles.info", l.info)
            && fs[71 + n] == Field(Name("roles.has_shared_top"), [if l.sharedTop.Some? then 1 else 0])
            && (l.sharedTop.Some? ==> fs[72 + n..] == ExpectationFields("roles.shared_top", l.sharedTop.value))
  {
    hide BigEndian, ExpectationFields;
    assert Name("1") == [0x31];
    hide Name;
  }

  // ----- the encoder -----

  class Encoder {
    var bytes: seq<byte>

    constructor ()
      ensures bytes == []
    {
      bytes := [];
    }

    method AddField(f: Field)
      modifies this
      ensures bytes == old(bytes) + EncodeField(f)
    {
      bytes := bytes + BigEndian(|f.name|, 8);
      bytes := bytes + f.name;
      bytes := bytes + BigEndian(|f.value|, 8);
      bytes := bytes + f.value;
    }

    /** Fields one after the other. */
    method AddFields(fs: seq<Field>)
      modifies this
      ensures bytes == old(bytes) + EncodeFields(fs)
    {
      var index := 0;
      while index < |fs|
        invariant 0 <= index <= |fs|
        invariant bytes == old(bytes) + EncodeFields(fs[..index])
      {
        assert fs[..index + 1][..index] == fs[..index];
        AddField(fs[index]);
        index := index + 1;
      }
      assert fs[..index] == fs;
    }
  }

  lemma {:induction false} EncodeJoin(a: seq<Field>, b: seq<Field>)
    ensures EncodeFields(a + b) == EncodeFields(a) + EncodeFields(b)
    decreases |b|
  {
    hide EncodeField;
    if b == [] {
      assert a + b == a;
    } else {
      var n := |b| - 1;
      assert (a + b)[..|a + b| - 1] == a + b[..n];
      EncodeJoin(a, b[..n]);
    }
  }

  /** The encoding that is hashed. */
  method EncodeTrashLayoutBinding(l: Layout) returns (encoded: bytes)
    ensures encoded == EncodeFields(LayoutFields(l))
  {
    var encoder := new Encoder();
    hide EncodeFields, HeadFields, ComponentFields, RoleFields, SharedFields;
    EncodeJoin(HeadFields(l), ComponentFields(l.prefix));
    EncodeJoin(HeadFields(l) + ComponentFields(l.prefix), RoleFields(l));
    EncodeJoin(HeadFields(l) + ComponentFields(l.prefix) + RoleFields(l), SharedFields(l));
    encoder.AddFields(HeadFields(l));
    encoder.AddFields(ComponentFields(l.prefix));
    encoder.AddFields(RoleFields(l));
    encoder.AddFields(SharedFields(l));
    encoded := encoder.bytes;
  }

  // ----- injectivity -----

  lemma ExpectationInjective(name: string, e: Expectation, f: Expectation)
    requires ValidExpectation(e) && ValidExpectation(f) && ExpectationFields(name, e) == ExpectationFields(name, f)
    ensures e == f
  {
    hide BigEndian;
    ExpectationNumbers(name, e, f);
    var a, b := ExpectationFields(name, e), ExpectationFields(name, f);
    assert a[12].value == b[12].value && a[13].value == b[13].value && a[14].value == b[14].value && a[15].value == b[15].value;
  }

  lemma ExpectationNumbers(name: string, e: Expectation, f: Expectation)
    requires ValidExpectation(e) && ValidExpectation(f) && ExpectationFields(name, e) == ExpectationFields(name, f)
    ensures e.namespaceDevice == f.namespaceDevice && e.namespaceInode == f.namespaceInode && e.device == f.device && e.inode == f.inode
    ensures e.uid == f.uid && e.gid == f.gid && e.mode == f.mode
    ensures e.mount.id == f.mount.id && e.mount.parent == f.mount.parent && e.mount.device == f.mount.device
  {
    hide BigEndian;
    var a, b := ExpectationFields(name, e), ExpectationFields(name, f);
    assert forall i :: 0 <= i < 16 ==> a[i].value == b[i].value;
    assert a[0].value == BigEndian(e.namespaceDevice, 8) && b[0].value == BigEndian(f.namespaceDevice, 8);
    NumberInjective(e.namespaceDevice, f.namespaceDevice, 8);
    NumberInjective(e.namespaceInode, f.namespaceInode, 8);
    NumberInjective(e.device.major, f.device.major, 4);
    NumberInjective(e.device.minor, f.device.minor, 4);
    NumberInjective(e.inode, f.inode, 8);
    NumberInjective(e.uid, f.uid, 4);
    NumberInjective(e.gid, f.gid, 4);
    NumberInjective(e.mode, f.mode, 4);
    NumberInjective(e.mount.id, f.mount.id, 8);
    NumberInjective(e.mount.parent, f.mount.parent, 8);
    NumberInjective(e.mount.device.major, f.mount.device.major, 4);
    NumberInjective(e.mount.device.minor, f.mount.device.minor, 4);
  }

  /** All fields of a list have lengths that fit their prefixes. */
  predicate Short(fs: seq<Field>) {
    forall i :: 0 <= i < |fs| ==> ShortField(fs[i])
  }

  lemma ShortJoin(a: seq<Field>, b: seq<Field>)
    requires Short(a) && Short(b)
    ensures Short(a + b)
  {
    hide ShortField;
  }

  lemma ExpectationShort(name: string, e: Expectation)
    requires |name| < 100 && ValidExpectation(e)
    ensures Short(ExpectationFields(name, e))
  {
    hide BigEndian;
  }

  lemma LayoutShort(l: Layout)
    requires ValidLayout(l)
    ensures Short(HeadFields(l)) && Short(ComponentFields(l.prefix)) && Short(RoleFields(l)) && Short(SharedFields(l))
  {
    hide BigEndian, ValidExpectation, ExpectationFields;
    ExpectationShort("topology.anchor", l.anchor);
    ExpectationShort("roles.trash_root", l.trashRoot);
    ExpectationShort("roles.files", l.files);
    ExpectationShort("roles.info", l.info);
    if l.sharedTop.Some? { ExpectationShort("roles.shared_top", l.sharedTop.value); }
  }

  lemma LayoutFieldsShort(l: Layout)
    requires ValidLayout(l)
    ensures forall f :: f in LayoutFields(l) ==> ShortField(f)
  {
    LayoutShort(l);
    hide ValidLayout, HeadFields, ComponentFields, RoleFields, SharedFields, ShortField;
    ShortJoin(HeadFields(l), ComponentFields(l.prefix));
    ShortJoin(HeadFields(l) + ComponentFields(l.prefix), RoleFields(l));
    ShortJoin(HeadFields(l) + ComponentFields(l.prefix) + RoleFields(l), SharedFields(l));
  }

  lemma SameHead(a: Layout, b: Layout)
    requires ValidLayout(a) && ValidLayout(b) && HeadFields(a) == HeadFields(b)
    ensures a.root == b.root && a.placement == b.placement && a.owner == b.owner && a.basis == b.basis && |a.prefix| == |b.prefix|
  {
    hide BigEndian, ValidExpectation;
    var f, g := HeadFields(a), HeadFields(b);
    assert f[1] == g[1] && f[2] == g[2] && f[3] == g[3] && f[4] == g[4] && f[5] == g[5];
    NumberInjective(a.owner, b.owner, 4);
    NumberInjective(|a.prefix|, |b.prefix|, 8);
  }

  lemma SameComponents(a: seq<bytes>, b: seq<bytes>)
    requires ComponentFields(a) == ComponentFields(b)
    ensures a == b
  {
    assert |a| == |ComponentFields(a)| == |ComponentFields(b)| == |b|;
    forall i | 0 <= i < |a| ensures a[i] == b[i] {
      assert ComponentFields(a)[i].value == a[i] && ComponentFields(b)[i].value == b[i];
    }
  }

  lemma SameRoles(a: Layout, b: Layout)
    requires ValidLayout(a) && ValidLayout(b) && RoleFields(a) == RoleFields(b)
    ensures a.anchorKind == b.anchorKind && a.anchor == b.anchor && a.trashRoot == b.trashRoot && a.files == b.files && a.info == b.info
  {
    hide BigEndian, ValidExpectation, ExpectationFields;
    var f, g := RoleFields(a), RoleFields(b);
    assert f[0] == g[0];
    assert ExpectationFields("topology.anchor", a.anchor) == f[1..17] && ExpectationFields("topology.anchor", b.anchor) == g[1..17];
    assert ExpectationFields("roles.trash_root", a.trashRoot) == f[17..33] && ExpectationFields("roles.trash_root", b.trashRoot) == g[17..33];
    assert ExpectationFields("roles.files", a.files) == f[33..49] && ExpectationFields("roles.files", b.files) == g[33..49];
    assert ExpectationFields("roles.info", a.info) == f[49..65] && ExpectationFields("roles.info", b.info) == g[49..65];
    ExpectationInjective("topology.anchor", a.anchor, b.anchor);
    ExpectationInjective("roles.trash_root", a.trashRoot, b.trashRoot);
    ExpectationInjective("roles.files", a.files, b.files);
    ExpectationInjective("roles.info", a.info, b.info);
  }

  lemma SameShared(a: Layout, b: Layout)
    requires ValidLayout(a) && ValidLayout(b) && SharedFields(a) == SharedFields(b)
    ensures a.sharedTop == b.sharedTop
  {
    hide BigEndian, ValidExpectation, ExpectationFields;
    assert SharedFields(a)[0].value == SharedFields(b)[0].value;
    if a.sharedTop.Some? {
      assert ExpectationFields("roles.shared_top", a.sharedTop.value) == SharedFields(a)[1..];
      assert ExpectationFields("roles.shared_top", b.sharedTop.value) == SharedFields(b)[1..];
      ExpectationInjective("roles.shared_top", a.sharedTop.value, b.sharedTop.value);
    }
  }

  /** The first six fields fix how long the path is, so that the parts line up. */
  lemma PartsLineUp(a: Layout, b: Layout)
    requires ValidLayout(a) && ValidLayout(b) && LayoutFields(a) == LayoutFields(b)
    ensures HeadFields(a) == HeadFields(b) && ComponentFields(a.prefix) == ComponentFields(b.prefix)
    ensures RoleFields(a) == RoleFields(b) && SharedFields(a) == SharedFields(b)
  {
    hide HeadFields, RoleFields, SharedFields, ValidLayout;
    var ra, rb := RoleFields(a) + SharedFields(a), RoleFields(b) + SharedFields(b);
    assert LayoutFields(a) == HeadFields(a) + (ComponentFields(a.prefix) + ra);
    assert LayoutFields(b) == HeadFields(b) + (ComponentFields(b.prefix) + rb);
    SameHalves(HeadFields(a), ComponentFields(a.prefix) + ra, HeadFields(b), ComponentFields(b.prefix) + rb);
    SameHead(a, b);
    SameHalves(ComponentFields(a.prefix), ra, ComponentFields(b.prefix), rb);
    SameHalves(RoleFields(a), SharedFields(a), RoleFields(b), SharedFields(b));
  }

  /** The encoding determines the layout. */
  lemma EncodingInjective(a: Layout, b: Layout)
    requires ValidLayout(a) && ValidLayout(b) && EncodeFields(LayoutFields(a)) == EncodeFields(LayoutFields(b))
    ensures a == b
  {
    hide *;
    LayoutFieldsShort(a);
    LayoutFieldsShort(b);
    FieldsUnambiguous(LayoutFields(a), LayoutFields(b));
    PartsLineUp(a, b);
    SameHead(a, b);
    SameComponents(a.prefix, b.prefix);
    SameRoles(a, b);
    SameShared(a, b);
  }
}
