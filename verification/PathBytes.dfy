/** Relative filesystem paths as validated raw-byte components, and stable text identifiers. */
module PathBytes {
  import opened Base

  const SLASH: byte := 0x2F
  const DOT: byte := 0x2E

  /** One file name: not empty, not "." or "..", no NUL and no slash. */
  predicate ValidComponent(component: bytes) {
    && component != []
    && component != [DOT] && component != [DOT, DOT]
    && 0 !in component && SLASH !in component
  }

  predicate ValidPath(components: seq<bytes>) {
    && components != []
    && forall i :: 0 <= i < |components| ==> ValidComponent(components[i])
  }

  /** The raw bytes of all components together. */
  function RawLength(components: seq<bytes>): nat {
    if components == [] then 0 else |components[0]| + RawLength(components[1..])
  }

  lemma {:induction false} ComponentWithinRaw(components: seq<bytes>, i: nat)
    requires i < |components|
    ensures |components[i]| <= RawLength(components)
  {
    if i > 0 { ComponentWithinRaw(components[1..], i - 1); }
  }

  /** Trusted root identities and the other stable IDs: 1 to 96 bytes of a-z, 0-9, and inside also - _ . */
  predicate ValidStableId(id: bytes) {
    && 1 <= |id| <= 96
    && forall i :: 0 <= i < |id| ==>
         || 'a' as int <= id[i] <= 'z' as int
         || '0' as int <= id[i] <= '9' as int
         || (i > 0 && (id[i] == '-' as int || id[i] == '_' as int || id[i] == '.' as int))
  }

  /** A stable identifier begins with a small letter or a digit; after that also - _ and . may come. */
  lemma StableIdExactly(id: bytes)
    ensures ValidStableId(id) <==>
              && 0 < |id| < 97 && id[0] in SMALL_LETTERS + DIGITS
              && forall i :: 0 <= i < |id| ==> id[i] in SMALL_LETTERS + DIGITS + Ascii("-_.")
  {
    forall i | 0 <= i < |id|
      ensures id[i] in SMALL_LETTERS + DIGITS <==> 'a' as int <= id[i] <= 'z' as int || '0' as int <= id[i] <= '9' as int
      ensures id[i] in SMALL_LETTERS + DIGITS + Ascii("-_.") <==>
                id[i] in SMALL_LETTERS + DIGITS || id[i] == '-' as int || id[i] == '_' as int || id[i] == '.' as int
    {
      Alphabets(id[i]);
      assert Ascii("-_.") == ['-' as int, '_' as int, '.' as int];
      hide SMALL_LETTERS, DIGITS;
    }
    hide SMALL_LETTERS, DIGITS;
  }

  /** A path is a list of file names: no empty one, none that means a directory itself or its parent, none with a
      separator or the end of a text inside. */
  lemma PathExactly(components: seq<bytes>)
    ensures ValidPath(components) <==>
              && |components| > 0
              && (forall i :: 0 <= i < |components| ==> components[i] !in [[], Ascii("."), Ascii("..")])
              && (forall i, j :: 0 <= i < |components| && 0 <= j < |components[i]| ==> components[i][j] != 0 && components[i][j] != 47)
  {
    assert Ascii(".") == [DOT] && Ascii("..") == [DOT, DOT];
    if |components| > 0 && forall i, j :: 0 <= i < |components| && 0 <= j < |components[i]| ==> components[i][j] != 0 && components[i][j] != 47 {
      forall i | 0 <= i < |components| ensures 0 !in components[i] && SLASH !in components[i] {}
    }
    if ValidPath(components) {
      forall i, j | 0 <= i < |components| && 0 <= j < |components[i]| ensures components[i][j] != 0 && components[i][j] != 47 {
        assert ValidComponent(components[i]) && components[i][j] in components[i];
      }
    }
  }
}
