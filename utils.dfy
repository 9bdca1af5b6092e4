/** The replay format version, which decides which optional fields every record carries. */
module Utils {
  import opened Common
  import opened Bytes

  /** `(major, minor, build)`, ordered field by field as Rust's derived `Ord` orders a struct. */
  datatype Version = Version(major: byte, minor: byte, build: byte) {

    /** `at_least`: this version is not below `major.minor.build`. */
    predicate AtLeast(major': byte, minor': byte, build': byte) {
      !Below(this, Version(major', minor', build'))
    }

    /** `as_u32`: the big-endian word `[major, minor, build, 0]`. */
    function AsU32(): nat {
      BE([major, minor, build, 0])
    }
  }

  /** Derived `Ord` on the struct: the first field that differs decides. */
  predicate Below(a: Version, b: Version) {
    if a.major != b.major then a.major < b.major
    else if a.minor != b.minor then a.minor < b.minor
    else a.build < b.build
  }

  /** `Version::default()`: 0.1.0, the first release. It predates every optional field of every
      record, the earliest of which arrives in 0.2.0. */
  function DefaultVersion(): (v: Version)
    ensures !v.AtLeast(0, 2, 0)
    ensures v.AtLeast(0, 1, 0)
  {
    Version(0, 1, 0)
  }

  lemma BEFour(a: byte, b: byte, c: byte, d: byte)
    ensures BE([a, b, c, d]) == a * 0x100_0000 + b * 0x1_0000 + c * 0x100 + d
  {
    assert [a][..0] == [];
    assert BE([a]) == a;
    assert [a, b][..1] == [a];
    assert BE([a, b]) == a * 0x100 + b;
    assert [a, b, c][..2] == [a, b];
    assert BE([a, b, c]) == a * 0x1_0000 + b * 0x100 + c;
    assert [a, b, c, d][..3] == [a, b, c];
  }

  /** `as_u32` places major, minor and build in the three high bytes; the low byte is always 0. */
  lemma {:induction false} AsU32Value(v: Version)
    ensures v.AsU32() == v.major * 0x100_0000 + v.minor * 0x1_0000 + v.build * 0x100
    ensures v.AsU32() % 256 == 0
    ensures v.AsU32() < 0x1_0000_0000
  {
    BEFour(v.major, v.minor, v.build, 0);
  }

  /** `at_least` agrees with comparing the `as_u32` words: the word encoding preserves the order. */
  lemma {:induction false} AtLeastIffAsU32(v: Version, w: Version)
    ensures v.AtLeast(w.major, w.minor, w.build) <==> v.AsU32() >= w.AsU32()
  {
    AsU32Value(v);
    AsU32Value(w);
  }

  /** `as_u32` is injective: distinct versions have distinct words. */
  lemma {:induction false} AsU32Injective(v: Version, w: Version)
    requires v.AsU32() == w.AsU32()
    ensures v == w
  {
    AsU32Value(v);
    AsU32Value(w);
  }

  /** `at_least` is a total preorder on versions (reflexive, transitive, total) and antisymmetric. */
  lemma AtLeastTotalOrder(u: Version, v: Version, w: Version)
    ensures u.AtLeast(u.major, u.minor, u.build)
    ensures u.AtLeast(v.major, v.minor, v.build) && v.AtLeast(w.major, w.minor, w.build) ==>
      u.AtLeast(w.major, w.minor, w.build)
    ensures u.AtLeast(v.major, v.minor, v.build) || v.AtLeast(u.major, u.minor, u.build)
    ensures u.AtLeast(v.major, v.minor, v.build) && v.AtLeast(u.major, u.minor, u.build) ==> u == v
  {
  }

  /** `at_least(a, b, c)` holds exactly when `(major, minor, build)` is lexicographically at least `(a, b, c)`,
      written here as comparison of the base-256 numbers the triples spell. */
  lemma {:induction false} AtLeastLexicographic(v: Version, a: byte, b: byte, c: byte)
    ensures v.AtLeast(a, b, c) <==> v.major * 0x1_0000 + v.minor * 0x100 + v.build >= a * 0x1_0000 + b * 0x100 + c
  {
  }
}
