/** The 64-bit FNV-1a hash of a name. */
module Fnv {
  import opened Words
  import opened LittleEndian

  const OFFSET: nat := 0xcbf2_9ce4_8422_2325
  const PRIME: nat := 0x100_0000_01b3

  /** Bitwise exclusive or of the lowest `width` bits. */
  function Xor(a: nat, b: nat, width: nat): nat {
    if width == 0 then 0 else (a + b) % 2 + 2 * Xor(a / 2, b / 2, width - 1)
  }

  /** A byte only meets the low byte of the hash. */
  function Mixed(h: nat, b: Byte): nat {
    h / 256 * 256 + Xor(h % 256, b, 8)
  }

  function Fnv1a(name: seq<Byte>): (h: nat)
    ensures h < TWO_64
  {
    if name == [] then OFFSET else Mixed(Fnv1a(name[..|name| - 1]), name[|name| - 1]) * PRIME % TWO_64
  }

  function Pow2(n: nat): nat {
    if n == 0 then 1 else 2 * Pow2(n - 1)
  }

  lemma {:induction false} XorBound(a: nat, b: nat, width: nat)
    ensures Xor(a, b, width) < Pow2(width)
  {
    if width > 0 {
      XorBound(a / 2, b / 2, width - 1);
    }
  }

  lemma XorStep(a: nat, b: nat, width: nat)
    requires width > 0
    ensures Xor(a, b, width) % 2 == (a + b) % 2 && Xor(a, b, width) / 2 == Xor(a / 2, b / 2, width - 1)
  {
  }

  lemma {:induction false} XorInjective(a: nat, b: nat, c: nat, width: nat)
    requires b < Pow2(width) && c < Pow2(width) && Xor(a, b, width) == Xor(a, c, width)
    ensures b == c
  {
    if width > 0 {
      hide Xor;
      XorStep(a, b, width);
      XorStep(a, c, width);
      HalvesFit(b, width);
      HalvesFit(c, width);
      hide Pow2;
      XorInjective(a / 2, b / 2, c / 2, width - 1);
      SameParity(a, b, c);
    }
  }

  lemma HalvesFit(b: nat, width: nat)
    requires width > 0 && b < Pow2(width)
    ensures b / 2 < Pow2(width - 1)
  {
  }

  lemma SameParity(a: nat, b: nat, c: nat)
    requires (a + b) % 2 == (a + c) % 2 && b / 2 == c / 2
    ensures b == c
  {
  }

  /** The prime is odd, so multiplying by it loses nothing. */
  lemma TimesPrimeInjective(x: nat, y: nat)
    requires x < TWO_64 && y < TWO_64 && x * PRIME % TWO_64 == y * PRIME % TWO_64
    ensures x == y
  {
    var inverse: nat := 0xce96_5057_aff6_957b;
    var k := x * PRIME / TWO_64 - y * PRIME / TWO_64;
    assert (x - y) * PRIME == k * TWO_64;
    assert PRIME * inverse == 1 + PRIME * inverse / TWO_64 * TWO_64;
    assert x - y == (k * inverse - (x - y) * (PRIME * inverse / TWO_64)) * TWO_64;
  }

  lemma LowByte(h: nat, b: Byte)
    ensures Mixed(h, b) / 256 == h / 256 && Mixed(h, b) % 256 == Xor(h % 256, b, 8) < 256
  {
    XorBound(h % 256, b, 8);
    assert Pow2(8) == 256;
  }

  /** Multiplying by the prime spreads a difference in the low byte beyond it. */
  lemma NearProducts(u: nat, v: nat)
    requires -256 < u - v < 256 && -256 < u * PRIME % TWO_64 - v * PRIME % TWO_64 < 256
    ensures u == v
  {
    var k := u * PRIME / TWO_64 - v * PRIME / TWO_64;
    assert (u - v) * PRIME == u * PRIME % TWO_64 - v * PRIME % TWO_64 + k * TWO_64;
  }

  /** Two different first bytes leave hashes that differ above the low byte. */
  lemma FirstRound(a: Byte, c: Byte)
    requires Mixed(OFFSET, a) * PRIME % TWO_64 / 256 == Mixed(OFFSET, c) * PRIME % TWO_64 / 256
    ensures a == c
  {
    hide Mixed, Xor;
    LowByte(OFFSET, a);
    LowByte(OFFSET, c);
    NearProducts(Mixed(OFFSET, a), Mixed(OFFSET, c));
    assert Pow2(8) == 256;
    XorInjective(OFFSET % 256, a, c, 8);
  }

  lemma HashOfTwo(a: Byte, b: Byte)
    ensures Fnv1a([a, b]) == Mixed(Mixed(OFFSET, a) * PRIME % TWO_64, b) * PRIME % TWO_64
  {
    hide Mixed;
    assert [a, b][..1] == [a] && [a][..0] == [];
    assert Fnv1a([a]) == Mixed(Fnv1a([]), a) * PRIME % TWO_64;
  }

  /** Names of two bytes never collide. */
  lemma TwoByteNamesDiffer(a: Byte, b: Byte, c: Byte, d: Byte)
    requires Fnv1a([a, b]) == Fnv1a([c, d])
    ensures a == c && b == d
  {
    hide Fnv1a, Xor;
    HashOfTwo(a, b);
    HashOfTwo(c, d);
    var g, h := Mixed(OFFSET, a) * PRIME % TWO_64, Mixed(OFFSET, c) * PRIME % TWO_64;
    LowByte(g, b);
    LowByte(h, d);
    TimesPrimeInjective(Mixed(g, b), Mixed(h, d));
    FirstRound(a, c);
    assert Pow2(8) == 256;
    XorInjective(g % 256, b, d, 8);
  }

  lemma KnownXors()
    ensures Xor(0x25, 0x61, 8) == 0x44 && Xor(0x25, 0x62, 8) == 0x47
  {
    assert Xor(0x0, 0x1, 2) == 0x1;
    assert Xor(0x2, 0x6, 4) == 0x4;
    assert Xor(0x9, 0x18, 6) == 0x11;
    assert Xor(0x25, 0x61, 8) == 0x44;
    assert Xor(0x0, 0x1, 2) == 0x1;
    assert Xor(0x2, 0x6, 4) == 0x4;
    assert Xor(0x9, 0x18, 6) == 0x11;
    assert Xor(0x25, 0x62, 8) == 0x47;
  }

  /** The published values for no byte, for "a" and for "b". */
  lemma KnownHashes()
    ensures Fnv1a([]) == 0xcbf2_9ce4_8422_2325 && Fnv1a([0x61]) == 0xaf63_dc4c_8601_ec8c && Fnv1a([0x62]) == 0xaf63_df4c_8601_f1a5
  {
    hide Xor;
    KnownXors();
    assert [0x61][..0] == [] && [0x62][..0] == [];
  }
}
