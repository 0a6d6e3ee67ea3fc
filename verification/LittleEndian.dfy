/** Unsigned integers as little-endian bytes. */
module LittleEndian {
  import opened Words
  import opened Arithmetic

  type Byte = b: int | 0 <= b < 256

  function Pow256(width: nat): (p: nat)
    ensures p > 0
  {
    if width == 0 then 1 else 256 * Pow256(width - 1)
  }

  function ToBytes(n: nat, width: nat): (bytes: seq<Byte>)
    ensures |bytes| == width
  {
    if width == 0 then [] else [n % 256] + ToBytes(n / 256, width - 1)
  }

  function FromBytes(bytes: seq<Byte>): nat {
    if bytes == [] then 0 else bytes[0] + 256 * FromBytes(bytes[1..])
  }

  lemma {:induction false} FromTo(n: nat, width: nat)
    requires n < Pow256(width)
    ensures FromBytes(ToBytes(n, width)) == n
  {
    if width > 0 {
      FromTo(n / 256, width - 1);
      assert ToBytes(n, width)[1..] == ToBytes(n / 256, width - 1);
    }
  }

  lemma {:induction false} FromBytesBound(bytes: seq<Byte>)
    ensures FromBytes(bytes) < Pow256(|bytes|)
  {
    if bytes != [] {
      FromBytesBound(bytes[1..]);
    }
  }

  lemma FirstByte(b: Byte, n: nat)
    ensures (b + 256 * n) % 256 == b && (b + 256 * n) / 256 == n
  {
  }

  lemma {:induction false} ToFrom(bytes: seq<Byte>)
    ensures ToBytes(FromBytes(bytes), |bytes|) == bytes
  {
    if bytes != [] {
      var n := FromBytes(bytes[1..]);
      ToFrom(bytes[1..]);
      FirstByte(bytes[0], n);
      assert bytes == [bytes[0]] + bytes[1..];
    }
  }

  // ---------------------------------------------------------------- byte by byte

  /** `value` lies at `at`, `width` bytes wide: byte k holds its k-th digit to the base 256. */
  predicate FieldAt(bytes: seq<Byte>, at: nat, width: nat, value: nat) {
    at + width <= |bytes| && forall k :: 0 <= k < width ==> bytes[at + k] as int == value / Pow256(k) % 256
  }

  lemma NextDigit(n: nat, p: nat)
    requires p > 0
    ensures n / 256 / p == n / (256 * p)
  {
    var q, r := n / 256 / p, n / 256 % p;
    assert n / 256 == q * p + r;
    Digits(n, q, p, r);
    Euclid(n, q, 256 * r + n % 256, 256 * p);
  }

  lemma Digits(n: nat, q: nat, p: nat, r: nat)
    requires n / 256 == q * p + r && r < p
    ensures n == q * (256 * p) + (256 * r + n % 256) && 256 * r + n % 256 < 256 * p
  {
  }

  lemma {:induction false} ToBytesDigits(n: nat, width: nat)
    ensures FieldAt(ToBytes(n, width), 0, width, n)
  {
    if width > 0 {
      ToBytesDigits(n / 256, width - 1);
      forall k | 0 <= k < width ensures ToBytes(n, width)[0 + k] as int == n / Pow256(k) % 256 {
        if k > 0 {
          assert ToBytes(n, width)[k] == ToBytes(n / 256, width - 1)[0 + (k - 1)];
          NextDigit(n, Pow256(k - 1));
        }
      }
    }
  }

  lemma FieldInside(front: seq<Byte>, field: seq<Byte>, back: seq<Byte>, value: nat)
    requires FieldAt(field, 0, |field|, value)
    ensures FieldAt(front + field + back, |front|, |field|, value)
  {
    forall k | 0 <= k < |field| ensures (front + field + back)[|front| + k] as int == value / Pow256(k) % 256 {
      assert (front + field + back)[|front| + k] == field[0 + k];
    }
  }

  /** The 32-bit number at `at`. */
  function Word32At(bytes: seq<Byte>, at: nat): nat
    requires at + 4 <= |bytes|
  {
    bytes[at] as int + 0x100 * (bytes[at + 1] as int) + 0x1_0000 * (bytes[at + 2] as int) + 0x100_0000 * (bytes[at + 3] as int)
  }

  /** The 64-bit number at `at`. */
  function Word64At(bytes: seq<Byte>, at: nat): nat
    requires at + 8 <= |bytes|
  {
    Word32At(bytes, at) + 0x1_0000_0000 * Word32At(bytes, at + 4)
  }

  lemma FourBytes(b: seq<Byte>)
    requires |b| == 4
    ensures FromBytes(b) == Word32At(b, 0)
  {
    assert b[1..][1..] == b[2..] && b[2..][1..] == b[3..] && b[3..][1..] == [];
    assert FromBytes(b[3..]) == b[3];
    assert FromBytes(b[2..]) == b[2] as int + 256 * FromBytes(b[3..]);
    assert FromBytes(b[1..]) == b[1] as int + 256 * FromBytes(b[2..]);
  }

  lemma ReadsWord32(bytes: seq<Byte>, at: nat)
    requires at + 4 <= |bytes|
    ensures FromBytes(bytes[at..at + 4]) == Word32At(bytes, at)
  {
    FourBytes(bytes[at..at + 4]);
  }

  lemma {:induction false} FromBytesConcat(a: seq<Byte>, b: seq<Byte>)
    ensures FromBytes(a + b) == FromBytes(a) + Pow256(|a|) * FromBytes(b)
  {
    if a == [] {
      assert a + b == b;
    } else {
      assert (a + b)[1..] == a[1..] + b;
      FromBytesConcat(a[1..], b);
      assert 256 * (Pow256(|a| - 1) * FromBytes(b)) == Pow256(|a|) * FromBytes(b);
    }
  }

  lemma ReadsWord64(bytes: seq<Byte>, at: nat)
    requires at + 8 <= |bytes|
    ensures FromBytes(bytes[at..at + 8]) == Word64At(bytes, at)
  {
    var low, high := bytes[at..at + 4], bytes[at + 4..at + 8];
    assert bytes[at..at + 8] == low + high;
    FromBytesConcat(low, high);
    ReadsWord32(bytes, at);
    ReadsWord32(bytes, at + 4);
    Widths();
  }

  lemma Widths()
    ensures Pow256(4) == TWO_32 && Pow256(8) == TWO_64
  {
  }
}
