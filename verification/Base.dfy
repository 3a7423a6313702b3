/** Bytes, optional values, results and big-endian integers shared by every part of the model. */
module Base {

  type byte = x: int | 0 <= x < 256

  type Bytes = seq<byte>

  datatype Option<+T> = None | Some(value: T)

  datatype Result<+T, +E> = Ok(value: T) | Err(error: E)

  const TWO_POW_16 := 0x1_0000
  const TWO_POW_32 := 0x1_0000_0000

  /** `n.to_bytes(2, "big")`, or `H` in a struct format. */
  function U16(n: nat): (r: Bytes)
    requires n < TWO_POW_16
    ensures |r| == 2
  {
    [n / 256, n % 256]
  }

  /** `n.to_bytes(4, "big")`, or `I` in a struct format. */
  function U32(n: nat): (r: Bytes)
    requires n < TWO_POW_32
    ensures |r| == 4
  {
    U16(n / TWO_POW_16) + U16(n % TWO_POW_16)
  }

  /** `int.from_bytes(b, "big")` for a field of any width. */
  function FromBigEndian(b: Bytes): nat {
    if b == [] then 0 else 256 * FromBigEndian(b[..|b| - 1]) + b[|b| - 1]
  }

  lemma BigEndianSnoc(b: Bytes, x: byte)
    ensures FromBigEndian(b + [x]) == 256 * FromBigEndian(b) + x
  {
    assert (b + [x])[..|b|] == b;
  }

  lemma U16RoundTrip(n: nat)
    requires n < TWO_POW_16
    ensures FromBigEndian(U16(n)) == n
  {
    BigEndianSnoc([], n / 256);
    BigEndianSnoc([n / 256], n % 256);
    assert U16(n) == [n / 256] + [n % 256];
    assert [n / 256] == [] + [n / 256];
  }

  lemma FourBytes(a: byte, b: byte, c: byte, d: byte)
    ensures FromBigEndian([a, b, c, d]) == 0x100_0000 * a + 0x1_0000 * b + 0x100 * c + d
  {
    BigEndianSnoc([], a);
    BigEndianSnoc([a], b);
    BigEndianSnoc([a, b], c);
    BigEndianSnoc([a, b, c], d);
    assert [] + [a] == [a] && [a] + [b] == [a, b];
    assert [a, b] + [c] == [a, b, c] && [a, b, c] + [d] == [a, b, c, d];
  }

  lemma U32RoundTrip(n: nat)
    requires n < TWO_POW_32
    ensures FromBigEndian(U32(n)) == n
  {
    var hi, lo := n / TWO_POW_16, n % TWO_POW_16;
    assert U32(n) == [hi / 256, hi % 256, lo / 256, lo % 256];
    FourBytes(hi / 256, hi % 256, lo / 256, lo % 256);
  }

  /** The concatenation of a list of byte strings. */
  function Flatten(parts: seq<Bytes>): Bytes {
    if parts == [] then [] else parts[0] + Flatten(parts[1..])
  }

  lemma {:induction false} FlattenAppend(a: seq<Bytes>, b: seq<Bytes>)
    ensures Flatten(a + b) == Flatten(a) + Flatten(b)
  {
    if a == [] {
      assert a + b == b;
    } else {
      assert (a + b)[1..] == a[1..] + b;
      FlattenAppend(a[1..], b);
    }
  }

  lemma FlattenSnoc(a: seq<Bytes>, x: Bytes)
    ensures Flatten(a + [x]) == Flatten(a) + x
  {
    FlattenAppend(a, [x]);
    assert Flatten([x]) == x;
  }

  // ----- bits

  /** `a | b`. */
  function BitOr(a: nat, b: nat): nat
    decreases a + b
  {
    if a == 0 then b else if b == 0 then a
    else (if a % 2 == 1 || b % 2 == 1 then 1 else 0) + 2 * BitOr(a / 2, b / 2)
  }

  function Ones(bits: nat): nat {
    if bits == 0 then 0 else 1 + 2 * Ones(bits - 1)
  }

  lemma {:induction false} BitOrFits(a: nat, b: nat, bits: nat)
    requires a <= Ones(bits) && b <= Ones(bits)
    ensures BitOr(a, b) <= Ones(bits)
  {
    if a > 0 && b > 0 {
      BitOrFits(a / 2, b / 2, bits - 1);
    }
  }

  lemma TwoBytesFit(a: nat, b: nat)
    requires a < TWO_POW_16 && b < TWO_POW_16
    ensures BitOr(a, b) < TWO_POW_16
  {
    assert Ones(4) == 15;
    assert Ones(8) == 255;
    assert Ones(12) == 4095;
    assert Ones(16) == 65535;
    BitOrFits(a, b, 16);
  }
}
