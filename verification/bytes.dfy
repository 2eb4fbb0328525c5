/** Fixed-width unsigned integers and their little-endian byte encoding.

    Both file formats store every multi-byte integer little-endian at a fixed
    width; floating-point fields are carried as their IEEE-754 bit patterns
    (`Float32Bits`, `Float64Bits`) and never interpreted. */
module LittleEndian {

  type UInt8 = x: int | 0 <= x < 0x100
  type UInt16 = x: int | 0 <= x < 0x1_0000
  type UInt32 = x: int | 0 <= x < 0x1_0000_0000
  type UInt64 = x: int | 0 <= x < 0x1_0000_0000_0000_0000
  type Int8 = x: int | -0x80 <= x < 0x80

  type Bytes = seq<UInt8>

  /** The bit pattern of a float32 / float64, read and written like a
      uint32 / uint64 of the same width. */
  type Float32Bits = UInt32
  type Float64Bits = UInt64

  function Pow256(n: nat): (r: nat)
    ensures r >= 1
  {
    if n == 0 then 1 else 256 * Pow256(n - 1)
  }

  /** The unsigned integer whose little-endian encoding is `bs`. */
  function FromLE(bs: Bytes): (r: nat)
    ensures r < Pow256(|bs|)
  {
    if |bs| == 0 then 0 else bs[0] + 256 * FromLE(bs[1..])
  }

  /** The `n` low-order bytes of `v`, least significant first; the bytes
      beyond `n` are dropped, as a Go conversion to a narrower type does. */
  function ToLE(v: nat, n: nat): (r: Bytes)
    ensures |r| == n
  {
    if n == 0 then [] else [v % 256] + ToLE(v / 256, n - 1)
  }

  /** Writing `v` at width `n` keeps `v` modulo `256^n`: what a Go
      conversion to a narrower unsigned type keeps. */
  lemma {:induction false} ToLETruncates(v: nat, n: nat)
    ensures FromLE(ToLE(v, n)) == v % Pow256(n)
  {
    if n > 0 {
      ToLETruncates(v / 256, n - 1);
      assert ToLE(v, n)[1..] == ToLE(v / 256, n - 1);
      ModOfNestedDiv(v, Pow256(n - 1));
    }
  }

  /** Taking the low byte, then the remainder of the rest modulo `m`, is
      taking the remainder modulo `256 * m`. */
  lemma ModOfNestedDiv(v: nat, m: nat)
    requires 1 <= m
    ensures v % 256 + 256 * ((v / 256) % m) == v % (256 * m)
  {
    var q := v / 256;
    var b := v % 256 + 256 * (q % m);
    assert v == 256 * m * (q / m) + b by {
      assert q == m * (q / m) + q % m;
      assert v == 256 * q + v % 256;
    }
    assert 0 <= b < 256 * m by {
      assert q % m <= m - 1;
      assert 256 * (q % m) <= 256 * (m - 1);
    }
    ModOfMultiplePlus(v, 256 * m, q / m, b);
  }

  /** The remainder is unique: `k * m + b` with `b` below `m` leaves `b`. */
  lemma ModOfMultiplePlus(v: nat, m: nat, k: nat, b: nat)
    requires 1 <= m && b < m && v == m * k + b
    ensures v % m == b
  {
    var q := v / m;
    assert v == m * q + v % m;
    if k < q {
      MulStep(m, k, q);
    } else if q < k {
      MulStep(m, q, k);
    }
    assert k == q;
  }

  /** One more multiple of `m` is at least `m` more. */
  lemma {:induction false} MulStep(m: nat, a: nat, c: nat)
    requires a < c
    ensures m * a + m <= m * c
    decreases c
  {
    assert m * c == m * (c - 1) + m;
    if a + 1 < c {
      MulStep(m, a, c - 1);
    }
  }


  lemma {:induction false} FromLEOfToLE(v: nat, n: nat)
    requires v < Pow256(n)
    ensures FromLE(ToLE(v, n)) == v
  {
    if n > 0 {
      FromLEOfToLE(v / 256, n - 1);
      assert ToLE(v, n)[1..] == ToLE(v / 256, n - 1);
    }
  }

  lemma {:induction false} ToLEOfFromLE(bs: Bytes)
    ensures ToLE(FromLE(bs), |bs|) == bs
  {
    if |bs| > 0 {
      ToLEOfFromLE(bs[1..]);
      var v := FromLE(bs);
      assert v % 256 == bs[0] && v / 256 == FromLE(bs[1..]);
      assert bs == [bs[0]] + bs[1..];
    }
  }

  /** Encoding at a fixed width is injective on the values that fit. */
  lemma ToLEInjective(v: nat, w: nat, n: nat)
    requires v < Pow256(n) && w < Pow256(n)
    requires ToLE(v, n) == ToLE(w, n)
    ensures v == w
  {
    FromLEOfToLE(v, n);
    FromLEOfToLE(w, n);
  }

  /** Go's `int8(b)`: the byte read as a two's-complement value. */
  function ToInt8(b: UInt8): (t: Int8)
    ensures 0 <= t ==> t == b
    ensures t < 0 ==> t + 0x100 == b
  {
    if b < 0x80 then b else b - 0x100
  }

  /** The byte that `binary.Write` emits for an `int8`. */
  function FromInt8(t: Int8): (b: UInt8)
    ensures ToInt8(b) == t
  {
    if t < 0 then t + 0x100 else t
  }
}
