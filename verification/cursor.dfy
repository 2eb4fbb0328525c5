/** A read cursor over a finite byte stream: each primitive consumes exactly
    its width from the front of the stream and hands back the remainder.

    `Take` is the all-or-nothing read of `io.ReadFull` (used by
    `binary.Read`); `Next` is `bytes.Buffer.Next`, which returns whatever is
    left when fewer bytes than asked remain. */
module Cursor {
  import opened Errors
  import opened LittleEndian

  datatype Decoded<+T> = Decoded(value: T, rest: Bytes)

  /** Exactly `n` bytes, or `IncompleteData` when fewer remain. */
  function Take(s: Bytes, n: nat): (r: Result<Decoded<Bytes>>)
    ensures r.Ok? <==> n <= |s|
    ensures r.Err? ==> r.error == IncompleteData
    ensures r.Ok? ==> |r.value.value| == n && r.value.value + r.value.rest == s
  {
    if |s| < n then Err(IncompleteData) else Ok(Decoded(s[..n], s[n..]))
  }

  /** At most `n` bytes; never fails. */
  function Next(s: Bytes, n: nat): (r: Decoded<Bytes>)
    ensures r.value + r.rest == s
    ensures n <= |s| ==> |r.value| == n
    ensures |s| < n ==> r.rest == []
  {
    if |s| < n then Decoded(s, []) else Decoded(s[..n], s[n..])
  }

  /** A little-endian unsigned integer of `width` bytes. */
  function ReadUInt(s: Bytes, width: nat): (r: Result<Decoded<nat>>)
    ensures r.Ok? <==> width <= |s|
    ensures r.Err? ==> r.error == IncompleteData
    ensures r.Ok? ==> r.value.value < Pow256(width)
    ensures r.Ok? ==> ToLE(r.value.value, width) + r.value.rest == s
  {
    var d :- Take(s, width);
    ToLEOfFromLE(d.value);
    Ok(Decoded(FromLE(d.value), d.rest))
  }

  /** Reading back an encoded value yields the value and the bytes after it. */
  lemma ReadUIntOfEncoded(v: nat, width: nat, rest: Bytes)
    requires v < Pow256(width)
    ensures ReadUInt(ToLE(v, width) + rest, width) == Ok(Decoded(v, rest))
  {
    var s := ToLE(v, width) + rest;
    var r := ReadUInt(s, width);
    assert s[..width] == ToLE(v, width);
    assert ToLE(r.value.value, width) == s[..width];
    ToLEInjective(r.value.value, v, width);
  }

  function ReadU8(s: Bytes): (r: Result<Decoded<UInt8>>)
    ensures r.Ok? <==> 1 <= |s|
    ensures r.Err? ==> r.error == IncompleteData
    ensures r.Ok? ==> [r.value.value] + r.value.rest == s && r.value.rest == s[1..]
  {
    if |s| < 1 then Err(IncompleteData) else Ok(Decoded(s[0], s[1..]))
  }

  function ReadLE16(s: Bytes): (r: Result<Decoded<UInt16>>)
    ensures r.Ok? <==> 2 <= |s|
    ensures r.Err? ==> r.error == IncompleteData
    ensures r.Ok? ==> ToLE(r.value.value, 2) + r.value.rest == s
    ensures r.Ok? ==> ToLE(r.value.value, 2) == s[..2] && r.value.rest == s[2..]
  {
    var d :- ReadUInt(s, 2);
    Ok(Decoded(d.value, d.rest))
  }

  function ReadLE32(s: Bytes): (r: Result<Decoded<UInt32>>)
    ensures r.Ok? <==> 4 <= |s|
    ensures r.Err? ==> r.error == IncompleteData
    ensures r.Ok? ==> ToLE(r.value.value, 4) + r.value.rest == s
    ensures r.Ok? ==> ToLE(r.value.value, 4) == s[..4] && r.value.rest == s[4..]
  {
    var d :- ReadUInt(s, 4);
    Ok(Decoded(d.value, d.rest))
  }

  function ReadLE64(s: Bytes): (r: Result<Decoded<UInt64>>)
    ensures r.Ok? <==> 8 <= |s|
    ensures r.Err? ==> r.error == IncompleteData
    ensures r.Ok? ==> ToLE(r.value.value, 8) + r.value.rest == s
    ensures r.Ok? ==> ToLE(r.value.value, 8) == s[..8] && r.value.rest == s[8..]
  {
    var d :- ReadUInt(s, 8);
    Ok(Decoded(d.value, d.rest))
  }

  lemma ReadLE16OfEncoded(v: UInt16, rest: Bytes)
    ensures ReadLE16(ToLE(v, 2) + rest) == Ok(Decoded(v, rest))
  {
    ReadUIntOfEncoded(v, 2, rest);
  }

  lemma ReadLE32OfEncoded(v: UInt32, rest: Bytes)
    ensures ReadLE32(ToLE(v, 4) + rest) == Ok(Decoded(v, rest))
  {
    ReadUIntOfEncoded(v, 4, rest);
  }

  lemma ReadLE64OfEncoded(v: UInt64, rest: Bytes)
    ensures ReadLE64(ToLE(v, 8) + rest) == Ok(Decoded(v, rest))
  {
    ReadUIntOfEncoded(v, 8, rest);
  }

  // ---------------------------------------------------------------------
  // Fixed-offset reads inside a region whose length has been checked.

  function U16At(s: Bytes, off: nat): (v: UInt16)
    requires off + 2 <= |s|
    ensures ToLE(v, 2) == s[off..off + 2]
  {
    ToLEOfFromLE(s[off..off + 2]);
    assert Pow256(2) == 0x1_0000;
    FromLE(s[off..off + 2])
  }

  function U32At(s: Bytes, off: nat): (v: UInt32)
    requires off + 4 <= |s|
    ensures ToLE(v, 4) == s[off..off + 4]
  {
    ToLEOfFromLE(s[off..off + 4]);
    assert Pow256(4) == 0x1_0000_0000;
    FromLE(s[off..off + 4])
  }

  function U64At(s: Bytes, off: nat): (v: UInt64)
    requires off + 8 <= |s|
    ensures ToLE(v, 8) == s[off..off + 8]
  {
    ToLEOfFromLE(s[off..off + 8]);
    assert Pow256(8) == 0x1_0000_0000_0000_0000;
    FromLE(s[off..off + 8])
  }

  /** `count` consecutive float32 bit patterns (`mustNextFloat32Slice`). */
  function ReadF32s(s: Bytes, count: nat): (r: Result<Decoded<seq<Float32Bits>>>)
    ensures r.Ok? <==> 4 * count <= |s|
    ensures r.Err? ==> r.error == IncompleteData
    ensures r.Ok? ==> r.value == F32s(s, count)
  {
    if |s| < 4 * count then Err(IncompleteData) else Ok(F32s(s, count))
  }

  /** The unchecked form of `ReadF32s`. */
  function F32s(s: Bytes, count: nat): (r: Decoded<seq<Float32Bits>>)
    requires 4 * count <= |s|
    ensures |r.value| == count && r.rest == s[4 * count..]
    ensures forall i :: 0 <= i < count ==> ToLE(r.value[i], 4) == s[4 * i..4 * i + 4]
    decreases count
  {
    if count == 0 then Decoded([], s)
    else
      ToLEOfFromLE(s[..4]);
      var tail := F32s(s[4..], count - 1);
      forall i | 1 <= i < count
        ensures s[4 * i..4 * i + 4] == s[4..][4 * (i - 1)..4 * (i - 1) + 4]
      {
        SliceOfDrop(s, 4, 4 * (i - 1), 4 * i);
      }
      Decoded([FromLE(s[..4])] + tail.value, tail.rest)
  }

  /** Two consecutive reads consume what one read of their total width does. */
  lemma DropDrop(s: Bytes, a: nat, b: nat)
    ensures a + b <= |s| ==> s[a..][b..] == s[a + b..]
  {
  }

  /** A window of what remains after `a` bytes is a window of the whole. */
  lemma SliceOfDrop(s: Bytes, a: nat, lo: nat, hi: nat)
    requires lo <= hi && a + hi <= |s|
    ensures s[a..][lo..hi] == s[a + lo..a + hi]
  {
  }

  /** A non-empty sequence is its head in front of its tail. */
  lemma HeadTail<T>(s: seq<T>)
    ensures |s| > 0 ==> [s[0]] + s[1..] == s
  {
  }

  lemma AppendAssoc<T>(a: seq<T>, b: seq<T>, c: seq<T>)
    ensures (a + b) + c == a + (b + c)
  {
  }

  // Fixed-width records laid end to end.

  /** The `i`-th record of width `k`. */
  function Chunk(s: Bytes, k: nat, i: nat): (c: Bytes)
    requires (i + 1) * k <= |s|
    ensures |c| == k
  {
    s[i * k..(i + 1) * k]
  }

  /** Dropping the first record renumbers the rest by one. */
  lemma ChunksOfTail(s: Bytes, k: nat)
    requires k <= |s|
    ensures forall i: nat :: (i + 1) * k <= |s| - k ==> Chunk(s[k..], k, i) == Chunk(s, k, i + 1)
  {
    forall i: nat | (i + 1) * k <= |s| - k
      ensures Chunk(s[k..], k, i) == Chunk(s, k, i + 1)
    {
      assert (i + 1) * k + k == (i + 2) * k;
    }
  }

  /** Record count and leftover are unchanged by dropping one record. */
  lemma DivModStep(n: nat, k: nat)
    requires 0 < k <= n
    ensures n / k == (n - k) / k + 1 && n % k == (n - k) % k
  {
    var q, r := (n - k) / k, (n - k) % k;
    assert n == k * (q + 1) + r;
    DivModUnique(n, k, q + 1, r);
  }

  lemma DivModUnique(n: int, k: nat, q: int, r: int)
    requires 0 < k && 0 <= r < k && n == k * q + r
    ensures n / k == q && n % k == r
  {
    var q', r' := n / k, n % k;
    assert n == k * q' + r';
    var d := q - q';
    assert k * q - k * q' == k * d;
    if d > 0 {
      MulAtLeast(k, d);
    } else if d < 0 {
      MulAtLeast(k, -d);
    }
  }

  lemma MulAtLeast(k: nat, d: int)
    requires 0 < d
    ensures k * d >= k
  {
    assert k * d == k * (d - 1) + k;
  }
}
