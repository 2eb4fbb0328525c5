/** The container reader (dpet/reader.go): magic check, method dispatch,
    the length-prefixed header, and the E180 payload decoders chosen by the
    header's file type.

    The reader works on a `bytes.Buffer`: `Next(n)` hands back at most `n`
    bytes, indexing an empty result panics, and a fixed-width integer
    conversion of a short slice panics; each panic is `IncompleteData`. A
    float read through `binary.Read` that finds too few bytes consumes them
    and leaves the zero value. Decompression is the identity and the
    header deserialiser is a parameter. */
module DpetReader {
  import opened Errors
  import opened LittleEndian
  import opened Cursor
  import opened DpetModel

  /** The decompressor, as the identity. */
  function Decompress(s: Bytes): Bytes {
    s
  }

  /** `readFloat32`. */
  function ReadFloat32(s: Bytes): (r: Decoded<Float32Bits>)
    ensures 4 <= |s| ==> ToLE(r.value, 4) == s[..4] && r.rest == s[4..]
    ensures |s| < 4 ==> r.value == 0 && r.rest == []
  {
    if |s| < 4 then Decoded(0, [])
    else
      ToLEOfFromLE(s[..4]);
      Decoded(FromLE(s[..4]), s[4..])
  }

  /** `readFloat64`. */
  function ReadFloat64(s: Bytes): (r: Decoded<Float64Bits>)
    ensures 8 <= |s| ==> ToLE(r.value, 8) == s[..8] && r.rest == s[8..]
    ensures |s| < 8 ==> r.value == 0 && r.rest == []
  {
    if |s| < 8 then Decoded(0, [])
    else
      ToLEOfFromLE(s[..8]);
      Decoded(FromLE(s[..8]), s[8..])
  }

  // ---------------------------------------------------------------------
  // Raw blocks.

  /** One body. `parseRawData` reads it field by field (`BodyReads`); the
      two slice fields tolerate a short read, but the single byte after
      each then panics, so one length check decides the outcome. */
  function DecodeBody(s: Bytes): (r: Result<Decoded<BDMInfoBody>>)
    ensures r.Ok? <==> BDMInfoBodyByteLen <= |s|
    ensures r.Err? ==> r.error == IncompleteData
    ensures r.Ok? ==> BodyWellSized(r.value.value) && r.value.rest == s[16..]
    ensures r.Ok? ==>
              var b := r.value.value;
              && b.headAndDU == s[0] && b.bdm == s[1] && b.time == s[2..10]
              && b.x == s[10] && b.y == s[11] && b.energy == s[12..14]
              && FromInt8(b.temperatureInt) == s[14] && b.temperatureAndTail == s[15]
  {
    if |s| < 16 then Err(IncompleteData)
    else Ok(Decoded(BDMInfoBody(s[0], s[1], s[2..10], s[10], s[11], s[12..14], ToInt8(s[14]), s[15]), s[16..]))
  }

  /** The eight reads of the body literal in `parseRawData`, in order. */
  function BodyReads(s: Bytes): Result<Decoded<BDMInfoBody>> {
    var headAndDU :- ReadU8(s);
    var bdm :- ReadU8(headAndDU.rest);
    var time := Next(bdm.rest, 8);
    var x :- ReadU8(time.rest);
    var y :- ReadU8(x.rest);
    var energy := Next(y.rest, 2);
    var temperature :- ReadU8(energy.rest);
    var tail :- ReadU8(temperature.rest);
    Ok(Decoded(BDMInfoBody(headAndDU.value, bdm.value, time.value, x.value, y.value, energy.value,
                           ToInt8(temperature.value), tail.value), tail.rest))
  }

  /** Reading field by field is reading one sixteen-byte body. */
  lemma DecodeBodyIsBodyReads(s: Bytes)
    ensures BodyReads(s) == DecodeBody(s)
  {
    if 2 <= |s| {
      assert ReadU8(ReadU8(s).value.rest).value.rest == s[2..];
      if 11 <= |s| {
        assert s[2..][..8] == s[2..10] && s[2..][8..] == s[10..];
        if 14 <= |s| {
          assert s[12..][..2] == s[12..14] && s[12..][2..] == s[14..];
        }
      }
    }
  }

  /** `count` consecutive bodies. */
  function DecodeBodies(s: Bytes, count: nat): (r: Result<Decoded<seq<BDMInfoBody>>>)
    ensures r.Ok? <==> 16 * count <= |s|
    ensures r.Err? ==> r.error == IncompleteData
    ensures r.Ok? ==> |r.value.value| == count && r.value.rest == s[16 * count..]
    ensures r.Ok? ==> forall i :: 0 <= i < count ==> BodyWellSized(r.value.value[i])
    ensures r.Ok? ==> forall i :: 0 <= i < count ==>
              DecodeBody(s[16 * i..]) == Ok(Decoded(r.value.value[i], s[16 * i + 16..]))
  {
    if count == 0 then Ok(Decoded([], s))
    else if |s| < 16 * count then Err(IncompleteData)
    else
      var body := DecodeBody(s).value;
      var tail := DecodeBodies(s[16..], count - 1).value;
      DropDrop(s, 16, 16 * (count - 1));
      var bodies := [body.value] + tail.value;
      assert BodyWellSized(bodies[0]);
      assert forall i :: 1 <= i < count ==> bodies[i] == tail.value[i - 1];
      BodiesAfterFirst(s, count, tail.value);
      Ok(Decoded(bodies, tail.rest))
  }

  /** The bodies read after the first one sit 16 bytes further on. */
  lemma BodiesAfterFirst(s: Bytes, count: nat, tail: seq<BDMInfoBody>)
    requires 1 <= count && 16 * count <= |s| && |tail| == count - 1
    requires forall i :: 0 <= i < count - 1 ==>
               DecodeBody(s[16..][16 * i..]) == Ok(Decoded(tail[i], s[16..][16 * i + 16..]))
    ensures forall i :: 1 <= i < count ==>
              DecodeBody(s[16 * i..]) == Ok(Decoded(tail[i - 1], s[16 * i + 16..]))
  {
    forall i | 1 <= i < count
      ensures DecodeBody(s[16 * i..]) == Ok(Decoded(tail[i - 1], s[16 * i + 16..]))
    {
      DropDrop(s, 16, 16 * (i - 1));
      DropDrop(s, 16, 16 * (i - 1) + 16);
    }
  }

  /** The eleven-byte block header; the bodies are read next. Every read
      in it must succeed, so one length check decides the outcome. */
  function DecodeBlockHeader(s: Bytes): (r: Result<Decoded<BDMInfo>>)
    ensures r.Ok? <==> 11 <= |s|
    ensures r.Err? ==> r.error == IncompleteData
    ensures r.Ok? ==>
              var info := r.value.value;
              && r.value.rest == s[11..] && info.content == []
              && info.bdmIndex == s[0] && info.groupNum == s[5] && info.groupIndex == s[6]
              && ToLE(info.ip, 2) == s[1..3] && ToLE(info.port, 2) == s[3..5] && ToLE(info.dataLen, 4) == s[7..11]
  {
    if |s| < 11 then Err(IncompleteData)
    else Ok(Decoded(BDMInfo(s[0], U16At(s, 1), U16At(s, 3), s[5], s[6], U32At(s, 7), []), s[11..]))
  }

  /** The stream splits into blocks, each an eleven-byte header followed by
      the `DataLen / 16` whole bodies its length field announces. */
  predicate BlocksFit(s: Bytes)
    decreases |s|
  {
    || |s| == 0
    || (&& 11 <= |s|
        && var end := 11 + 16 * (U32At(s, 7) / 16);
           end <= |s| && BlocksFit(s[end..]))
  }

  /** A stream with a whole header fits when the header's bodies are there
      and the rest after them fits. */
  lemma BlocksFitStep(s: Bytes)
    requires 11 <= |s|
    ensures var header := DecodeBlockHeader(s).value;
            var bodies := DecodeBodies(header.rest, header.value.dataLen / 16);
            BlocksFit(s) <==> bodies.Ok? && BlocksFit(bodies.value.rest)
  {
    var n := 16 * (U32At(s, 7) / 16);
    DropDrop(s, 11, n);
  }

  /** `parseRawData`: blocks until the buffer is empty. A block holds
      `DataLen / 16` bodies; the remainder of `DataLen` is not skipped. */
  function DecodeBlocks(s: Bytes): (r: Result<seq<BDMInfo>>)
    ensures r.Ok? <==> BlocksFit(s)
    ensures r.Err? ==> r.error == IncompleteData
    ensures r.Ok? ==> (|r.value| == 0 <==> |s| == 0)
    ensures r.Ok? ==> forall i :: 0 <= i < |r.value| ==>
              && |r.value[i].content| == r.value[i].dataLen / BDMInfoBodyByteLen
              && forall j :: 0 <= j < |r.value[i].content| ==> BodyWellSized(r.value[i].content[j])
    ensures r.Ok? && |s| > 0 ==>
              && DecodeBlockHeader(s).Ok?
              && var header := DecodeBlockHeader(s).value;
                 && DecodeBodies(header.rest, header.value.dataLen / 16).Ok?
                 && r.value[0] == header.value.(content := DecodeBodies(header.rest, header.value.dataLen / 16).value.value)
    decreases |s|
  {
    if |s| == 0 then Ok([])
    else if |s| < 11 then Err(IncompleteData)
    else
      var header := DecodeBlockHeader(s).value;
      var bodies := DecodeBodies(header.rest, header.value.dataLen / 16);
      BlocksFitStep(s);
      if bodies.Err? then Err(IncompleteData)
      else
        var tail := DecodeBlocks(bodies.value.rest);
        if tail.Err? then Err(IncompleteData)
        else
          var block := header.value.(content := bodies.value.value);
          BlocksWellSizedCons(block, tail.value);
          Ok([block] + tail.value)
  }

  /** Every block holds `DataLen / 16` full-width bodies. */
  predicate BlockWellSized(b: BDMInfo) {
    && |b.content| == b.dataLen / BDMInfoBodyByteLen
    && forall j :: 0 <= j < |b.content| ==> BodyWellSized(b.content[j])
  }

  lemma BlocksWellSizedCons(block: BDMInfo, tail: seq<BDMInfo>)
    requires BlockWellSized(block)
    requires forall i :: 0 <= i < |tail| ==>
               && |tail[i].content| == tail[i].dataLen / BDMInfoBodyByteLen
               && forall j :: 0 <= j < |tail[i].content| ==> BodyWellSized(tail[i].content[j])
    ensures forall i :: 0 <= i < |[block] + tail| ==>
              && |([block] + tail)[i].content| == ([block] + tail)[i].dataLen / BDMInfoBodyByteLen
              && forall j :: 0 <= j < |([block] + tail)[i].content| ==> BodyWellSized(([block] + tail)[i].content[j])
  {
    forall i | 0 <= i < |[block] + tail|
      ensures BlockWellSized(([block] + tail)[i])
    {
      if 0 < i {
        assert ([block] + tail)[i] == tail[i - 1];
      }
    }
  }

  // ---------------------------------------------------------------------
  // Coincidences.

  /** One event: the index must be there, the two floats may run short. */
  function DecodeCoin(s: Bytes): (r: Result<Decoded<CoinInfo>>)
    ensures r.Ok? <==> 4 <= |s|
    ensures r.Err? ==> r.error == IncompleteData
    ensures r.Ok? ==> ToLE(r.value.value.globalCrystalIndex, 4) == s[..4]
    ensures r.Ok? && 8 <= |s| ==> ToLE(r.value.value.energy, 4) == s[4..8]
    ensures r.Ok? && 16 <= |s| ==>
              && ToLE(r.value.value.timeValue, 8) == s[8..16]
              && r.value.rest == s[16..]
    ensures r.Ok? && |s| < 16 ==> r.value.rest == [] && r.value.value.timeValue == 0
    ensures r.Ok? && |s| < 8 ==> r.value.value.energy == 0
  {
    var index :- ReadLE32(s);
    var energy := ReadFloat32(index.rest);
    var time := ReadFloat64(energy.rest);
    DropDrop(s, 4, 4);
    Ok(Decoded(CoinInfo(index.value, energy.value, time.value), time.rest))
  }

  /** One pair. A pair cut short in its first event leaves nothing for the
      second event's index, which panics; so a pair needs at least twenty
      bytes. */
  function DecodePair(s: Bytes): (r: Result<Decoded<CoinPair>>)
    ensures r.Ok? <==> 20 <= |s|
    ensures r.Err? ==> r.error == IncompleteData
    ensures r.Ok? && 32 <= |s| ==> r.value.rest == s[32..]
    ensures r.Ok? && |s| < 32 ==> r.value.rest == []
    ensures r.Ok? ==> r.value.value == CoinPair(DecodeCoin(s).value.value, DecodeCoin(s[16..]).value.value)
  {
    if |s| < 20 then
      assert DecodeCoin(s).Err? || DecodeCoin(DecodeCoin(s).value.rest).Err?;
      Err(IncompleteData)
    else
      var first := DecodeCoin(s).value;
      var second := DecodeCoin(s[16..]).value;
      DropDrop(s, 16, 16);
      Ok(Decoded(CoinPair(first.value, second.value), second.rest))
  }

  /** A coincidence stream of `n` bytes ends on a whole pair, or on a
      short pair that still holds both event indices. */
  predicate PairsFit(n: nat) {
    n % 32 == 0 || 20 <= n % 32
  }

  /** The number of pairs, a short last one included. */
  function PairCount(n: nat): nat {
    (n + 31) / 32
  }

  /** The pair read `i` pairs into the stream is `pair`. */
  predicate PairAt(s: Bytes, i: nat, pair: CoinPair) {
    32 * i < |s| && DecodePair(s[32 * i..]).Ok? && DecodePair(s[32 * i..]).value.value == pair
  }

  /** `parseListModeCoinData`: pairs until the buffer is empty. It fails
      exactly when the last pair is shorter than twenty bytes. */
  function DecodeCoinPairs(s: Bytes): (r: Result<seq<CoinPair>>)
    ensures r.Ok? <==> PairsFit(|s|)
    ensures r.Err? ==> r.error == IncompleteData
    ensures r.Ok? ==> |r.value| == PairCount(|s|)
    ensures r.Ok? ==> forall i :: 0 <= i < |r.value| ==> PairAt(s, i, r.value[i])
    decreases |s|
  {
    if |s| == 0 then Ok([])
    else if |s| < 32 then
      PairCountLast(|s|);
      if |s| < 20 then Err(IncompleteData)
      else
        assert s[32 * 0..] == s;
        Ok([DecodePair(s).value.value])
    else
      PairCountStep(|s|);
      var first := DecodePair(s).value.value;
      var tail := DecodeCoinPairs(s[32..]);
      if tail.Err? then Err(IncompleteData)
      else
        PairsAfterFirst(s, first, tail.value);
        Ok([first] + tail.value)
  }

  /** The first pair is read at the start; the pairs read after it sit
      32 bytes further on. */
  lemma PairsAfterFirst(s: Bytes, first: CoinPair, tail: seq<CoinPair>)
    requires 32 <= |s| && DecodePair(s).Ok? && DecodePair(s).value.value == first
    requires forall i :: 0 <= i < |tail| ==> PairAt(s[32..], i, tail[i])
    ensures forall i :: 0 <= i < |[first] + tail| ==> PairAt(s, i, ([first] + tail)[i])
  {
    forall i | 0 <= i < |[first] + tail|
      ensures PairAt(s, i, ([first] + tail)[i])
    {
      if i == 0 {
        assert s[32 * i..] == s;
      } else {
        assert ([first] + tail)[i] == tail[i - 1];
        PairAfterFirst(s, i, tail[i - 1]);
      }
    }
  }

  lemma PairAfterFirst(s: Bytes, i: nat, pair: CoinPair)
    requires 32 <= |s| && 1 <= i && 32 * (i - 1) < |s[32..]|
    requires PairAt(s[32..], i - 1, pair)
    ensures PairAt(s, i, pair)
  {
    DropDrop(s, 32, 32 * (i - 1));
  }

  /** The last, possibly short, pair. */
  lemma PairCountLast(n: nat)
    requires 0 < n < 32
    ensures PairsFit(n) <==> 20 <= n
    ensures PairCount(n) == 1
  {
  }

  /** Dropping one full pair keeps the verdict on the last pair and takes
      one off the count. */
  lemma PairCountStep(n: nat)
    requires 32 <= n
    ensures PairsFit(n) <==> PairsFit(n - 32)
    ensures PairCount(n) == PairCount(n - 32) + 1
  {
    DivModStep(n, 32);
    DivModStep(n + 31, 32);
  }

  // ---------------------------------------------------------------------
  // Mich.

  /** `parseMichData`: float32 words until the buffer is empty; a trailing
      partial word becomes one zero. */
  function DecodeMichE180(s: Bytes): (r: seq<Float32Bits>)
    ensures |r| == (|s| + 3) / 4
    ensures forall i :: 0 <= i < |s| / 4 ==> ToLE(r[i], 4) == s[4 * i..4 * i + 4]
    ensures |s| % 4 != 0 ==> r[|r| - 1] == 0
    decreases |s|
  {
    if |s| == 0 then []
    else if |s| < 4 then [ReadFloat32(s).value]
    else
      var tail := DecodeMichE180(s[4..]);
      DivModStep(|s| + 3, 4);
      assert forall i :: 1 <= i < |s| / 4 ==> s[4 * i..4 * i + 4] == s[4..][4 * (i - 1)..4 * (i - 1) + 4];
      [U32At(s, 0)] + tail
  }

  // ---------------------------------------------------------------------
  // The whole file.

  /** The payload `switch`: the E180 decoder for the three data file types,
      no data for any other type. */
  function DecodePayload(fileType: int, s: Bytes): (r: Result<Payload>)
    ensures r.Err? ==> r.error == IncompleteData && fileType in {FileTypeRawData, FileTypeListModeCoin}
    ensures r.Ok? ==> (r.value.RawE180? <==> fileType == FileTypeRawData)
    ensures r.Ok? ==> (r.value.CoinE180? <==> fileType == FileTypeListModeCoin)
    ensures r.Ok? ==> (r.value.MichE180? <==> fileType == FileTypeMich)
    ensures r.Ok? ==> (r.value.NoData? <==> fileType !in {FileTypeRawData, FileTypeListModeCoin, FileTypeMich})
    ensures fileType == FileTypeRawData ==> (r.Ok? <==> DecodeBlocks(s).Ok?)
    ensures fileType == FileTypeRawData && r.Ok? ==> r.value.infos == DecodeBlocks(s).value
    ensures fileType == FileTypeListModeCoin ==> (r.Ok? <==> DecodeCoinPairs(s).Ok?)
    ensures fileType == FileTypeListModeCoin && r.Ok? ==> r.value.pairs == DecodeCoinPairs(s).value
    ensures fileType == FileTypeMich ==> r == Ok(MichE180(DecodeMichE180(s)))
  {
    if fileType == FileTypeRawData then
      var infos :- DecodeBlocks(s);
      Ok(RawE180(infos))
    else if fileType == FileTypeListModeCoin then
      var pairs :- DecodeCoinPairs(s);
      Ok(CoinE180(pairs))
    else if fileType == FileTypeMich then
      Ok(MichE180(DecodeMichE180(s)))
    else
      Ok(NoData)
  }

  /** The first four bytes `buf.Next(4)` hands back are the magic; a
      shorter buffer hands back fewer and fails the comparison. */
  function HasMagic(buf: Bytes): (b: bool)
    ensures b <==> Next(buf, 4).value == MagicNumber
  {
    4 <= |buf| && buf[..4] == MagicNumber
  }

  /** Where the header content ends: `DataLen` bytes after the length
      field, or the end of the buffer when fewer remain (`Next` hands back
      what there is, and the deserialiser sees only that). */
  function HeaderEnd(buf: Bytes): (e: nat)
    requires 10 <= |buf|
    ensures 10 <= e <= |buf|
    ensures e == |buf| || e == 10 + U32At(buf, 6)
  {
    var n := 10 + U32At(buf, 6);
    if n < |buf| then n else |buf|
  }

  /** Magic, method tag, length and header content. The tag and the length
      are read by integer conversions of `Next` results, which panic when
      the buffer runs short; the content read does not. */
  function ParseHead(buf: Bytes, unmarshal: Bytes -> Option<PetFileHeader>): (r: Result<Decoded<Header>>)
    ensures r == Err(WrongFileType) <==> !HasMagic(buf)
    ensures HasMagic(buf) && |buf| < 6 ==> r == Err(IncompleteData)
    ensures r == Err(UnknownMarshalMethod) <==> HasMagic(buf) && 6 <= |buf| && U16At(buf, 4) != MarshallMethodProto
    ensures HasMagic(buf) && 6 <= |buf| && U16At(buf, 4) == MarshallMethodProto && |buf| < 10 ==>
              r == Err(IncompleteData)
    ensures r == Err(UnmarshalError) <==>
              && HasMagic(buf) && 10 <= |buf| && U16At(buf, 4) == MarshallMethodProto
              && unmarshal(buf[10..HeaderEnd(buf)]).None?
    ensures r.Ok? <==>
              && HasMagic(buf) && 10 <= |buf| && U16At(buf, 4) == MarshallMethodProto
              && unmarshal(buf[10..HeaderEnd(buf)]).Some?
    ensures r.Ok? ==>
              && r.value.value.marshalMethod == MarshallMethodProto
              && ToLE(r.value.value.dataLen, 4) == buf[6..10]
              && unmarshal(buf[10..HeaderEnd(buf)]) == Some(r.value.value.content)
              && r.value.rest == buf[HeaderEnd(buf)..]
  {
    var magic := Next(buf, 4);
    if magic.value != MagicNumber then Err(WrongFileType)
    else if |buf| < 6 then Err(IncompleteData)
    else
      var tag := U16At(buf, 4);
      if tag != MarshallMethodProto then Err(UnknownMarshalMethod)
      else if |buf| < 10 then Err(IncompleteData)
      else
        var dataLen := U32At(buf, 6);
        var content := Next(buf[10..], dataLen);
        assert content.value == buf[10..HeaderEnd(buf)] && content.rest == buf[HeaderEnd(buf)..];
        match unmarshal(content.value)
        case None => Err(UnmarshalError)
        case Some(h) => Ok(Decoded(Header(tag, dataLen, h), content.rest))
  }

  /** `Parse(buf)`. The payload layout follows from the file type alone:
      the device named in the header plays no part, and a 930 payload
      cannot come back. */
  function Parse(buf: Bytes, unmarshal: Bytes -> Option<PetFileHeader>): (r: Result<Dataset>)
    ensures ParseHead(buf, unmarshal).Err? ==> r == Err(ParseHead(buf, unmarshal).error)
    ensures r.Ok? ==> ParseHead(buf, unmarshal).Ok? && r.value.header == ParseHead(buf, unmarshal).value.value
    ensures ParseHead(buf, unmarshal).Ok? && ParseHead(buf, unmarshal).value.value.content.publicInfo.None? ==>
              r == Err(NilDereference)
    ensures r.Ok? ==> r.value.dataBuf.None?
    ensures r.Ok? ==> !(r.value.data.Raw930? || r.value.data.ListMode930? || r.value.data.Mich930?)
    ensures r.Ok? ==> (r.value.data.NoData? <==>
              r.value.header.content.publicInfo.value.fileType !in {FileTypeRawData, FileTypeListModeCoin, FileTypeMich})
    ensures ParseHead(buf, unmarshal).Ok? && ParseHead(buf, unmarshal).value.value.content.publicInfo.Some? ==>
              var head := ParseHead(buf, unmarshal).value;
              var payload := DecodePayload(head.value.content.publicInfo.value.fileType, Decompress(head.rest));
              && (r.Ok? <==> payload.Ok?)
              && (r.Ok? ==> r.value.data == payload.value)
              && (r.Err? ==> r.error == IncompleteData)
  {
    var head :- ParseHead(buf, unmarshal);
    var payload := Decompress(head.rest);
    var publicInfo := head.value.content.publicInfo;
    if publicInfo.None? then Err(NilDereference)
    else
      var data :- DecodePayload(publicInfo.value.fileType, payload);
      Ok(Dataset(head.value, data, None))
  }
}
