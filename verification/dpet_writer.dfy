/** The container writer (dpet/writer.go): the fixed header, the six payload
    encoders and the device / file-type dispatch of `Write`.

    Compression is the identity here, so the bytes handed to the
    compressor are the bytes of the file. The header serialiser is a
    parameter. The destination never fails: every write lands. */
module DpetWriter {
  import opened Errors
  import opened LittleEndian
  import opened Cursor
  import opened DpetModel
  import DpetkParse

  /** What a call leaves behind: the bytes already written, and the error
      it returned or the panic it stopped on. */
  datatype WriteOutcome = WriteOutcome(out: Bytes, err: Option<Error>)

  /** The compressor, as the identity. */
  function Compress(s: Bytes): Bytes {
    s
  }

  // ---------------------------------------------------------------------
  // Header.

  /** `writeHead`: magic, the method tag 0, the 32-bit length of the
      serialised header and the header itself. The tag and the length are
      the constants and the actual size, not the fields of the `Header`
      record. A serialiser failure returns after the first six bytes. */
  function WriteHead(content: PetFileHeader, marshal: PetFileHeader -> Option<Bytes>): (r: WriteOutcome)
    ensures 6 <= |r.out| && r.out[..4] == MagicNumber && r.out[4..6] == ToLE(MarshallMethodProto, 2)
    ensures marshal(content).None? <==> r.err.Some?
    ensures r.err.Some? ==> r.err == Some(MarshalError) && |r.out| == 6
    ensures r.err.None? ==>
              && |r.out| == 10 + |marshal(content).value|
              && r.out[6..10] == ToLE(|marshal(content).value| % 0x1_0000_0000, 4)
              && r.out[10..] == marshal(content).value
  {
    var prefix := MagicNumber + ToLE(MarshallMethodProto, 2);
    match marshal(content)
    case None => WriteOutcome(prefix, Some(MarshalError))
    case Some(c) => WriteOutcome(prefix + ToLE(|c| % 0x1_0000_0000, 4) + c, None)
  }

  // ---------------------------------------------------------------------
  // E180 payloads.

  /** One body, fields in declaration order; the two byte slices are
      written verbatim, whatever their length. */
  function EncodeBody(b: BDMInfoBody): (r: Bytes)
    ensures |r| == 6 + |b.time| + |b.energy|
    ensures r[..2] == [b.headAndDU, b.bdm] && r[2..2 + |b.time|] == b.time
    ensures r[2 + |b.time|..4 + |b.time|] == [b.x, b.y]
    ensures r[4 + |b.time|..4 + |b.time| + |b.energy|] == b.energy
    ensures r[|r| - 2..] == [FromInt8(b.temperatureInt), b.temperatureAndTail]
  {
    [b.headAndDU, b.bdm] + b.time + [b.x, b.y] + b.energy + [FromInt8(b.temperatureInt), b.temperatureAndTail]
  }

  function EncodeBodies(bs: seq<BDMInfoBody>): (r: Bytes)
    ensures (forall i :: 0 <= i < |bs| ==> BodyWellSized(bs[i])) ==> |r| == 16 * |bs|
  {
    if |bs| == 0 then [] else EncodeBody(bs[0]) + EncodeBodies(bs[1..])
  }

  /** The eleven bytes in front of a block's bodies. `DataLen` is written
      as given, whatever the number of bodies. */
  function EncodeBlockHeader(info: BDMInfo): (r: Bytes)
    ensures |r| == 11
    ensures r[0] == info.bdmIndex && r[5] == info.groupNum && r[6] == info.groupIndex
    ensures r[1..3] == ToLE(info.ip, 2) && r[3..5] == ToLE(info.port, 2) && r[7..11] == ToLE(info.dataLen, 4)
  {
    [info.bdmIndex] + ToLE(info.ip, 2) + ToLE(info.port, 2) + [info.groupNum, info.groupIndex] + ToLE(info.dataLen, 4)
  }

  function EncodeBlock(info: BDMInfo): (r: Bytes)
    ensures |r| == 11 + |EncodeBodies(info.content)|
    ensures r[..11] == EncodeBlockHeader(info) && r[11..] == EncodeBodies(info.content)
  {
    EncodeBlockHeader(info) + EncodeBodies(info.content)
  }

  /** `writeRawDataE180`. */
  function EncodeRawE180(infos: seq<BDMInfo>): (r: Bytes)
    ensures |infos| == 0 <==> |r| == 0
  {
    if |infos| == 0 then [] else EncodeBlock(infos[0]) + EncodeRawE180(infos[1..])
  }

  function EncodeCoin(c: CoinInfo): (r: Bytes)
    ensures |r| == 16
    ensures r[..4] == ToLE(c.globalCrystalIndex, 4) && r[4..8] == ToLE(c.energy, 4) && r[8..] == ToLE(c.timeValue, 8)
  {
    ToLE(c.globalCrystalIndex, 4) + ToLE(c.energy, 4) + ToLE(c.timeValue, 8)
  }

  function EncodePair(p: CoinPair): (r: Bytes)
    ensures |r| == 32 && r[..16] == EncodeCoin(p.first) && r[16..] == EncodeCoin(p.second)
  {
    EncodeCoin(p.first) + EncodeCoin(p.second)
  }

  /** `writeListModeCoinDataE180`: 32 bytes per pair, pair `i` at offset
      `32 * i`. */
  function EncodeCoinE180(pairs: seq<CoinPair>): (r: Bytes)
    ensures |r| == 32 * |pairs|
    ensures forall i :: 0 <= i < |pairs| ==> Chunk(r, 32, i) == EncodePair(pairs[i])
  {
    if |pairs| == 0 then []
    else
      var r := EncodePair(pairs[0]) + EncodeCoinE180(pairs[1..]);
      ChunksOfTail(r, 32);
      assert r[32..] == EncodeCoinE180(pairs[1..]);
      r
  }

  /** `writeMichDataE180`: one 4-byte word per value. */
  function EncodeMichE180(values: seq<Float32Bits>): (r: Bytes)
    ensures |r| == 4 * |values|
    ensures forall i :: 0 <= i < |values| ==> r[4 * i..4 * i + 4] == ToLE(values[i], 4)
  {
    if |values| == 0 then []
    else
      var tail := EncodeMichE180(values[1..]);
      var r := ToLE(values[0], 4) + tail;
      assert forall i :: 1 <= i < |values| ==> r[4 * i..4 * i + 4] == tail[4 * (i - 1)..4 * (i - 1) + 4];
      r
  }

  // ---------------------------------------------------------------------
  // 930 payloads: the layouts the device-file parser reads.

  function EncodeRawItem(item: RawDataItem930): (r: Bytes)
    ensures |r| == |item.data| + 2 && r[..|item.data|] == item.data && r[|item.data|..] == ToLE(item.ip, 2)
  {
    item.data + ToLE(item.ip, 2)
  }

  /** `writeRawData930`: each block verbatim, then its 2-byte address. When
      every block has the device's block size, item `i` is record `i`. */
  function EncodeRaw930(items: seq<RawDataItem930>): (r: Bytes)
    ensures (forall i :: 0 <= i < |items| ==> |items[i].data| == DpetkParse.RawBlockLen) ==>
              && |r| == 1154 * |items|
              && forall i :: 0 <= i < |items| ==> Chunk(r, 1154, i) == EncodeRawItem(items[i])
  {
    if |items| == 0 then []
    else
      var r := EncodeRawItem(items[0]) + EncodeRaw930(items[1..]);
      if |items[0].data| == DpetkParse.RawBlockLen then
        ChunksOfTail(r, 1154);
        assert r[1154..] == EncodeRaw930(items[1..]);
        r
      else r
  }

  /** The channel word as `writeListModeCoinData930` computes it: the
      16-bit `Reserved<<12 + Channel`, then `ch &= 1<<15` for a crosstalk
      event, which keeps bit 15 and clears everything else. */
  function PackChannelAsWritten(item: ListModeDataItem930): (w: UInt16)
    ensures item.reserved < 8 && item.channel < 0x1000 && !item.xTalk ==>
              w == DpetkParse.ChannelWord(DpetkParse.ChannelFields(false, item.reserved, item.channel))
    ensures item.reserved < 8 && item.channel < 0x1000 && item.xTalk ==> w == 0
  {
    var ch := ((item.reserved * 0x1000) % 0x10000 + item.channel) % 0x10000;
    if item.xTalk then (if ch >= 0x8000 then 0x8000 else 0) else ch
  }

  /** The channel word with the crosstalk bit set (`ch |= 1<<15`), the
      packing the device-file parser's unpacking inverts. */
  function PackChannel(item: ListModeDataItem930): (w: UInt16)
    ensures item.reserved < 8 && item.channel < 0x1000 ==>
              w == DpetkParse.ChannelWord(DpetkParse.ChannelFields(item.xTalk, item.reserved, item.channel))
    ensures item.xTalk ==> w >= 0x8000
  {
    var ch := ((item.reserved * 0x1000) % 0x10000 + item.channel) % 0x10000;
    if item.xTalk && ch < 0x8000 then ch + 0x8000 else ch
  }

  /** One 16-byte listmode record around a given channel word. */
  function EncodeListModeRecord(item: ListModeDataItem930, word: UInt16): (r: Bytes)
    ensures |r| == 16
    ensures r[..2] == ToLE(item.ip, 2) && r[2..4] == ToLE(word, 2)
    ensures r[4..8] == ToLE(item.energy, 4) && r[8..] == ToLE(item.time, 8)
  {
    ToLE(item.ip, 2) + ToLE(word, 2) + ToLE(item.energy, 4) + ToLE(item.time, 8)
  }

  /** `writeListModeCoinData930` as written. */
  function EncodeListMode930AsWritten(records: seq<ListModeDataItem930>): (r: Bytes)
    ensures |r| == 16 * |records|
    ensures forall i :: 0 <= i < |records| ==>
              Chunk(r, 16, i) == EncodeListModeRecord(records[i], PackChannelAsWritten(records[i]))
  {
    if |records| == 0 then []
    else
      var r := EncodeListModeRecord(records[0], PackChannelAsWritten(records[0]))
               + EncodeListMode930AsWritten(records[1..]);
      ChunksOfTail(r, 16);
      assert r[16..] == EncodeListMode930AsWritten(records[1..]);
      r
  }

  /** `writeListModeCoinData930` with the crosstalk bit set. */
  function EncodeListMode930(records: seq<ListModeDataItem930>): (r: Bytes)
    ensures |r| == 16 * |records|
    ensures forall i :: 0 <= i < |records| ==>
              Chunk(r, 16, i) == EncodeListModeRecord(records[i], PackChannel(records[i]))
  {
    if |records| == 0 then []
    else
      var r := EncodeListModeRecord(records[0], PackChannel(records[0])) + EncodeListMode930(records[1..]);
      ChunksOfTail(r, 16);
      assert r[16..] == EncodeListMode930(records[1..]);
      r
  }

  /** `writeMichData930`: one 2-byte word per value. */
  function EncodeMich930(words: seq<UInt16>): (r: Bytes)
    ensures |r| == 2 * |words|
    ensures forall i :: 0 <= i < |words| ==> r[2 * i..2 * i + 2] == ToLE(words[i], 2)
  {
    if |words| == 0 then []
    else
      var tail := EncodeMich930(words[1..]);
      var r := ToLE(words[0], 2) + tail;
      assert forall i :: 1 <= i < |words| ==> r[2 * i..2 * i + 2] == tail[2 * (i - 1)..2 * (i - 1) + 2];
      r
  }

  // ---------------------------------------------------------------------
  // Dispatch.

  /** A payload writer that did not run into a nil payload. */
  function Done(out: Bytes): WriteOutcome {
    WriteOutcome(out, None)
  }

  /** `writeData930` as written: the payload is what the type assertion
      for the file type finds in `data`. A failed assertion leaves a nil
      pointer, which the raw and listmode writers dereference, and a nil
      slice, which the mich writer writes as nothing. Listmode records go
      through `writeListModeCoinData930` as written, so a crosstalk record
      loses its channel word. */
  function WriteData930(fileType: int, data: Payload): (r: WriteOutcome)
    ensures r.err == Some(UnknownFileType) <==>
              fileType !in {FileTypeRawData, FileTypeListModeCoin, FileTypeMich}
    ensures r.err == Some(NilDereference) <==>
              || (fileType == FileTypeRawData && !data.Raw930?)
              || (fileType == FileTypeListModeCoin && !data.ListMode930?)
    ensures r.err.Some? ==> r.out == []
    ensures fileType == FileTypeMich && !data.Mich930? ==> r == Done([])
    ensures fileType == FileTypeRawData && data.Raw930? ==> r == Done(EncodeRaw930(data.items))
    ensures fileType == FileTypeListModeCoin && data.ListMode930? ==> r == Done(EncodeListMode930AsWritten(data.records))
    ensures fileType == FileTypeMich && data.Mich930? ==> r == Done(EncodeMich930(data.words))
  {
    if fileType == FileTypeRawData then
      if data.Raw930? then Done(EncodeRaw930(data.items)) else WriteOutcome([], Some(NilDereference))
    else if fileType == FileTypeListModeCoin then
      if data.ListMode930? then Done(EncodeListMode930AsWritten(data.records)) else WriteOutcome([], Some(NilDereference))
    else if fileType == FileTypeMich then
      if data.Mich930? then Done(EncodeMich930(data.words)) else Done([])
    else
      WriteOutcome([], Some(UnknownFileType))
  }

  /** `writeData930` with the corrected listmode writer: it differs from
      the code as written only for a listmode payload, whose crosstalk
      records keep their channel word. */
  function WriteData930Corrected(fileType: int, data: Payload): (r: WriteOutcome)
    ensures r.err == WriteData930(fileType, data).err
    ensures !(fileType == FileTypeListModeCoin && data.ListMode930?) ==> r == WriteData930(fileType, data)
    ensures fileType == FileTypeListModeCoin && data.ListMode930? ==> r == Done(EncodeListMode930(data.records))
  {
    if fileType == FileTypeListModeCoin && data.ListMode930? then Done(EncodeListMode930(data.records))
    else WriteData930(fileType, data)
  }

  /** `writeDataE180`, with the same type-assertion behaviour. */
  function WriteDataE180(fileType: int, data: Payload): (r: WriteOutcome)
    ensures r.err == Some(UnknownFileType) <==>
              fileType !in {FileTypeRawData, FileTypeListModeCoin, FileTypeMich}
    ensures r.err == Some(NilDereference) <==>
              || (fileType == FileTypeRawData && !data.RawE180?)
              || (fileType == FileTypeListModeCoin && !data.CoinE180?)
    ensures r.err.Some? ==> r.out == []
    ensures fileType == FileTypeMich && !data.MichE180? ==> r == Done([])
    ensures fileType == FileTypeRawData && data.RawE180? ==> r == Done(EncodeRawE180(data.infos))
    ensures fileType == FileTypeListModeCoin && data.CoinE180? ==> r == Done(EncodeCoinE180(data.pairs))
    ensures fileType == FileTypeMich && data.MichE180? ==> r == Done(EncodeMichE180(data.values))
  {
    if fileType == FileTypeRawData then
      if data.RawE180? then Done(EncodeRawE180(data.infos)) else WriteOutcome([], Some(NilDereference))
    else if fileType == FileTypeListModeCoin then
      if data.CoinE180? then Done(EncodeCoinE180(data.pairs)) else WriteOutcome([], Some(NilDereference))
    else if fileType == FileTypeMich then
      if data.MichE180? then Done(EncodeMichE180(data.values)) else Done([])
    else
      WriteOutcome([], Some(UnknownFileType))
  }

  /** The header sections `Write` reads before writing anything. */
  predicate HasWriteSections(ds: Dataset) {
    ds.header.content.publicInfo.Some? && ds.header.content.scannerInfo.Some?
  }

  /** The body of `Write`, with the value handed to the payload writers and
      the 930 payload writer as parameters. */
  function WriteWith(ds: Dataset, marshal: PetFileHeader -> Option<Bytes>, passed: Payload,
                     write930: (int, Payload) -> WriteOutcome): (r: WriteOutcome)
    ensures !HasWriteSections(ds) <==> r == WriteOutcome([], Some(NilDereference))
    ensures HasWriteSections(ds) && marshal(ds.header.content).None? ==>
              r == WriteOutcome(MagicNumber + ToLE(MarshallMethodProto, 2), Some(MarshalError))
    ensures HasWriteSections(ds) && marshal(ds.header.content).Some? ==>
              var head := WriteHead(ds.header.content, marshal).out;
              var device := DeviceOf(ds.header.content.scannerInfo.value);
              var fileType := ds.header.content.publicInfo.value.fileType;
              && |head| <= |r.out| && r.out[..|head|] == head
              && (ds.dataBuf.Some? ==> r == Done(head + ds.dataBuf.value))
              && (ds.dataBuf.None? && device != Device930 && device != DeviceE180 ==>
                    r == WriteOutcome(head, Some(UnknownDrive)))
              && (ds.dataBuf.None? && device == Device930 ==>
                    r == WriteOutcome(head + write930(fileType, passed).out, write930(fileType, passed).err))
              && (ds.dataBuf.None? && device == DeviceE180 ==>
                    r == WriteOutcome(head + WriteDataE180(fileType, passed).out, WriteDataE180(fileType, passed).err))
  {
    var content := ds.header.content;
    if content.publicInfo.None? || content.scannerInfo.None? then WriteOutcome([], Some(NilDereference))
    else
      var fileType := content.publicInfo.value.fileType;
      var device := DeviceOf(content.scannerInfo.value);
      var head := WriteHead(content, marshal);
      if head.err.Some? then head
      else if ds.dataBuf.Some? then Done(head.out + Compress(ds.dataBuf.value))
      else if device == Device930 then
        var body := write930(fileType, passed);
        WriteOutcome(head.out + body.out, body.err)
      else if device == DeviceE180 then
        var body := WriteDataE180(fileType, passed);
        WriteOutcome(head.out + body.out, body.err)
      else
        WriteOutcome(head.out, Some(UnknownDrive))
  }

  /** `Write(dataset, writer)`, corrected: it hands the payload writers
      `dataset.Data`, and the 930 device gets the corrected listmode
      writer. */
  function Write(ds: Dataset, marshal: PetFileHeader -> Option<Bytes>): (r: WriteOutcome)
    ensures !HasWriteSections(ds) ==> r == WriteOutcome([], Some(NilDereference))
    ensures HasWriteSections(ds) && marshal(ds.header.content).None? ==>
              r == WriteOutcome(MagicNumber + ToLE(MarshallMethodProto, 2), Some(MarshalError))
    ensures HasWriteSections(ds) && marshal(ds.header.content).Some? ==>
              var head := WriteHead(ds.header.content, marshal).out;
              var device := DeviceOf(ds.header.content.scannerInfo.value);
              var fileType := ds.header.content.publicInfo.value.fileType;
              && |head| <= |r.out| && r.out[..|head|] == head
              && (ds.dataBuf.Some? ==> r == Done(head + ds.dataBuf.value))
              && (ds.dataBuf.None? && device != Device930 && device != DeviceE180 ==>
                    r == WriteOutcome(head, Some(UnknownDrive)))
              && (ds.dataBuf.None? && device == Device930 ==>
                    r.out[|head|..] == WriteData930Corrected(fileType, ds.data).out
                    && r.err == WriteData930Corrected(fileType, ds.data).err)
              && (ds.dataBuf.None? && device == DeviceE180 ==>
                    r.out[|head|..] == WriteDataE180(fileType, ds.data).out && r.err == WriteDataE180(fileType, ds.data).err)
  {
    WriteWith(ds, marshal, ds.data, WriteData930Corrected)
  }

  /** `Write` as written: it hands the payload writers the `*Dataset`
      itself, which none of their type assertions match, so they see the
      same nil a missing payload gives. */
  function WriteAsWritten(ds: Dataset, marshal: PetFileHeader -> Option<Bytes>): (r: WriteOutcome)
    ensures !HasWriteSections(ds) ==> r == WriteOutcome([], Some(NilDereference))
    ensures HasWriteSections(ds) && marshal(ds.header.content).None? ==>
              r == WriteOutcome(MagicNumber + ToLE(MarshallMethodProto, 2), Some(MarshalError))
    ensures HasWriteSections(ds) && marshal(ds.header.content).Some? ==>
              var head := WriteHead(ds.header.content, marshal).out;
              var device := DeviceOf(ds.header.content.scannerInfo.value);
              var fileType := ds.header.content.publicInfo.value.fileType;
              && (ds.dataBuf.Some? ==> r == Done(head + ds.dataBuf.value))
              && (ds.dataBuf.None? && device != Device930 && device != DeviceE180 ==>
                    r == WriteOutcome(head, Some(UnknownDrive)))
              && (ds.dataBuf.None? && (device == Device930 || device == DeviceE180) ==>
                    && (fileType !in {FileTypeRawData, FileTypeListModeCoin, FileTypeMich} ==>
                          r == WriteOutcome(head, Some(UnknownFileType)))
                    && (fileType in {FileTypeRawData, FileTypeListModeCoin} ==>
                          r == WriteOutcome(head, Some(NilDereference)))
                    && (fileType == FileTypeMich ==> r == Done(head)))
  {
    WriteWith(ds, marshal, NoData, WriteData930)
  }
}
