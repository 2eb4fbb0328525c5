/** What the container reader recovers from the writer's output, and what
    the device-file parser recovers from the 930 encoders. */
module DpetRoundTrip {
  import opened Errors
  import opened LittleEndian
  import opened Cursor
  import opened DpetkText
  import opened DpetModel
  import opened DpetWriter
  import opened DpetReader
  import DpetkModel
  import DpetkParse

  // ---------------------------------------------------------------------
  // Header.

  /** The reader takes back the header the writer wrote: method 0, the
      actual length of the serialised header, and its content. */
  lemma ParseHeadOfWriteHead(content: PetFileHeader, marshal: PetFileHeader -> Option<Bytes>,
                             unmarshal: Bytes -> Option<PetFileHeader>, rest: Bytes)
    requires marshal(content).Some? && |marshal(content).value| < 0x1_0000_0000
    requires unmarshal(marshal(content).value) == Some(content)
    ensures ParseHead(WriteHead(content, marshal).out + rest, unmarshal)
            == Ok(Decoded(Header(MarshallMethodProto, |marshal(content).value|, content), rest))
  {
    var c := marshal(content).value;
    var out := WriteHead(content, marshal).out;
    var buf := out + rest;
    assert buf[..4] == out[..4] && buf[4..6] == out[4..6];
    ToLEInjective(U16At(buf, 4), MarshallMethodProto, 2);
    assert U32At(buf, 6) == |c| by {
      assert |c| % 0x1_0000_0000 == |c|;
      assert buf[6..10] == out[6..10] == ToLE(|c|, 4);
      ToLEInjective(U32At(buf, 6), |c|, 4);
    }
    assert HeaderEnd(buf) == 10 + |c|;
    assert buf[10..10 + |c|] == c && buf[10 + |c|..] == rest;
  }

  // ---------------------------------------------------------------------
  // E180 payloads.

  lemma DecodeBodyOfEncode(b: BDMInfoBody, rest: Bytes)
    requires BodyWellSized(b)
    ensures DecodeBody(EncodeBody(b) + rest) == Ok(Decoded(b, rest))
  {
    var s := EncodeBody(b) + rest;
    assert s[2..10] == b.time && s[12..14] == b.energy && s[16..] == rest;
  }

  /** One encoded body in front of `n` decodable bodies makes `n + 1`. */
  lemma DecodeBodiesCons(b: BDMInfoBody, n: nat, tail: Bytes)
    requires BodyWellSized(b) && DecodeBodies(tail, n).Ok?
    ensures DecodeBodies(EncodeBody(b) + tail, n + 1)
            == Ok(Decoded([b] + DecodeBodies(tail, n).value.value, DecodeBodies(tail, n).value.rest))
  {
    var s := EncodeBody(b) + tail;
    DecodeBodyOfEncode(b, tail);
    assert s[16..] == tail;
  }

  lemma {:induction false} DecodeBodiesOfEncode(bs: seq<BDMInfoBody>, rest: Bytes)
    requires forall i :: 0 <= i < |bs| ==> BodyWellSized(bs[i])
    ensures DecodeBodies(EncodeBodies(bs) + rest, |bs|) == Ok(Decoded(bs, rest))
  {
    if |bs| > 0 {
      var tail := EncodeBodies(bs[1..]) + rest;
      DecodeBodiesOfEncode(bs[1..], rest);
      DecodeBodiesCons(bs[0], |bs| - 1, tail);
      AppendAssoc(EncodeBody(bs[0]), EncodeBodies(bs[1..]), rest);
      HeadTail(bs);
    }
  }

  lemma DecodeBlockHeaderOfEncode(info: BDMInfo, rest: Bytes)
    ensures DecodeBlockHeader(EncodeBlockHeader(info) + rest) == Ok(Decoded(info.(content := []), rest))
  {
    var s := EncodeBlockHeader(info) + rest;
    assert s[1..3] == ToLE(info.ip, 2) && s[3..5] == ToLE(info.port, 2) && s[7..11] == ToLE(info.dataLen, 4);
    ToLEInjective(U16At(s, 1), info.ip, 2);
    ToLEInjective(U16At(s, 3), info.port, 2);
    ToLEInjective(U32At(s, 7), info.dataLen, 4);
    assert s[11..] == rest;
  }

  /** A block the reader can take back: `DataLen` announces exactly the
      bodies that follow, and every body has its full width. */
  predicate BlockWellFormed(info: BDMInfo) {
    && info.dataLen / BDMInfoBodyByteLen == |info.content|
    && forall j :: 0 <= j < |info.content| ==> BodyWellSized(info.content[j])
  }

  /** One well-formed block in front of decodable blocks adds one block. */
  lemma DecodeBlocksCons(info: BDMInfo, tail: Bytes)
    requires BlockWellFormed(info) && DecodeBlocks(tail).Ok?
    ensures DecodeBlocks(EncodeBlock(info) + tail) == Ok([info] + DecodeBlocks(tail).value)
  {
    var s := EncodeBlock(info) + tail;
    var bodies := EncodeBodies(info.content) + tail;
    assert DecodeBlockHeader(s) == Ok(Decoded(info.(content := []), bodies)) by {
      AppendAssoc(EncodeBlockHeader(info), EncodeBodies(info.content), tail);
      DecodeBlockHeaderOfEncode(info, bodies);
    }
    assert DecodeBodies(bodies, info.dataLen / 16) == Ok(Decoded(info.content, tail)) by {
      DecodeBodiesOfEncode(info.content, tail);
    }
    assert info.(content := []).(content := info.content) == info;
  }

  /** `parseRawData` inverts `writeRawDataE180` on well-formed blocks. */
  lemma {:induction false} DecodeBlocksOfEncode(infos: seq<BDMInfo>)
    requires forall i :: 0 <= i < |infos| ==> BlockWellFormed(infos[i])
    ensures DecodeBlocks(EncodeRawE180(infos)) == Ok(infos)
  {
    if |infos| > 0 {
      DecodeBlocksOfEncode(infos[1..]);
      DecodeBlocksCons(infos[0], EncodeRawE180(infos[1..]));
      HeadTail(infos);
    }
  }

  lemma DecodeCoinOfEncode(c: CoinInfo, rest: Bytes)
    ensures DecodeCoin(EncodeCoin(c) + rest) == Ok(Decoded(c, rest))
  {
    var s := EncodeCoin(c) + rest;
    var r := DecodeCoin(s).value;
    assert s[..4] == ToLE(c.globalCrystalIndex, 4) && s[4..8] == ToLE(c.energy, 4);
    assert s[8..16] == ToLE(c.timeValue, 8) && s[16..] == rest;
    ToLEInjective(r.value.globalCrystalIndex, c.globalCrystalIndex, 4);
    ToLEInjective(r.value.energy, c.energy, 4);
    ToLEInjective(r.value.timeValue, c.timeValue, 8);
  }

  lemma DecodePairOfEncode(p: CoinPair, rest: Bytes)
    ensures DecodePair(EncodePair(p) + rest) == Ok(Decoded(p, rest))
  {
    var s := EncodePair(p) + rest;
    assert s == EncodeCoin(p.first) + (EncodeCoin(p.second) + rest);
    DecodeCoinOfEncode(p.first, EncodeCoin(p.second) + rest);
    DecodeCoinOfEncode(p.second, rest);
    assert s[16..] == EncodeCoin(p.second) + rest;
    assert 32 <= |s| && s[32..] == rest;
    assert DecodeCoin(s).value.value == p.first && DecodeCoin(s[16..]).value == Decoded(p.second, rest);
  }

  /** One encoded pair in front of decodable pairs adds one pair. */
  lemma DecodeCoinPairsCons(p: CoinPair, tail: Bytes)
    requires PairsFit(|tail|)
    ensures DecodeCoinPairs(EncodePair(p) + tail) == Ok([p] + DecodeCoinPairs(tail).value)
  {
    var s := EncodePair(p) + tail;
    DecodePairOfEncode(p, tail);
    assert s[32..] == tail;
  }

  /** `parseListModeCoinData` inverts `writeListModeCoinDataE180`. */
  lemma {:induction false} DecodeCoinPairsOfEncode(pairs: seq<CoinPair>)
    ensures DecodeCoinPairs(EncodeCoinE180(pairs)) == Ok(pairs)
  {
    if |pairs| > 0 {
      var tail := EncodeCoinE180(pairs[1..]);
      DecodeCoinPairsOfEncode(pairs[1..]);
      DecodeCoinPairsCons(pairs[0], tail);
      HeadTail(pairs);
    }
  }

  /** `parseMichData` inverts `writeMichDataE180`. */
  lemma DecodeMichOfEncode(values: seq<Float32Bits>)
    ensures DecodeMichE180(EncodeMichE180(values)) == values
  {
    var s := EncodeMichE180(values);
    var r := DecodeMichE180(s);
    forall i | 0 <= i < |values|
      ensures r[i] == values[i]
    {
      ToLEInjective(r[i], values[i], 4);
    }
  }

  /** The payloads the E180 writer emits and the reader takes back. */
  predicate E180Encodable(fileType: int, data: Payload) {
    || (fileType == FileTypeRawData && data.RawE180? && forall i :: 0 <= i < |data.infos| ==> BlockWellFormed(data.infos[i]))
    || (fileType == FileTypeListModeCoin && data.CoinE180?)
    || (fileType == FileTypeMich && data.MichE180?)
  }

  lemma DecodePayloadOfEncode(fileType: int, data: Payload)
    requires E180Encodable(fileType, data)
    ensures WriteDataE180(fileType, data).err.None?
    ensures DecodePayload(fileType, WriteDataE180(fileType, data).out) == Ok(data)
  {
    if fileType == FileTypeRawData {
      DecodeBlocksOfEncode(data.infos);
    } else if fileType == FileTypeListModeCoin {
      DecodeCoinPairsOfEncode(data.pairs);
    } else {
      DecodeMichOfEncode(data.values);
    }
  }

  /** A data set written for the "e180" device reads back with its header
      content and payload; the method and length fields are the ones the
      writer computed. */
  lemma ParseOfWriteE180(ds: Dataset, marshal: PetFileHeader -> Option<Bytes>,
                         unmarshal: Bytes -> Option<PetFileHeader>)
    requires HasWriteSections(ds) && DeviceOf(ds.header.content.scannerInfo.value) == DeviceE180
    requires ds.dataBuf.None?
    requires E180Encodable(ds.header.content.publicInfo.value.fileType, ds.data)
    requires marshal(ds.header.content).Some? && |marshal(ds.header.content).value| < 0x1_0000_0000
    requires unmarshal(marshal(ds.header.content).value) == Some(ds.header.content)
    ensures Write(ds, marshal).err.None?
    ensures Parse(Write(ds, marshal).out, unmarshal)
            == Ok(Dataset(Header(MarshallMethodProto, |marshal(ds.header.content).value|, ds.header.content), ds.data, None))
  {
    var content := ds.header.content;
    var fileType := content.publicInfo.value.fileType;
    var body := WriteDataE180(fileType, ds.data);
    DecodePayloadOfEncode(fileType, ds.data);
    ParseHeadOfWriteHead(content, marshal, unmarshal, body.out);
  }

  // ---------------------------------------------------------------------
  // The as-written `Write`.

  /** Handing the payload writers the data set instead of its payload
      loses a mich payload without a trace: the file holds the header
      only, and reads back with no values. */
  lemma WriteAsWrittenDropsMich(ds: Dataset, marshal: PetFileHeader -> Option<Bytes>,
                                unmarshal: Bytes -> Option<PetFileHeader>)
    requires HasWriteSections(ds) && DeviceOf(ds.header.content.scannerInfo.value) == DeviceE180
    requires ds.dataBuf.None? && ds.header.content.publicInfo.value.fileType == FileTypeMich
    requires ds.data.MichE180? && |ds.data.values| > 0
    requires marshal(ds.header.content).Some? && |marshal(ds.header.content).value| < 0x1_0000_0000
    requires unmarshal(marshal(ds.header.content).value) == Some(ds.header.content)
    ensures WriteAsWritten(ds, marshal).err.None?
    ensures Parse(WriteAsWritten(ds, marshal).out, unmarshal).Ok?
    ensures Parse(WriteAsWritten(ds, marshal).out, unmarshal).value.data == MichE180([]) != ds.data
  {
    ParseHeadOfWriteHead(ds.header.content, marshal, unmarshal, []);
    assert WriteHead(ds.header.content, marshal).out + [] == WriteHead(ds.header.content, marshal).out;
  }

  /** The as-written `Write` fails with a nil dereference on raw and
      coincidence data for either device, after the header is out. */
  lemma WriteAsWrittenPanicsOnRawAndCoincidence(ds: Dataset, marshal: PetFileHeader -> Option<Bytes>)
    requires HasWriteSections(ds) && ds.dataBuf.None? && marshal(ds.header.content).Some?
    requires DeviceOf(ds.header.content.scannerInfo.value) in {Device930, DeviceE180}
    requires ds.header.content.publicInfo.value.fileType in {FileTypeRawData, FileTypeListModeCoin}
    ensures WriteAsWritten(ds, marshal) == WriteOutcome(WriteHead(ds.header.content, marshal).out, Some(NilDereference))
  {
  }

  /** The name the package declares for the E180 device is not the one
      `Write` matches, as written or corrected. */
  lemma FileE180IsUnknownDrive(ds: Dataset, marshal: PetFileHeader -> Option<Bytes>)
    requires HasWriteSections(ds) && ds.dataBuf.None? && marshal(ds.header.content).Some?
    requires DeviceOf(ds.header.content.scannerInfo.value) == FileE180
    ensures Write(ds, marshal) == WriteOutcome(WriteHead(ds.header.content, marshal).out, Some(UnknownDrive))
    ensures WriteAsWritten(ds, marshal) == Write(ds, marshal)
  {
  }

  /** The two writers differ only in the payload they hand on, so they
      agree whenever no payload writer runs with a known file type: nil
      sections, a failed serialiser, a payload buffer, an unknown device or
      an unknown file type. */
  lemma WriteAsWrittenAgreesWithWrite(ds: Dataset, marshal: PetFileHeader -> Option<Bytes>)
    requires
      || !HasWriteSections(ds)
      || marshal(ds.header.content).None?
      || ds.dataBuf.Some?
      || DeviceOf(ds.header.content.scannerInfo.value) !in {Device930, DeviceE180}
      || ds.header.content.publicInfo.value.fileType !in {FileTypeRawData, FileTypeListModeCoin, FileTypeMich}
    ensures WriteAsWritten(ds, marshal) == Write(ds, marshal)
  {
  }

  // ---------------------------------------------------------------------
  // 930 payloads against the device-file parser.

  /** Raw records of the device's block size parse back into the same
      blocks, with the address in dotted form. */
  lemma ParseRawDataOfEncodeRaw930(items: seq<RawDataItem930>)
    requires forall i :: 0 <= i < |items| ==> |items[i].data| == DpetkParse.RawBlockLen
    ensures DpetkParse.ParseRawData(EncodeRaw930(items)).Ok?
    ensures var parsed := DpetkParse.ParseRawData(EncodeRaw930(items)).value;
            && |parsed| == |items|
            && forall i :: 0 <= i < |items| ==> parsed[i] == DpetkModel.RawDataItem(items[i].data, ToIPStr(items[i].ip))
  {
    var s := EncodeRaw930(items);
    assert |s| % 1154 == 0 && |s| / 1154 == |items|;
    var parsed := DpetkParse.ParseRawData(s).value;
    forall i | 0 <= i < |items|
      ensures parsed[i] == DpetkModel.RawDataItem(items[i].data, ToIPStr(items[i].ip))
    {
      RawRecordOfEncodeRawItem(items[i]);
    }
  }

  lemma RawRecordOfEncodeRawItem(item: RawDataItem930)
    requires |item.data| == DpetkParse.RawBlockLen
    ensures DpetkParse.RawRecord(EncodeRawItem(item)) == DpetkModel.RawDataItem(item.data, ToIPStr(item.ip))
  {
    var rec := EncodeRawItem(item);
    ToLEInjective(U16At(rec, 1152), item.ip, 2);
  }

  /** The record the device-file parser reads from one encoded listmode
      record, for a given channel word. */
  function ReadBack(item: ListModeDataItem930, word: UInt16): DpetkModel.ListmodeDataItem {
    DpetkParse.ListmodeRecord(EncodeListModeRecord(item, word))
  }

  lemma ReadBackFields(item: ListModeDataItem930, word: UInt16)
    ensures var f := DpetkParse.UnpackChannel(word);
            ReadBack(item, word) == DpetkModel.ListmodeDataItem(ToIPStr(item.ip), f.xTalk, f.reserved, f.channel, item.energy, item.time)
  {
    var rec := EncodeListModeRecord(item, word);
    ToLEInjective(U16At(rec, 0), item.ip, 2);
    ToLEInjective(U16At(rec, 2), word, 2);
    ToLEInjective(U32At(rec, 4), item.energy, 4);
    ToLEInjective(U64At(rec, 8), item.time, 8);
  }

  /** With the crosstalk bit set, a listmode record with in-range fields
      parses back into the same fields. */
  lemma ListmodeRecordOfPackChannel(item: ListModeDataItem930)
    requires item.reserved < 8 && item.channel < 0x1000
    ensures ReadBack(item, PackChannel(item))
            == DpetkModel.ListmodeDataItem(ToIPStr(item.ip), item.xTalk, item.reserved, item.channel, item.energy, item.time)
  {
    ReadBackFields(item, PackChannel(item));
    DpetkParse.UnpackChannelOfChannelWord(DpetkParse.ChannelFields(item.xTalk, item.reserved, item.channel));
  }

  /** The listmode payload written with the crosstalk bit set parses back
      record for record. */
  lemma ParseListmodeDataOfEncodeListMode930(records: seq<ListModeDataItem930>)
    requires forall i :: 0 <= i < |records| ==> records[i].reserved < 8 && records[i].channel < 0x1000
    ensures DpetkParse.ParseListmodeData(EncodeListMode930(records)).Ok?
    ensures var parsed := DpetkParse.ParseListmodeData(EncodeListMode930(records)).value;
            && |parsed| == |records|
            && forall i :: 0 <= i < |records| ==>
                 var item := records[i];
                 parsed[i] == DpetkModel.ListmodeDataItem(ToIPStr(item.ip), item.xTalk, item.reserved, item.channel, item.energy, item.time)
  {
    var s := EncodeListMode930(records);
    var parsed := DpetkParse.ParseListmodeData(s).value;
    forall i | 0 <= i < |records|
      ensures parsed[i] == ReadBack(records[i], PackChannel(records[i]))
    {
    }
    forall i | 0 <= i < |records|
      ensures var item := records[i];
              parsed[i] == DpetkModel.ListmodeDataItem(ToIPStr(item.ip), item.xTalk, item.reserved, item.channel, item.energy, item.time)
    {
      ListmodeRecordOfPackChannel(records[i]);
    }
  }

  /** As written, a crosstalk record parses back with the flag cleared and
      its reserved bits and channel number zeroed. */
  lemma ListmodeRecordOfPackChannelAsWritten(item: ListModeDataItem930)
    requires item.reserved < 8 && item.channel < 0x1000 && item.xTalk
    ensures ReadBack(item, PackChannelAsWritten(item))
            == DpetkModel.ListmodeDataItem(ToIPStr(item.ip), false, 0, 0, item.energy, item.time)
  {
    ReadBackFields(item, PackChannelAsWritten(item));
  }

  /** As written, a record without crosstalk still parses back intact. */
  lemma ListmodeRecordOfPackChannelAsWrittenPlain(item: ListModeDataItem930)
    requires item.reserved < 8 && item.channel < 0x1000 && !item.xTalk
    ensures ReadBack(item, PackChannelAsWritten(item))
            == DpetkModel.ListmodeDataItem(ToIPStr(item.ip), false, item.reserved, item.channel, item.energy, item.time)
  {
    ReadBackFields(item, PackChannelAsWritten(item));
    DpetkParse.UnpackChannelOfChannelWord(DpetkParse.ChannelFields(false, item.reserved, item.channel));
  }

  /** The listmode payload as written parses back record for record, except
      that a crosstalk record comes back with the flag cleared and its
      reserved bits and channel number zeroed. */
  lemma ParseListmodeDataOfEncodeListMode930AsWritten(records: seq<ListModeDataItem930>)
    requires forall i :: 0 <= i < |records| ==> records[i].reserved < 8 && records[i].channel < 0x1000
    ensures DpetkParse.ParseListmodeData(EncodeListMode930AsWritten(records)).Ok?
    ensures var parsed := DpetkParse.ParseListmodeData(EncodeListMode930AsWritten(records)).value;
            && |parsed| == |records|
            && forall i :: 0 <= i < |records| ==>
                 var item := records[i];
                 parsed[i] == DpetkModel.ListmodeDataItem(ToIPStr(item.ip), false,
                                if item.xTalk then 0 else item.reserved,
                                if item.xTalk then 0 else item.channel, item.energy, item.time)
  {
    var s := EncodeListMode930AsWritten(records);
    var parsed := DpetkParse.ParseListmodeData(s).value;
    forall i | 0 <= i < |records|
      ensures parsed[i] == ReadBack(records[i], PackChannelAsWritten(records[i]))
    {
    }
    forall i | 0 <= i < |records|
      ensures var item := records[i];
              parsed[i] == DpetkModel.ListmodeDataItem(ToIPStr(item.ip), false,
                             if item.xTalk then 0 else item.reserved,
                             if item.xTalk then 0 else item.channel, item.energy, item.time)
    {
      if records[i].xTalk {
        ListmodeRecordOfPackChannelAsWritten(records[i]);
      } else {
        ListmodeRecordOfPackChannelAsWrittenPlain(records[i]);
      }
    }
  }

  /** The word 0xA123 (crosstalk, reserved 2, channel 291) from board
      192.168.1.5: packed as written it becomes 0. */
  lemma CrossTalkExample()
    ensures var item := ListModeDataItem930(0x0105, true, 2, 291, 0, 0);
            && PackChannel(item) == 0xA123
            && PackChannelAsWritten(item) == 0
            && DpetkParse.UnpackChannel(0xA123) == DpetkParse.ChannelFields(true, 2, 291)
  {
    DpetkParse.UnpackChannelOfChannelWord(DpetkParse.ChannelFields(true, 2, 291));
  }

  /** Mich words parse back unchanged. */
  lemma ParseMichDataOfEncodeMich930(words: seq<UInt16>)
    ensures DpetkParse.ParseMichData(EncodeMich930(words)) == words
  {
    var r := DpetkParse.ParseMichData(EncodeMich930(words));
    forall i | 0 <= i < |words|
      ensures r[i] == words[i]
    {
      ToLEInjective(r[i], words[i], 2);
    }
  }

  // ---------------------------------------------------------------------
  // The 930 write dispatch, read back by the device-file parser.

  /** A 930 payload of the file's own type, with full sample blocks and
      in-range channel fields. */
  predicate Encodable930(fileType: int, data: Payload) {
    || (fileType == FileTypeRawData && data.Raw930?
        && forall i :: 0 <= i < |data.items| ==> |data.items[i].data| == DpetkParse.RawBlockLen)
    || (fileType == FileTypeListModeCoin && data.ListMode930?
        && forall i :: 0 <= i < |data.records| ==> data.records[i].reserved < 8 && data.records[i].channel < 0x1000)
    || (fileType == FileTypeMich && data.Mich930?)
  }

  /** What `writeData930` as written writes, the device-file parser's
      payload switch reads back record for record, with addresses in dotted
      form, except that crosstalk listmode records lose their channel word. */
  lemma ParsePayloadOfWriteData930(fileType: int, data: Payload)
    requires Encodable930(fileType, data)
    ensures WriteData930(fileType, data).err.None?
    ensures var parsed := DpetkParse.ParsePayload(fileType as UInt16, WriteData930(fileType, data).out);
            && parsed.Ok?
            && (data.Raw930? ==>
                  && |parsed.value.rawData| == |data.items|
                  && forall i :: 0 <= i < |data.items| ==>
                       parsed.value.rawData[i] == DpetkModel.RawDataItem(data.items[i].data, ToIPStr(data.items[i].ip)))
            && (data.ListMode930? ==>
                  && |parsed.value.listmodeData| == |data.records|
                  && forall i :: 0 <= i < |data.records| ==>
                       var item := data.records[i];
                       parsed.value.listmodeData[i]
                       == DpetkModel.ListmodeDataItem(ToIPStr(item.ip), false,
                            if item.xTalk then 0 else item.reserved,
                            if item.xTalk then 0 else item.channel, item.energy, item.time))
            && (data.Mich930? ==> parsed.value.michData == data.words)
  {
    if data.Raw930? {
      ParseRawDataOfEncodeRaw930(data.items);
    } else if data.ListMode930? {
      ParseListmodeDataOfEncodeListMode930AsWritten(data.records);
    } else {
      ParseMichDataOfEncodeMich930(data.words);
    }
  }

  /** What the corrected `writeData930` writes, the device-file parser's
      payload switch reads back record for record, with addresses in dotted
      form and crosstalk records intact. */
  lemma ParsePayloadOfWriteData930Corrected(fileType: int, data: Payload)
    requires Encodable930(fileType, data)
    ensures WriteData930Corrected(fileType, data).err.None?
    ensures var parsed := DpetkParse.ParsePayload(fileType as UInt16, WriteData930Corrected(fileType, data).out);
            && parsed.Ok?
            && (data.Raw930? ==>
                  && |parsed.value.rawData| == |data.items|
                  && forall i :: 0 <= i < |data.items| ==>
                       parsed.value.rawData[i] == DpetkModel.RawDataItem(data.items[i].data, ToIPStr(data.items[i].ip)))
            && (data.ListMode930? ==>
                  && |parsed.value.listmodeData| == |data.records|
                  && forall i :: 0 <= i < |data.records| ==>
                       var item := data.records[i];
                       parsed.value.listmodeData[i]
                       == DpetkModel.ListmodeDataItem(ToIPStr(item.ip), item.xTalk, item.reserved, item.channel, item.energy, item.time))
            && (data.Mich930? ==> parsed.value.michData == data.words)
  {
    if data.Raw930? {
      ParseRawDataOfEncodeRaw930(data.items);
    } else if data.ListMode930? {
      ParseListmodeDataOfEncodeListMode930(data.records);
    } else {
      ParseMichDataOfEncodeMich930(data.words);
    }
  }

  /** One crosstalk record (board 192.168.1.5, reserved 2, channel 291)
      written as a listmode file: as written, bytes 2..4 of the payload are
      zero; corrected, they hold the word 0xA123. */
  lemma WriteData930CrossTalkExample()
    ensures var data := ListMode930([ListModeDataItem930(0x0105, true, 2, 291, 0, 0)]);
            && WriteData930(FileTypeListModeCoin, data).out[2..4] == [0, 0]
            && WriteData930Corrected(FileTypeListModeCoin, data).out[2..4] == [0x23, 0xA1]
  {
    var item := ListModeDataItem930(0x0105, true, 2, 291, 0, 0);
    CrossTalkExample();
    assert Chunk(EncodeListMode930AsWritten([item]), 16, 0) == EncodeListModeRecord(item, 0);
    assert Chunk(EncodeListMode930([item]), 16, 0) == EncodeListModeRecord(item, 0xA123);
  }
}
