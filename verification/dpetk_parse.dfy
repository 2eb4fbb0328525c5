/** The 930 device-file parser (dpetk/parse.go).

    The stream is read front to back: PublicInfo (which starts with a
    16-byte magic read as text and thrown away), DeviceInfo, then the
    sections the `Type` discriminant calls for, then either the typed
    payload or a verbatim copy of the remainder.
    A read that Go performs with `mustNext…` and that finds too few bytes
    panics; here it is `Err(IncompleteData)`. A text field that the text
    policy cannot decode panics too: `Err(IndexOutOfRange)`. */
module DpetkParse {
  import opened Errors
  import opened LittleEndian
  import opened Cursor
  import opened DpetkText
  import opened DpetkModel

  const MagicLen: nat := 16
  const PublicInfoLen: nat := 44
  const DeviceInfoLen: nat := 96
  const AcquisitionInfoLen: nat := 360
  const ImageInfoLen: nat := 122
  const DataInfoLen: nat := 10

  /** Width of one raw sample block of the 930 payload. */
  const RawBlockLen: nat := 1152
  /** A raw record: the sample block and a 16-bit board address. */
  const RawRecordLen: nat := 1154
  /** A listmode record: address, channel word, float32 energy, float64 time. */
  const ListmodeRecordLen: nat := 16

  // ---------------------------------------------------------------------
  // Fields inside a section whose length has been checked.

  /** A text field that, when the stream holds all of it, decodes under
      the policy. Fields are read front to back, so the first field that
      is there in full and does not decode is where a section panics. */
  predicate TextFits(text: TextPolicy, s: Bytes, off: nat, n: nat) {
    off + n <= |s| ==> DecodeText(text, s[off..off + n]).Ok?
  }

  function TextAt(text: TextPolicy, s: Bytes, off: nat, n: nat): string
    requires off + n <= |s| && TextFits(text, s, off, n)
  {
    DecodeText(text, s[off..off + n]).value
  }

  /** The magic and SoftwareVersion fields of PublicInfo. */
  predicate PublicTextsFit(text: TextPolicy, s: Bytes) {
    TextFits(text, s, 0, 16) && TextFits(text, s, 24, 16)
  }

  /** Device and Serial. */
  predicate DeviceTextsFit(text: TextPolicy, s: Bytes) {
    TextFits(text, s, 4, 16) && TextFits(text, s, 20, 16)
  }

  /** InjectTime, Time, PatientID, StudyID, PatientName and PatientSex. */
  predicate AcquisitionTextsFit(text: TextPolicy, s: Bytes) {
    && TextFits(text, s, 10, 16) && TextFits(text, s, 26, 16)
    && TextFits(text, s, 88, 64) && TextFits(text, s, 152, 64)
    && TextFits(text, s, 216, 128) && TextFits(text, s, 344, 8)
  }

  /** ReconMethod and ReconSoftwareVersion. */
  predicate ImageTextsFit(text: TextPolicy, s: Bytes) {
    TextFits(text, s, 22, 16) && TextFits(text, s, 98, 16)
  }

  function F32sAt(s: Bytes, off: nat, count: nat): (v: seq<Float32Bits>)
    requires off + 4 * count <= |s|
    ensures |v| == count
    ensures forall i :: 0 <= i < count ==> ToLE(v[i], 4) == s[off + 4 * i..off + 4 * i + 4]
  {
    var d := F32s(s[off..], count);
    assert forall i :: 0 <= i < count ==> s[off..][4 * i..4 * i + 4] == s[off + 4 * i..off + 4 * i + 4];
    d.value
  }

  // ---------------------------------------------------------------------
  // Section readers.

  /** The 16-byte magic is read and thrown away (`nextString(16)` with its
      result and read error ignored, so a short magic surfaces as the next
      read's panic); the text policy still runs on it, and can panic. The
      fields follow it. */
  function ParsePublicInfo(text: TextPolicy, s: Bytes): (r: Result<Decoded<PublicInfo>>)
    ensures r.Ok? <==> PublicInfoLen <= |s| && PublicTextsFit(text, s)
    ensures r.Err? ==> (r.error == IndexOutOfRange <==> !PublicTextsFit(text, s))
    ensures r.Err? && text != FirstBlank ==> r.error == IncompleteData
    ensures r.Err? ==> r.error in {IncompleteData, IndexOutOfRange}
    ensures r.Ok? ==> r.value.rest == s[PublicInfoLen..]
    ensures r.Ok? ==>
              && ToLE(r.value.value.headerCRC, 2) == s[16..18]
              && ToLE(r.value.value.length, 4) == s[18..22]
              && ToLE(r.value.value.fileType, 2) == s[22..24]
              && r.value.value.fileType == FileTypeOf(s)
              && r.value.value.softwareVersion == DecodeText(text, s[24..40]).value
              && ToLE(r.value.value.headerLength, 4) == s[40..44]
  {
    if !PublicTextsFit(text, s) then Err(IndexOutOfRange)
    else if |s| < PublicInfoLen then Err(IncompleteData)
    else
      Ok(Decoded(PublicInfo(U16At(s, MagicLen), U32At(s, 18), U16At(s, 22), TextAt(text, s, 24, 16), U32At(s, 40)),
                 s[PublicInfoLen..]))
  }

  function ParseDeviceInfo(text: TextPolicy, s: Bytes): (r: Result<Decoded<DeviceInfo>>)
    ensures r.Ok? <==> DeviceInfoLen <= |s| && DeviceTextsFit(text, s)
    ensures r.Err? ==> (r.error == IndexOutOfRange <==> !DeviceTextsFit(text, s))
    ensures r.Err? && text != FirstBlank ==> r.error == IncompleteData
    ensures r.Err? ==> r.error in {IncompleteData, IndexOutOfRange}
    ensures r.Ok? ==> r.value.rest == s[DeviceInfoLen..]
    ensures r.Ok? ==>
              && ToLE(r.value.value.length, 4) == s[0..4]
              && r.value.value.device == DecodeText(text, s[4..20]).value
              && r.value.value.serial == DecodeText(text, s[20..36]).value
              && ToLE(r.value.value.axisDetectors, 2) == s[36..38]
              && ToLE(r.value.value.transDetectors, 2) == s[38..40]
              && ToLE(r.value.value.detectorsRings, 2) == s[40..42]
              && ToLE(r.value.value.detectorsChannels, 2) == s[42..44]
              && ToLE(r.value.value.ipCounts, 2) == s[44..46]
              && ToLE(r.value.value.ipStart, 2) == s[46..48]
              && ToLE(r.value.value.channelCounts, 2) == s[48..50]
              && ToLE(r.value.value.channelStart, 2) == s[50..52]
              && |r.value.value.mvtThresholds| == 8
              && |r.value.value.mvtParameters| == 3
    ensures r.Ok? ==> forall i :: 0 <= i < 8 ==> ToLE(r.value.value.mvtThresholds[i], 4) == s[52 + 4 * i..56 + 4 * i]
    ensures r.Ok? ==> forall i :: 0 <= i < 3 ==> ToLE(r.value.value.mvtParameters[i], 4) == s[84 + 4 * i..88 + 4 * i]
  {
    if !DeviceTextsFit(text, s) then Err(IndexOutOfRange)
    else if |s| < DeviceInfoLen then Err(IncompleteData)
    else
      Ok(Decoded(DeviceInfo(U32At(s, 0), TextAt(text, s, 4, 16), TextAt(text, s, 20, 16),
                            U16At(s, 36), U16At(s, 38), U16At(s, 40), U16At(s, 42),
                            U16At(s, 44), U16At(s, 46), U16At(s, 48), U16At(s, 50),
                            F32sAt(s, 52, 8), F32sAt(s, 84, 3)),
                 s[DeviceInfoLen..]))
  }

  /** A device name filling all sixteen bytes, with no zero byte, panics
      under the package's text policy; the corrected policy reads it. */
  lemma DeviceNameWithoutZero(s: Bytes)
    requires DeviceInfoLen <= |s| && 0 !in s[4..20]
    ensures ParseDeviceInfo(FirstBlank, s) == Err(IndexOutOfRange)
    ensures ParseDeviceInfo(Trimmed, s).Ok?
  {
    assert s[4..4 + 16] == s[4..20];
  }

  function ParseAcquisitionInfo(text: TextPolicy, s: Bytes): (r: Result<Decoded<AcquisitionInfo>>)
    ensures r.Ok? <==> AcquisitionInfoLen <= |s| && AcquisitionTextsFit(text, s)
    ensures r.Err? ==> (r.error == IndexOutOfRange <==> !AcquisitionTextsFit(text, s))
    ensures r.Err? && text != FirstBlank ==> r.error == IncompleteData
    ensures r.Err? ==> r.error in {IncompleteData, IndexOutOfRange}
    ensures r.Ok? ==> r.value.rest == s[AcquisitionInfoLen..]
    ensures r.Ok? ==>
              && ToLE(r.value.value.length, 4) == s[0..4]
              && ToLE(r.value.value.isotope, 2) == s[4..6]
              && ToLE(r.value.value.activity, 4) == s[6..10]
              && r.value.value.injectTime == DecodeText(text, s[10..26]).value
              && r.value.value.time == DecodeText(text, s[26..42]).value
              && ToLE(r.value.value.duration, 2) == s[42..44]
              && ToLE(r.value.value.timeWindow, 4) == s[44..48]
              && ToLE(r.value.value.delayWindow, 4) == s[48..52]
              && ToLE(r.value.value.xTalkWindow, 4) == s[52..56]
              && |r.value.value.energyWindow| == 2
              && ToLE(r.value.value.energyWindow[0], 4) == s[56..60]
              && ToLE(r.value.value.energyWindow[1], 4) == s[60..64]
              && ToLE(r.value.value.positionWindow, 2) == s[64..66]
              && ToLE(r.value.value.corrected, 2) == s[66..68]
              && ToLE(r.value.value.tablePosition, 4) == s[68..72]
              && ToLE(r.value.value.tableHeight, 4) == s[72..76]
              && ToLE(r.value.value.petCtSpacing, 4) == s[76..80]
              && ToLE(r.value.value.tableCount, 2) == s[80..82]
              && ToLE(r.value.value.tableIndex, 2) == s[82..84]
              && ToLE(r.value.value.scanLengthPerTable, 4) == s[84..88]
              && r.value.value.patientID == DecodeText(text, s[88..152]).value
              && r.value.value.studyID == DecodeText(text, s[152..216]).value
              && r.value.value.patientName == DecodeText(text, s[216..344]).value
              && r.value.value.patientSex == DecodeText(text, s[344..352]).value
              && ToLE(r.value.value.patientHeight, 4) == s[352..356]
              && ToLE(r.value.value.patientWeight, 4) == s[356..360]
  {
    if !AcquisitionTextsFit(text, s) then Err(IndexOutOfRange)
    else if |s| < AcquisitionInfoLen then Err(IncompleteData)
    else
      Ok(Decoded(AcquisitionInfo(U32At(s, 0), U16At(s, 4), U32At(s, 6), TextAt(text, s, 10, 16),
                                 TextAt(text, s, 26, 16), U16At(s, 42), U32At(s, 44), U32At(s, 48),
                                 U32At(s, 52), [U32At(s, 56), U32At(s, 60)], U16At(s, 64),
                                 U16At(s, 66), U32At(s, 68), U32At(s, 72), U32At(s, 76),
                                 U16At(s, 80), U16At(s, 82), U32At(s, 84), TextAt(text, s, 88, 64),
                                 TextAt(text, s, 152, 64), TextAt(text, s, 216, 128), TextAt(text, s, 344, 8),
                                 U32At(s, 352), U32At(s, 356)),
                 s[AcquisitionInfoLen..]))
  }

  function ParseImageInfo(text: TextPolicy, s: Bytes): (r: Result<Decoded<ImageInfo>>)
    ensures r.Ok? <==> ImageInfoLen <= |s| && ImageTextsFit(text, s)
    ensures r.Err? ==> (r.error == IndexOutOfRange <==> !ImageTextsFit(text, s))
    ensures r.Err? && text != FirstBlank ==> r.error == IncompleteData
    ensures r.Err? ==> r.error in {IncompleteData, IndexOutOfRange}
    ensures r.Ok? ==> r.value.rest == s[ImageInfoLen..]
    ensures r.Ok? ==>
              && ToLE(r.value.value.length, 4) == s[0..4]
              && ToLE(r.value.value.imageSizeRows, 2) == s[4..6]
              && ToLE(r.value.value.imageSizeCols, 2) == s[6..8]
              && ToLE(r.value.value.imageSizeSlices, 2) == s[8..10]
              && ToLE(r.value.value.imageRowPixelSize, 4) == s[10..14]
              && ToLE(r.value.value.imageColumnPixelSize, 4) == s[14..18]
              && ToLE(r.value.value.imageSliceThickness, 4) == s[18..22]
              && r.value.value.reconMethod == DecodeText(text, s[22..38]).value
              && ToLE(r.value.value.maxRingDiffNum, 2) == s[38..40]
              && ToLE(r.value.value.subsetNum, 2) == s[40..42]
              && ToLE(r.value.value.iterNum, 2) == s[42..44]
              && ToLE(r.value.value.attnCalibration, 2) == s[44..46]
              && ToLE(r.value.value.scatCalibration, 2) == s[46..48]
              && |r.value.value.scatPara| == 6
              && |r.value.value.tvPara| == 2
              && |r.value.value.petCtFovOffset| == 3
              && ToLE(r.value.value.ctRotationAngle, 4) == s[92..96]
              && ToLE(r.value.value.seriesNumber, 2) == s[96..98]
              && r.value.value.reconSoftwareVersion == DecodeText(text, s[98..114]).value
              && ToLE(r.value.value.promptsCounts, 4) == s[114..118]
              && ToLE(r.value.value.delayCounts, 4) == s[118..122]
    ensures r.Ok? ==> forall i :: 0 <= i < 6 ==> ToLE(r.value.value.scatPara[i], 4) == s[48 + 4 * i..52 + 4 * i]
    ensures r.Ok? ==> forall i :: 0 <= i < 2 ==> ToLE(r.value.value.tvPara[i], 4) == s[72 + 4 * i..76 + 4 * i]
    ensures r.Ok? ==> forall i :: 0 <= i < 3 ==> ToLE(r.value.value.petCtFovOffset[i], 4) == s[80 + 4 * i..84 + 4 * i]
  {
    if !ImageTextsFit(text, s) then Err(IndexOutOfRange)
    else if |s| < ImageInfoLen then Err(IncompleteData)
    else
      Ok(Decoded(ImageInfo(U32At(s, 0), U16At(s, 4), U16At(s, 6), U16At(s, 8), U32At(s, 10),
                           U32At(s, 14), U32At(s, 18), TextAt(text, s, 22, 16), U16At(s, 38),
                           U16At(s, 40), U16At(s, 42), U16At(s, 44), U16At(s, 46),
                           F32sAt(s, 48, 6), F32sAt(s, 72, 2), F32sAt(s, 80, 3), U32At(s, 92),
                           U16At(s, 96), TextAt(text, s, 98, 16), U32At(s, 114), U32At(s, 118)),
                 s[ImageInfoLen..]))
  }

  function ParseDataInfo(s: Bytes): (r: Result<Decoded<DataInfo>>)
    ensures r.Ok? <==> DataInfoLen <= |s|
    ensures r.Err? ==> r.error == IncompleteData
    ensures r.Ok? ==> r.value.rest == s[DataInfoLen..]
    ensures r.Ok? ==>
              && ToLE(r.value.value.length, 4) == s[0..4]
              && ToLE(r.value.value.dataLength, 4) == s[4..8]
              && ToLE(r.value.value.crc, 2) == s[8..10]
  {
    if |s| < DataInfoLen then Err(IncompleteData)
    else Ok(Decoded(DataInfo(U32At(s, 0), U32At(s, 4), U16At(s, 8)), s[DataInfoLen..]))
  }

  // ---------------------------------------------------------------------
  // The typed sections after DeviceInfo.

  /** Every type except the three calibration/spectrum maps carries an
      AcquisitionInfo section. */
  predicate HasAcquisitionInfo(fileType: UInt16) {
    !(EnergyCalibrationMap <= fileType <= EnergySpectrumData)
  }

  /** Only the types the switch does not name (the image types) carry an
      ImageInfo section. */
  predicate HasImageInfo(fileType: UInt16) {
    fileType > EnergySpectrumData
  }

  /** The bytes the typed sections occupy. */
  function SectionsLen(fileType: UInt16): nat {
    if HasImageInfo(fileType) then AcquisitionInfoLen + ImageInfoLen + DataInfoLen
    else if HasAcquisitionInfo(fileType) then AcquisitionInfoLen + DataInfoLen
    else DataInfoLen
  }

  datatype Sections = Sections(
    acquisitionInfo: Option<AcquisitionInfo>,
    imageInfo: Option<ImageInfo>,
    dataInfo: DataInfo)

  /** The text fields of the typed sections decode, where they are there
      in full; the image section, when present, follows acquisition. */
  predicate SectionTextsFit(text: TextPolicy, fileType: UInt16, s: Bytes) {
    && (HasAcquisitionInfo(fileType) ==> AcquisitionTextsFit(text, s))
    && (HasImageInfo(fileType) && AcquisitionInfoLen <= |s| ==> ImageTextsFit(text, s[AcquisitionInfoLen..]))
  }

  /** The `switch` on the file type, sections only: types 0-2 read
      AcquisitionInfo then DataInfo, types 3-5 DataInfo alone, every other
      type AcquisitionInfo, ImageInfo and DataInfo, in that order. */
  function ParseSections(text: TextPolicy, fileType: UInt16, s: Bytes): (r: Result<Decoded<Sections>>)
    ensures r.Ok? <==> SectionsLen(fileType) <= |s| && SectionTextsFit(text, fileType, s)
    ensures r.Err? ==> r.error in {IncompleteData, IndexOutOfRange}
    ensures r.Err? && SectionsLen(fileType) <= |s| ==> r.error == IndexOutOfRange
    ensures r.Err? && text != FirstBlank ==> r.error == IncompleteData
    ensures r.Ok? ==> r.value.rest == s[SectionsLen(fileType)..]
    ensures r.Ok? ==> (r.value.value.acquisitionInfo.Some? <==> HasAcquisitionInfo(fileType))
    ensures r.Ok? ==> (r.value.value.imageInfo.Some? <==> HasImageInfo(fileType))
    ensures r.Ok? && HasAcquisitionInfo(fileType) ==>
              && ParseAcquisitionInfo(text, s).Ok?
              && r.value.value.acquisitionInfo == Some(ParseAcquisitionInfo(text, s).value.value)
    ensures r.Ok? && HasImageInfo(fileType) ==>
              && ParseImageInfo(text, s[AcquisitionInfoLen..]).Ok?
              && r.value.value.imageInfo == Some(ParseImageInfo(text, s[AcquisitionInfoLen..]).value.value)
    ensures r.Ok? ==>
              && DataInfoLen <= SectionsLen(fileType) <= |s|
              && ParseDataInfo(s[SectionsLen(fileType) - DataInfoLen..]).Ok?
              && r.value.value.dataInfo == ParseDataInfo(s[SectionsLen(fileType) - DataInfoLen..]).value.value
  {
    if HasAcquisitionInfo(fileType) && !AcquisitionTextsFit(text, s) then Err(IndexOutOfRange)
    else if HasImageInfo(fileType) && AcquisitionInfoLen <= |s| && !ImageTextsFit(text, s[AcquisitionInfoLen..]) then
      Err(IndexOutOfRange)
    else if |s| < SectionsLen(fileType) then Err(IncompleteData)
    else
      var acq := if HasAcquisitionInfo(fileType) then Some(ParseAcquisitionInfo(text, s).value.value) else None;
      var img := if HasImageInfo(fileType) then Some(ParseImageInfo(text, s[AcquisitionInfoLen..]).value.value) else None;
      var data := ParseDataInfo(s[SectionsLen(fileType) - DataInfoLen..]).value.value;
      Ok(Decoded(Sections(acq, img, data), s[SectionsLen(fileType)..]))
  }

  // ---------------------------------------------------------------------
  // Payload records.

  /** Bit 15 of the channel word is the crosstalk flag, bits 12-14 are
      reserved, bits 0-11 are the channel number. */
  datatype ChannelFields = ChannelFields(xTalk: bool, reserved: UInt8, channel: UInt16)

  function CrossTalkBit(xTalk: bool): nat {
    if xTalk then 0x8000 else 0
  }

  /** The word whose bit fields are `f`, when each field fits its width. */
  function ChannelWord(f: ChannelFields): nat {
    CrossTalkBit(f.xTalk) + f.reserved * 0x1000 + f.channel
  }

  /** The fields are the word's unique split into a flag, three bits and
      twelve bits. */
  function UnpackChannel(w: UInt16): (f: ChannelFields)
    ensures f.reserved < 8 && f.channel < 0x1000
    ensures ChannelWord(f) == w
  {
    ChannelFields(w >= 0x8000, (w / 0x1000) % 8, w % 0x1000)
  }

  /** Unpacking inverts packing: a word built from in-range fields splits
      back into exactly those fields. */
  lemma UnpackChannelOfChannelWord(f: ChannelFields)
    requires f.reserved < 8 && f.channel < 0x1000
    ensures ChannelWord(f) < 0x10000 && UnpackChannel(ChannelWord(f)) == f
  {
    var w := ChannelWord(f);
    var b := if f.xTalk then 1 else 0;
    assert w == 0x1000 * (8 * b + f.reserved) + f.channel;
    DivModUnique(w, 0x1000, 8 * b + f.reserved, f.channel);
    DivModUnique(8 * b + f.reserved, 8, b, f.reserved);
  }

  /** One 1154-byte raw record: the sample block verbatim and the board
      address as a dotted string. */
  function RawRecord(rec: Bytes): (item: RawDataItem)
    requires |rec| == RawRecordLen
    ensures item.data == rec[..RawBlockLen]
    ensures ParseIPStr(item.ip) == Some(U16At(rec, RawBlockLen))
  {
    ParseIPStrOfToIPStr(U16At(rec, RawBlockLen));
    RawDataItem(rec[..RawBlockLen], ToIPStr(U16At(rec, RawBlockLen)))
  }

  /** One 16-byte listmode record. */
  function ListmodeRecord(rec: Bytes): (item: ListmodeDataItem)
    requires |rec| == ListmodeRecordLen
    ensures ParseIPStr(item.ip) == Some(U16At(rec, 0))
    ensures item.reserved < 8 && item.channel < 0x1000
    ensures ToLE(ChannelWord(ChannelFields(item.xTalk, item.reserved, item.channel)), 2) == rec[2..4]
    ensures ToLE(item.energy, 4) == rec[4..8]
    ensures ToLE(item.time, 8) == rec[8..16]
  {
    var ip := U16At(rec, 0);
    var word := U16At(rec, 2);
    var ch := UnpackChannel(word);
    var energy := U32At(rec, 4);
    var time := U64At(rec, 8);
    ParseIPStrOfToIPStr(ip);
    ListmodeDataItem(ToIPStr(ip), ch.xTalk, ch.reserved, ch.channel, energy, time)
  }

  /** `parseRawData`: blocks are read until fewer than 1152 bytes remain
      (those are consumed and dropped); a block not followed by its two
      address bytes panics. */
  function ParseRawData(s: Bytes): (r: Result<seq<RawDataItem>>)
    ensures r.Ok? <==> |s| % 1154 < RawBlockLen
    ensures r.Err? ==> r.error == IncompleteData
    ensures r.Ok? ==> |r.value| == |s| / 1154
    ensures r.Ok? ==> forall i: nat :: i < |r.value| ==>
              (i + 1) * 1154 <= |s| && r.value[i] == RawRecord(Chunk(s, 1154, i))
    decreases |s|
  {
    if |s| < RawBlockLen then Ok([])
    else if |s| < 1154 then Err(IncompleteData)
    else
      DivModStep(|s|, 1154);
      ChunksOfTail(s, 1154);
      var tail :- ParseRawData(s[1154..]);
      Ok([RawRecord(Chunk(s, 1154, 0))] + tail)
  }

  /** `parseListmodeData`: records are read until fewer than two bytes
      remain; a record cut short after its address panics. */
  function ParseListmodeData(s: Bytes): (r: Result<seq<ListmodeDataItem>>)
    ensures r.Ok? <==> |s| % 16 < 2
    ensures r.Err? ==> r.error == IncompleteData
    ensures r.Ok? ==> |r.value| == |s| / 16
    ensures r.Ok? ==> forall i: nat :: i < |r.value| ==>
              (i + 1) * 16 <= |s| && r.value[i] == ListmodeRecord(Chunk(s, 16, i))
    decreases |s|
  {
    if |s| < 2 then Ok([])
    else if |s| < 16 then Err(IncompleteData)
    else
      DivModStep(|s|, 16);
      ChunksOfTail(s, 16);
      var tail :- ParseListmodeData(s[16..]);
      Ok([ListmodeRecord(Chunk(s, 16, 0))] + tail)
  }

  /** `parseMichData`: 16-bit values until fewer than two bytes remain; a
      trailing odd byte is consumed and dropped. */
  function ParseMichData(s: Bytes): (r: seq<UInt16>)
    ensures |r| == |s| / 2
    ensures forall i :: 0 <= i < |r| ==> ToLE(r[i], 2) == s[2 * i..2 * i + 2]
    decreases |s|
  {
    if |s| < 2 then []
    else
      var tail := ParseMichData(s[2..]);
      assert forall i :: 1 <= i <= |tail| ==> s[2 * i..2 * i + 2] == s[2..][2 * (i - 1)..2 * i];
      [U16At(s, 0)] + tail
  }

  // ---------------------------------------------------------------------
  // The whole file.

  /** The payloads a parse can decode; at most one is non-empty. */
  datatype Payload = Payload(rawData: seq<RawDataItem>, listmodeData: seq<ListmodeDataItem>, michData: seq<UInt16>)

  /** Whether the payload of a file of this type decodes without a panic. */
  predicate PayloadDecodes(fileType: UInt16, s: Bytes) {
    && (fileType == RawDataType ==> |s| % 1154 < RawBlockLen)
    && (fileType == ListmodeDataType ==> |s| % 16 < 2)
  }

  /** The payload branch of the `switch`: raw, listmode and mich files
      decode their payload, every other type leaves it alone. */
  function ParsePayload(fileType: UInt16, s: Bytes): (r: Result<Payload>)
    ensures r.Ok? <==> PayloadDecodes(fileType, s)
    ensures r.Err? ==> r.error == IncompleteData
    ensures r.Ok? && fileType != RawDataType ==> r.value.rawData == []
    ensures r.Ok? && fileType != ListmodeDataType ==> r.value.listmodeData == []
    ensures r.Ok? && fileType != MichDataType ==> r.value.michData == []
    ensures r.Ok? && fileType == RawDataType ==> |r.value.rawData| == |s| / 1154
    ensures r.Ok? && fileType == ListmodeDataType ==> |r.value.listmodeData| == |s| / 16
    ensures r.Ok? && fileType == MichDataType ==> |r.value.michData| == |s| / 2
    ensures r.Ok? && fileType == RawDataType ==> ParseRawData(s) == Ok(r.value.rawData)
    ensures r.Ok? && fileType == ListmodeDataType ==> ParseListmodeData(s) == Ok(r.value.listmodeData)
    ensures r.Ok? && fileType == MichDataType ==> r.value.michData == ParseMichData(s)
  {
    if fileType == RawDataType then
      var raw :- ParseRawData(s);
      Ok(Payload(raw, [], []))
    else if fileType == ListmodeDataType then
      var listmode :- ParseListmodeData(s);
      Ok(Payload([], listmode, []))
    else if fileType == MichDataType then
      Ok(Payload([], [], ParseMichData(s)))
    else
      Ok(Payload([], [], []))
  }

  /** The bytes before the payload of a file of this type. */
  function HeaderLen(fileType: UInt16): nat {
    PublicInfoLen + DeviceInfoLen + SectionsLen(fileType)
  }

  /** The `Type` field, where a PublicInfo section is present. */
  function FileTypeOf(s: Bytes): (t: UInt16)
    requires PublicInfoLen <= |s|
    ensures ToLE(t, 2) == s[22..24]
  {
    U16At(s, 22)
  }

  /** The parser's `parse()` on the whole stream `s`; the package's
      `Parse(reader, parseData)` is this with the `FirstBlank` policy. With
      payload decoding switched off, everything after the sections is kept
      verbatim in `dataBuf`. */
  function Parse(s: Bytes, parseData: bool, text: TextPolicy): (r: Result<DataSet>)
    ensures r.Ok? <==>
              && ParsePublicInfo(text, s).Ok?
              && ParseDeviceInfo(text, s[PublicInfoLen..]).Ok?
              && ParseSections(text, FileTypeOf(s), s[PublicInfoLen + DeviceInfoLen..]).Ok?
              && (parseData ==> PayloadDecodes(FileTypeOf(s), s[HeaderLen(FileTypeOf(s))..]))
    ensures r.Err? ==> r.error in {IncompleteData, IndexOutOfRange}
    ensures r.Err? && text != FirstBlank ==> r.error == IncompleteData
    ensures r.Ok? ==> r.value.publicInfo.fileType == FileTypeOf(s)
    ensures r.Ok? ==> ParsePublicInfo(text, s) == Ok(Decoded(r.value.publicInfo, s[PublicInfoLen..]))
    ensures r.Ok? ==> ParseDeviceInfo(text, s[PublicInfoLen..])
                      == Ok(Decoded(r.value.deviceInfo, s[PublicInfoLen + DeviceInfoLen..]))
    ensures r.Ok? ==> ParseSections(text, FileTypeOf(s), s[PublicInfoLen + DeviceInfoLen..])
                      == Ok(Decoded(Sections(r.value.acquisitionInfo, r.value.imageInfo, r.value.dataInfo),
                                    s[HeaderLen(FileTypeOf(s))..]))
    ensures r.Ok? && !parseData ==>
              && r.value.dataBuf == Some(s[HeaderLen(FileTypeOf(s))..])
              && r.value.rawData == [] && r.value.listmodeData == [] && r.value.michData == []
    ensures r.Ok? && parseData ==>
              && r.value.dataBuf.None?
              && ParsePayload(FileTypeOf(s), s[HeaderLen(FileTypeOf(s))..])
                 == Ok(Payload(r.value.rawData, r.value.listmodeData, r.value.michData))
  {
    var pub :- ParsePublicInfo(text, s);
    var dev :- ParseDeviceInfo(text, pub.rest);
    DropDrop(s, PublicInfoLen, DeviceInfoLen);
    var fileType := FileTypeOf(s);
    var sections :- ParseSections(text, fileType, s[PublicInfoLen + DeviceInfoLen..]);
    DropDrop(s, PublicInfoLen + DeviceInfoLen, SectionsLen(fileType));
    var payload :- if parseData then ParsePayload(fileType, s[HeaderLen(fileType)..]) else Ok(Payload([], [], []));
    Ok(DataSet(pub.value, dev.value, sections.value.acquisitionInfo, sections.value.imageInfo,
               sections.value.dataInfo, payload.rawData, payload.listmodeData, payload.michData,
               if parseData then None else Some(s[HeaderLen(fileType)..])))
  }
}
