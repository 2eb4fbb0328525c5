/** The records of the "DPET" container (dpet/model.go) and the parts of
    its structured header that the codec and the converter look at.

    The header message itself is generated code that is not part of this
    model: its sections are kept as maps from field name to value, and only
    the fields the Go code reads by name (`FileType`, `DataTransferSyntax`,
    `MD5`, `Device`) are typed. */
module DpetModel {
  import opened Errors
  import opened LittleEndian

  /** The four bytes every container starts with. */
  const MagicNumber: Bytes := [0x44, 0x50, 0x45, 0x54]  // "DPET"

  /** The only header serialisation the container knows. */
  const MarshallMethodProto: UInt16 := 0

  /** Width of one body of an E180 raw block. */
  const BDMInfoBodyByteLen: nat := 16

  /** Device names as the package declares them, and as `Write` matches
      them. */
  const File930: string := "DigitMI-930"
  const FileE180: string := "180"
  const Device930: string := "930"
  const DeviceE180: string := "e180"

  // The `FileType` enumeration of the header, in declaration order.
  const FileTypeRawData: int := 0
  const FileTypeListModeCoin: int := 1
  const FileTypeMich: int := 2
  const FileTypeEnergyCalibrationMap: int := 3
  const FileTypeTimeCalibrationMap: int := 4
  const FileTypeEnergySpectrumData: int := 5
  const FileTypePositionTable: int := 6
  const FileTypeEnergyMap: int := 7

  datatype TransferSyntax = Deflate | OtherSyntax(code: int)

  /** A header field value, as copied by name from a device-file section. */
  datatype Value =
    | UIntValue(n: nat)
    | FloatValue(bits: nat)
    | TextValue(text: string)
    | UIntsValue(ns: seq<nat>)
    | FloatsValue(bitsList: seq<nat>)

  /** A header section: the fields that have been set, by name. A field
      absent from the map holds its zero value. */
  type Fields = map<string, Value>

  datatype PublicInfo = PublicInfo(fileType: int, dataTransferSyntax: TransferSyntax, md5: string)

  /** The structured header; a nil section pointer is `None`. */
  datatype PetFileHeader = PetFileHeader(
    publicInfo: Option<PublicInfo>,
    scanInfo: Option<Fields>,
    acquisitionInfo: Option<Fields>,
    scannerInfo: Option<Fields>,
    coincidenceInfo: Option<Fields>,
    imageInfo: Option<Fields>)

  /** The `Device` field of a scanner section; the empty string when unset. */
  function DeviceOf(scanner: Fields): (d: string)
    ensures "Device" in scanner && scanner["Device"].TextValue? ==> scanner["Device"] == TextValue(d)
    ensures d != "" ==> "Device" in scanner && scanner["Device"] == TextValue(d)
    ensures "Device" !in scanner ==> d == ""
  {
    if "Device" in scanner && scanner["Device"].TextValue? then scanner["Device"].text else ""
  }

  datatype Header = Header(marshalMethod: UInt16, dataLen: UInt32, content: PetFileHeader)

  // E180 payload records.

  datatype BDMInfoBody = BDMInfoBody(
    headAndDU: UInt8,
    bdm: UInt8,
    time: Bytes,
    x: UInt8,
    y: UInt8,
    energy: Bytes,
    temperatureInt: Int8,
    temperatureAndTail: UInt8)

  /** A body whose two slices have the widths the reader takes for them,
      so that it occupies `BDMInfoBodyByteLen` bytes. */
  predicate BodyWellSized(b: BDMInfoBody) {
    |b.time| == 8 && |b.energy| == 2
  }

  datatype BDMInfo = BDMInfo(
    bdmIndex: UInt8,
    ip: UInt16,
    port: UInt16,
    groupNum: UInt8,
    groupIndex: UInt8,
    dataLen: UInt32,
    content: seq<BDMInfoBody>)

  datatype CoinInfo = CoinInfo(globalCrystalIndex: UInt32, energy: Float32Bits, timeValue: Float64Bits)

  /** The two events of a coincidence. */
  datatype CoinPair = CoinPair(first: CoinInfo, second: CoinInfo)

  // 930 payload records.

  datatype RawDataItem930 = RawDataItem930(data: Bytes, ip: UInt16)

  datatype ListModeDataItem930 = ListModeDataItem930(
    ip: UInt16,
    xTalk: bool,
    reserved: UInt8,
    channel: UInt16,
    energy: Float32Bits,
    time: Float64Bits)

  /** The dynamically typed `Data` field: nil or one of the six payloads. */
  datatype Payload =
    | NoData
    | RawE180(infos: seq<BDMInfo>)
    | CoinE180(pairs: seq<CoinPair>)
    | MichE180(values: seq<Float32Bits>)
    | Raw930(items: seq<RawDataItem930>)
    | ListMode930(records: seq<ListModeDataItem930>)
    | Mich930(words: seq<UInt16>)

  /** A container data set. `dataBuf`, when present, is the payload kept as
      bytes instead of `data`. */
  datatype Dataset = Dataset(header: Header, data: Payload, dataBuf: Option<Bytes>)
}
