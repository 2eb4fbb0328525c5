/** The records of a 930 device file: the five header sections, the payload
    items, and the data set a parse produces (dpetk/model.go, dpetk/enum.go).

    A section pointer that the parser leaves nil is `None`; floating-point
    fields are bit patterns. */
module DpetkModel {
  import opened Errors
  import opened LittleEndian

  // The `Type` discriminant of PublicInfo.
  const RawDataType: UInt16 := 0
  const ListmodeDataType: UInt16 := 1
  const MichDataType: UInt16 := 2
  const EnergyCalibrationMap: UInt16 := 3
  const TimeCalibrationMap: UInt16 := 4
  const EnergySpectrumData: UInt16 := 5

  datatype PublicInfo = PublicInfo(
    headerCRC: UInt16,
    length: UInt32,
    fileType: UInt16,
    softwareVersion: string,
    headerLength: UInt32)

  datatype DeviceInfo = DeviceInfo(
    length: UInt32,
    device: string,
    serial: string,
    axisDetectors: UInt16,
    transDetectors: UInt16,
    detectorsRings: UInt16,
    detectorsChannels: UInt16,
    ipCounts: UInt16,
    ipStart: UInt16,
    channelCounts: UInt16,
    channelStart: UInt16,
    mvtThresholds: seq<Float32Bits>,
    mvtParameters: seq<Float32Bits>)

  datatype AcquisitionInfo = AcquisitionInfo(
    length: UInt32,
    isotope: UInt16,
    activity: Float32Bits,
    injectTime: string,
    time: string,
    duration: UInt16,
    timeWindow: Float32Bits,
    delayWindow: Float32Bits,
    xTalkWindow: Float32Bits,
    energyWindow: seq<UInt32>,
    positionWindow: UInt16,
    corrected: UInt16,
    tablePosition: Float32Bits,
    tableHeight: Float32Bits,
    petCtSpacing: Float32Bits,
    tableCount: UInt16,
    tableIndex: UInt16,
    scanLengthPerTable: Float32Bits,
    patientID: string,
    studyID: string,
    patientName: string,
    patientSex: string,
    patientHeight: Float32Bits,
    patientWeight: Float32Bits)

  datatype ImageInfo = ImageInfo(
    length: UInt32,
    imageSizeRows: UInt16,
    imageSizeCols: UInt16,
    imageSizeSlices: UInt16,
    imageRowPixelSize: Float32Bits,
    imageColumnPixelSize: Float32Bits,
    imageSliceThickness: Float32Bits,
    reconMethod: string,
    maxRingDiffNum: UInt16,
    subsetNum: UInt16,
    iterNum: UInt16,
    attnCalibration: UInt16,
    scatCalibration: UInt16,
    scatPara: seq<Float32Bits>,
    tvPara: seq<Float32Bits>,
    petCtFovOffset: seq<Float32Bits>,
    ctRotationAngle: Float32Bits,
    seriesNumber: UInt16,
    reconSoftwareVersion: string,
    promptsCounts: UInt32,
    delayCounts: UInt32)

  datatype DataInfo = DataInfo(length: UInt32, dataLength: UInt32, crc: UInt16)

  /** One raw sample block and the address of the board that produced it. */
  datatype RawDataItem = RawDataItem(data: Bytes, ip: string)

  datatype ListmodeDataItem = ListmodeDataItem(
    ip: string,
    xTalk: bool,
    reserved: UInt8,
    channel: UInt16,
    energy: Float32Bits,
    time: Float64Bits)

  /** The result of a parse. `dataBuf` is the unparsed remainder of the
      stream, present exactly when payload decoding was switched off. */
  datatype DataSet = DataSet(
    publicInfo: PublicInfo,
    deviceInfo: DeviceInfo,
    acquisitionInfo: Option<AcquisitionInfo>,
    imageInfo: Option<ImageInfo>,
    dataInfo: DataInfo,
    rawData: seq<RawDataItem>,
    listmodeData: seq<ListmodeDataItem>,
    michData: seq<UInt16>,
    dataBuf: Option<Bytes>)
}
