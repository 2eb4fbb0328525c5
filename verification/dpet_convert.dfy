/** Re-packaging a parsed 930 device file as a container data set
    (dpet/convert.go).

    The target header sections are generated message types that are not
    part of this model; which field names each of them declares is the
    parameter `Schemas`. A field copy keeps the value as it is (the numeric
    widening of `Convert` is not modelled). */
module DpetConvert {
  import opened Errors
  import opened LittleEndian
  import opened DpetModel
  import DpetkModel
  import DpetkParse
  import DpetkText
  import DpetWriter

  /** The field names of the three target sections that are filled. */
  datatype Schemas = Schemas(acquisition: set<string>, scanner: set<string>, image: set<string>)

  // The source sections as named fields, with the Go field names.

  function DeviceFields(d: DpetkModel.DeviceInfo): (f: Fields)
    ensures "Device" in f && f["Device"] == TextValue(d.device)
  {
    map[
      "Length" := UIntValue(d.length),
      "Device" := TextValue(d.device),
      "Serial" := TextValue(d.serial),
      "AxisDetectors" := UIntValue(d.axisDetectors),
      "TransDetectors" := UIntValue(d.transDetectors),
      "DetectorsRings" := UIntValue(d.detectorsRings),
      "DetectorsChannels" := UIntValue(d.detectorsChannels),
      "IpCounts" := UIntValue(d.ipCounts),
      "IpStart" := UIntValue(d.ipStart),
      "ChannelCounts" := UIntValue(d.channelCounts),
      "ChannelStart" := UIntValue(d.channelStart),
      "MvtThresholds" := FloatsValue(d.mvtThresholds),
      "MvtParameters" := FloatsValue(d.mvtParameters)
    ]
  }

  function AcquisitionFields(a: DpetkModel.AcquisitionInfo): Fields {
    map[
      "Length" := UIntValue(a.length),
      "Isotope" := UIntValue(a.isotope),
      "Activity" := FloatValue(a.activity),
      "InjectTime" := TextValue(a.injectTime),
      "Time" := TextValue(a.time),
      "Duration" := UIntValue(a.duration),
      "TimeWindow" := FloatValue(a.timeWindow),
      "DelayWindow" := FloatValue(a.delayWindow),
      "XTalkWindow" := FloatValue(a.xTalkWindow),
      "EnergyWindow" := UIntsValue(a.energyWindow),
      "PositionWindow" := UIntValue(a.positionWindow),
      "Corrected" := UIntValue(a.corrected),
      "TablePosition" := FloatValue(a.tablePosition),
      "TableHeight" := FloatValue(a.tableHeight),
      "PETCTSpacing" := FloatValue(a.petCtSpacing),
      "TableCount" := UIntValue(a.tableCount),
      "TableIndex" := UIntValue(a.tableIndex),
      "ScanLengthPerTable" := FloatValue(a.scanLengthPerTable),
      "PatientID" := TextValue(a.patientID),
      "StudyID" := TextValue(a.studyID),
      "PatientName" := TextValue(a.patientName),
      "PatientSex" := TextValue(a.patientSex),
      "PatientHeight" := FloatValue(a.patientHeight),
      "PatientWeight" := FloatValue(a.patientWeight)
    ]
  }

  function ImageFields(i: DpetkModel.ImageInfo): Fields {
    map[
      "Length" := UIntValue(i.length),
      "ImageSizeRows" := UIntValue(i.imageSizeRows),
      "ImageSizeCols" := UIntValue(i.imageSizeCols),
      "ImageSizeSlices" := UIntValue(i.imageSizeSlices),
      "ImageRowPixelSize" := FloatValue(i.imageRowPixelSize),
      "ImageColumnPixelSize" := FloatValue(i.imageColumnPixelSize),
      "ImageSliceThickness" := FloatValue(i.imageSliceThickness),
      "ReconMethod" := TextValue(i.reconMethod),
      "MaxRingDiffNum" := UIntValue(i.maxRingDiffNum),
      "SubsetNum" := UIntValue(i.subsetNum),
      "IterNum" := UIntValue(i.iterNum),
      "AttnCalibration" := UIntValue(i.attnCalibration),
      "ScatCalibration" := UIntValue(i.scatCalibration),
      "ScatPara" := FloatsValue(i.scatPara),
      "TVPara" := FloatsValue(i.tvPara),
      "PetCtFovOffset" := FloatsValue(i.petCtFovOffset),
      "CtRotationAngle" := FloatValue(i.ctRotationAngle),
      "SeriesNumber" := UIntValue(i.seriesNumber),
      "ReconSoftwareVersion" := TextValue(i.reconSoftwareVersion),
      "PromptsCounts" := UIntValue(i.promptsCounts),
      "DelayCounts" := UIntValue(i.delayCounts)
    ]
  }

  /** `fillStructByStructFieldName`: nothing happens when either side is
      nil; otherwise each source field whose name the target declares is
      copied over, and every other target field keeps its value. */
  function FillByFieldName(target: Option<Fields>, schema: set<string>, source: Option<Fields>): (r: Option<Fields>)
    ensures target.None? || source.None? ==> r == target
    ensures target.Some? && source.Some? ==>
              && r.Some?
              && (forall name :: name in r.value <==> name in target.value || (name in source.value && name in schema))
              && (forall name :: name in source.value && name in schema ==> r.value[name] == source.value[name])
              && (forall name :: name in target.value && !(name in source.value && name in schema) ==>
                    r.value[name] == target.value[name])
  {
    if target.None? || source.None? then target
    else
      var t, s := target.value, source.value;
      Some(map name | name in t.Keys + (s.Keys * schema) :: if name in s && name in schema then s[name] else t[name])
  }

  /** A freshly allocated section: every field at its zero value. */
  const Empty: Option<Fields> := Some(map[])

  /** The file types whose header keeps only the public and scanner
      sections. */
  predicate IsCalibrationType(fileType: int) {
    fileType in {FileTypeEnergyCalibrationMap, FileTypeTimeCalibrationMap, FileTypeEnergySpectrumData,
                 FileTypePositionTable, FileTypeEnergyMap}
  }

  /** The header `convertFrom930` builds before filling it: all sections
      allocated, then the ones the file type does not use set to nil. */
  function SectionsFor(fileType: int): (h: PetFileHeader)
    ensures h.publicInfo == Some(PublicInfo(fileType, Deflate, "")) && h.scannerInfo == Empty
    ensures h.scanInfo.Some? <==> !IsCalibrationType(fileType)
    ensures h.acquisitionInfo.Some? <==> !IsCalibrationType(fileType)
    ensures h.coincidenceInfo.Some? <==> fileType != FileTypeRawData && !IsCalibrationType(fileType)
    ensures h.imageInfo.Some? <==>
              fileType !in {FileTypeRawData, FileTypeListModeCoin, FileTypeMich} && !IsCalibrationType(fileType)
    ensures h.scanInfo.Some? ==> h.scanInfo == Empty
    ensures h.acquisitionInfo.Some? ==> h.acquisitionInfo == Empty
    ensures h.coincidenceInfo.Some? ==> h.coincidenceInfo == Empty
    ensures h.imageInfo.Some? ==> h.imageInfo == Empty
  {
    var full := PetFileHeader(Some(PublicInfo(fileType, Deflate, "")), Empty, Empty, Empty, Empty, Empty);
    if fileType == FileTypeRawData then
      full.(coincidenceInfo := None, imageInfo := None)
    else if fileType == FileTypeListModeCoin then
      full.(imageInfo := None)
    else if fileType == FileTypeMich then
      full.(imageInfo := None)
    else if IsCalibrationType(fileType) then
      full.(scanInfo := None, acquisitionInfo := None, coincidenceInfo := None, imageInfo := None)
    else
      full
  }

  function AcquisitionSource(ds: DpetkModel.DataSet): Option<Fields> {
    if ds.acquisitionInfo.Some? then Some(AcquisitionFields(ds.acquisitionInfo.value)) else None
  }

  function ImageSource(ds: DpetkModel.DataSet): Option<Fields> {
    if ds.imageInfo.Some? then Some(ImageFields(ds.imageInfo.value)) else None
  }

  /** `convertFrom930`. The file type is the device file's type code, the
      header method is the structured one with a zero length, `Data` is
      never set, and the unparsed payload buffer is passed through. */
  function ConvertFrom930(ds: DpetkModel.DataSet, schemas: Schemas): (r: Dataset)
    ensures r.header.marshalMethod == MarshallMethodProto && r.header.dataLen == 0
    ensures r.data == NoData && r.dataBuf == ds.dataBuf
    ensures r.header.content.publicInfo == Some(PublicInfo(ds.publicInfo.fileType, Deflate, ""))
    ensures r.header.content.scanInfo == SectionsFor(ds.publicInfo.fileType).scanInfo
    ensures r.header.content.coincidenceInfo == SectionsFor(ds.publicInfo.fileType).coincidenceInfo
    ensures r.header.content.scannerInfo == FillByFieldName(Empty, schemas.scanner, Some(DeviceFields(ds.deviceInfo)))
    ensures r.header.content.acquisitionInfo
            == FillByFieldName(SectionsFor(ds.publicInfo.fileType).acquisitionInfo, schemas.acquisition, AcquisitionSource(ds))
    ensures r.header.content.imageInfo
            == FillByFieldName(SectionsFor(ds.publicInfo.fileType).imageInfo, schemas.image, ImageSource(ds))
    ensures "Device" in schemas.scanner ==> DeviceOf(r.header.content.scannerInfo.value) == ds.deviceInfo.device
  {
    var h := SectionsFor(ds.publicInfo.fileType);
    var filled := h.(acquisitionInfo := FillByFieldName(h.acquisitionInfo, schemas.acquisition, AcquisitionSource(ds)),
                     scannerInfo := FillByFieldName(h.scannerInfo, schemas.scanner, Some(DeviceFields(ds.deviceInfo))),
                     imageInfo := FillByFieldName(h.imageInfo, schemas.image, ImageSource(ds)));
    Dataset(Header(MarshallMethodProto, 0, filled), NoData, ds.dataBuf)
  }

  /** `ParseFrom930`: parse the device file, then re-package it. The
      package parses with the `FirstBlank` text policy. */
  function ParseFrom930(buf: Bytes, parseData: bool, text: DpetkText.TextPolicy, schemas: Schemas): (r: Result<Dataset>)
    ensures r.Ok? <==> DpetkParse.Parse(buf, parseData, text).Ok?
    ensures r.Err? ==> r == Err(DpetkParse.Parse(buf, parseData, text).error)
    ensures r.Ok? ==> r.value.header.content.publicInfo
                      == Some(PublicInfo(DpetkParse.FileTypeOf(buf), Deflate, ""))
    ensures r.Ok? ==> r.value.data == NoData && r.value.header.dataLen == 0
    ensures r.Ok? && !parseData ==>
              r.value.dataBuf == Some(buf[DpetkParse.HeaderLen(DpetkParse.FileTypeOf(buf))..])
    ensures r.Ok? && parseData ==> r.value.dataBuf.None?
  {
    var parsed :- DpetkParse.Parse(buf, parseData, text);
    Ok(ConvertFrom930(parsed, schemas))
  }

  // ---------------------------------------------------------------------
  // Converting, then writing.

  /** A device file parsed without its payload converts and writes as the
      container header followed by the untouched payload bytes. */
  lemma WriteOfConvertedKeepsBuffer(ds: DpetkModel.DataSet, schemas: Schemas, marshal: PetFileHeader -> Option<Bytes>)
    requires ds.dataBuf.Some?
    requires marshal(ConvertFrom930(ds, schemas).header.content).Some?
    ensures var converted := ConvertFrom930(ds, schemas);
            DpetWriter.Write(converted, marshal)
            == DpetWriter.Done(DpetWriter.WriteHead(converted.header.content, marshal).out + ds.dataBuf.value)
  {
  }

  /** A device file parsed with its payload converts into a data set with
      no payload: written for the 930 device, raw and listmode files panic
      after the header and a mich file is the header alone. */
  lemma WriteOfConvertedParsedPayload(ds: DpetkModel.DataSet, schemas: Schemas, marshal: PetFileHeader -> Option<Bytes>)
    requires ds.dataBuf.None? && "Device" in schemas.scanner && ds.deviceInfo.device == DpetModel.Device930
    requires marshal(ConvertFrom930(ds, schemas).header.content).Some?
    ensures var converted := ConvertFrom930(ds, schemas);
            var head := DpetWriter.WriteHead(converted.header.content, marshal).out;
            && (ds.publicInfo.fileType in {DpetkModel.RawDataType, DpetkModel.ListmodeDataType} ==>
                  DpetWriter.Write(converted, marshal) == DpetWriter.WriteOutcome(head, Some(NilDereference)))
            && (ds.publicInfo.fileType == DpetkModel.MichDataType ==>
                  DpetWriter.Write(converted, marshal) == DpetWriter.Done(head))
  {
    var converted := ConvertFrom930(ds, schemas);
    assert DeviceOf(converted.header.content.scannerInfo.value) == DpetModel.Device930;
  }
}
