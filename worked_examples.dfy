/** Concrete records: a three-byte data line, the same line with a corrupted
    checksum and the end-of-file line, decoded and validated; and the record
    of the example line in the comment on `struct Record` in c/intelhex.c,
    validated. Each step on literal text is a lemma of its own, so that no
    proof has to evaluate a whole line. */
module WorkedExamples {
  import opened Wrappers
  import opened HexDigits
  import opened LineTokenizer
  import opened Records
  import opened Checksum
  import opened RecordStore

  /** The record of `:0300300002337A1E`: bytes 02 33 7A at address 0x0030. */
  const DATA_RECORD := Record(3, 0x0030, DATA, [0x02, 0x33, 0x7A], 0x1E)

  /** The record of `:00000001FF`. */
  const END_OF_FILE_RECORD := Record(0, 0, HEX_EOF, [], 0xFF)

  /** A record's canonical line is ':' and the digits of its header, payload
      and checksum. */
  lemma LineOfParts(r: Record, headerDigits: string, dataDigits: string, checkDigits: string)
    requires ToHex([r.len, r.addr / 256, r.addr % 256, r.recType]) == headerDigits
    requires ToHex(r.data) == dataDigits
    requires ToHex([r.check]) == checkDigits
    ensures EncodeLine(r) == ":" + headerDigits + dataDigits + checkDigits
  {
    var header := [r.len, r.addr / 256, r.addr % 256, r.recType];
    assert Encode(r) == header + r.data + [r.check];
    ToHexConcat(header + r.data, [r.check]);
    ToHexConcat(header, r.data);
  }

  /** A record whose length field counts its payload validates exactly when
      its checksum completes the field sum to a multiple of 256. */
  lemma ValidFromPayloadSum(r: Record, payloadSum: int)
    requires r.len as int == |r.data|
    requires Sum(r.data) == payloadSum
    ensures IsValidRecord(r) <==>
            (r.len + r.addr / 256 + r.addr % 256 + r.recType + payloadSum + r.check) % 256 == 0
  {
    assert r.data[..r.len] == r.data;
    ValidIffSumIsZero(r);
  }

  lemma DataRecordDigits()
    ensures ToHex([3, 0, 0x30, 0]) == "03003000"
    ensures ToHex([0x02, 0x33, 0x7A]) == "02337A"
  {
  }

  lemma DataLineJoined()
    ensures ":" + "03003000" + "02337A" + "1E" == ":0300300002337A1E"
    ensures ":" + "03003000" + "02337A" + "1F" == ":0300300002337A1F"
  {
  }

  /** The data line decodes to its record. */
  lemma DataLineParses()
    ensures ParseLine(":0300300002337A1E") == Success(DATA_RECORD)
  {
    DataRecordDigits();
    assert ToHex([0x1E]) == "1E";
    LineOfParts(DATA_RECORD, "03003000", "02337A", "1E");
    DataLineJoined();
    LineRoundTrip(DATA_RECORD);
  }

  /** The data record validates: its field sum is 0xE2 and 0x1E is the two's
      complement of 0xE2. */
  lemma DataRecordValidates()
    ensures IsValidRecord(DATA_RECORD)
  {
    assert Sum([0x02, 0x33, 0x7A]) == 0xAF;
    ValidFromPayloadSum(DATA_RECORD, 0xAF);
  }

  /** With its checksum changed the data line still decodes ... */
  lemma CorruptedDataLineParses()
    ensures ParseLine(":0300300002337A1F") == Success(DATA_RECORD.(check := 0x1F))
  {
    var r := DATA_RECORD.(check := 0x1F);
    DataRecordDigits();
    assert ToHex([0x1F]) == "1F";
    LineOfParts(r, "03003000", "02337A", "1F");
    DataLineJoined();
    LineRoundTrip(r);
  }

  /** ... but no longer validates. */
  lemma CorruptedDataRecordFailsValidation()
    ensures !IsValidRecord(DATA_RECORD.(check := 0x1F))
  {
    DataRecordValidates();
    ChecksumIsUnique(DATA_RECORD, 0x1F);
  }

  lemma EndOfFileHeaderDigits() ensures ToHex([0, 0, 0, 1]) == "00000001" {}

  /** The end-of-file line decodes to a record of type 01 ... */
  lemma EndOfFileLineParses()
    ensures ParseLine(":00000001FF") == Success(END_OF_FILE_RECORD)
  {
    EndOfFileHeaderDigits();
    assert ToHex([0xFF]) == "FF";
    LineOfParts(END_OF_FILE_RECORD, "00000001", "", "FF");
    assert ":" + "00000001" + "" + "FF" == ":00000001FF";
    LineRoundTrip(END_OF_FILE_RECORD);
  }

  /** ... which validates. */
  lemma EndOfFileRecordValidates()
    ensures IsValidRecord(END_OF_FILE_RECORD)
  {
  }

  /** A record whose count byte disagrees with its payload: a count of 5
      with no payload byte at all. */
  const MISMATCHED_RECORD := Record(5, 0, DATA, [], 0xFB)

  lemma MismatchedHeaderDigits() ensures ToHex([5, 0, 0, 0]) == "05000000" {}

  /** The line `:05000000FB` parses although its count byte disagrees with
      its payload: no length check is made. */
  lemma LengthMismatchAccepted()
    ensures ParseLine(":05000000FB") == Success(MISMATCHED_RECORD)
    ensures MISMATCHED_RECORD.len as int != |MISMATCHED_RECORD.data|
  {
    MismatchedHeaderDigits();
    assert ToHex([0xFB]) == "FB";
    LineOfParts(MISMATCHED_RECORD, "05000000", "", "FB");
    assert ":" + "05000000" + "" + "FB" == ":05000000FB";
    LineRoundTrip(MISMATCHED_RECORD);
  }

  /** Loading does not check checksums: a file holding the corrupted line
      loads, and its record is stored as read. */
  lemma CorruptedRecordLoaded()
    ensures DecodeFile([":0300300002337A1F"]) == Success([DATA_RECORD.(check := 0x1F)])
  {
    CorruptedDataLineParses();
    DecodeOneLine(":0300300002337A1F");
  }

  /** Loading keeps records of every type: the end-of-file record is stored
      like a data record. */
  lemma EndOfFileRecordLoaded()
    ensures DecodeFile([":00000001FF"]) == Success([END_OF_FILE_RECORD])
  {
    EndOfFileLineParses();
    DecodeOneLine(":00000001FF");
  }

  /** The record of the example line `:10246200464C5549442050524F46494C4500464C33`:
      sixteen bytes at address 0x2462. */
  const EXAMPLE_RECORD := Record(0x10, 0x2462, DATA,
    [0x46, 0x4C, 0x55, 0x49, 0x44, 0x20, 0x50, 0x52, 0x4F, 0x46, 0x49, 0x4C, 0x45, 0x00, 0x46, 0x4C], 0x33)

  lemma PayloadRuns()
    ensures EXAMPLE_RECORD.data ==
              [0x46, 0x4C, 0x55, 0x49] + [0x44, 0x20, 0x50, 0x52] + [0x4F, 0x46, 0x49, 0x4C] + [0x45, 0x00, 0x46, 0x4C]
  {
  }

  lemma Run1() ensures Sum([0x46, 0x4C, 0x55, 0x49]) == 304 && ToHex([0x46, 0x4C, 0x55, 0x49]) == "464C5549" {}
  lemma Run2() ensures Sum([0x44, 0x20, 0x50, 0x52]) == 262 && ToHex([0x44, 0x20, 0x50, 0x52]) == "44205052" {}
  lemma Run3() ensures Sum([0x4F, 0x46, 0x49, 0x4C]) == 298 && ToHex([0x4F, 0x46, 0x49, 0x4C]) == "4F46494C" {}
  lemma Run4() ensures Sum([0x45, 0x00, 0x46, 0x4C]) == 215 && ToHex([0x45, 0x00, 0x46, 0x4C]) == "4500464C" {}

  lemma PayloadDigitsJoined()
    ensures "464C5549" + "44205052" + "4F46494C" + "4500464C" == "464C5549442050524F46494C4500464C"
  {
  }

  /** Sums and digits of four byte runs add up to those of the whole. */
  lemma FourRuns(d1: seq<byte>, d2: seq<byte>, d3: seq<byte>, d4: seq<byte>)
    ensures Sum(d1 + d2 + d3 + d4) == Sum(d1) + Sum(d2) + Sum(d3) + Sum(d4)
    ensures ToHex(d1 + d2 + d3 + d4) == ToHex(d1) + ToHex(d2) + ToHex(d3) + ToHex(d4)
  {
    SumConcat(d1 + d2 + d3, d4);
    SumConcat(d1 + d2, d3);
    SumConcat(d1, d2);
    ToHexConcat(d1 + d2 + d3, d4);
    ToHexConcat(d1 + d2, d3);
    ToHexConcat(d1, d2);
  }

  lemma ExamplePayloadSum()
    ensures Sum(EXAMPLE_RECORD.data) == 0x437
  {
    Run1();
    Run2();
    Run3();
    Run4();
    PayloadRuns();
    FourRuns([0x46, 0x4C, 0x55, 0x49], [0x44, 0x20, 0x50, 0x52], [0x4F, 0x46, 0x49, 0x4C], [0x45, 0x00, 0x46, 0x4C]);
  }

  /** The example record's payload is written as the payload digits of the
      example line ... */
  lemma ExamplePayloadDigits()
    ensures ToHex(EXAMPLE_RECORD.data) == "464C5549442050524F46494C4500464C"
  {
    Run1();
    Run2();
    Run3();
    Run4();
    PayloadRuns();
    FourRuns([0x46, 0x4C, 0x55, 0x49], [0x44, 0x20, 0x50, 0x52], [0x4F, 0x46, 0x49, 0x4C], [0x45, 0x00, 0x46, 0x4C]);
    PayloadDigitsJoined();
  }

  /** ... and its header as the line's header digits. */
  lemma ExampleHeaderDigits() ensures ToHex([0x10, 0x24, 0x62, 0x00]) == "10246200" {}

  /** Any record with the example's fields and a payload summing to 0x437
      validates: the field sum is 0x4CD, and 0x33 is the two's complement of
      0xCD. */
  lemma ExampleFieldsValidate(r: Record)
    requires r.len == 0x10 && r.addr == 0x2462 && r.recType == DATA && r.check == 0x33
    requires |r.data| == 16 && Sum(r.data) == 0x437
    ensures IsValidRecord(r)
  {
    ValidFromPayloadSum(r, 0x437);
  }

  /** The example record validates. */
  lemma ExampleRecordValidates()
    ensures IsValidRecord(EXAMPLE_RECORD)
  {
    ExamplePayloadSum();
    ExampleFieldsValidate(EXAMPLE_RECORD);
  }
}
