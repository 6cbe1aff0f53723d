/** The record parser of c/intelhex.c: `struct Record`, `is_data_record`
    and `parse_intel_hex_line`. */
module Records {
  import opened Wrappers
  import opened HexDigits
  import opened LineTokenizer

  /** The C code's `uint16_t`. */
  type uint16 = a: int | 0 <= a < 0x10000

  /** The record types of `enum RECORD_TYPES`; any other value is kept as it is. */
  const DATA: byte := 0
  const HEX_EOF: byte := 1
  const EXTENDED_SEGMENT_ADDRESS: byte := 2
  const START_SEGMENT_ADDRESS: byte := 3
  const EXTENDED_LINEAR_ADDRESS: byte := 4
  const START_LINEAR_ADDRESS: byte := 5

  /** `struct Record`: the declared byte count, the 16-bit address, the
      record type, the payload bytes the parser copied and the checksum byte
      as written in the line. */
  datatype Record = Record(len: byte, addr: uint16, recType: byte, data: seq<byte>, check: byte)

  /** Why a line gives no record. `Malformed` is the C code's `return false`;
      `TooFewBytes` stands for the lines of fewer than four bytes, on which
      the C code reads bytes the tokenizer never wrote (for an empty line,
      the index -1). */
  datatype ParseError = Malformed | TooFewBytes

  /** `is_data_record`. */
  predicate IsDataRecord(r: Record)
  {
    r.recType == DATA
  }

  /** The fields `parse_intel_hex_line` reads out of the decoded bytes: byte 0
      is the count, bytes 1-2 the big-endian address, byte 3 the type, the
      last byte the checksum and the bytes in between the payload. Neither the
      number of bytes nor the count is checked against the payload size. */
  function ParseBytes(b: seq<byte>): Result<Record, ParseError>
  {
    if |b| < 4 then Failure(TooFewBytes)
    else Success(Record(b[0], (b[1] as int) * 256 + b[2] as int, b[3], if |b| >= 5 then b[4..|b| - 1] else [], b[|b| - 1]))
  }

  /** The record a line decodes to, as `parse_intel_hex_line` fills it in. */
  function ParseLine(line: string): Result<Record, ParseError>
  {
    match Tokenize(line)
    case None => Failure(Malformed)
    case Some(b) => ParseBytes(b)
  }

  /** The byte layout of a record in a line: count, address high and low,
      type, payload, checksum. */
  function Encode(r: Record): (b: seq<byte>)
    ensures |b| == |r.data| + 5
  {
    [r.len, r.addr / 256, r.addr % 256, r.recType] + r.data + [r.check]
  }

  /** The canonical text of a record: ':' and the upper-case digit pairs. */
  function EncodeLine(r: Record): string
  {
    [RECORD_START_CODE] + ToHex(Encode(r))
  }

  /** Parsing recovers every record from its byte layout. */
  lemma ParseEncode(r: Record)
    ensures ParseBytes(Encode(r)) == Success(r)
  {
    var b := Encode(r);
    assert b[4..|b| - 1] == r.data;
  }

  /** From five bytes on, the parsed record lays out to the same bytes, and
      its payload is exactly the bytes between the header and the checksum. */
  lemma EncodeParse(b: seq<byte>)
    requires |b| >= 5
    ensures ParseBytes(b).Success?
    ensures |ParseBytes(b).value.data| == |b| - 5
    ensures Encode(ParseBytes(b).value) == b
  {
    var r := ParseBytes(b).value;
    assert r.addr / 256 == b[1] && r.addr % 256 == b[2];
    assert Encode(r) == b[..4] + b[4..|b| - 1] + [b[|b| - 1]];
  }

  /** With exactly four bytes the parse goes through and the checksum field is
      the type byte read a second time. */
  lemma FourBytesReuseTypeAsChecksum(b: seq<byte>)
    requires |b| == 4
    ensures ParseBytes(b).Success?
    ensures ParseBytes(b).value.check == b[3] == ParseBytes(b).value.recType
    ensures ParseBytes(b).value.data == []
  {
  }

  /** Every record written as its canonical line parses back to itself, with
      or without a final '\n'. */
  lemma LineRoundTrip(r: Record)
    ensures ParseLine(EncodeLine(r)) == Success(r)
    ensures ParseLine(EncodeLine(r) + "\n") == Success(r)
  {
    TokenizeHexRoundTrip(Encode(r));
    ParseEncode(r);
  }

  /** A line of the start code alone tokenizes to no byte at all, so the
      checksum index `size - 1` is -1: the model reports `TooFewBytes`. */
  lemma StartCodeAloneHasNoBytes()
    ensures Tokenize(":") == Some([])
    ensures ParseLine(":") == Failure(TooFewBytes)
    ensures ParseLine(":\n") == Failure(TooFewBytes)
  {
  }

  /** `parse_intel_hex_line`: tokenizes the line into a fresh byte buffer,
      reads the header fields and the checksum, and copies the bytes between
      them into the payload. */
  method ParseIntelHexLine(line: string) returns (result: Result<Record, ParseError>)
    requires |line| < HEX_LINE_MAX_LENGTH
    ensures result == ParseLine(line)
    ensures result.Success? ==> |result.value.data| < 255
  {
    var bytes := new byte[MAX_BYTES];
    var ok, size := ConvertHexLineToBytes(line, bytes, 0);
    if !ok {
      return Failure(Malformed);
    }
    ghost var b := Tokenize(line).value;
    if size < 4 {
      return Failure(TooFewBytes);
    }
    var data: seq<byte> := [];
    var i := 4;
    while i < size - 1
      invariant 4 <= i <= if size >= 5 then size - 1 else 4
      invariant data == bytes[4..i]
    {
      data := data + [bytes[i]];
      i := i + 1;
    }
    assert bytes[..size] == b;
    result := Success(Record(bytes[0], (bytes[1] as int) * 256 + bytes[2] as int, bytes[3], data, bytes[size - 1]));
    assert size >= 5 ==> data == b[4..size - 1];
  }
}
