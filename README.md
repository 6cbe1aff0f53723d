# Intel HEX decoder — a Dafny model

This project models the Intel HEX decoder in `c/intelhex.c` (Intel's
Hexadecimal Object File Format) and the line reader in `cpp/HexFileReader.h`
and `cpp/HexFileReader.cpp`. It proves properties of the model.

The C program decodes a HEX file in stages:

- `hex2dec` maps a character to a digit value.
- `get_byte` turns two characters into a byte.
- `convert_hex_line_to_bytes` checks for the `:` start code and turns the
  rest of the line into bytes.
- `parse_intel_hex_line` splits those bytes into a record's fields: length,
  big-endian address, type, payload and checksum.
- `validate_record` checks the checksum, which is the two's complement,
  modulo 256, of the field sum.
- `convert_hex_file_to_array` stores the records of all lines, in order, in
  an array. The array starts at 10 slots and grows by 10. Loading stops at
  the first malformed line.
- `display_hex_data` pages through the data records, at most 25 per page.

The C++ `HexFileReader`:

- accepts only paths that end in `.hex`;
- reads the file into a list of lines with `std::getline`;
- hands the lines out through a cursor.

Modules, one per file:

- `Wrappers` (`wrappers.dfy`): `Option` and `Result`.
- `HexDigits` (`hex_digits.dfy`): `hex2dec` and `get_byte`.
- `LineTokenizer` (`line_tokenizer.dfy`): `convert_hex_line_to_bytes`. The
  specification function `Tokenize` is tied to the loop method. `ToHex`
  writes bytes back as digits, for the round trips.
- `Records` (`records.dfy`): `struct Record`, `parse_intel_hex_line` and
  `is_data_record`.
- `Checksum` (`checksum.dfy`): `validate_record`.
- `RecordStore` (`store.dfy`): `struct IntelHexArray` as a class over an
  `array`, `convert_hex_file_to_array`, and `display_hex_data`.
- `WorkedExamples` (`worked_examples.dfy`): concrete lines and records.
- `HexFileReading` (`hex_file_reader.dfy`): `HexFileReader`.

How C is represented:

- C strings are `string` values. `CharAt` reads the terminating NUL past the
  end of a string.
- `uint8_t` arithmetic is written out modulo 256.
- The `uint16_t` record counters and the capacity are a `uint16` subset
  type. `GrownCapacity` writes out the capacity's wrap-around. The
  `uint16_t` byte counter `readed_bytes` is a `nat`: a line that fits the
  521-byte `fgets` buffer yields at most 259 bytes, so it never wraps.
- An error that makes the program print and `exit(1)`, or makes the
  constructor throw, becomes a `Failure` result.

## Model

| member | source | states |
|---|---|---|
| HexDigits.HexToDec | c/intelhex.c:293-308 | The result is at most 35. It is 16, the rejection value, exactly for a character that is neither a decimal digit nor a letter, and for 'G'/'g'. |
| HexDigits.HexDigitValues | c/intelhex.c:293-306 | Each of the 16 hexadecimal digits, upper or lower case, decodes to its positional value. |
| HexDigits.HexToDecBelowSixteen | c/intelhex.c:293-308 | A value below 16 comes from exactly the characters 0-9, A-F and a-f. |
| HexDigits.LettersBeyondFAccepted | c/intelhex.c:299-306 | 'H'..'Z' and 'h'..'z' decode to 17..35. Those values are not the rejection value 16, so `get_byte` accepts them, against the documented range [0, 15] or 16. |
| HexDigits.TerminatorsRejected | c/intelhex.c:307 | '\n', '\r' and '\0' decode to 16. |
| HexDigits.GetByte | c/intelhex.c:274-291 | Succeeds iff neither character decodes to 16. On success it stores (hex1*16 + hex2) mod 256 at the target index and adds exactly 1 to the counter. On failure nothing is written and the counter is unchanged. No other array element changes. |
| LineTokenizer.TokenizeFromSpec | c/intelhex.c:256-271 | From position i, tokenising succeeds iff the characters before the first '\0'/'\n' are an even number of digits, none decoding to 16. The bytes are then those pairs in order, one byte per two digits. |
| LineTokenizer.TokenizeSpec | c/intelhex.c:249-272 | A line tokenises iff it starts with ':' and its digit run is decodable. The bytes are the decoded pairs of that run. |
| LineTokenizer.MissingStartCodeFails | c/intelhex.c:251-255 | An empty line, or one whose first character is not ':', fails. |
| LineTokenizer.OddDigitCountFails | c/intelhex.c:258-265 | An odd number of digits fails, because the terminator is read as the second digit of the last pair. |
| LineTokenizer.CrLfLineFails | c/intelhex.c:258-265 | A line ending in "\r\n" fails. |
| LineTokenizer.TokenizeHexRoundTrip | c/intelhex.c:249-272 | Bytes written as ':' and their digits tokenise back to the same bytes, with or without a trailing '\n'. |
| LineTokenizer.ConvertHexLineToBytes | c/intelhex.c:249-272 | The loop method succeeds iff `Tokenize` does. On success the first bytes of the array are the tokenised bytes, the counter grows by their number, and twice that number is less than the line length. |
| Records.IsDataRecord | c/intelhex.c:310-313 | A record is a data record exactly when its type byte is 00; the selection of `display_hex_data` is stated through it (`DataIndicesExact`). |
| Records.ParseIntelHexLine | c/intelhex.c:211-247 | The method's result equals `ParseLine`: `Malformed` when tokenising fails, `TooFewBytes` below 4 bytes, and otherwise the record with len = b[0], addr = b[1]*256 + b[2], type = b[3], check = the last byte and data = the bytes between. The payload is under 255 bytes. |
| Records.ParseEncode | c/intelhex.c:227-236 | Parsing the byte form of any record gives back that record. |
| Records.EncodeParse | c/intelhex.c:227-236 | Any run of at least 5 bytes parses, to a record whose payload is 5 bytes shorter than the run and whose byte form is the run again. |
| Records.FourBytesReuseTypeAsChecksum | c/intelhex.c:227-236 | With exactly 4 bytes the record has an empty payload and its checksum is the type byte read twice. |
| Records.LineRoundTrip | c/intelhex.c:211-272 | A record's canonical line, with or without '\n', decodes to the record. |
| WorkedExamples.LengthMismatchAccepted | c/intelhex.c:227-246 | `:05000000FB` is accepted with len = 5 and an empty payload: there is no length check. |
| Records.StartCodeAloneHasNoBytes | c/intelhex.c:227-230 | A line that is just ':' tokenises to no bytes. The parser then has too few bytes for a header and returns `TooFewBytes`. |
| Checksum.ValidateRecord | c/intelhex.c:315-329 | The loop method returns true iff (len + addr high byte + addr low byte + type + the sum of data[0..len) + check) mod 256 = 0, iff `IsValidRecord`. |
| Checksum.TwoComplementMatches | c/intelhex.c:325-328 | `~sum + 1` in a `uint8_t` equals c iff sum + c is a multiple of 256. |
| Checksum.ValidIffSumIsZero | c/intelhex.c:315-328 | A record is valid iff its field sum plus its checksum is 0 modulo 256. |
| Checksum.ChecksumIsUnique | c/intelhex.c:325-328 | Of the records that differ only in the checksum byte, exactly one is valid. |
| Checksum.SingleByteChangeDetected | c/intelhex.c:320-328 | Changing any one summed payload byte of a valid record makes it invalid. |
| WorkedExamples.DataLineParses | c/intelhex.c:211-247 | `:0300300002337A1E` decodes to len 3, address 0x0030, type 00, payload 02 33 7A, checksum 0x1E. |
| WorkedExamples.DataRecordValidates | c/intelhex.c:315-329 | That record validates. |
| WorkedExamples.CorruptedDataLineParses | c/intelhex.c:211-247 | With checksum 1F the line still decodes ... |
| WorkedExamples.CorruptedDataRecordFailsValidation | c/intelhex.c:315-329 | ... but its record does not validate. |
| WorkedExamples.EndOfFileLineParses | c/intelhex.c:211-247 | `:00000001FF` decodes to len 0, address 0, type 01, empty payload, checksum 0xFF. |
| WorkedExamples.EndOfFileRecordValidates | c/intelhex.c:315-329 | That record validates. |
| WorkedExamples.ExampleHeaderDigits | c/intelhex.c:26-32 | The header bytes 10 2462 00 are written `10246200`, as in the example line. |
| WorkedExamples.ExamplePayloadDigits | c/intelhex.c:26-30 | The example record's 16 payload bytes are written `464C5549442050524F46494C4500464C`, as in the example line. |
| WorkedExamples.ExampleRecordValidates | c/intelhex.c:26-33 | The record of the example line `:10246200464C5549442050524F46494C4500464C33` validates with checksum 0x33. |
| WorkedExamples.CorruptedRecordLoaded | c/intelhex.c:183-196 | A file holding the line with a bad checksum loads, and the record is stored as read: loading checks no checksum. |
| WorkedExamples.EndOfFileRecordLoaded | c/intelhex.c:183-196 | A file holding the end-of-file line loads that record: records of every type are stored, not only data records. |
| RecordStore.GrownCapacity | c/intelhex.c:197-202 | `len += 10` on a `uint16_t` is len + 10 while that fits, and otherwise wraps to a smaller value. |
| RecordStore.CapacityForGrowth | c/intelhex.c:175-202 | Closed form of the capacity after n records: 10 for none, unchanged while the count stays below it, 10 more once the count reaches it, always above the count and a multiple of 10. |
| RecordStore.IntelHexArray.constructor | c/intelhex.c:175-180 | A fresh array of 10 records holding nothing. |
| RecordStore.IntelHexArray.Append | c/intelhex.c:187-202 | The record is added at the end and every earlier record is unchanged. The array grows by 10 exactly when the count reaches the capacity. The count stays below the capacity. |
| RecordStore.DecodeFileSuccess | c/intelhex.c:183-196 | Loading succeeds iff every line parses ... |
| RecordStore.DecodeFileRecords | c/intelhex.c:183-196 | ... and the records are then the lines' records, one per line, of every type, in file order. |
| RecordStore.DecodeFileFailure | c/intelhex.c:183-196 | A failed load names the first line that does not parse, by 1-based number, with its parse error. Every earlier line parses. |
| RecordStore.DecodeFileStopsAtFailure | c/intelhex.c:189-196 | Lines after the first failing line do not change the outcome. |
| RecordStore.DecodeFileSnoc | c/intelhex.c:183-196 | One more line after lines that all parse: its record is appended at the end, or loading fails at that line's 1-based number with its parse error. |
| RecordStore.DecodeOneLine | c/intelhex.c:183-196 | A one-line file holds that line's record, or fails at line 1 with its parse error. |
| RecordStore.ConvertHexFileToArray | c/intelhex.c:171-209 | The loop method returns a fresh valid array. It fails iff `DecodeFile` fails, with the same line number and error; otherwise it holds `DecodeFile`'s records. On failure it holds the records of the lines before the failing one. |
| RecordStore.DataIndicesExact | c/intelhex.c:310-313 | The selection lists exactly the type-00 records of the range, each once, in increasing index order. |
| RecordStore.DataIndicesSplit | c/intelhex.c:375-387 | Consecutive pages together select the data records of the combined range. |
| RecordStore.DisplayHexData | c/intelhex.c:375-387 | `*from` only increases. From past the end nothing is shown. Otherwise the shown indices are the data records from `*from` to the new cursor, at most 25. It stops at the end of the array or right after the 25th shown record. |
| HexFileReading.IsHexFile | cpp/HexFileReader.h:25-33 | A path passes when it has at least four characters and its last four are `.hex`, compared case-sensitively; `HexSuffixAccepted` and `AcceptedHasHexSuffix` give both directions. |
| HexFileReading.HexSuffixAccepted | cpp/HexFileReader.h:25-33 | Every path made of a stem and `.hex` is accepted. |
| HexFileReading.AcceptedHasHexSuffix | cpp/HexFileReader.h:25-33 | Every accepted path is a stem followed by `.hex`. |
| HexFileReading.BareExtensionAccepted | cpp/HexFileReader.h:29-32 | The four-character path `.hex` is accepted. |
| HexFileReading.ShortPathRejected | cpp/HexFileReader.h:29 | Paths shorter than 4 characters are rejected. |
| HexFileReading.UpperCaseExtensionRejected | cpp/HexFileReader.h:29-32 | `.HEX` is rejected: the compare is case-sensitive. |
| HexFileReading.GetLine | cpp/HexFileReader.cpp:25 | `std::getline` returns the characters from the stream position to the next newline or the end. It stops there. |
| HexFileReading.GetLineStep | cpp/HexFileReader.cpp:23-26 | One line read from a position is the first line of the rest of the text split at newlines. |
| HexFileReading.SplitJoin | cpp/HexFileReader.cpp:20-28 | Splitting undoes joining lines that hold no newline ... |
| HexFileReading.JoinSplit | cpp/HexFileReader.cpp:20-28 | ... and joining the split lines with '\n' gives back the file text. |
| HexFileReading.SplitHasNoNewline | cpp/HexFileReader.cpp:20-28 | No line read holds a newline. |
| HexFileReading.LineCount | cpp/HexFileReader.cpp:20-28 | There is one line per newline plus one. |
| HexFileReading.TrailingNewlineAddsEmptyLine | cpp/HexFileReader.cpp:22-26 | A trailing newline adds a final empty line. |
| HexFileReading.EmptyFileIsOneEmptyLine | cpp/HexFileReader.cpp:22-26 | An empty file reads as one empty line. |
| HexFileReading.CarriageReturnKept | cpp/HexFileReader.cpp:22-26 | A line ended by "\r\n" keeps its '\r'. |
| HexFileReading.HexFileReader.constructor | cpp/HexFileReader.cpp:10 | No lines yet, and `nextIdx` is 0. |
| HexFileReading.HexFileReader.ReadFile | cpp/HexFileReader.cpp:20-28 | The getline loop appends the file text split at '\n' to the lines, and leaves the cursor alone. `numLines()` grows by the number of newlines plus one. |
| HexFileReading.HexFileReader.NextLine | cpp/HexFileReader.cpp:30-34 | Before the end it returns the line at `nextIdx` and advances it by exactly 1. At the end it returns `None` and changes nothing. The lines never change. The remaining lines lose exactly the returned line from the front, so successive calls return each line once, in order. |
| HexFileReading.Open | cpp/HexFileReader.cpp:10-18 | A non-`.hex` path fails with `NotHexFile` before the open check. An unopenable file then fails with `CannotOpen`. Otherwise the reader holds the text split at '\n', with `nextIdx` at 0 and one line per newline plus one. |

## Left out

- The console interface is not modelled: menus, prompts, `clear_console`,
  `flush_stdin`, `start`, `start_reading_file` and `main`. It is console I/O
  with no algorithmic content.
- Printing is not modelled. This covers `display_record`'s `printf`s and
  `start_save_to_file`'s listing. `DisplayHexData` returns the indices it
  would print.
- `start_save_to_file`'s `.txt` check reads `filename + (len - 4)`, which is
  undefined behaviour for names shorter than 4 characters. It is part of the
  export path, which is not modelled.
- `fopen`, `fgets`, `std::ifstream` and `is_open` are not modelled. Files
  are given as a sequence of lines (C) or as their text, with `None` for a
  file that cannot be opened (C++).
- `fgets` with a 521-byte buffer cuts a longer line after 520 characters.
  That first piece already fails to tokenise, so loading stops there. The
  split is not modelled. Each line is required to fit the buffer instead.
- `malloc`, `realloc` and `free` and their NULL checks are not modelled.
  Dafny arrays are used instead, and `exit(1)` is an error result.
- `HexFileException` is not modelled: it only carries a message. The
  exceptions are the `ReaderError` results of `Open`.
- The two C++ constructors are one model: the `std::string` one only
  delegates to the `const char*` one.
- Records.ParseIntelHexLine: below 4 decoded bytes the model returns the
  explicit error `TooFewBytes`, where the source does not fail. With 1 to 3
  decoded bytes, `len` is byte 0 and `check` is the last decoded byte, but
  the address and type bytes `bytes_array[1..3]` past the decoded ones are
  read from freshly allocated memory whose contents are indeterminate; the
  payload is empty and the function returns true. With no decoded byte (a
  bare ':') `bytes_array[size - 1]` reads index -1, which is undefined
  behaviour. Indeterminate bytes have no value to model.
- LineTokenizer.ConvertHexLineToBytes: requires the line to be shorter than
  521 characters, as `fgets` delivers it. This keeps the bytes within the
  260-byte buffer.
- Records.ParseIntelHexLine: requires the line to be shorter than 521
  characters, for the same reason.
- Checksum.ValidateRecord: requires `len` to be at most the payload length.
  Otherwise `validate_record` sums bytes of the 255-byte `data` buffer that
  the parser never wrote.
- RecordStore.ConvertHexFileToArray: requires fewer than 65530 lines, so the
  counters never wrap. At 65530 records `len += 10` wraps the capacity to 4
  (`CapacityWrapsAtLimit`), and the following `realloc` would shrink the
  array below its contents.
- RecordStore.ConvertHexFileToArray: requires each line to be shorter than
  521 characters.
- RecordStore.ConvertHexFileToArray: a line of 1 to 3 bytes ends the load
  with `TooFewBytes` at that line's number. The source stores a record with
  an indeterminate address or type there and goes on loading the next lines.
- HexFileReading.HexFileReader.NextLine: past the last line the source
  builds a `std::string` from `NULL`, which is undefined behaviour. The
  model returns `None`.
- The example line of c/intelhex.c:27 is not decoded by a single lemma.
  Its record is shown to validate (`ExampleRecordValidates`). The lemmas `ExampleHeaderDigits`
  and `ExamplePayloadDigits` show that its header and payload are written as
  in the line. `LineRoundTrip` decodes any such line, and `DataLineParses`
  shows a concrete decode.

## Quirks of the source

Where the code departs from the Intel HEX format or from its own comments,
the model follows the code:

- A record of the format has at least 5 bytes: count, two address bytes,
  type and checksum. The parser does not check this. Four bytes parse, with
  the type byte read again as the checksum (`FourBytesReuseTypeAsChecksum`).
  Lines of 1 to 3 bytes are described under "Left out".
- The format requires exactly `len` payload bytes. `len` is not compared
  with the payload size (`LengthMismatchAccepted`).
- The longest record line of the format is 521 characters (':' and 2 × 260
  digits), but `fgets` with a 521-byte buffer returns at most 520 of them.
  Such a line reaches the tokenizer with an odd digit count and is rejected
  (`OddDigitCountFails`), and loading stops at that line.
- The comment on `hex2dec` (c/intelhex.c:88-89) promises a value in [0, 15]
  or 16. Letters past 'F' decode to 17..35 and are accepted as digits
  (`LettersBeyondFAccepted`).
- Checksums are not checked on load: the call at c/intelhex.c:244 is
  commented out (`CorruptedRecordLoaded`).
- The comment on `convert_hex_file_to_array` (c/intelhex.c:80-81) says the
  result holds the data records (type 00). Records of every type are stored
  (`EndOfFileRecordLoaded`).
- A line ending in "\r\n" is rejected, because '\r' is not a digit
  (`CrLfLineFails`).
- The store's capacity is a `uint16_t` grown by 10 at a time; at 65530
  records it wraps to 4 (`CapacityWrapsAtLimit`).
