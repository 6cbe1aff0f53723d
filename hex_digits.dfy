/** The byte decoder of c/intelhex.c: `hex2dec` and `get_byte`. */
module HexDigits {
  import opened Wrappers

  /** The C code's `uint8_t`. */
  type byte = b: int | 0 <= b < 256

  /** What `hex2dec` returns for a character it does not accept. */
  const NOT_A_DIGIT: nat := 16

  const UPPER_DIGITS := "0123456789ABCDEF"
  const LOWER_DIGITS := "0123456789abcdef"

  predicate IsDecimal(ch: char) { '0' <= ch <= '9' }

  predicate IsLetter(ch: char) { 'A' <= ch <= 'Z' || 'a' <= ch <= 'z' }

  /** `hex2dec`: a decimal digit gives its value and a letter of either case
      gives its position in the alphabet plus 10, so 'G' and 'g' give 16 (the
      rejection value) and 'H'..'Z', 'h'..'z' give 17..35; every other
      character gives 16. */
  function HexToDec(ch: char): (d: nat)
    ensures d <= 35
    ensures d == NOT_A_DIGIT <==> !(IsDecimal(ch) || IsLetter(ch)) || ch == 'G' || ch == 'g'
  {
    if '0' <= ch <= '9' then ch as int - '0' as int
    else if 'A' <= ch <= 'Z' then ch as int - 'A' as int + 10
    else if 'a' <= ch <= 'z' then ch as int - 'a' as int + 10
    else NOT_A_DIGIT
  }

  /** The sixteen digits of either case decode to their positional value. */
  lemma HexDigitValues()
    ensures forall k :: 0 <= k < 16 ==> HexToDec(UPPER_DIGITS[k]) == k
    ensures forall k :: 0 <= k < 16 ==> HexToDec(LOWER_DIGITS[k]) == k
  {
  }

  /** A value below 16 comes exactly from the characters of a hexadecimal digit. */
  lemma HexToDecBelowSixteen(ch: char)
    ensures HexToDec(ch) < 16 <==> ch in UPPER_DIGITS || ch in LOWER_DIGITS
  {
    if HexToDec(ch) < 16 {
      var d := HexToDec(ch);
      if IsDecimal(ch) {
        assert UPPER_DIGITS[d] == ch;
      } else if 'A' <= ch <= 'Z' {
        assert UPPER_DIGITS[d] == ch;
      } else {
        assert LOWER_DIGITS[d] == ch;
      }
    } else if ch in UPPER_DIGITS {
      var k :| 0 <= k < 16 && UPPER_DIGITS[k] == ch;
      HexDigitValues();
    } else if ch in LOWER_DIGITS {
      var k :| 0 <= k < 16 && LOWER_DIGITS[k] == ch;
      HexDigitValues();
    }
  }

  /** Letters past 'F'/'f' other than 'G'/'g' are not rejected: they decode
      to 17..35, although the declaration of `hex2dec` promises a value in
      [0, 15] or 16. */
  lemma LettersBeyondFAccepted(ch: char)
    requires 'H' <= ch <= 'Z' || 'h' <= ch <= 'z'
    ensures 17 <= HexToDec(ch) <= 35
  {
  }

  /** The line terminators and the string terminator are rejected, so a
      carriage return before the line feed fails the line. */
  lemma TerminatorsRejected()
    ensures HexToDec('\n') == NOT_A_DIGIT
    ensures HexToDec('\r') == NOT_A_DIGIT
    ensures HexToDec('\0') == NOT_A_DIGIT
  {
  }

  /** The character at index `k` of the NUL-terminated C string holding `line`:
      past the end of `line` the terminating NUL is read. */
  function CharAt(line: string, k: nat): char
  {
    if k < |line| then line[k] else '\0'
  }

  /** `(hex1 << 4) + hex2` stored into a `uint8_t`. */
  function ByteOf(hi: nat, lo: nat): byte
  {
    (hi * 16 + lo) % 256
  }

  /** The byte `get_byte` stores for the digit pair at `start`, or None when
      it fails. */
  function PairValue(line: string, start: nat): Option<byte>
  {
    var hi := HexToDec(CharAt(line, start));
    var lo := HexToDec(CharAt(line, start + 1));
    if hi == NOT_A_DIGIT || lo == NOT_A_DIGIT then None else Some(ByteOf(hi, lo))
  }

  /** `get_byte`: decodes the digit pair at `start`, writes the byte to
      `bytes[at]` and counts it in `readBytes`; fails, writing and counting
      nothing, when either character decodes to exactly 16. */
  method GetByte(line: string, start: nat, bytes: array<byte>, at: nat, readBytes: nat)
    returns (ok: bool, readBytesOut: nat)
    requires start < |line|
    requires at < bytes.Length
    modifies bytes
    ensures ok <==> HexToDec(CharAt(line, start)) != NOT_A_DIGIT && HexToDec(CharAt(line, start + 1)) != NOT_A_DIGIT
    ensures ok ==> bytes[at] == (HexToDec(line[start]) * 16 + HexToDec(CharAt(line, start + 1))) % 256
    ensures ok ==> Some(bytes[at]) == PairValue(line, start)
    ensures readBytesOut == if ok then readBytes + 1 else readBytes
    ensures forall k :: 0 <= k < bytes.Length && (k != at || !ok) ==> bytes[k] == old(bytes[k])
  {
    var hex1 := HexToDec(line[start]);
    var hex2 := HexToDec(CharAt(line, start + 1));
    if hex1 == NOT_A_DIGIT || hex2 == NOT_A_DIGIT {
      return false, readBytes;
    }
    bytes[at] := (hex1 * 16 + hex2) % 256;
    ok, readBytesOut := true, readBytes + 1;
  }
}
