/** The line tokenizer of c/intelhex.c: `convert_hex_line_to_bytes`. A line
    is the text `fgets` delivers: it may end in '\n', and the C string's
    terminating NUL is read through `CharAt`. */
module LineTokenizer {
  import opened Wrappers
  import opened HexDigits

  const RECORD_START_CODE := ':'

  /** The size of the `fgets` buffer: a line holds at most 520 characters. */
  const HEX_LINE_MAX_LENGTH: nat := 521

  /** The size of the byte buffer `parse_intel_hex_line` allocates. */
  const MAX_BYTES: nat := HEX_LINE_MAX_LENGTH / 2

  /** The characters that end the scan of a line. */
  predicate IsTerminator(ch: char) { ch == '\0' || ch == '\n' }

  /** `rest` with `prefix` in front, when there is a `rest`. */
  function Prepend(prefix: seq<byte>, rest: Option<seq<byte>>): Option<seq<byte>>
  {
    match rest
    case None => None
    case Some(bs) => Some(prefix + bs)
  }

  lemma PrependTwice(p: seq<byte>, q: seq<byte>, rest: Option<seq<byte>>)
    ensures Prepend(p, Prepend(q, rest)) == Prepend(p + q, rest)
    ensures Prepend([], rest) == rest
  {
    if rest.Some? {
      assert p + (q + rest.value) == (p + q) + rest.value;
      assert [] + rest.value == rest.value;
    }
  }

  /** The bytes decoded from the digit pairs starting at index `i`, up to the
      first terminator; None when a pair fails. */
  function TokenizeFrom(line: string, i: nat): Option<seq<byte>>
    decreases |line| + 1 - i
  {
    if IsTerminator(CharAt(line, i)) then Some([])
    else match PairValue(line, i)
      case None => None
      case Some(b) =>
        match TokenizeFrom(line, i + 2)
        case None => None
        case Some(rest) => Some([b] + rest)
  }

  /** What `convert_hex_line_to_bytes` leaves in the byte buffer when it
      returns true, or None when it returns false. */
  function Tokenize(line: string): Option<seq<byte>>
  {
    if CharAt(line, 0) != RECORD_START_CODE then None else TokenizeFrom(line, 1)
  }

  /** The index of the first terminator at or after `i` (the NUL past the end
      of the line, at the latest). */
  function TerminatorIndex(line: string, i: nat): (t: nat)
    requires i <= |line|
    ensures i <= t <= |line|
    ensures IsTerminator(CharAt(line, t))
    ensures forall k :: i <= k < t ==> !IsTerminator(line[k])
    decreases |line| - i
  {
    if i == |line| || IsTerminator(line[i]) then i else TerminatorIndex(line, i + 1)
  }

  /** The digit characters of a line: everything after the start code up to
      the first terminator. */
  function Digits(line: string): string
    requires 1 <= |line|
  {
    line[1..TerminatorIndex(line, 1)]
  }

  /** A digit run decodes when its length is even and none of its characters
      decodes to 16. */
  predicate DecodableDigits(ds: string)
  {
    |ds| % 2 == 0 && forall k :: 0 <= k < |ds| ==> HexToDec(ds[k]) != NOT_A_DIGIT
  }

  /** Byte `k` is decoded from digits `2k` and `2k+1`. */
  predicate DecodedFrom(bs: seq<byte>, ds: string)
  {
    |bs| * 2 == |ds| &&
    forall k :: 0 <= k < |bs| ==> bs[k] == ByteOf(HexToDec(ds[2 * k]), HexToDec(ds[2 * k + 1]))
  }

  lemma {:induction false} TokenizeFromSpec(line: string, i: nat)
    requires i <= |line|
    ensures TokenizeFrom(line, i).Some? <==> DecodableDigits(line[i..TerminatorIndex(line, i)])
    ensures TokenizeFrom(line, i).Some? ==>
              DecodedFrom(TokenizeFrom(line, i).value, line[i..TerminatorIndex(line, i)])
    decreases |line| - i
  {
    var t := TerminatorIndex(line, i);
    var ds := line[i..t];
    if IsTerminator(CharAt(line, i)) {
      assert t == i;
    } else {
      assert i < |line| && t > i;
      var hi := HexToDec(line[i]);
      var lo := HexToDec(CharAt(line, i + 1));
      if hi == NOT_A_DIGIT {
        assert ds[0] == line[i];
      } else if lo == NOT_A_DIGIT {
        if i + 1 < t {
          assert ds[1] == line[i + 1];
        } else {
          assert |ds| == 1;
        }
      } else {
        assert i + 1 < |line| && !IsTerminator(line[i + 1]);
        assert TerminatorIndex(line, i + 1) == t;
        assert TerminatorIndex(line, i + 2) == t;
        TokenizeFromSpec(line, i + 2);
        var rest := line[i + 2..t];
        assert ds[2..] == rest;
        ConsDecodable(ds, rest);
        if TokenizeFrom(line, i + 2).Some? {
          ConsDecoded(TokenizeFrom(line, i).value, TokenizeFrom(line, i + 2).value, ds, rest);
        }
      }
    }
  }

  /** A digit run that starts with two accepted digits decodes exactly when
      the rest of it does. */
  lemma ConsDecodable(ds: string, rest: string)
    requires |ds| >= 2 && ds[2..] == rest
    requires HexToDec(ds[0]) != NOT_A_DIGIT && HexToDec(ds[1]) != NOT_A_DIGIT
    ensures DecodableDigits(ds) <==> DecodableDigits(rest)
  {
    if DecodableDigits(rest) {
      forall k | 0 <= k < |ds| ensures HexToDec(ds[k]) != NOT_A_DIGIT {
        if k >= 2 { assert ds[k] == rest[k - 2]; }
      }
    }
    if DecodableDigits(ds) {
      forall k | 0 <= k < |rest| ensures HexToDec(rest[k]) != NOT_A_DIGIT {
        assert ds[k + 2] == rest[k];
      }
    }
  }

  /** The byte of the first pair followed by the bytes of the rest are the
      bytes of the whole run. */
  lemma ConsDecoded(bs: seq<byte>, tail: seq<byte>, ds: string, rest: string)
    requires |ds| >= 2 && ds[2..] == rest
    requires bs == [ByteOf(HexToDec(ds[0]), HexToDec(ds[1]))] + tail
    requires DecodedFrom(tail, rest)
    ensures DecodedFrom(bs, ds)
  {
    forall k | 0 <= k < |bs|
      ensures bs[k] == ByteOf(HexToDec(ds[2 * k]), HexToDec(ds[2 * k + 1]))
    {
      if k > 0 {
        assert bs[k] == tail[k - 1];
        assert ds[2 * k] == rest[2 * (k - 1)];
        assert ds[2 * k + 1] == rest[2 * (k - 1) + 1];
      }
    }
  }

  /** `convert_hex_line_to_bytes` succeeds exactly when the line starts with
      ':' and the digits up to the first NUL or '\n' are an even number of
      accepted characters; the bytes are then the digit pairs, in order. */
  lemma TokenizeSpec(line: string)
    ensures Tokenize(line).Some? <==>
              1 <= |line| && line[0] == RECORD_START_CODE && DecodableDigits(Digits(line))
    ensures Tokenize(line).Some? ==> DecodedFrom(Tokenize(line).value, Digits(line))
  {
    if 1 <= |line| {
      TokenizeFromSpec(line, 1);
    }
  }

  /** A line whose first character is not ':' fails, and so does an empty one. */
  lemma MissingStartCodeFails(line: string)
    requires |line| == 0 || line[0] != RECORD_START_CODE
    ensures Tokenize(line) == None
  {
  }

  /** An odd number of digits fails: the terminator is read as the second
      digit of the last pair. */
  lemma OddDigitCountFails(line: string)
    requires 1 <= |line| && |Digits(line)| % 2 == 1
    ensures Tokenize(line) == None
  {
    TokenizeSpec(line);
  }

  /** A line with Windows line endings fails: the '\r' before the '\n' is one
      of its digits and decodes to 16. */
  lemma CrLfLineFails(body: string)
    requires forall k :: 0 <= k < |body| ==> !IsTerminator(body[k])
    ensures Tokenize([RECORD_START_CODE] + body + "\r\n") == None
  {
    var line := [RECORD_START_CODE] + body + "\r\n";
    TokenizeSpec(line);
    assert line[|body| + 1] == '\r' && line[|body| + 2] == '\n';
    TerminatorAfter(line, 1, |body| + 2);
    assert Digits(line)[|body|] == '\r';
  }

  /** The first terminator after `i` is at `t` when none comes before. */
  lemma {:induction false} TerminatorAfter(line: string, i: nat, t: nat)
    requires i <= t < |line|
    requires IsTerminator(line[t])
    requires forall k :: i <= k < t ==> !IsTerminator(line[k])
    ensures TerminatorIndex(line, i) == t
    decreases t - i
  {
    if i < t {
      TerminatorAfter(line, i + 1, t);
    }
  }

  /** The two upper-case digits of every byte, in order: the canonical
      encoding of a byte sequence. */
  function ToHex(bs: seq<byte>): (s: string)
    ensures |s| == 2 * |bs|
  {
    if bs == [] then [] else [DigitChar(bs[0] / 16), DigitChar(bs[0] % 16)] + ToHex(bs[1..])
  }

  /** The upper-case digit of a value below 16. */
  function DigitChar(d: nat): (ch: char)
    requires d < 16
    ensures HexToDec(ch) == d && !IsTerminator(ch)
  {
    if d < 10 then ('0' as int + d) as char else ('A' as int + d - 10) as char
  }

  /** The digits of two byte runs are the digits of each, one after the other. */
  lemma {:induction false} ToHexConcat(a: seq<byte>, b: seq<byte>)
    ensures ToHex(a + b) == ToHex(a) + ToHex(b)
    decreases |a|
  {
    if a != [] {
      assert (a + b)[1..] == a[1..] + b;
      ToHexConcat(a[1..], b);
    } else {
      assert a + b == b;
    }
  }

  lemma {:induction false} TokenizeFromHex(line: string, i: nat, bs: seq<byte>)
    requires i + 2 * |bs| <= |line|
    requires line[i..i + 2 * |bs|] == ToHex(bs)
    requires IsTerminator(CharAt(line, i + 2 * |bs|))
    ensures TokenizeFrom(line, i) == Some(bs)
    decreases |bs|
  {
    if bs != [] {
      var b := bs[0];
      assert line[i] == ToHex(bs)[0] == DigitChar(b / 16);
      assert line[i + 1] == ToHex(bs)[1] == DigitChar(b % 16);
      assert PairValue(line, i) == Some(b);
      assert ToHex(bs)[2..] == ToHex(bs[1..]);
      assert line[i + 2..i + 2 + 2 * |bs[1..]|] == ToHex(bs)[2..];
      TokenizeFromHex(line, i + 2, bs[1..]);
      assert CharAt(line, i) == line[i];
      assert [b] + bs[1..] == bs;
    }
  }

  /** Every byte sequence written as ':' followed by its upper-case digit
      pairs tokenizes back to itself, with or without a final '\n'. */
  lemma TokenizeHexRoundTrip(bs: seq<byte>)
    ensures Tokenize([RECORD_START_CODE] + ToHex(bs)) == Some(bs)
    ensures Tokenize([RECORD_START_CODE] + ToHex(bs) + "\n") == Some(bs)
  {
    var line := [RECORD_START_CODE] + ToHex(bs);
    assert line[1..1 + 2 * |bs|] == ToHex(bs);
    TokenizeFromHex(line, 1, bs);
    var lineNl := line + "\n";
    assert lineNl[1..1 + 2 * |bs|] == ToHex(bs);
    TokenizeFromHex(lineNl, 1, bs);
  }

  /** One step of the scan: a pair that decodes to `b` is followed by the
      decoding of the rest of the line; a terminator ends the scan. */
  lemma TokenizeStep(line: string, i: nat, b: byte)
    ensures IsTerminator(CharAt(line, i)) ==> TokenizeFrom(line, i) == Some([])
    ensures !IsTerminator(CharAt(line, i)) && PairValue(line, i) == Some(b) ==>
              i + 2 <= |line| && TokenizeFrom(line, i) == Prepend([b], TokenizeFrom(line, i + 2))
  {
  }

  /** `convert_hex_line_to_bytes`: checks the start code, then decodes digit
      pairs into `bytes[0..]` until a NUL or '\n', counting them in
      `readBytes`; fails on the first pair that does not decode. */
  method ConvertHexLineToBytes(line: string, bytes: array<byte>, readBytes: nat)
    returns (ok: bool, readBytesOut: nat)
    requires |line| < HEX_LINE_MAX_LENGTH
    requires bytes.Length == MAX_BYTES
    modifies bytes
    ensures ok <==> Tokenize(line).Some?
    ensures ok ==> 2 * |Tokenize(line).value| < |line|
    ensures ok ==> readBytesOut == readBytes + |Tokenize(line).value|
    ensures ok ==> bytes[..|Tokenize(line).value|] == Tokenize(line).value
  {
    if CharAt(line, 0) != RECORD_START_CODE {
      return false, readBytes;
    }
    var i := 1;
    var j := 0;
    readBytesOut := readBytes;
    assert bytes[..0] == [];
    PrependTwice([], [], TokenizeFrom(line, 1));
    while !IsTerminator(CharAt(line, i))
      invariant i == 2 * j + 1 && i <= |line|
      invariant readBytesOut == readBytes + j
      invariant TokenizeFrom(line, 1) == Prepend(bytes[..j], TokenizeFrom(line, i))
      decreases |line| - i
    {
      ghost var done := bytes[..j];
      var check;
      check, readBytesOut := GetByte(line, i, bytes, j, readBytesOut);
      if !check {
        return false, readBytesOut;
      }
      assert bytes[..j] == done;
      TokenizeStep(line, i, bytes[j]);
      assert bytes[..j + 1] == done + [bytes[j]];
      PrependTwice(done, [bytes[j]], TokenizeFrom(line, i + 2));
      i := i + 2;
      j := j + 1;
    }
    TokenizeStep(line, i, 0);
    return true, readBytesOut;
  }
}
