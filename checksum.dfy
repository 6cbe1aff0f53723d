/** The checksum validator of c/intelhex.c: `validate_record`. */
module Checksum {
  import opened HexDigits
  import opened Records

  /** The sum of a byte sequence, without truncation. */
  function Sum(s: seq<byte>): nat
  {
    if s == [] then 0 else s[0] + Sum(s[1..])
  }

  /** Adding one more byte at the end adds its value. */
  lemma {:induction false} SumSnoc(s: seq<byte>, x: byte)
    ensures Sum(s + [x]) == Sum(s) + x
    decreases |s|
  {
    if s != [] {
      assert (s + [x])[1..] == s[1..] + [x];
      SumSnoc(s[1..], x);
    } else {
      assert Sum([x]) == x + Sum([]);
    }
  }

  /** The sum of the fields the checksum covers: count, both address bytes,
      type and the first `len` payload bytes. */
  function FieldSum(r: Record): nat
    requires r.len <= |r.data|
  {
    r.len + r.addr / 256 + r.addr % 256 + r.recType + Sum(r.data[..r.len])
  }

  /** The checksum a record should carry: the two's complement, modulo 256,
      of its field sum. */
  function ChecksumOf(r: Record): byte
    requires r.len <= |r.data|
  {
    (256 - FieldSum(r) % 256) % 256
  }

  predicate IsValidRecord(r: Record)
    requires r.len <= |r.data|
  {
    ChecksumOf(r) == r.check
  }

  lemma ModAdd(a: nat, x: nat)
    ensures (a % 256 + x) % 256 == (a + x) % 256
  {
  }

  lemma TwoComplementMatches(s: nat, c: byte)
    ensures (256 - s % 256) % 256 == c <==> (s + c) % 256 == 0
  {
  }

  /** A record is valid exactly when its field sum and its checksum byte add
      up to 0 modulo 256. */
  lemma ValidIffSumIsZero(r: Record)
    requires r.len <= |r.data|
    ensures IsValidRecord(r) <==> (FieldSum(r) + r.check) % 256 == 0
  {
    TwoComplementMatches(FieldSum(r), r.check);
  }

  /** Writing the computed checksum into a record makes it valid, and no other
      checksum byte does. */
  lemma ChecksumIsUnique(r: Record, c: byte)
    requires r.len <= |r.data|
    ensures IsValidRecord(r.(check := c)) <==> c == ChecksumOf(r)
  {
  }

  lemma {:induction false} SumUpdate(s: seq<byte>, k: nat, v: byte)
    requires k < |s|
    ensures Sum(s[k := v]) + s[k] == Sum(s) + v
    decreases |s|
  {
    var t := s[k := v];
    if k > 0 {
      assert t[1..] == s[1..][k - 1 := v];
      SumUpdate(s[1..], k - 1, v);
    } else {
      assert t[1..] == s[1..];
    }
  }

  /** Changing any one covered payload byte of a valid record makes it
      invalid. */
  lemma SingleByteChangeDetected(r: Record, k: nat, v: byte)
    requires r.len <= |r.data| && IsValidRecord(r)
    requires k < r.len && v != r.data[k]
    ensures !IsValidRecord(r.(data := r.data[k := v]))
  {
    var r' := r.(data := r.data[k := v]);
    assert r'.data[..r.len] == r.data[..r.len][k := v];
    SumUpdate(r.data[..r.len], k, v);
    assert FieldSum(r') + r.check == FieldSum(r) + r.check + (v - r.data[k]);
    ValidIffSumIsZero(r);
    ShiftBreaksMultiple(FieldSum(r) + r.check, v - r.data[k]);
    ValidIffSumIsZero(r');
  }

  lemma ShiftBreaksMultiple(a: int, d: int)
    requires a % 256 == 0 && d != 0 && -256 < d < 256
    ensures (a + d) % 256 != 0
  {
  }

  /** `validate_record`: sums count, address bytes, type and the first `len`
      payload bytes in a `uint8_t`, takes the two's complement and compares
      it with the checksum byte. */
  method ValidateRecord(r: Record) returns (valid: bool)
    requires r.len <= |r.data|
    ensures valid <==> (FieldSum(r) + r.check) % 256 == 0
    ensures valid <==> IsValidRecord(r)
  {
    var aaaa := r.addr;
    var highAddr := aaaa / 256;
    var lowAddr := aaaa % 256;
    var sum: byte := (r.len + highAddr + lowAddr + r.recType) % 256;
    var i := 0;
    while i < r.len
      invariant 0 <= i <= r.len
      invariant sum == (r.len + highAddr + lowAddr + r.recType + Sum(r.data[..i])) % 256
    {
      assert r.data[..i + 1] == r.data[..i] + [r.data[i]];
      SumSnoc(r.data[..i], r.data[i]);
      ModAdd(r.len + highAddr + lowAddr + r.recType + Sum(r.data[..i]), r.data[i]);
      sum := (sum + r.data[i]) % 256;
      i := i + 1;
    }
    var twoComplement: byte := (255 - sum + 1) % 256;
    valid := twoComplement == r.check;
    assert r.data[..r.len] == r.data[..i];
    TwoComplementMatches(FieldSum(r), r.check);
  }

  /** The sum of two byte runs is the sum of their sums. */
  lemma {:induction false} SumConcat(s: seq<byte>, t: seq<byte>)
    ensures Sum(s + t) == Sum(s) + Sum(t)
    decreases |s|
  {
    if s != [] {
      assert (s + t)[1..] == s[1..] + t;
      SumConcat(s[1..], t);
    } else {
      assert s + t == t;
    }
  }
}
