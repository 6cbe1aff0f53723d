/** The record array of c/intelhex.c: `convert_hex_file_to_array` parses the
    lines of a file one by one into a growable array of records, and
    `display_hex_data` pages through the data records of that array. */
module RecordStore {
  import opened Wrappers
  import opened HexDigits
  import opened LineTokenizer
  import opened Records

  const INITIAL_CAPACITY: uint16 := 10
  const CAPACITY_STEP: uint16 := 10
  const MAX_LINE_DISPLAYED: nat := 25

  /** The record count at which `len += 10` on the `uint16_t` capacity wraps
      around; the loader is modelled only below it. */
  const RECORD_LIMIT: nat := 65530

  /** `len += 10` on a `uint16_t`. */
  function GrownCapacity(len: uint16): (c: uint16)
    ensures len as int + CAPACITY_STEP as int < 0x10000 ==> c as int == len as int + CAPACITY_STEP as int
    ensures len as int + CAPACITY_STEP as int >= 0x10000 ==> c < len
  {
    (len + CAPACITY_STEP) % 0x10000
  }

  /** At the record limit the capacity wraps to 4 and the next `realloc`
      would shrink the array below the records it already holds. */
  lemma CapacityWrapsAtLimit()
    ensures GrownCapacity(RECORD_LIMIT) == 4
  {
  }

  /** The capacity the loader holds after storing `n` records: it starts at
      10 and grows by 10 each time the count reaches it. */
  function CapacityFor(n: nat): nat
  {
    n - n % 10 + 10
  }

  /** The closed form agrees with the loader's growth rule: 10 for an empty
      array, unchanged while the count stays below it, 10 more once the count
      reaches it; the count always stays below it. */
  lemma CapacityForGrowth(n: nat)
    ensures CapacityFor(0) == INITIAL_CAPACITY as int
    ensures n < CapacityFor(n) <= n + 10
    ensures CapacityFor(n) % 10 == 0
    ensures n + 1 < CapacityFor(n) ==> CapacityFor(n + 1) == CapacityFor(n)
    ensures n + 1 == CapacityFor(n) ==> CapacityFor(n + 1) == CapacityFor(n) + CAPACITY_STEP as int
  {
  }

  /** `struct IntelHexArray`: `records[0..size)` are the stored records and
      `capacity` is the allocated length. */
  class IntelHexArray {
    var records: array<Record>
    var size: uint16
    var capacity: uint16

    ghost predicate Valid()
      reads this, records
    {
      records.Length == capacity as int &&
      size < capacity &&
      capacity as int == CapacityFor(size as int) &&
      capacity as int <= RECORD_LIMIT
    }

    ghost function Contents(): seq<Record>
      reads this, records
      requires Valid()
    {
      records[..size]
    }

    /** The `malloc` of ten records with `next == 0`. */
    constructor ()
      ensures Valid()
      ensures Contents() == []
      ensures fresh(records)
    {
      records := new Record[INITIAL_CAPACITY];
      size := 0;
      capacity := INITIAL_CAPACITY;
    }

    /** `records[next++] = record`, followed by the `realloc` to ten more
        records when `next` has reached the capacity. */
    method Append(r: Record)
      requires Valid()
      requires size as int + 1 < RECORD_LIMIT
      modifies this, records
      ensures Valid()
      ensures Contents() == old(Contents()) + [r]
      ensures records == old(records) || fresh(records)
    {
      records[size] := r;
      size := size + 1;
      CapacityForGrowth(size as int - 1);
      if size >= capacity {
        var grown := new Record[GrownCapacity(capacity)];
        forall i | 0 <= i < records.Length {
          grown[i] := records[i];
        }
        records := grown;
        capacity := GrownCapacity(capacity);
      }
    }
  }

  /** Why loading stopped: the 1-based number of the line that did not
      parse, and how it failed. */
  datatype LoadError = LoadError(lineNumber: nat, reason: ParseError)

  type LineResult = Result<Record, ParseError>

  /** The records of a run of per-line parse results, or the first failure
      with its 1-based position. */
  function Collect(results: seq<LineResult>): Result<seq<Record>, LoadError>
  {
    if |results| == 0 then Success([])
    else
      match Collect(results[..|results| - 1])
      case Failure(e) => Failure(e)
      case Success(rs) =>
        match results[|results| - 1]
        case Failure(k) => Failure(LoadError(|results|, k))
        case Success(r) => Success(rs + [r])
  }

  /** The parse result of every line, in order. */
  function ParseLines(lines: seq<string>): (results: seq<LineResult>)
    ensures |results| == |lines|
    ensures forall i :: 0 <= i < |lines| ==> results[i] == ParseLine(lines[i])
  {
    if |lines| == 0 then []
    else
      var prefix := lines[..|lines| - 1];
      assert forall i :: 0 <= i < |prefix| ==> prefix[i] == lines[i];
      ParseLines(prefix) + [ParseLine(lines[|lines| - 1])]
  }

  /** The records of a file, or the first line that does not parse. */
  function DecodeFile(lines: seq<string>): Result<seq<Record>, LoadError>
  {
    Collect(ParseLines(lines))
  }

  lemma {:induction false} CollectSuccess(results: seq<LineResult>)
    ensures Collect(results).Success? <==> forall i :: 0 <= i < |results| ==> results[i].Success?
  {
    if |results| > 0 {
      var prefix := results[..|results| - 1];
      CollectSuccess(prefix);
      if Collect(prefix).Failure? {
        var i :| 0 <= i < |prefix| && !prefix[i].Success?;
        assert !results[i].Success?;
      }
    }
  }

  lemma {:induction false} CollectRecords(results: seq<LineResult>)
    requires Collect(results).Success?
    ensures |Collect(results).value| == |results|
    ensures forall i :: 0 <= i < |results| ==> results[i] == Success(Collect(results).value[i])
  {
    if |results| > 0 {
      var prefix := results[..|results| - 1];
      CollectRecords(prefix);
      assert Collect(results).value == Collect(prefix).value + [results[|results| - 1].value];
    }
  }

  lemma {:induction false} CollectFailure(results: seq<LineResult>)
    ensures Collect(results).Failure? ==>
              var e := Collect(results).error;
              1 <= e.lineNumber <= |results| &&
              results[e.lineNumber - 1] == Failure(e.reason) &&
              forall i :: 0 <= i < e.lineNumber - 1 ==> results[i].Success?
  {
    if |results| > 0 {
      var prefix := results[..|results| - 1];
      CollectFailure(prefix);
      if Collect(prefix).Success? {
        CollectSuccess(prefix);
      }
    }
  }

  lemma {:induction false} CollectStopsAtFailure(results: seq<LineResult>, n: nat)
    requires n <= |results|
    requires Collect(results[..n]).Failure?
    ensures Collect(results) == Collect(results[..n])
    decreases |results| - n
  {
    if n < |results| {
      assert results[..n + 1][..n] == results[..n];
      CollectStopsAtFailure(results, n + 1);
    } else {
      assert results[..n] == results;
    }
  }

  /** Loading succeeds exactly when every line parses ... */
  lemma DecodeFileSuccess(lines: seq<string>)
    ensures DecodeFile(lines).Success? <==> forall i :: 0 <= i < |lines| ==> ParseLine(lines[i]).Success?
  {
    CollectSuccess(ParseLines(lines));
  }

  /** ... and then the records are the lines' records, of every type, in
      file order. */
  lemma DecodeFileRecords(lines: seq<string>)
    requires DecodeFile(lines).Success?
    ensures |DecodeFile(lines).value| == |lines|
    ensures forall i :: 0 <= i < |lines| ==> ParseLine(lines[i]) == Success(DecodeFile(lines).value[i])
  {
    CollectRecords(ParseLines(lines));
  }

  /** A failed load reports the first line that does not parse, by its
      1-based number, and why it failed. */
  lemma DecodeFileFailure(lines: seq<string>)
    ensures DecodeFile(lines).Failure? ==>
              var e := DecodeFile(lines).error;
              1 <= e.lineNumber <= |lines| &&
              ParseLine(lines[e.lineNumber - 1]) == Failure(e.reason) &&
              forall i :: 0 <= i < e.lineNumber - 1 ==> ParseLine(lines[i]).Success?
  {
    CollectFailure(ParseLines(lines));
  }

  /** One more line: its record is appended, or loading fails at it. */
  lemma DecodeFileSnoc(lines: seq<string>, line: string)
    requires DecodeFile(lines).Success?
    ensures ParseLine(line).Success? ==>
              DecodeFile(lines + [line]) == Success(DecodeFile(lines).value + [ParseLine(line).value])
    ensures ParseLine(line).Failure? ==>
              DecodeFile(lines + [line]) == Failure(LoadError(|lines| + 1, ParseLine(line).error))
  {
    var all := lines + [line];
    assert all[..|all| - 1] == lines;
    var results := ParseLines(all);
    assert results == ParseLines(lines) + [ParseLine(line)];
    assert results[..|results| - 1] == ParseLines(lines);
  }

  /** A one-line file holds that line's record, or fails at line 1. */
  lemma DecodeOneLine(line: string)
    ensures ParseLine(line).Success? ==> DecodeFile([line]) == Success([ParseLine(line).value])
    ensures ParseLine(line).Failure? ==> DecodeFile([line]) == Failure(LoadError(1, ParseLine(line).error))
  {
    assert ParseLines([]) == [];
    DecodeFileSnoc([], line);
    assert [] + [line] == [line];
    if ParseLine(line).Success? {
      assert [] + [ParseLine(line).value] == [ParseLine(line).value];
    }
  }

  /** Parsing a prefix of the lines gives the prefix of the results. */
  lemma ParseLinesPrefix(lines: seq<string>, n: nat)
    requires n <= |lines|
    ensures ParseLines(lines[..n]) == ParseLines(lines)[..n]
  {
  }

  /** Lines after the first failing one are never looked at. */
  lemma DecodeFileStopsAtFailure(lines: seq<string>, n: nat)
    requires n <= |lines|
    requires DecodeFile(lines[..n]).Failure?
    ensures DecodeFile(lines) == DecodeFile(lines[..n])
  {
    ParseLinesPrefix(lines, n);
    CollectStopsAtFailure(ParseLines(lines), n);
  }

  /** `convert_hex_file_to_array` over the lines `fgets` returns. On a
      malformed line the source prints its number and exits; the model
      returns that line's number and the records stored before it. */
  method ConvertHexFileToArray(lines: seq<string>) returns (obj: IntelHexArray, failure: Option<LoadError>)
    requires |lines| < RECORD_LIMIT
    requires forall i :: 0 <= i < |lines| ==> |lines[i]| < HEX_LINE_MAX_LENGTH
    ensures fresh(obj) && fresh(obj.records)
    ensures obj.Valid()
    ensures failure.None? <==> DecodeFile(lines).Success?
    ensures failure.None? ==> obj.Contents() == DecodeFile(lines).value
    ensures failure.Some? ==>
              DecodeFile(lines) == Failure(failure.value) &&
              1 <= failure.value.lineNumber <= |lines| &&
              Success(obj.Contents()) == DecodeFile(lines[..failure.value.lineNumber - 1])
  {
    obj := new IntelHexArray();
    var i := 0;
    while i < |lines|
      invariant 0 <= i <= |lines|
      invariant fresh(obj) && fresh(obj.records)
      invariant obj.Valid()
      invariant obj.size as int == i
      invariant DecodeFile(lines[..i]) == Success(obj.Contents())
    {
      assert lines[..i + 1] == lines[..i] + [lines[i]];
      DecodeFileSnoc(lines[..i], lines[i]);
      var result := ParseIntelHexLine(lines[i]);
      if result.Failure? {
        failure := Some(LoadError(obj.size as int + 1, result.error));
        DecodeFileStopsAtFailure(lines, i + 1);
        return;
      }
      obj.Append(result.value);
      i := i + 1;
    }
    assert lines[..i] == lines;
    failure := None;
  }

  /** The indices in `[lo, hi)` of the data records of `rs`, in order. */
  function DataIndices(rs: seq<Record>, lo: nat, hi: nat): seq<nat>
    requires lo <= hi <= |rs|
    decreases hi - lo
  {
    if lo == hi then []
    else DataIndices(rs, lo, hi - 1) + (if IsDataRecord(rs[hi - 1]) then [hi - 1] else [])
  }

  /** `DataIndices` lists exactly the data records in the range, each once,
      in increasing order. */
  lemma {:induction false} DataIndicesExact(rs: seq<Record>, lo: nat, hi: nat)
    requires lo <= hi <= |rs|
    ensures forall k :: k in DataIndices(rs, lo, hi) <==> lo <= k < hi && IsDataRecord(rs[k])
    ensures forall a, b :: 0 <= a < b < |DataIndices(rs, lo, hi)| ==>
              DataIndices(rs, lo, hi)[a] < DataIndices(rs, lo, hi)[b]
    decreases hi - lo
  {
    if lo < hi {
      DataIndicesExact(rs, lo, hi - 1);
      var before := DataIndices(rs, lo, hi - 1);
      forall a | 0 <= a < |before|
        ensures before[a] < hi - 1
      {
        assert before[a] in before;
      }
    }
  }

  /** Consecutive pages list the data records of the combined range. */
  lemma {:induction false} DataIndicesSplit(rs: seq<Record>, lo: nat, mid: nat, hi: nat)
    requires lo <= mid <= hi <= |rs|
    ensures DataIndices(rs, lo, hi) == DataIndices(rs, lo, mid) + DataIndices(rs, mid, hi)
    decreases hi - mid
  {
    if mid < hi {
      DataIndicesSplit(rs, lo, mid, hi - 1);
    }
  }

  /** `display_hex_data`: from `from` on, select data records until 25 have
      been selected or the array ends. `next` is the new value of `*from`;
      `shown` lists the indices `display_record` would print. */
  method DisplayHexData(obj: IntelHexArray, from: uint16) returns (next: uint16, shown: seq<nat>)
    requires obj.Valid()
    ensures from <= next
    ensures from as int >= |obj.Contents()| ==> next == from && shown == []
    ensures from as int < |obj.Contents()| ==>
              next as int <= |obj.Contents()| &&
              shown == DataIndices(obj.Contents(), from as int, next as int) &&
              |shown| <= MAX_LINE_DISPLAYED &&
              (next as int == |obj.Contents()| || |shown| == MAX_LINE_DISPLAYED) &&
              (|shown| == MAX_LINE_DISPLAYED ==> IsDataRecord(obj.Contents()[next - 1]))
  {
    ghost var rs := obj.Contents();
    var displayed := 0;
    next := from;
    shown := [];
    while next < obj.size && displayed < MAX_LINE_DISPLAYED
      invariant from <= next
      invariant from >= obj.size ==> next == from && shown == []
      invariant from < obj.size ==> next <= obj.size && shown == DataIndices(rs, from as int, next as int)
      invariant displayed == |shown| <= MAX_LINE_DISPLAYED
      invariant displayed == MAX_LINE_DISPLAYED ==> from < next && IsDataRecord(rs[next - 1])
    {
      var r := obj.records[next];
      if IsDataRecord(r) {
        shown := shown + [next as nat];
        displayed := displayed + 1;
      }
      next := next + 1;
    }
  }
}
