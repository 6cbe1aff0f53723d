/** The C++ `HexFileReader` of cpp/HexFileReader.h and cpp/HexFileReader.cpp:
    it accepts only paths ending in `.hex`, reads the file into a list of
    lines with `std::getline`, and hands the lines out one at a time. */
module HexFileReading {
  import opened Wrappers

  const HEX_EXTENSION := ".hex"

  /** `HexFileReader::isHexFile`: the path is at least four characters long
      and its last four are exactly `.hex`, compared case-sensitively. */
  predicate IsHexFile(path: string)
  {
    |path| >= 4 && path[|path| - 4..] == HEX_EXTENSION
  }

  /** Every path made of a stem and `.hex` is accepted ... */
  lemma HexSuffixAccepted(stem: string)
    ensures IsHexFile(stem + HEX_EXTENSION)
  {
    assert (stem + HEX_EXTENSION)[|stem|..] == HEX_EXTENSION;
  }

  /** ... and every accepted path is such a stem and `.hex`. */
  lemma AcceptedHasHexSuffix(path: string)
    requires IsHexFile(path)
    ensures path == path[..|path| - 4] + HEX_EXTENSION
  {
    assert path == path[..|path| - 4] + path[|path| - 4..];
  }

  /** The bare name `.hex` is accepted. */
  lemma BareExtensionAccepted()
    ensures IsHexFile(".hex")
  {
    HexSuffixAccepted("");
  }

  /** Paths shorter than the extension are rejected. */
  lemma ShortPathRejected(path: string)
    requires |path| < 4
    ensures !IsHexFile(path)
  {
  }

  /** The upper-case extension is rejected. */
  lemma UpperCaseExtensionRejected(stem: string)
    ensures !IsHexFile(stem + ".HEX")
  {
    var path := stem + ".HEX";
    assert path[|path| - 4..][1] == 'H';
  }

  /** The file text cut at every `'\n'`; the newlines are dropped and every
      other character, `'\r'` included, is kept. */
  function SplitLines(text: string): (lines: seq<string>)
    ensures |lines| >= 1
    decreases |text|
  {
    if |text| == 0 then [""]
    else if text[0] == '\n' then [""] + SplitLines(text[1..])
    else
      var rest := SplitLines(text[1..]);
      [[text[0]] + rest[0]] + rest[1..]
  }

  /** The lines put back together with a `'\n'` between each two. */
  function JoinLines(lines: seq<string>): string
    requires |lines| >= 1
  {
    if |lines| == 1 then lines[0] else lines[0] + "\n" + JoinLines(lines[1..])
  }

  function NewlineCount(text: string): nat
  {
    if |text| == 0 then 0 else (if text[0] == '\n' then 1 else 0) + NewlineCount(text[1..])
  }

  predicate NoNewline(line: string)
  {
    forall k :: 0 <= k < |line| ==> line[k] != '\n'
  }

  /** A text without a newline is a single line. */
  lemma {:induction false} SplitNoNewline(line: string)
    requires NoNewline(line)
    ensures SplitLines(line) == [line]
  {
    if |line| > 0 {
      assert NoNewline(line[1..]);
      SplitNoNewline(line[1..]);
      assert line == [line[0]] + line[1..];
    }
  }

  /** The first line ends at the first newline. */
  lemma {:induction false} SplitAtNewline(first: string, rest: string)
    requires NoNewline(first)
    ensures SplitLines(first + "\n" + rest) == [first] + SplitLines(rest)
  {
    if |first| > 0 {
      assert (first + "\n" + rest)[0] == first[0];
      assert (first + "\n" + rest)[1..] == first[1..] + "\n" + rest;
      assert NoNewline(first[1..]);
      SplitAtNewline(first[1..], rest);
      assert first == [first[0]] + first[1..];
    } else {
      assert first + "\n" + rest == "\n" + rest;
    }
  }

  /** Splitting undoes joining lines that hold no newline ... */
  lemma {:induction false} SplitJoin(lines: seq<string>)
    requires |lines| >= 1
    requires forall i :: 0 <= i < |lines| ==> NoNewline(lines[i])
    ensures SplitLines(JoinLines(lines)) == lines
  {
    if |lines| == 1 {
      SplitNoNewline(lines[0]);
    } else {
      SplitJoin(lines[1..]);
      SplitAtNewline(lines[0], JoinLines(lines[1..]));
    }
  }

  /** Putting a character in front of the first line puts it in front of
      the joined text. */
  lemma JoinCons(c: char, lines: seq<string>)
    requires |lines| >= 1
    ensures JoinLines([[c] + lines[0]] + lines[1..]) == [c] + JoinLines(lines)
  {
    var grown := [[c] + lines[0]] + lines[1..];
    assert grown[1..] == lines[1..];
  }

  /** ... and joining undoes splitting ... */
  lemma {:induction false} JoinSplit(text: string)
    ensures JoinLines(SplitLines(text)) == text
    decreases |text|
  {
    if |text| > 0 {
      var rest := SplitLines(text[1..]);
      JoinSplit(text[1..]);
      if text[0] == '\n' {
        assert ([""] + rest)[1..] == rest;
        assert text == "\n" + text[1..];
      } else {
        JoinCons(text[0], rest);
        assert text == [text[0]] + text[1..];
      }
    }
  }

  /** ... where no line holds a newline. */
  lemma {:induction false} SplitHasNoNewline(text: string)
    ensures forall i :: 0 <= i < |SplitLines(text)| ==> NoNewline(SplitLines(text)[i])
    decreases |text|
  {
    if |text| > 0 {
      var rest := SplitLines(text[1..]);
      SplitHasNoNewline(text[1..]);
      var lines := SplitLines(text);
      if text[0] == '\n' {
        assert forall i :: 0 < i < |lines| ==> lines[i] == rest[i - 1];
      } else {
        assert forall i :: 0 < i < |lines| ==> lines[i] == rest[i];
        assert NoNewline(lines[0]) by {
          assert forall k :: 0 < k < |lines[0]| ==> lines[0][k] == rest[0][k - 1];
        }
      }
    }
  }

  /** One line per newline, plus the one after the last. */
  lemma {:induction false} LineCount(text: string)
    ensures |SplitLines(text)| == NewlineCount(text) + 1
    decreases |text|
  {
    if |text| > 0 {
      LineCount(text[1..]);
    }
  }

  /** A newline at the end of the file adds a final empty line. */
  lemma {:induction false} TrailingNewlineAddsEmptyLine(text: string)
    ensures SplitLines(text + "\n") == SplitLines(text) + [""]
    decreases |text|
  {
    if |text| > 0 {
      assert (text + "\n")[1..] == text[1..] + "\n";
      TrailingNewlineAddsEmptyLine(text[1..]);
    }
  }

  /** An empty file is one empty line. */
  lemma EmptyFileIsOneEmptyLine()
    ensures SplitLines("") == [""]
  {
  }

  /** A line ended by `"\r\n"` keeps its `'\r'`. */
  lemma CarriageReturnKept(line: string)
    requires NoNewline(line)
    ensures SplitLines(line + "\r\n") == [line + "\r", ""]
  {
    assert line + "\r\n" == (line + "\r") + "\n" + "";
    SplitAtNewline(line + "\r", "");
  }

  /** One `std::getline` from `start`: the characters up to the next
      newline, or to the end, are the first line of what is left. */
  lemma GetLineStep(text: string, start: nat, pos: nat)
    requires start <= pos <= |text|
    requires NoNewline(text[start..pos])
    requires pos == |text| || text[pos] == '\n'
    ensures pos < |text| ==> SplitLines(text[start..]) == [text[start..pos]] + SplitLines(text[pos + 1..])
    ensures pos == |text| ==> SplitLines(text[start..]) == [text[start..pos]]
  {
    if pos < |text| {
      assert text[start..] == text[start..pos] + "\n" + text[pos + 1..];
      SplitAtNewline(text[start..pos], text[pos + 1..]);
    } else {
      assert text[start..] == text[start..pos];
      SplitNoNewline(text[start..pos]);
    }
  }

  /** `std::getline` on a stream over `text` at position `start`: the
      characters up to the next newline or the end; `stop` is where that
      newline, or the end, is. */
  method GetLine(text: string, start: nat) returns (line: string, stop: nat)
    requires start <= |text|
    ensures start <= stop <= |text|
    ensures line == text[start..stop]
    ensures NoNewline(line)
    ensures stop == |text| || text[stop] == '\n'
  {
    line := "";
    stop := start;
    while stop < |text| && text[stop] != '\n'
      invariant start <= stop <= |text|
      invariant line == text[start..stop]
      invariant NoNewline(line)
    {
      line := line + [text[stop]];
      stop := stop + 1;
    }
  }

  /** Why the constructor throws a `HexFileException`. */
  datatype ReaderError = NotHexFile | CannotOpen(path: string)

  /** `class HexFileReader`: the lines read and the index of the next line
      to hand out. */
  class HexFileReader {
    var hexArr: seq<string>
    var nextIdx: nat

    ghost predicate Valid()
      reads this
    {
      nextIdx <= |hexArr|
    }

    /** The lines not handed out yet. */
    ghost function Remaining(): seq<string>
      reads this
      requires Valid()
    {
      hexArr[nextIdx..]
    }

    /** The member initialisation: no lines yet, `nextIdx(0)`. */
    constructor ()
      ensures Valid()
      ensures hexArr == [] && nextIdx == 0
    {
      hexArr := [];
      nextIdx := 0;
    }

    /** `numLines()`: how many lines were read. */
    function NumLines(): nat
      reads this
    {
      |hexArr|
    }

    /** `ReadFile`: `std::getline` then `push_back` until the stream is at its
        end. `text` is the file's content; `pos` is the stream position. */
    method ReadFile(text: string)
      modifies this
      ensures hexArr == old(hexArr) + SplitLines(text)
      ensures nextIdx == old(nextIdx)
      ensures NumLines() == old(NumLines()) + NewlineCount(text) + 1
    {
      var pos := 0;
      var eof := false;
      while !eof
        invariant 0 <= pos <= |text|
        invariant nextIdx == old(nextIdx)
        invariant !eof ==> hexArr + SplitLines(text[pos..]) == old(hexArr) + SplitLines(text)
        invariant eof ==> hexArr == old(hexArr) + SplitLines(text)
        decreases |text| - pos + (if eof then 0 else 1)
      {
        var line, stop := GetLine(text, pos);
        GetLineStep(text, pos, stop);
        if stop < |text| {
          assert hexArr + [line] + SplitLines(text[stop + 1..]) == hexArr + ([line] + SplitLines(text[stop + 1..]));
          pos := stop + 1;
        } else {
          eof := true;
        }
        hexArr := hexArr + [line];
      }
      LineCount(text);
    }

    /** `nextLine()`: the line at `nextIdx`, which then moves on by one; past
        the last line the source returns `NULL`, here `None`. */
    method NextLine() returns (line: Option<string>)
      requires Valid()
      modifies this
      ensures Valid()
      ensures hexArr == old(hexArr)
      ensures line.Some? <==> old(nextIdx) < |hexArr|
      ensures line.Some? ==> line.value == hexArr[old(nextIdx)] && nextIdx == old(nextIdx) + 1
      ensures line.None? ==> nextIdx == old(nextIdx)
      ensures old(Remaining()) == (if line.Some? then [line.value] else []) + Remaining()
    {
      if nextIdx >= NumLines() {
        return None;
      }
      line := Some(hexArr[nextIdx]);
      nextIdx := nextIdx + 1;
    }
  }

  /** `HexFileReader(const char* path)`: the path gate comes first, then the
      open check, then `ReadFile`. `contents` is the file's text, or `None`
      when it cannot be opened. */
  method Open(path: string, contents: Option<string>) returns (result: Result<HexFileReader, ReaderError>)
    ensures !IsHexFile(path) ==> result == Failure(NotHexFile)
    ensures IsHexFile(path) && contents.None? ==> result == Failure(CannotOpen(path))
    ensures result.Success? <==> IsHexFile(path) && contents.Some?
    ensures result.Success? ==>
              fresh(result.value) &&
              result.value.Valid() &&
              result.value.hexArr == SplitLines(contents.value) &&
              result.value.nextIdx == 0 &&
              result.value.NumLines() == NewlineCount(contents.value) + 1
  {
    if !IsHexFile(path) {
      return Failure(NotHexFile);
    }
    if contents.None? {
      return Failure(CannotOpen(path));
    }
    var reader := new HexFileReader();
    reader.ReadFile(contents.value);
    LineCount(contents.value);
    return Success(reader);
  }
}
