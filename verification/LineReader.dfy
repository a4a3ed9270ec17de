/** The buffered line reader of batch mode: client/readline.cc and client/my_readline.h. */
module LineReader {
  import opened Basics
  import opened SqlText

  const IO_SIZE: nat := 4096

  /** The size a buffer of `size` bytes can grow to by doubling under the limit. */
  function Limit(size: nat, maxSize: nat): (r: nat)
    requires size > 0
    ensures r >= size && r * 2 > maxSize && (r == size || r <= maxSize)
    decreases maxSize - size
  {
    if size * 2 > maxSize then size else Limit(size * 2, maxSize)
  }

  /** The largest buffer the reader will use. */
  function Capacity(maxSize: nat): nat { Limit(IO_SIZE, maxSize) }

  // ---------------------------------------------------------------- reference

  /** Outside binary mode a carriage return before the newline goes too. */
  function Strip(line: string, binary: bool): string {
    if !binary && line != "" && line[|line| - 1] == '\r' then line[..|line| - 1] else line
  }

  /**
    The stream cut at its newlines.  A last line without one is a line as it is, unless the read
    behind it fails.
  */
  function SplitLines(s: string, binary: bool, fails: bool): seq<string>
    decreases |s|
  {
    var n := LineLength(s);
    if n == |s| then if s == "" || fails then [] else [s]
    else [Strip(s[..n], binary)] + SplitLines(s[n + 1..], binary, fails)
  }

  /** Every line of the stream has at most `n` bytes before its newline. */
  predicate LinesFit(s: string, n: nat)
    decreases |s|
  {
    LineLength(s) <= n && (LineLength(s) < |s| ==> LinesFit(s[LineLength(s) + 1..], n))
  }

  datatype Piece = Piece(text: string, truncated: bool)

  /** The pieces with a newline put back after each one that is not cut short. */
  function Rejoin(pieces: seq<Piece>): string {
    if pieces == [] then ""
    else
      var last := pieces[|pieces| - 1];
      Rejoin(pieces[..|pieces| - 1]) + last.text + (if last.truncated then "" else "\n")
  }

  function Texts(pieces: seq<Piece>): seq<string> {
    if pieces == [] then [] else Texts(pieces[..|pieces| - 1]) + [pieces[|pieces| - 1].text]
  }

  /**
    `k` bytes are the first line of `s` and its newline, if it has one, or a piece that nearly
    fills the largest buffer.
  */
  ghost predicate FoundLength(s: string, k: nat, truncated: bool, capacity: nat) {
    && s != "" && k <= |s|
    && var n := LineLength(s);
      if truncated then 0 < k <= n && k + IO_SIZE > capacity else k == if n < |s| then n + 1 else n
  }

  /** How much of a found line is kept: not its newline nor, in text mode, a return before it. */
  function Trimmed(text: string, binary: bool): (n: nat)
    ensures n <= |text|
  {
    if text == "" || text[|text| - 1] != '\n' then |text|
    else if |text| > 1 && !binary && text[|text| - 2] == '\r' then |text| - 2
    else |text| - 1
  }

  function Kept(text: string, binary: bool): string { text[..Trimmed(text, binary)] }

  /** One call takes `p` off the stream `s` and leaves `rest`; with a read that fails behind `s`, only whole lines. */
  ghost predicate Takes(s: string, p: Piece, rest: string, capacity: nat, binary: bool, fails: bool) {
    && |rest| <= |s| && (fails && !p.truncated ==> LineLength(s) < |s|)
    && var k := |s| - |rest|;
      FoundLength(s, k, p.truncated, capacity) && rest == s[k..] && p.text == Kept(s[..k], binary)
  }

  /**
    What is taken is a piece of the first line, or all of it with its newline, and its return in
    text mode, cut off.
  */
  lemma {:induction false} TakesLine(s: string, p: Piece, rest: string, capacity: nat, binary: bool, fails: bool)
    requires Takes(s, p, rest, capacity, binary, fails)
    ensures s != "" && |rest| < |s|
    ensures var n := LineLength(s);
      if p.truncated then
        0 < |p.text| <= n && |p.text| + IO_SIZE > capacity && p.text == s[..|p.text|] && rest == s[|p.text|..]
      else if n < |s| then p.text == Strip(s[..n], binary) && rest == s[n + 1..]
      else p.text == s && rest == "" && !fails
  {
    var n, k: nat := LineLength(s), |s| - |rest|;
    var text := s[..k];
    if p.truncated {
      assert text[k - 1] == s[k - 1];
    } else if n < |s| {
      assert text[n] == s[n] && text[..n] == s[..n];
      assert |p.text| < n ==> s[..n][..n - 1] == text[..n - 1];
    } else {
      assert text == s && text[k - 1] == s[n - 1];
    }
  }

  lemma {:induction false} LineLengthIs(s: string, n: nat)
    requires n < |s| && s[n] == '\n' && '\n' !in s[..n]
    ensures LineLength(s) == n
  {
    assert forall i :: 0 <= i < n ==> s[i] == s[..n][i];
  }

  lemma {:induction false} CutAt(data: string, rest: string, n: nat)
    requires n < |data| && data[n] == '\n' && '\n' !in data[..n]
    ensures var s := data + rest;
      LineLength(s) == n && s[..n + 1] == data[..n + 1] && s[n + 1..] == data[n + 1..] + rest
  {
    assert (data + rest)[..n] == data[..n];
    LineLengthIs(data + rest, n);
  }

  lemma {:induction false} CutAtEnd(data: string, s: string, n: nat)
    requires data == s + "\n" && '\n' !in s
    requires n < |data| && data[n] == '\n' && '\n' !in data[..n]
    ensures n == |s| == LineLength(s) && data[..n] == s && data[n + 1..] == ""
  {
    LineLengthIs(data, n);
    assert data[..|s|] == s;
    LineLengthIs(data, |s|);
    LineHasNoNewline(s);
  }

  /**
    `data` in the buffer and `rest` in the file are the text `s`; at the end of the file a newline
    is added.
  */
  ghost predicate Shows(eof: bool, data: string, rest: string, s: string) {
    if !eof then data + rest == s
    else rest == "" && (if s == "" then data == "" else '\n' !in s && data == s + "\n")
  }

  lemma {:induction false} NoNewlineInBoth(a: string, b: string)
    requires '\n' !in a && '\n' !in b
    ensures '\n' !in a + b
  {
  }

  /** Reading on behind a line keeps the text. */
  lemma {:induction false} ShowsMore(eof: bool, line: string, more: string, rest: string, was: string, s: string)
    requires Shows(false, line, was, s)
    requires if eof then rest == was == "" && line != "" && '\n' !in line && more == "\n" else more + rest == was
    ensures Shows(eof, line + more, rest, s)
  {
    if eof {
      assert line + "" == line;
    } else {
      Regroup(line, more, rest);
    }
  }

  /** At the end of the file, without a newline in the buffer, nothing is left. */
  lemma {:induction false} ShowsNothing(data: string, s: string)
    requires Shows(true, data, "", s) && '\n' !in data
    ensures s == "" && data == ""
  {
    assert (s + "\n")[|s|] == '\n';
  }

  /** `text` has been found at the start of `s`, and `rest` follows it. */
  ghost predicate FoundText(s: string, text: string, rest: string, truncated: bool, capacity: nat, fails: bool) {
    && FoundLength(s, |text|, truncated, capacity) && text == s[..|text|] && rest == s[|text|..]
    && (fails && !truncated ==> LineLength(s) < |s|)
  }

  /** The line up to the first newline in the buffer, and what is behind it. */
  lemma {:induction false} Cut(eof: bool, data: string, rest: string, s: string, n: nat, fails: bool)
    requires eof ==> !fails
    requires Shows(eof, data, rest, s) && n < |data| && data[n] == '\n' && '\n' !in data[..n]
    ensures LineLength(s) == n && (n == |s| <==> eof)
    ensures FoundText(s, data[..if eof then n else n + 1], data[n + 1..] + rest, false, 0, fails)
  {
    if eof {
      CutAtEnd(data, s, n);
      assert data[n + 1..] + rest == "";
    } else {
      CutAt(data, rest, n);
    }
  }

  lemma {:induction false} CutShort(data: string, rest: string, s: string, capacity: nat, fails: bool)
    requires data + rest == s && '\n' !in data && |data| + IO_SIZE > capacity >= IO_SIZE
    ensures FoundText(s, data, rest, true, capacity, fails)
  {
    assert s[..|data|] == data && s[|data|..] == rest;
    assert forall i :: 0 <= i < |data| ==> s[i] == data[i];
  }

  lemma {:induction false} FoundIsTaken(
    s: string, text: string, rest: string, truncated: bool, capacity: nat, binary: bool, fails: bool)
    requires FoundText(s, text, rest, truncated, capacity, fails)
    ensures Takes(s, Piece(Kept(text, binary), truncated), rest, capacity, binary, fails)
    ensures truncated || LineLength(s) == |s| ==> Trimmed(text, binary) == |text|
    ensures !truncated && LineLength(s) < |s| ==> Trimmed(text, binary) < |text|
  {
    assert text != "" ==> text[|text| - 1] == s[|text| - 1];
  }

  // ---------------------------------------------------------------- the code

  /**
    A file: the bytes that are still to be read, and what the read behind them finds, the end of
    the file or an error.  Nothing is read after an error, so every file on which some read fails
    is one of these: its contents are the bytes that come before that read.
  */
  class InputFile {
    const fails: bool
    var rest: string

    constructor (contents: string, fails: bool)
      ensures rest == contents && this.fails == fails
    {
      rest, this.fails := contents, fails;
    }

    /** my_read: up to `count` bytes, none only behind the last. */
    method Read(count: nat) returns (data: string, error: bool)
      requires count > 0
      modifies this
      ensures |data| <= count && old(rest) == data + rest && (data == "" <==> old(rest) == "")
      ensures error <==> old(rest) == "" && fails
    {
      if rest == "" {
        return "", fails;
      }
      error := false;
      var n: nat :| 1 <= n <= count && n <= |rest|;
      data, rest := rest[..n], rest[n..];
    }
  }

  /** How many bytes of `room` a read in whole blocks asks for. */
  method WholeBlocks(room: nat) returns (count: nat)
    ensures count <= room && count % IO_SIZE == 0 && room - count < IO_SIZE
  {
    count := room / IO_SIZE * IO_SIZE;
  }

  lemma {:induction false} SliceOfSlice(a: array<char>, i: nat, k: nat, j: nat)
    requires i + k <= j <= a.Length
    ensures a[i..i + k] == a[i..j][..k]
  {
  }

  lemma {:induction false} SliceBehind(a: array<char>, i: nat, k: nat, j: nat)
    requires i + k <= j <= a.Length
    ensures a[i..j][k..] == a[i + k..j]
  {
  }

  lemma {:induction false} SlicesMeet(a: array<char>, i: nat, j: nat, k: nat)
    requires i <= j <= k <= a.Length
    ensures a[i..j] + a[j..k] == a[i..k]
  {
  }

  class LineBuffer {
    const file: InputFile
    const maxSize: nat
    var buffer: array<char>
    var end: nat              // offset of the end of the data
    var startOfLine: nat
    var endOfLine: nat
    var bufread: nat
    var eof: bool
    var readLength: nat
    var error: bool
    var truncated: bool

    /** The size of the buffer; doubling it never leaves 32 bits. */
    ghost predicate Sized()
      reads this
    {
      && IO_SIZE <= bufread < 0x8000_0000 && maxSize < 0x8000_0000 && buffer.Length == bufread + 1
      && Limit(bufread, maxSize) == Capacity(maxSize)
    }

    /** The bookkeeping every step keeps. */
    ghost predicate Sound()
      reads this
    {
      Sized() && startOfLine <= end <= bufread
    }

    /** The state between two calls. */
    ghost predicate Valid()
      reads this, file
    {
      && Sound() && !error
      && startOfLine <= endOfLine <= end
      && (eof ==> endOfLine == end && file.rest == "" && !file.fails)
    }

    /** What has not been returned yet. */
    ghost function Rest(): string
      reads this, buffer, file
      requires Valid()
    {
      buffer[endOfLine..end] + file.rest
    }

    constructor (file: InputFile, maxSize: nat)
      requires maxSize < 0x8000_0000
      ensures this.file == file && this.maxSize == maxSize && fresh(buffer)
      ensures Valid() && Rest() == file.rest
    {
      this.file, this.maxSize := file, maxSize;
      bufread, buffer := IO_SIZE, new char[IO_SIZE + 1];
      end, startOfLine, endOfLine := 0, 0, 0;
      eof, readLength, error, truncated := false, 0, false, false;
      new;
      buffer[0] := '\0';
    }

    /** The bytes at the start of the line are `line`, wherever `end` points. */
    ghost predicate HoldsLine(line: string)
      reads this, buffer
    {
      startOfLine + |line| < buffer.Length && buffer[startOfLine..startOfLine + |line|] == line
    }

    /** my_realloc: twice the size, the same bytes; then `end` is set as if the line began the buffer. */
    method Double(bufbytes: nat, ghost line: string)
      requires Sized() && bufread * 2 <= maxSize && HoldsLine(line)
      modifies this`buffer, this`bufread, this`end
      ensures fresh(buffer) && bufread == 2 * old(bufread) && end == bufbytes && Sized() && HoldsLine(line)
    {
      bufread := bufread * 2;
      var bigger := new char[bufread + 1];
      forall i | 0 <= i < buffer.Length {
        bigger[i] := buffer[i];
      }
      buffer, end := bigger, bufbytes;
    }

    /** Grows the buffer until a block fits after the line; zero when it cannot. */
    method MakeRoom(ghost line: string) returns (readCount: nat)
      requires Sound() && line == buffer[startOfLine..end]
      modifies this`buffer, this`bufread, this`end
      ensures buffer == old(buffer) || fresh(buffer)
      ensures Sized() && HoldsLine(line)
      ensures readCount == 0 ==> Sound() && unchanged(`end) && |line| + IO_SIZE > Capacity(maxSize)
      ensures readCount > 0 ==> |line| + readCount <= bufread && (startOfLine == 0 ==> end == |line|)
    {
      var bufbytes := end - startOfLine;
      readCount := WholeBlocks(bufread - bufbytes);
      while readCount == 0
        invariant Sized() && HoldsLine(line)
        invariant buffer == old(buffer) || fresh(buffer)
        invariant readCount <= bufread - bufbytes < readCount + IO_SIZE
        invariant readCount == 0 ==> end == old(end)
        invariant startOfLine == 0 ==> end == bufbytes
        decreases maxSize - bufread
      {
        if bufread * 2 > maxSize {
          return;
        }
        Double(bufbytes, line);
        readCount := WholeBlocks(bufread - bufbytes);
      }
    }

    /** Shifts the line down to the start of the buffer. */
    method ShiftDown(bufbytes: nat, ghost line: string)
      requires Sized() && HoldsLine(line)
      requires bufbytes == |line| && (startOfLine == 0 ==> end == bufbytes)
      modifies this`end, buffer
      ensures end == |line| && buffer[..end] == line
    {
      if startOfLine != 0 {
        forall i | 0 <= i < bufbytes {
          buffer[i] := buffer[startOfLine + i];
        }
        end := bufbytes;
      }
    }

    /** Stores `data` after the line and moves `end` past it. */
    method Store(data: string, ghost line: string)
      requires Sized() && end == |line| && end + |data| <= bufread && buffer[..end] == line
      modifies this`end, buffer
      ensures end == |line| + |data| && buffer[..|line|] == line && buffer[|line|..end] == data
      ensures buffer[end] == '\0'
    {
      forall i | 0 <= i < |data| {
        buffer[end + i] := data[i];
      }
      end := end + |data|;
      buffer[end] := '\0';
    }

    /** The read itself, with the line at the start of the buffer. */
    method ReadBlock(readCount: nat, bufbytes: nat, ghost line: string) returns (n: int)
      requires Sized() && !error && !eof && 0 < readCount && |line| + readCount <= bufread
      requires bufbytes == |line| == end && buffer[..end] == line && '\n' !in line
      modifies this, buffer, file
      ensures unchanged(`buffer) && n >= -1 && (n == -1 <==> error)
      ensures error <==> old(file.rest) == "" && file.fails
      ensures n >= 0 ==>
        && Sound() && startOfLine == 0 && endOfLine == |line| && end == |line| + n && buffer[..|line|] == line
        && (eof <==> old(file.rest) == "")
        && (eof ==> file.rest == "" && buffer[|line|..end] == if line == "" then "" else "\n")
        && (!eof ==> |file.rest| < |old(file.rest)| && buffer[|line|..end] + file.rest == old(file.rest))
    {
      var data, failed := file.Read(readCount);
      if failed {
        error := true;
        return -1;
      }
      if data == "" {
        eof := true;
        // A last line without a newline is given one
        if bufbytes != 0 && buffer[end - 1] != '\n' {
          data := "\n";
        }
      }
      startOfLine, endOfLine := 0, bufbytes;
      Store(data, line);
      n := |data|;
    }

    /**
      Reads the next block after the line.  Zero without `eof` says that the line fills the
      largest buffer; minus one is a failed read.
    */
    method FillBuffer(ghost line: string) returns (n: int)
      requires Sound() && !error && (eof ==> file.rest == "" && !file.fails)
      requires line == buffer[startOfLine..end] && '\n' !in line
      modifies this, buffer, file
      ensures buffer == old(buffer) || fresh(buffer)
      ensures n >= -1 && (n == -1 <==> error)
      ensures if error then old(file.rest) == "" && file.fails else eof ==> !file.fails
      ensures n == 0 ==>
        && Sound() && file.rest == old(file.rest) && HoldsLine(line) && end == startOfLine + |line|
        && (eof ==> file.rest == "")
        && (eof ==> if old(eof) then unchanged(`endOfLine) && unchanged(`end) else line == "" && endOfLine == end)
        && (!eof ==> |line| + IO_SIZE > Capacity(maxSize))
      ensures n > 0 ==>
        && Sound() && startOfLine == 0 && endOfLine == |line| < end && buffer[..|line|] == line
        && (eof ==> file.rest == old(file.rest) == "" && line != "" && buffer[|line|..end] == "\n")
        && (!eof ==> |file.rest| < |old(file.rest)| && buffer[|line|..end] + file.rest == old(file.rest))
    {
      var bufbytes := end - startOfLine;
      if eof {
        return 0;
      }
      var readCount := MakeRoom(line);
      if readCount == 0 {
        return 0;
      }
      ShiftDown(bufbytes, line);
      n := ReadBlock(readCount, bufbytes, line);
    }

    /** The scan for a newline from `endOfLine`. */
    method FindNewline() returns (pos: nat)
      requires Sound() && startOfLine <= endOfLine <= end
      ensures endOfLine <= pos <= end
      ensures '\n' !in buffer[endOfLine..pos]
      ensures pos < end ==> buffer[pos] == '\n'
    {
      pos := endOfLine;
      while buffer[pos] != '\n' && pos != end
        invariant endOfLine <= pos <= end
        invariant forall i :: endOfLine <= i < pos ==> buffer[i] != '\n'
        decreases end - pos
      {
        pos := pos + 1;
      }
    }

    /** The part of `s`, the text not yet returned, that is in the buffer. */
    ghost predicate Looking(s: string)
      reads this, buffer, file
    {
      && Sound() && !error && startOfLine <= endOfLine <= end
      && '\n' !in buffer[startOfLine..endOfLine] && (eof ==> !file.fails)
      && Shows(eof, buffer[startOfLine..end], file.rest, s)
    }

    /** The line just found in `s`. */
    ghost predicate Found(s: string, outLength: nat)
      reads this, buffer, file
    {
      && Valid() && startOfLine + outLength <= endOfLine && (truncated ==> endOfLine == end)
      && FoundText(s, buffer[startOfLine..startOfLine + outLength], Rest(), truncated, Capacity(maxSize), file.fails)
      && (!truncated && LineLength(s) == |s| ==> startOfLine + outLength < endOfLine)
    }

    method StartLine()
      requires Valid()
      modifies this`startOfLine
      ensures Looking(old(Rest()))
    {
      startOfLine := endOfLine;
    }

    /** A newline at `pos` ends the line. */
    method TakeLine(pos: nat, ghost s: string) returns (outLength: nat)
      requires Looking(s) && endOfLine <= pos < end && buffer[pos] == '\n' && '\n' !in buffer[endOfLine..pos]
      modifies this`truncated, this`endOfLine
      ensures Found(s, outLength)
    {
      LineIsFound(pos, s);
      truncated := false;
      endOfLine := pos + 1;
      outLength := pos + 1 - (if eof then 1 else 0) - startOfLine;
    }

    lemma {:induction false} LineIsFound(pos: nat, s: string)
      requires Looking(s) && endOfLine <= pos < end && buffer[pos] == '\n' && '\n' !in buffer[endOfLine..pos]
      ensures var n := pos + if eof then 0 else 1;
        FoundText(s, buffer[startOfLine..n], buffer[pos + 1..end] + file.rest, false, Capacity(maxSize), file.fails)
      ensures LineLength(s) == |s| <==> eof
    {
      var n: nat, data := pos - startOfLine, buffer[startOfLine..end];
      NoNewlineInBoth(buffer[startOfLine..endOfLine], buffer[endOfLine..pos]);
      SlicesMeet(buffer, startOfLine, endOfLine, pos);
      SliceOfSlice(buffer, startOfLine, n, end);
      SliceOfSlice(buffer, startOfLine, n + 1, end);
      SliceBehind(buffer, startOfLine, n + 1, end);
      assert data[n] == buffer[pos];
      Cut(eof, data, file.rest, s, n, file.fails);
    }

    /** No newline and no room: break the line here. */
    method TakeTruncated(ghost s: string) returns (outLength: nat)
      requires Sound() && !error && !eof && buffer[startOfLine..end] + file.rest == s
      requires '\n' !in buffer[startOfLine..end] && end - startOfLine + IO_SIZE > Capacity(maxSize)
      modifies this`truncated, this`endOfLine
      ensures Found(s, outLength)
    {
      CutShort(buffer[startOfLine..end], file.rest, s, Capacity(maxSize), file.fails);
      truncated := true;
      endOfLine := end;
      outLength := endOfLine - startOfLine;
      assert buffer[endOfLine..end] + file.rest == file.rest;
    }

    /** No newline up to the end of the buffer: at the end of the file nothing is left, otherwise all is shown. */
    lemma {:induction false} NoNewlineYet(s: string)
      requires Looking(s) && '\n' !in buffer[endOfLine..end]
      ensures '\n' !in buffer[startOfLine..end]
      ensures if eof then s == "" && startOfLine == end else buffer[startOfLine..end] + file.rest == s
    {
      SlicesMeet(buffer, startOfLine, endOfLine, end);
      NoNewlineInBoth(buffer[startOfLine..endOfLine], buffer[endOfLine..end]);
      if eof {
        ShowsNothing(buffer[startOfLine..end], s);
      }
    }

    /** More of the stream, when the buffer holds no newline. */
    method Refill(ghost s: string) returns (length: int)
      requires Looking(s) && '\n' !in buffer[endOfLine..end]
      modifies this, buffer, file
      ensures buffer == old(buffer) || fresh(buffer)
      ensures length >= -1 && (length == -1 <==> error)
      ensures error ==> file.fails && '\n' !in s
      ensures length > 0 ==>
        Looking(s) && (|file.rest| < |old(file.rest)| || (!old(eof) && eof && file.rest == old(file.rest)))
      ensures length == 0 && eof ==>
        Sound() && s == "" && file.rest == "" && !file.fails && startOfLine == endOfLine == end
      ensures length == 0 && !eof ==>
        && Sound() && buffer[startOfLine..end] + file.rest == s
        && '\n' !in buffer[startOfLine..end] && end - startOfLine + IO_SIZE > Capacity(maxSize)
    {
      ghost var line, was := buffer[startOfLine..end], file.rest;
      NoNewlineYet(s);
      length := FillBuffer(line);
      assert error ==> line + "" == s;
      if length > 0 {
        ShowsMore(eof, line, buffer[|line|..end], file.rest, was, s);
        SlicesMeet(buffer, startOfLine, |line|, end);
      }
    }

    /** What the search for a line in `s` comes to: a line, the end of the file or a failed read. */
    ghost predicate Outcome(s: string, found: bool, outLength: nat)
      reads this, buffer, file
    {
      if found then Found(s, outLength)
      else if error then file.fails && '\n' !in s
      else Valid() && !file.fails && s == Rest() == ""
    }

    /** No newline in the buffer: more of the file, or the end of the search. */
    method LookFurther(ghost s: string) returns (again: bool, found: bool, outLength: nat)
      requires Looking(s) && '\n' !in buffer[endOfLine..end]
      modifies this, buffer, file
      ensures buffer == old(buffer) || fresh(buffer)
      ensures again ==>
        Looking(s) && (|file.rest| < |old(file.rest)| || (!old(eof) && eof && file.rest == old(file.rest)))
      ensures !again ==> Outcome(s, found, outLength)
    {
      again, found, outLength := false, false, 0;
      var length := Refill(s);
      if length == 0 {
        if eof {
          return;
        }
        outLength := TakeTruncated(s);
        found := true;
      } else if length != -1 {
        again := true;
      }
    }

    /** The next line, at `startOfLine`: with its newline, or without at the end of the file. */
    method InternReadLine() returns (found: bool, outLength: nat)
      requires Valid()
      modifies this, buffer, file
      ensures buffer == old(buffer) || fresh(buffer)
      ensures Outcome(old(Rest()), found, outLength)
    {
      ghost var s := Rest();
      StartLine();
      while true
        invariant Looking(s)
        invariant buffer == old(buffer) || fresh(buffer)
        decreases |file.rest|, !eof
      {
        var pos := FindNewline();
        if pos == end {
          var again;
          again, found, outLength := LookFurther(s);
          if !again {
            return;
          }
        } else {
          outLength := TakeLine(pos, s);
          return true, outLength;
        }
      }
    }

    /** The text of the line just returned. */
    ghost function Line(): string
      reads this, buffer
      requires startOfLine + readLength < buffer.Length
    {
      buffer[startOfLine..startOfLine + readLength]
    }

    /** Nothing the caller does to the returned line and its terminator reaches the unread text. */
    ghost predicate Returned()
      reads this, buffer, file
    {
      && Valid() && startOfLine + readLength < buffer.Length
      && startOfLine + readLength <= endOfLine
      && (endOfLine < end ==> startOfLine + readLength < endOfLine)
      && buffer[startOfLine + readLength] == '\0'
    }

    method Terminate(kept: nat)
      requires Valid() && startOfLine + kept <= endOfLine && (endOfLine < end ==> startOfLine + kept < endOfLine)
      modifies this`readLength, buffer
      ensures Returned() && Rest() == old(Rest()) && Line() == old(buffer[startOfLine..startOfLine + kept])
    {
      readLength := kept;
      buffer[startOfLine + kept] := '\0';
    }

    /** How much of the line just found is kept: not its newline nor, in text mode, a return before it. */
    function KeptLength(outLength: nat, binary: bool): (kept: nat)
      reads this, buffer
      requires startOfLine + outLength <= buffer.Length
      ensures kept == Trimmed(buffer[startOfLine..startOfLine + outLength], binary)
    {
      if outLength == 0 || buffer[startOfLine + outLength - 1] != '\n' then outLength
      else if outLength > 1 && !binary && buffer[startOfLine + outLength - 2] == '\r' then outLength - 2
      else outLength - 1
    }

    lemma {:induction false} KeptIsPart(outLength: nat, binary: bool)
      requires startOfLine + outLength <= buffer.Length
      ensures buffer[startOfLine..startOfLine + KeptLength(outLength, binary)] ==
        Kept(buffer[startOfLine..startOfLine + outLength], binary)
    {
      SliceOfSlice(buffer, startOfLine, KeptLength(outLength, binary), startOfLine + outLength);
    }

    /** What is kept of a found line leaves room for its terminator before the unread text. */
    lemma {:induction false} KeptIsInside(outLength: nat, binary: bool, s: string)
      requires Found(s, outLength)
      ensures var kept := KeptLength(outLength, binary);
        startOfLine + kept <= endOfLine && (endOfLine < end ==> startOfLine + kept < endOfLine)
    {
      var text := buffer[startOfLine..startOfLine + outLength];
      FoundIsTaken(s, text, Rest(), truncated, Capacity(maxSize), binary, file.fails);
      assert |text| == outLength;
    }

    lemma {:induction false} LineIsTaken(outLength: nat, binary: bool, s: string)
      requires Found(s, outLength)
      ensures var line := buffer[startOfLine..startOfLine + KeptLength(outLength, binary)];
        Takes(s, Piece(line, truncated), Rest(), Capacity(maxSize), binary, file.fails)
    {
      KeptIsPart(outLength, binary);
      var text := buffer[startOfLine..startOfLine + outLength];
      FoundIsTaken(s, text, Rest(), truncated, Capacity(maxSize), binary, file.fails);
    }

    /** Cuts the line just found down to what is kept. */
    method TrimLine(outLength: nat, binary: bool, ghost s: string)
      requires Found(s, outLength)
      modifies this`readLength, buffer
      ensures Returned() && Takes(s, Piece(Line(), truncated), Rest(), Capacity(maxSize), binary, file.fails)
    {
      KeptIsInside(outLength, binary, s);
      LineIsTaken(outLength, binary, s);
      var kept := KeptLength(outLength, binary);
      ghost var line, rest := buffer[startOfLine..startOfLine + kept], Rest();
      assert Takes(s, Piece(line, truncated), rest, Capacity(maxSize), binary, file.fails);
      Terminate(kept);
      assert Line() == line && Rest() == rest;
    }

    /** One line of input without its newline, ended by a zero byte in the buffer. */
    method BatchReadline(binary: bool) returns (found: bool)
      requires Valid()
      modifies this, buffer, file
      ensures buffer == old(buffer) || fresh(buffer)
      ensures error ==> !found && file.fails && '\n' !in old(Rest())
      ensures !found && !error ==> Valid() && !file.fails && old(Rest()) == Rest() == ""
      ensures found ==>
        Returned() && Takes(old(Rest()), Piece(Line(), truncated), Rest(), Capacity(maxSize), binary, file.fails)
    {
      var outLength;
      found, outLength := InternReadLine();
      if found {
        TrimLine(outLength, binary, old(Rest()));
      }
    }
  }

  // ---------------------------------------------------------------- whole runs

  /** Calls one after the other take `pieces` off the stream and leave `rest`. */
  ghost predicate TakenInTurn(
    stream: string, pieces: seq<Piece>, rest: string, capacity: nat, binary: bool, fails: bool)
    decreases |pieces|
  {
    if pieces == [] then rest == stream
    else
      var n := |pieces| - 1;
      exists s :: TakenInTurn(stream, pieces[..n], s, capacity, binary, fails) &&
        Takes(s, pieces[n], rest, capacity, binary, fails)
  }

  lemma {:induction false} TakeOneMore(
    stream: string, pieces: seq<Piece>, s: string, p: Piece, rest: string, capacity: nat, binary: bool, fails: bool)
    requires TakenInTurn(stream, pieces, s, capacity, binary, fails) && Takes(s, p, rest, capacity, binary, fails)
    ensures TakenInTurn(stream, pieces + [p], rest, capacity, binary, fails)
  {
    assert (pieces + [p])[..|pieces|] == pieces;
  }

  /** Nothing more can be taken off `s`. */
  ghost predicate Exhausted(s: string, fails: bool) {
    if fails then '\n' !in s else s == ""
  }

  /** `pieces` is all that can be taken off the stream. */
  ghost predicate ReadOut(stream: string, pieces: seq<Piece>, capacity: nat, binary: bool, fails: bool) {
    exists s :: TakenInTurn(stream, pieces, s, capacity, binary, fails) && Exhausted(s, fails)
  }

  /** The pieces read so far and the rest `s` make up the stream, with at most a final newline added. */
  ghost predicate Rejoined(stream: string, pieces: seq<Piece>, s: string, fails: bool) {
    || Rejoin(pieces) + s == stream
    || (!fails && s == "" && stream != "" && stream[|stream| - 1] != '\n' && Rejoin(pieces) == stream + "\n")
  }

  function Ending(p: Piece): string {
    p.text + if p.truncated then "" else "\n"
  }

  lemma {:induction false} RejoinAppend(pieces: seq<Piece>, p: Piece)
    ensures Rejoin(pieces + [p]) == Rejoin(pieces) + Ending(p)
  {
    assert (pieces + [p])[..|pieces|] == pieces;
    assert Rejoin(pieces) + p.text + (if p.truncated then "" else "\n") == Rejoin(pieces) + Ending(p);
  }

  /** What a call takes off the stream, with at most a newline added at its end. */
  lemma {:induction false} TakenText(s: string, p: Piece, rest: string, capacity: nat, fails: bool)
    requires Takes(s, p, rest, capacity, true, fails)
    ensures s != ""
    ensures Ending(p) + rest == s || (!fails && rest == "" && s[|s| - 1] != '\n' && Ending(p) == s + "\n")
  {
    TakesLine(s, p, rest, capacity, true, fails);
    var n := LineLength(s);
    if p.truncated {
      assert p.text + "" == p.text;
    } else if n < |s| {
      assert Ending(p) == s[..n + 1];
    }
  }

  lemma {:induction false} RejoinStep(
    stream: string, pieces: seq<Piece>, s: string, p: Piece, rest: string, capacity: nat, fails: bool)
    requires Rejoined(stream, pieces, s, fails) && Takes(s, p, rest, capacity, true, fails)
    ensures Rejoined(stream, pieces + [p], rest, fails)
  {
    RejoinAppend(pieces, p);
    TakenText(s, p, rest, capacity, fails);
    var a, e := Rejoin(pieces), Ending(p);
    assert a + s == stream;
    if e + rest == s {
      Regroup(a, e, rest);
    } else {
      Regroup(a, s, "\n");
      assert stream[|stream| - 1] == s[|s| - 1];
    }
  }

  lemma {:induction false} FirstLine(s: string, binary: bool, fails: bool)
    requires LineLength(s) < |s|
    ensures var n := LineLength(s);
      SplitLines(s, binary, fails) == [Strip(s[..n], binary)] + SplitLines(s[n + 1..], binary, fails)
  {
  }

  lemma {:induction false} LinesStep(s: string, p: Piece, rest: string, capacity: nat, binary: bool, fails: bool)
    requires Takes(s, p, rest, capacity, binary, fails) && IO_SIZE <= capacity && LinesFit(s, capacity - IO_SIZE)
    ensures !p.truncated && LinesFit(rest, capacity - IO_SIZE)
    ensures [p.text] + SplitLines(rest, binary, fails) == SplitLines(s, binary, fails)
  {
    TakesLine(s, p, rest, capacity, binary, fails);
    if LineLength(s) < |s| {
      FirstLine(s, binary, fails);
    } else {
      assert SplitLines(s, binary, fails) == [s] && SplitLines("", binary, fails) == [];
      assert [p.text] + [] == [p.text];
    }
  }

  lemma {:induction false} TextsStep(pieces: seq<Piece>, p: Piece)
    ensures Texts(pieces + [p]) == Texts(pieces) + [p.text]
  {
    assert (pieces + [p])[..|pieces|] == pieces;
  }

  ghost predicate NoneCut(pieces: seq<Piece>) {
    forall i :: 0 <= i < |pieces| ==> !pieces[i].truncated
  }

  /** Only a piece of more than `n` bytes is cut short. */
  ghost predicate CutWhenFull(pieces: seq<Piece>, n: nat) {
    forall i :: 0 <= i < |pieces| && pieces[i].truncated ==> |pieces[i].text| > n
  }

  /** The pieces read so far are the first lines of the stream, and `s` holds the others. */
  ghost predicate LinesSoFar(stream: string, pieces: seq<Piece>, s: string, n: nat, binary: bool, fails: bool) {
    LinesFit(stream, n) ==>
      && NoneCut(pieces) && LinesFit(s, n)
      && Texts(pieces) + SplitLines(s, binary, fails) == SplitLines(stream, binary, fails)
  }

  /** What holds after any number of calls. */
  ghost predicate Progress(stream: string, pieces: seq<Piece>, s: string, capacity: nat, binary: bool, fails: bool)
    requires IO_SIZE <= capacity
  {
    && (binary ==> Rejoined(stream, pieces, s, fails))
    && LinesSoFar(stream, pieces, s, capacity - IO_SIZE, binary, fails)
    && CutWhenFull(pieces, capacity - IO_SIZE)
  }

  lemma {:induction false} NoneCutStep(pieces: seq<Piece>, p: Piece)
    requires NoneCut(pieces) && !p.truncated
    ensures NoneCut(pieces + [p])
  {
  }

  lemma {:induction false} LinesSoFarStep(
    stream: string, pieces: seq<Piece>, s: string, p: Piece, rest: string, capacity: nat, binary: bool, fails: bool)
    requires IO_SIZE <= capacity && LinesSoFar(stream, pieces, s, capacity - IO_SIZE, binary, fails)
    requires Takes(s, p, rest, capacity, binary, fails)
    ensures LinesSoFar(stream, pieces + [p], rest, capacity - IO_SIZE, binary, fails)
  {
    if LinesFit(stream, capacity - IO_SIZE) {
      LinesStep(s, p, rest, capacity, binary, fails);
      TextsStep(pieces, p);
      Regroup(Texts(pieces), [p.text], SplitLines(rest, binary, fails));
      NoneCutStep(pieces, p);
    }
  }

  lemma {:induction false} ProgressStep(
    stream: string, pieces: seq<Piece>, s: string, p: Piece, rest: string, capacity: nat, binary: bool, fails: bool)
    requires IO_SIZE <= capacity && Progress(stream, pieces, s, capacity, binary, fails)
    requires Takes(s, p, rest, capacity, binary, fails)
    ensures Progress(stream, pieces + [p], rest, capacity, binary, fails)
  {
    if binary {
      RejoinStep(stream, pieces, s, p, rest, capacity, fails);
    }
    TakesLine(s, p, rest, capacity, binary, fails);
    LinesSoFarStep(stream, pieces, s, p, rest, capacity, binary, fails);
  }

  lemma {:induction false} ProgressStarts(stream: string, capacity: nat, binary: bool, fails: bool)
    requires IO_SIZE <= capacity
    ensures Progress(stream, [], stream, capacity, binary, fails)
  {
    assert Texts([]) + SplitLines(stream, binary, fails) == SplitLines(stream, binary, fails);
    assert Rejoin([]) + stream == stream;
  }

  lemma {:induction false} TakenMeansProgress(
    stream: string, pieces: seq<Piece>, rest: string, capacity: nat, binary: bool, fails: bool)
    requires IO_SIZE <= capacity && TakenInTurn(stream, pieces, rest, capacity, binary, fails)
    ensures Progress(stream, pieces, rest, capacity, binary, fails)
    decreases |pieces|
  {
    if pieces == [] {
      ProgressStarts(stream, capacity, binary, fails);
    } else {
      var before, p := pieces[..|pieces| - 1], pieces[|pieces| - 1];
      assert pieces == before + [p];
      var s :| TakenInTurn(stream, before, s, capacity, binary, fails) && Takes(s, p, rest, capacity, binary, fails);
      TakenMeansProgress(stream, before, s, capacity, binary, fails);
      ProgressStep(stream, before, s, p, rest, capacity, binary, fails);
    }
  }

  lemma {:induction false} AllIsTaken(stream: string, pieces: seq<Piece>, capacity: nat, binary: bool, fails: bool)
    requires IO_SIZE <= capacity && ReadOut(stream, pieces, capacity, binary, fails)
    ensures binary && !fails ==> Rejoined(stream, pieces, "", fails)
    ensures binary && fails ==> Rejoin(pieces) <= stream && '\n' !in stream[|Rejoin(pieces)|..]
    ensures LinesFit(stream, capacity - IO_SIZE) ==>
      Texts(pieces) == SplitLines(stream, binary, fails) && NoneCut(pieces)
    ensures CutWhenFull(pieces, capacity - IO_SIZE)
  {
    var s :| TakenInTurn(stream, pieces, s, capacity, binary, fails) && Exhausted(s, fails);
    TakenMeansProgress(stream, pieces, s, capacity, binary, fails);
    NothingLeft(s, binary, fails);
    assert Texts(pieces) + [] == Texts(pieces);
    if binary && fails {
      assert stream[|Rejoin(pieces)|..] == s;
    }
  }

  lemma {:induction false} NothingLeft(s: string, binary: bool, fails: bool)
    requires Exhausted(s, fails)
    ensures SplitLines(s, binary, fails) == []
  {
    if fails {
      LineHasNoNewline(s);
    }
  }

  /** Pieces until there is none. */
  method ReadPieces(reader: LineBuffer, binary: bool, ghost stream: string)
    returns (pieces: seq<Piece>, ok: bool)
    requires reader.Valid() && reader.Rest() == stream
    modifies reader, reader.buffer, reader.file
    ensures ReadOut(stream, pieces, Capacity(reader.maxSize), binary, reader.file.fails)
    ensures ok <==> !reader.file.fails
  {
    pieces := [];
    ghost var s := stream;
    var found := true;
    while found
      invariant reader.buffer == old(reader.buffer) || fresh(reader.buffer)
      invariant if found then reader.Valid() && s == reader.Rest()
                else Exhausted(s, reader.file.fails) && reader.error == reader.file.fails
      invariant TakenInTurn(stream, pieces, s, Capacity(reader.maxSize), binary, reader.file.fails)
      decreases found, |s|
    {
      found := reader.BatchReadline(binary);
      if found {
        var p := Piece(reader.buffer[reader.startOfLine..reader.startOfLine + reader.readLength], reader.truncated);
        ghost var rest := reader.Rest();
        TakesLine(s, p, rest, Capacity(reader.maxSize), binary, reader.file.fails);
        TakeOneMore(stream, pieces, s, p, rest, Capacity(reader.maxSize), binary, reader.file.fails);
        pieces, s := pieces + [p], rest;
      }
    }
    ok := !reader.error;
  }

  method ReadStream(stream: string, fails: bool, maxSize: nat, binary: bool) returns (pieces: seq<Piece>, ok: bool)
    requires maxSize < 0x8000_0000
    ensures ReadOut(stream, pieces, Capacity(maxSize), binary, fails) && (ok <==> !fails)
  {
    var file := new InputFile(stream, fails);
    var reader := new LineBuffer(file, maxSize);
    pieces, ok := ReadPieces(reader, binary, stream);
  }

  /**
    The whole stream read line by line, for every schedule of short reads, to its end or to a read
    that fails.  Each piece is the next line or, if that is too long for the largest buffer, a part
    of it, until nothing can be taken any more.  In binary mode the pieces rebuild the stream; when
    no line is too long they are the lines of the stream, in either mode.
  */
  method ReadAll(stream: string, fails: bool, maxSize: nat, binary: bool) returns (pieces: seq<Piece>, ok: bool)
    requires maxSize < 0x8000_0000
    ensures ok <==> !fails
    ensures ReadOut(stream, pieces, Capacity(maxSize), binary, fails)
    ensures binary && !fails ==> Rejoined(stream, pieces, "", fails)
    ensures binary && fails ==> Rejoin(pieces) <= stream && '\n' !in stream[|Rejoin(pieces)|..]
    ensures LinesFit(stream, Capacity(maxSize) - IO_SIZE) ==>
      Texts(pieces) == SplitLines(stream, binary, fails) && NoneCut(pieces)
    ensures CutWhenFull(pieces, Capacity(maxSize) - IO_SIZE)
  {
    pieces, ok := ReadStream(stream, fails, maxSize, binary);
    AllIsTaken(stream, pieces, Capacity(maxSize), binary, fails);
  }
}
