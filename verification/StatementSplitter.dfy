/** add_line of client/mysql.cc: the lexer that edits the line it reads in place. */
module StatementSplitter {
  import opened Basics
  import opened SqlText

  lemma {:induction false} ClassBeforeNewline(cfg: Config, st: State, t: string)
    requires ValidConfig(cfg) && t != [] && '\n' !in t
    ensures Classify(cfg, st, t + "\n") == Classify(cfg, st, t) && t[0] != '\n'
    ensures forall i: nat :: At(t + "\n", i) == At(t, i)
  {
    var t' := t + "\n";
    assert forall i: nat :: At(t', i) == At(t, i);
    assert cfg.delimiter <= t' <==> cfg.delimiter <= t by {
      assert |cfg.delimiter| > |t| ==> cfg.delimiter[|t|] != t'[|t|];
    }
  }

  lemma {:induction false} LengthBeforeNewline(t: string)
    requires '\n' !in t
    ensures LineLength(t + "\n") == LineLength(t) == |t|
  {
    var t' := t + "\n";
    LineHasNoNewline(t);
    assert t'[|t|] == '\n' && forall i :: 0 <= i < |t| ==> t'[i] != '\n';
  }

  /** The newline that ends a line changes no step before it. */
  lemma {:induction false} StepBeforeNewline(cfg: Config, st: State, t: string)
    requires ValidConfig(cfg) && t != [] && '\n' !in t
    ensures Width(cfg, st, t + "\n") == Width(cfg, st, t)
    ensures Apply(cfg, st, t + "\n") == Apply(cfg, st, t)
  {
    ClassBeforeNewline(cfg, st, t);
    LengthBeforeNewline(t);
    assert |t| >= 2 ==> (t + "\n")[..2] == t[..2];
  }

  lemma {:induction false} RunLine(cfg: Config, st: State, t: string)
    requires ValidConfig(cfg) && '\n' !in t
    ensures Run(cfg, st, t + "\n") == Run(cfg, Run(cfg, st, t), "\n")
    decreases |t|
  {
    if t == [] {
      assert t + "\n" == "\n";
    } else if st.status == Running {
      StepBeforeNewline(cfg, st, t);
      var w := Width(cfg, st, t);
      assert (t + "\n")[w..] == t[w..] + "\n";
      RunLine(cfg, Apply(cfg, st, t), t[w..]);
    }
  }

  /** is_prefix: whether the zero-terminated text at `pos` starts with `prefix`. */
  method IsPrefixAt(buf: array<char>, pos: nat, end: nat, prefix: string) returns (yes: bool)
    requires pos <= end < buf.Length && buf[end] == '\0' && '\0' !in prefix
    ensures yes <==> prefix <= buf[pos..end]
  {
    var i := 0;
    while i < |prefix|
      invariant 0 <= i <= |prefix| && pos + i <= end
      invariant prefix[..i] == buf[pos..pos + i]
    {
      if buf[pos + i] != prefix[i] {
        assert pos + i < end ==> buf[pos..end][i] != prefix[i];
        return false;
      }
      i := i + 1;
    }
    assert prefix[..i] == prefix;
    return true;
  }

  /** `*out++ = c`, seen as an append to what has been accepted since `line`. */
  method Put(buf: array<char>, line: nat, out: nat, c: char) returns (out': nat)
    requires line <= out < buf.Length
    modifies buf
    ensures out' == out + 1 && buf[line..out'] == old(buf[line..out]) + [c]
    ensures forall i :: 0 <= i < buf.Length && i != out ==> buf[i] == old(buf[i])
  {
    buf[out] := c;
    out' := out + 1;
  }

  /** Two texts differ only from `line` to `end`. */
  ghost predicate SameOutside(a: string, b: string, line: nat, end: nat) {
    |a| == |b| && forall i :: 0 <= i < |a| && !(line <= i < end) ==> b[i] == a[i]
  }

  lemma {:induction false} SameOutsideAgain(a: string, b: string, c: string, line: nat, end: nat)
    requires SameOutside(a, b, line, end) && SameOutside(b, c, line, end)
    ensures SameOutside(a, c, line, end)
  {
  }

  lemma {:induction false} RunStep(cfg: Config, st: State, t: string)
    requires ValidConfig(cfg) && t != [] && st.status == Running
    ensures Run(cfg, st, t) == Run(cfg, Apply(cfg, st, t), t[Width(cfg, st, t)..])
  {
  }

  class Session {
    const cfg: Config
    var buffer: string        // glob_buffer
    var inString: char        // in_string, zero outside strings
    var mlComment: bool       // ml_comment
    var sent: seq<string>     // every text handed to com_go so far

    ghost predicate Valid()
      reads this
    {
      && ValidConfig(cfg)
      && (inString == '\0' || IsQuote(inString))
      && !(inString != '\0' && mlComment)
    }

    constructor (cfg: Config)
      requires ValidConfig(cfg)
      ensures this.cfg == cfg && Valid() && Abs() == InitialState
    {
      this.cfg := cfg;
      buffer, inString, mlComment, sent := "", '\0', false, [];
    }

    ghost function CurrentMode(): Mode
      reads this
    {
      if mlComment then InComment else if inString == '\0' then Normal else InString(inString)
    }

    /** The splitter inside a line, with `pending` accepted but not yet flushed. */
    ghost function Inside(pending: string, sep: bool, ss: bool, status: Status): State
      reads this
    {
      State(sent, buffer, pending, CurrentMode(), sep, ss, status)
    }

    /** The splitter between two lines. */
    ghost function Abs(): State
      reads this
    {
      State(sent, buffer, "", CurrentMode(), false, false, Running)
    }

    /**
      The tests of the loop body, in their order: what starts at `pos`.  `noOutput` says that
      nothing has been accepted on this line since the last flush.
    */
    method NextToken(buf: array<char>, pos: nat, end: nat, noOutput: bool, ssComment: bool, ghost st: State)
      returns (token: Token)
      requires Valid() && pos < end < buf.Length && buf[end] == '\0' && IsLine(buf[pos..end])
      requires st.mode == CurrentMode() && st.ss == ssComment
      requires st.Empty() <==> noOutput && buffer == ""
      ensures token == Classify(cfg, st, buf[pos..end])
    {
      ghost var t := buf[pos..end];
      var inchar := buf[pos];
      var next := buf[pos + 1];
      assert t[0] == inchar;
      assert At(t, 1) == if next == '\0' then '\n' else next;
      if inchar in cfg.blanks && noOutput && buffer == "" {
        return LeadingBlank;
      }
      if !mlComment && inchar == '\\' && inString != '`' &&
         !(inString == '"' && cfg.ansiQuotes) && !(inString != '\0' && cfg.noBackslashEscapes)
      {
        if next == '\0' {
          return LoneBackslash;
        } else if inString != '\0' || next == 'N' {
          return Pair;
        } else if next in cfg.shortCommands {
          return ShortCommand;
        } else {
          return if cfg.unknownIsFatal then FatalUnknown else Pair;
        }
      }
      var atDelimiter := IsPrefixAt(buf, pos, end, cfg.delimiter);
      if !mlComment && inString == '\0' && atDelimiter {
        return Delimiter;
      }
      if !mlComment && inString == '\0' && inchar == '#' {
        return LineComment;
      }
      if !mlComment && inString == '\0' && inchar == '-' && next == '-' {
        var third := buf[pos + 2];
        assert At(t, 2) == if third == '\0' then '\n' else third;
        if third in cfg.blanks || third == '\0' || (buffer == "" && noOutput) {
          return LineComment;
        }
      }
      if inString == '\0' && inchar == '/' && next == '*' {
        var third := buf[pos + 2];
        assert At(t, 2) == if third == '\0' then '\n' else third;
        var conditional := third == '!' || (third == 'M' && buf[pos + 3] == '!');
        if !conditional {
          return OpenBlock;
        }
      }
      if mlComment && !ssComment && inchar == '*' && next == '/' {
        return CloseBlock;
      }
      return Plain;
    }

    /** The tokens that write nothing back into the line. */
    method SkipToken(token: Token, buf: array<char>, line: nat, out: nat, sep: bool, ghost st: State, ghost t: string)
      returns (out': nat, sep': bool, width: nat, status: Status)
      requires Valid() && line <= out <= buf.Length && t != [] && IsLine(t)
      requires st == Inside(buf[line..out], sep, st.ss, Running)
      requires token == Classify(cfg, st, t) && token != Pair && token != Plain
      modifies this
      ensures Valid() && (out' == out || out' == line) && (status != Running ==> out' == line)
      ensures token != LineComment ==> width == Width(cfg, st, t)
      ensures sep' ==> sep || token == CloseBlock
      ensures mlComment && (old(mlComment) ==> out == line) ==> out' == line
      ensures Inside(buf[line..out'], sep', st.ss, status) == Apply(cfg, st, t)
    {
      out', sep', width, status := out, sep, 1, Running;
      if token == LeadingBlank || token == LoneBackslash {
        return;
      }
      if token == FatalUnknown {
        out', width, status := line, 2, Quit;
        return;
      }
      // All other tokens send what the line holds so far to the statement buffer
      buffer, out' := buffer + buf[line..out], line;
      if token == ShortCommand {
        width, status := 2, AtCommand;
      } else if token == Delimiter {
        width := |cfg.delimiter|;
        if cfg.longCommand(buffer) {
          status := AtCommand;
        } else {
          sent, buffer := sent + [buffer], "";
        }
      } else if token == OpenBlock {
        mlComment, width := true, 2;
      } else if token == CloseBlock {
        mlComment, sep', width := false, true, 2;
      }
    }

    /** ss_comment after the character at `pos`. */
    method TrackConditional(buf: array<char>, pos: nat, end: nat, ss: bool, ghost st: State) returns (ss': bool)
      requires Valid() && pos < end < buf.Length && buf[end] == '\0' && IsLine(buf[pos..end])
      requires st.mode == CurrentMode() && st.ss == ss
      ensures ss' == SsAfter(st, buf[pos..end])
    {
      ghost var t := buf[pos..end];
      ss' := ss;
      if inString == '\0' {
        var next := buf[pos + 1];
        assert At(t, 1) == if next == '\0' then '\n' else next;
        if buf[pos] == '/' && next == '*' && buf[pos + 2] == '!' {
          ss' := true;
        } else if ss && buf[pos] == '*' && next == '/' {
          ss' := false;
        }
      }
    }

    /** Writes an accepted character, after the blank a dropped comment owes. */
    method Accept(buf: array<char>, line: nat, out: nat, c: char, sep: bool) returns (out': nat)
      requires line <= out && out + (if sep then 1 else 0) < buf.Length
      modifies buf
      ensures out < out' <= out + (if sep then 2 else 1)
      ensures buf[line..out'] == Emit(cfg, old(buf[line..out]), sep, c)
      ensures forall i :: 0 <= i < buf.Length && !(out <= i < out') ==> buf[i] == old(buf[i])
    {
      out' := out;
      if sep && c !in cfg.blanks {
        out' := Put(buf, line, out', ' ');
      }
      out' := Put(buf, line, out', c);
    }

    /** A character the statement keeps, or one inside a comment. */
    method PlainToken(
      buf: array<char>, line: nat, out: nat, pos: nat, end: nat, sep: bool, ss: bool, ghost st: State, ghost t: string)
      returns (out': nat, sep': bool, ss': bool)
      requires Valid() && line <= out && out + (if sep then 1 else 0) <= pos < end < buf.Length
      requires t == buf[pos..end] && buf[end] == '\0' && IsLine(t)
      requires st == Inside(buf[line..out], sep, ss, Running) && Classify(cfg, st, t) == Plain
      modifies this`inString, buf
      ensures Valid()
      ensures line <= out' && out' + (if sep' then 1 else 0) <= pos + 1
      ensures mlComment ==> out' == out
      ensures forall i :: 0 <= i < buf.Length && !(line <= i <= pos) ==> buf[i] == old(buf[i])
      ensures Inside(buf[line..out'], sep', ss', Running) == Apply(cfg, st, t)
    {
      var inchar := buf[pos];
      assert t[0] == inchar;
      out', sep' := out, sep;
      ss' := TrackConditional(buf, pos, end, ss, st);
      if inchar == inString {
        inString := '\0';
      } else if !mlComment && inString == '\0' && (inchar == '\'' || inchar == '"' || inchar == '`') {
        inString := inchar;
      }
      if !mlComment {
        out' := Accept(buf, line, out, inchar, sep);
        sep' := false;
      }
    }

    /** An escaped pair, copied as it is. */
    method PairToken(buf: array<char>, line: nat, out: nat, pos: nat, end: nat, ghost st: State, ghost t: string)
      returns (out': nat)
      requires Valid() && line <= out <= pos < end < buf.Length
      requires t == buf[pos..end] && buf[end] == '\0' && IsLine(t)
      requires st == Inside(buf[line..out], st.sep, st.ss, Running) && Classify(cfg, st, t) == Pair
      modifies buf
      ensures out' == out + 2 && pos + 2 <= end
      ensures forall i :: 0 <= i < buf.Length && !(line <= i < pos + 2) ==> buf[i] == old(buf[i])
      ensures Inside(buf[line..out'], st.sep, st.ss, Running) == Apply(cfg, st, t)
    {
      ghost var pending := buf[line..out];
      assert t[1] == buf[pos + 1];
      var inchar := buf[pos + 1];
      out' := Put(buf, line, out, '\\');
      out' := Put(buf, line, out', inchar);
      assert buf[line..out'] == pending + t[..2];
    }

    /** The end of the line: its newline, unless the line looks like a DELIMITER command. */
    method AddNewline(buf: array<char>, line: nat, out: nat, end: nat, sep: bool, ss: bool, truncated: bool)
      requires Valid() && line <= out <= end < buf.Length && (mlComment ==> out == line)
      modifies this`buffer, buf
      ensures
        var st := old(Inside(buf[line..out], sep, ss, Running));
        var r := if truncated then st else Run(cfg, st, "\n");
        && r.status == Running && buffer == r.Acc() && r.sent == sent && r.mode == CurrentMode()
        && (truncated || Abs() == r)
      ensures forall i :: 0 <= i < buf.Length && !(line <= i <= end) ==> buf[i] == old(buf[i])
    {
      ghost var st := Inside(buf[line..out], sep, ss, Running);
      assert Run(cfg, st, "\n") == Apply(cfg, st, "\n");
      if out != line || buffer != "" {
        var out' := out;
        if !truncated && (!IsDelimiterCommand(buf[line..out]) || inString != '\0' || mlComment) {
          out' := Put(buf, line, out, '\n');
        }
        if !mlComment {
          buffer := buffer + buf[line..out'];
        }
      }
    }

    /** The body of the loop: the token at `pos` is read, and what it accepts is written. */
    method Step(
      buf: array<char>, line: nat, out: nat, pos: nat, end: nat, sep: bool, ss: bool, ghost st: State, ghost t: string)
      returns (out': nat, pos': nat, sep': bool, ss': bool, status: Status)
      requires Valid() && line <= out && out + (if sep then 1 else 0) <= pos < end < buf.Length
      requires mlComment ==> out == line
      requires t == buf[pos..end] && buf[end] == '\0' && IsLine(t)
      requires st == Inside(buf[line..out], sep, ss, Running)
      modifies this, buf
      ensures Valid() && (mlComment ==> out' == line)
      ensures line <= out' && out' + (if sep' then 1 else 0) <= pos' <= end
      ensures status != Running ==> out' == line
      ensures forall i :: 0 <= i < buf.Length && !(line <= i < pos') ==> buf[i] == old(buf[i])
      ensures Inside(buf[line..out'], sep', ss', status) == Apply(cfg, st, t)
      ensures pos' == pos + Width(cfg, st, t)
    {
      var token := NextToken(buf, pos, end, out == line, ss, st);
      status := Running;
      if token == Plain {
        out', sep', ss' := PlainToken(buf, line, out, pos, end, sep, ss, st, t);
        pos' := pos + 1;
      } else if token == Pair {
        out' := PairToken(buf, line, out, pos, end, st, t);
        pos', sep', ss' := pos + 2, sep, ss;
      } else {
        var width;
        out', sep', width, status := SkipToken(token, buf, line, out, sep, st, t);
        ss' := ss;
        if token == LineComment {
          LineHasNoNewline(t);
          pos' := end;
        } else {
          pos' := pos + width;
        }
      }
    }

    /**
      The head of the loop over a line: the write position, with a pending blank, is not past the
      read position, and what is written since the last flush is what the run has accepted.
    */
    ghost predicate AtHead(
      buf: array<char>, line: nat, end: nat, out: nat, pos: nat, sep: bool, ss: bool, status: Status,
      st: State, t: string)
      reads this, buf
    {
      && Valid() && line <= out && out + (if sep then 1 else 0) <= pos <= end < buf.Length
      && (mlComment ==> out == line) && (status != Running ==> out == line)
      && buf[end] == '\0' && t == buf[pos..end] && IsLine(t)
      && st == Inside(buf[line..out], sep, ss, status)
    }

    /** One turn of the loop. */
    method Turn(
      buf: array<char>, line: nat, end: nat, out: nat, pos: nat, sep: bool, ss: bool, ghost st: State, ghost t: string)
      returns (out': nat, pos': nat, sep': bool, ss': bool, status: Status)
      requires AtHead(buf, line, end, out, pos, sep, ss, Running, st, t) && t != []
      modifies this, buf
      ensures pos < pos'
      ensures AtHead(buf, line, end, out', pos', sep', ss', status, Apply(cfg, st, t), t[Width(cfg, st, t)..])
      ensures SameOutside(old(buf[..]), buf[..], line, end)
    {
      ghost var a := buf[..];
      out', pos', sep', ss', status := Step(buf, line, out, pos, end, sep, ss, st, t);
      assert buf[pos'..end] == t[pos' - pos..] by {
        assert forall i :: pos' <= i < end ==> buf[i] == a[i];
      }
    }

    /** The loop over the line: at its head the write position never passes the read position. */
    method ScanLine(buf: array<char>, line: nat, end: nat, ghost start: State, ghost content: string)
      returns (out: nat, needSpace: bool, ssComment: bool, status: Status)
      requires Valid() && line <= end < buf.Length && buf[end] == '\0'
      requires content == buf[line..end] && IsLine(content) && start == Abs()
      modifies this, buf
      ensures Valid() && line <= out <= end && (mlComment ==> out == line)
      ensures status != Running ==> out == line
      ensures Inside(buf[line..out], needSpace, ssComment, status) == Run(cfg, start, content)
      ensures SameOutside(old(buf[..]), buf[..], line, end)
    {
      var pos := line;
      out, needSpace, ssComment, status := line, false, false, Running;
      ghost var st, t := start, content;
      while pos < end && status == Running
        invariant AtHead(buf, line, end, out, pos, needSpace, ssComment, status, st, t)
        invariant Run(cfg, st, t) == Run(cfg, start, content)
        invariant SameOutside(old(buf[..]), buf[..], line, end)
        decreases end - pos
      {
        RunStep(cfg, st, t);
        ghost var a := buf[..];
        out, pos, needSpace, ssComment, status := Turn(buf, line, end, out, pos, needSpace, ssComment, st, t);
        SameOutsideAgain(old(buf[..]), a, buf[..], line, end);
        st, t := Apply(cfg, st, t), t[Width(cfg, st, t)..];
      }
    }

    /**
      One line of input, `lineLength` bytes at `line` in the reader's buffer.  The session moves
      exactly as `Run` does over the line and its newline, for every line, and nothing outside
      the line and its terminator is written.
    */
    method AddLine(buf: array<char>, line: nat, lineLength: nat, truncated: bool)
      returns (status: Status)
      requires Valid() && line + lineLength < buf.Length
      requires buf[line + lineLength] == '\0' && IsLine(buf[line..line + lineLength])
      modifies this, buf
      ensures Valid()
      ensures
        var text := old(buf[line..line + lineLength]) + (if truncated then "" else "\n");
        var r := Run(cfg, old(Abs()), text);
        && status == r.status
        && sent == r.sent && buffer == r.Acc() && CurrentMode() == r.mode
        && (status == Running && !truncated ==> Abs() == r)
      ensures forall i :: 0 <= i < buf.Length && !(line <= i <= line + lineLength) ==> buf[i] == old(buf[i])
    {
      var end := line + lineLength;
      ghost var content := buf[line..end];
      ghost var scanned := Run(cfg, Abs(), content);
      assert Run(cfg, Abs(), content + (if truncated then "" else "\n"))
          == if truncated then scanned else Run(cfg, scanned, "\n") by {
        assert content + "" == content;
        RunLine(cfg, Abs(), content);
      }
      if buf[line] == '\0' && buffer == "" {
        assert content == "" && scanned == Abs();
        assert Apply(cfg, scanned, "\n") == scanned;
        return Running;
      }
      var out, sep, ss;
      out, sep, ss, status := ScanLine(buf, line, end, Abs(), content);
      if status == Running {
        AddNewline(buf, line, out, end, sep, ss, truncated);
      }
    }
  }
}
