/**
  The batch loop of read_and_execute in client/mysql.cc: the line reader feeds the statement
  splitter, which edits each line inside the reader's own buffer.
*/
module BatchClient {
  import opened Basics
  import opened SqlText
  import opened SplitterTheorems
  import opened LineReader
  import opened StatementSplitter

  /** The UTF-8 byte order marker some editors put at the start of a file. */
  predicate HasBom(line: string) {
    |line| >= 3 && line[0] == '\U{EF}' && line[1] == '\U{BB}' && line[2] == '\U{BF}'
  }

  function SkipBom(lines: seq<string>): seq<string> {
    if lines != [] && HasBom(lines[0]) then [lines[0][3..]] + lines[1..] else lines
  }

  datatype Outcome = Finished | Stopped(status: Status) | ReadError | ZeroByte

  // ---------------------------------------------------------------- reference

  /** The lines before the first with a zero byte. */
  function Clean(lines: seq<string>): seq<string> {
    if lines == [] || '\0' in lines[0] then [] else [lines[0]] + Clean(lines[1..])
  }

  /** The session over the lines it may use. */
  function SessionEnd(cfg: Config, lines: seq<string>): State
    requires ValidConfig(cfg)
  {
    Feed(cfg, InitialState, SkipBom(Clean(lines)))
  }

  /** How a session over `lines` ends that is in state `e` once it has used all it may. */
  function OutcomeOf(lines: seq<string>, fails: bool, e: State): Outcome {
    if e.status != Running then Stopped(e.status)
    else if Clean(lines) != lines then ZeroByte
    else if fails then ReadError
    else Finished
  }

  /** What the server is asked to execute by a session that ended in `e`. */
  function Submitted(cfg: Config, e: State, outcome: Outcome): seq<string> {
    Executed(cfg, if outcome == Finished then e.sent + [e.Acc()] else e.sent)
  }

  // ---------------------------------------------------------------- pieces

  /** The line to feed: a byte order marker at the start of the first is dropped. */
  function Unmarked(text: string, first: bool): string {
    if first && HasBom(text) then text[3..] else text
  }

  /** Between two calls nothing is pending, and what is tracked on one line only is lost. */
  function BetweenLines(r: State): State { r.Flush().(sep := false, ss := false) }

  /** What becomes of a session in state `st` when a line, or part of one, is fed. */
  function FedText(cfg: Config, st: State, line: string, truncated: bool): State
    requires ValidConfig(cfg)
  {
    if IsCommandLine(cfg, st, line) then st.(status := AtCommand)
    else if !truncated then Run(cfg, st, line + "\n")
    else BetweenLines(Run(cfg, st, line))
  }

  function Fed(cfg: Config, st: State, p: Piece, first: bool): State
    requires ValidConfig(cfg)
  {
    FedText(cfg, st, Unmarked(p.text, first), p.truncated)
  }

  /** The session over pieces, until it stops. */
  function FeedPieces(cfg: Config, pieces: seq<Piece>): State
    requires ValidConfig(cfg)
  {
    if pieces == [] then InitialState
    else
      var n := |pieces| - 1;
      var st := FeedPieces(cfg, pieces[..n]);
      if st.status != Running then st else Fed(cfg, st, pieces[n], n == 0)
  }

  ghost predicate NoZero(pieces: seq<Piece>) {
    forall i :: 0 <= i < |pieces| ==> '\0' !in pieces[i].text
  }

  lemma {:induction false} FeedOneMore(cfg: Config, pieces: seq<Piece>, p: Piece)
    requires ValidConfig(cfg) && NoZero(pieces) && FeedPieces(cfg, pieces).status == Running
    ensures FeedPieces(cfg, pieces + [p]) == Fed(cfg, FeedPieces(cfg, pieces), p, pieces == [])
    ensures '\0' !in p.text ==> NoZero(pieces + [p])
  {
    assert (pieces + [p])[..|pieces|] == pieces;
  }

  /** The pieces fed so far are those taken off the stream, and have none with a zero byte. */
  ghost predicate OnTrack(stream: string, fails: bool, pieces: seq<Piece>, rest: string, capacity: nat) {
    TakenInTurn(stream, pieces, rest, capacity, false, fails) && NoZero(pieces)
  }

  /** Why a session that has been fed `pieces` ends. */
  ghost predicate Ends(
    cfg: Config, stream: string, fails: bool, pieces: seq<Piece>, rest: string, capacity: nat, outcome: Outcome)
    requires ValidConfig(cfg)
  {
    var status := FeedPieces(cfg, pieces).status;
    && OnTrack(stream, fails, pieces, rest, capacity)
    && match outcome
      case Stopped(why) => status == why != Running
      case Finished => status == Running && !fails && rest == ""
      case ReadError => status == Running && fails && '\n' !in rest
      case ZeroByte => status == Running && ZeroAhead(rest, capacity, fails)
  }

  /** The next piece has a zero byte. */
  ghost predicate ZeroAhead(s: string, capacity: nat, fails: bool) {
    exists p, rest :: Takes(s, p, rest, capacity, false, fails) && '\0' in p.text
  }

  lemma {:induction false} TakenLine(s: string, p: Piece, rest: string, capacity: nat, binary: bool, fails: bool)
    requires Takes(s, p, rest, capacity, binary, fails)
    ensures '\n' !in p.text && |rest| < |s|
    ensures (forall c :: c in rest ==> c in s) && (forall c :: c in p.text ==> c in s)
  {
    TakesLine(s, p, rest, capacity, binary, fails);
    var n := LineLength(s);
    assert forall i :: 0 <= i < n ==> s[..n][i] == s[i];
  }

  lemma {:induction false} RestIsInStream(
    stream: string, pieces: seq<Piece>, rest: string, capacity: nat, binary: bool, fails: bool, c: char)
    requires TakenInTurn(stream, pieces, rest, capacity, binary, fails) && c in rest
    ensures c in stream
    decreases |pieces|
  {
    if pieces != [] {
      var before, p := pieces[..|pieces| - 1], pieces[|pieces| - 1];
      var s :| TakenInTurn(stream, before, s, capacity, binary, fails) && Takes(s, p, rest, capacity, binary, fails);
      TakenLine(s, p, rest, capacity, binary, fails);
      RestIsInStream(stream, before, s, capacity, binary, fails, c);
    }
  }

  // ---------------------------------------------------------------- pieces are lines

  lemma {:induction false} FeedAppend(cfg: Config, st: State, a: seq<string>, b: seq<string>)
    requires ValidConfig(cfg)
    ensures Feed(cfg, st, a + b) == Feed(cfg, Feed(cfg, st, a), b)
    decreases |a|
  {
    if a == [] {
      assert a + b == b;
    } else if st.status == Running && !IsCommandLine(cfg, st, a[0]) {
      assert (a + b)[1..] == a[1..] + b;
      FeedAppend(cfg, Run(cfg, st, a[0] + "\n"), a[1..], b);
    }
  }

  lemma {:induction false} SkipBomAppend(a: seq<string>, b: seq<string>)
    requires a != []
    ensures SkipBom(a + b) == SkipBom(a) + b
  {
    assert (a + b)[0] == a[0] && (a + b)[1..] == a[1..] + b;
    Regroup([a[0][if HasBom(a[0]) then 3 else 0..]], a[1..], b);
  }

  /** Feeding pieces that are whole lines is feeding the lines. */
  lemma {:induction false} PiecesAreLines(cfg: Config, pieces: seq<Piece>)
    requires ValidConfig(cfg) && NoneCut(pieces)
    ensures FeedPieces(cfg, pieces) == Feed(cfg, InitialState, SkipBom(Texts(pieces)))
    decreases |pieces|
  {
    if pieces != [] {
      var before, p := pieces[..|pieces| - 1], pieces[|pieces| - 1];
      PiecesAreLines(cfg, before);
      LineIsFed(cfg, Texts(before), p);
      assert |Texts(before)| == |before| by { TextsLength(before); }
    }
  }

  lemma {:induction false} TextsLength(pieces: seq<Piece>)
    ensures |Texts(pieces)| == |pieces|
  {
    if pieces != [] { TextsLength(pieces[..|pieces| - 1]); }
  }

  lemma {:induction false} LineIsFed(cfg: Config, lines: seq<string>, p: Piece)
    requires ValidConfig(cfg) && !p.truncated
    ensures var st := Feed(cfg, InitialState, SkipBom(lines));
      Feed(cfg, InitialState, SkipBom(lines + [p.text])) ==
        if st.status != Running then st else Fed(cfg, st, p, lines == [])
  {
    var line := Unmarked(p.text, lines == []);
    var st := Feed(cfg, InitialState, SkipBom(lines));
    assert SkipBom(lines + [p.text]) == SkipBom(lines) + [line] by {
      if lines != [] { SkipBomAppend(lines, [p.text]); }
    }
    FeedAppend(cfg, InitialState, SkipBom(lines), [line]);
    assert [line][1..] == [];
  }

  lemma {:induction false} CleanAppend(a: seq<string>, b: seq<string>)
    requires forall i :: 0 <= i < |a| ==> '\0' !in a[i]
    ensures Clean(a + b) == a + Clean(b)
  {
    if a == [] {
      assert a + b == b && a + Clean(b) == Clean(b);
    } else {
      assert (a + b)[0] == a[0] && (a + b)[1..] == a[1..] + b;
      CleanAppend(a[1..], b);
      Regroup([a[0]], a[1..], Clean(b));
    }
  }

  lemma {:induction false} TextsClean(pieces: seq<Piece>)
    requires NoZero(pieces)
    ensures forall i :: 0 <= i < |Texts(pieces)| ==> '\0' !in Texts(pieces)[i]
  {
    if pieces != [] { TextsClean(pieces[..|pieces| - 1]); }
  }

  /** The lines not yet fed: none that may be used, unless the session has stopped. */
  lemma {:induction false} LinesAhead(
    cfg: Config, stream: string, fails: bool, pieces: seq<Piece>, rest: string, capacity: nat, outcome: Outcome)
    requires ValidConfig(cfg) && IO_SIZE <= capacity && LinesFit(rest, capacity - IO_SIZE)
    requires Ends(cfg, stream, fails, pieces, rest, capacity, outcome) && !outcome.Stopped?
    ensures var ahead := SplitLines(rest, false, fails);
      Clean(ahead) == [] && (ahead != [] <==> outcome == ZeroByte) && (outcome == ReadError ==> fails) &&
      (outcome == Finished ==> !fails)
  {
    if outcome == ZeroByte {
      var p, rest' :| Takes(rest, p, rest', capacity, false, fails) && '\0' in p.text;
      LinesStep(rest, p, rest', capacity, false, fails);
      assert SplitLines(rest, false, fails)[0] == p.text;
    } else {
      NothingLeft(rest, false, fails);
    }
  }

  /** When every line fits the buffer a session is a function of the lines. */
  lemma {:induction false} FittingSession(
    cfg: Config, stream: string, fails: bool, pieces: seq<Piece>, rest: string, capacity: nat, outcome: Outcome)
    requires ValidConfig(cfg) && IO_SIZE <= capacity && LinesFit(stream, capacity - IO_SIZE)
    requires Ends(cfg, stream, fails, pieces, rest, capacity, outcome)
    ensures var lines := SplitLines(stream, false, fails);
      SessionEnd(cfg, lines) == FeedPieces(cfg, pieces) && outcome == OutcomeOf(lines, fails, SessionEnd(cfg, lines))
  {
    var texts, ahead := Texts(pieces), SplitLines(rest, false, fails);
    TakenMeansProgress(stream, pieces, rest, capacity, false, fails);
    PiecesAreLines(cfg, pieces);
    TextsClean(pieces);
    CleanAppend(texts, ahead);
    if outcome.Stopped? {
      SkipBomAppend(texts, Clean(ahead));
      FeedAppend(cfg, InitialState, SkipBom(texts), Clean(ahead));
    } else {
      LinesAhead(cfg, stream, fails, pieces, rest, capacity, outcome);
      assert texts + [] == texts;
    }
  }

  // ---------------------------------------------------------------- the code

  /** The splitter may write over the returned line, and never reaches what is still unread. */
  method AddInPlace(session: Session, reader: LineBuffer, line: nat, length: nat, ghost content: string)
    returns (status: Status)
    requires session.Valid() && reader.Returned() && reader.startOfLine <= line
    requires line + length == reader.startOfLine + reader.readLength
    requires content == reader.buffer[line..line + length] && IsLine(content)
    modifies session, reader.buffer
    ensures session.Valid() && reader.Valid() && reader.Rest() == old(reader.Rest())
    ensures
      var st := old(session.Abs());
      var r := if reader.truncated then BetweenLines(Run(session.cfg, st, content))
               else Run(session.cfg, st, content + "\n");
      status == r.status && session.sent == r.sent && (status == Running ==> session.Abs() == r)
  {
    ghost var rest := reader.Rest();
    assert content + "" == content;
    status := session.AddLine(reader.buffer, line, length, reader.truncated);
    assert reader.Rest() == rest;
  }

  /** The session `st` has come to `r`, and goes on if it is still running. */
  ghost predicate Moved(r: State, outcome: Option<Outcome>, st: State) {
    && outcome == (if r.status == Running then None else Some(Stopped(r.status)))
    && st.sent == r.sent && (r.status == Running ==> st == r)
  }

  /** A line without a zero byte: a client command, or more for the splitter, in place. */
  method FeedText(session: Session, reader: LineBuffer, line: nat, length: nat, ghost content: string)
    returns (outcome: Option<Outcome>)
    requires session.Valid() && reader.Returned() && reader.startOfLine <= line
    requires line + length == reader.startOfLine + reader.readLength
    requires content == reader.buffer[line..line + length] && IsLine(content)
    modifies session, reader.buffer
    ensures session.Valid() && reader.Valid() && reader.Rest() == old(reader.Rest())
    ensures Moved(FedText(session.cfg, old(session.Abs()), content, reader.truncated), outcome, session.Abs())
  {
    if (session.cfg.namedCommands || session.buffer == "") && !session.mlComment && session.inString == '\0' &&
       session.cfg.longCommand(reader.buffer[line..line + length])
    {
      return Some(Stopped(AtCommand));
    }
    var status := AddInPlace(session, reader, line, length, content);
    outcome := if status == Running then None else Some(Stopped(status));
  }

  /** The line at hand: one with a zero byte is refused, and a byte order marker is skipped on the first. */
  method FeedLine(session: Session, reader: LineBuffer, first: bool, ghost p: Piece) returns (outcome: Option<Outcome>)
    requires session.Valid() && reader.Returned() && '\n' !in reader.Line()
    requires p == Piece(reader.Line(), reader.truncated)
    modifies session, reader.buffer
    ensures session.Valid() && reader.Valid() && reader.Rest() == old(reader.Rest())
    ensures FedOrRefused(session.cfg, old(session.Abs()), p, first, outcome, session.Abs())
  {
    var line, length := reader.startOfLine, reader.readLength;
    var content := reader.buffer[line..line + length];
    if '\0' in content {
      return Some(ZeroByte);
    }
    if first && HasBom(content) {
      line, length := line + 3, length - 3;
    }
    ghost var text := Unmarked(p.text, first);
    assert reader.buffer[line..line + length] == text;
    outcome := FeedText(session, reader, line, length, text);
  }

  ghost predicate FedOrRefused(cfg: Config, st: State, p: Piece, first: bool, outcome: Option<Outcome>, st': State)
    requires ValidConfig(cfg)
  {
    if '\0' in p.text then outcome == Some(ZeroByte) && st' == st
    else Moved(Fed(cfg, st, p, first), outcome, st')
  }

  /** A session that has been fed `pieces` is in state `st`, and has ended or is to go on. */
  ghost predicate Stands(
    cfg: Config, st: State, stream: string, fails: bool, pieces: seq<Piece>, rest: string, capacity: nat,
    outcome: Option<Outcome>)
    requires ValidConfig(cfg)
  {
    var e := FeedPieces(cfg, pieces);
    match outcome
    case None => st == e && OnTrack(stream, fails, pieces, rest, capacity)
    case Some(why) =>
      Ends(cfg, stream, fails, pieces, rest, capacity, why) && st.sent == e.sent && (why == Finished ==> st == e)
  }

  lemma {:induction false} StandsStep(
    cfg: Config, st: State, stream: string, fails: bool, pieces: seq<Piece>, s: string, capacity: nat,
    p: Piece, rest: string, outcome: Option<Outcome>, st': State)
    requires ValidConfig(cfg) && st.status == Running && Stands(cfg, st, stream, fails, pieces, s, capacity, None)
    requires Takes(s, p, rest, capacity, false, fails) && FedOrRefused(cfg, st, p, pieces == [], outcome, st')
    ensures if '\0' in p.text then Stands(cfg, st', stream, fails, pieces, s, capacity, outcome)
            else Stands(cfg, st', stream, fails, pieces + [p], rest, capacity, outcome)
  {
    if '\0' !in p.text {
      FeedOneMore(cfg, pieces, p);
      TakeOneMore(stream, pieces, s, p, rest, capacity, false, fails);
    }
  }

  /** One round of the loop: a line is read and fed. */
  method Round(session: Session, reader: LineBuffer, first: bool, ghost stream: string, ghost pieces: seq<Piece>)
    returns (outcome: Option<Outcome>, ghost pieces': seq<Piece>, ghost rest: string)
    requires session.Valid() && reader.Valid() && (first <==> pieces == [])
    requires Stands(
      session.cfg, session.Abs(), stream, reader.file.fails, pieces, reader.Rest(), Capacity(reader.maxSize), None)
    modifies session, reader, reader.buffer, reader.file
    ensures reader.buffer == old(reader.buffer) || fresh(reader.buffer)
    ensures session.Valid()
    ensures Stands(
      session.cfg, session.Abs(), stream, reader.file.fails, pieces', rest, Capacity(reader.maxSize), outcome)
    ensures outcome.None? ==>
      reader.Valid() && rest == reader.Rest() && |rest| < |old(reader.Rest())| && pieces' != []
  {
    ghost var s, st, capacity, fails := reader.Rest(), session.Abs(), Capacity(reader.maxSize), reader.file.fails;
    pieces', rest := pieces, s;
    var found := reader.BatchReadline(false);
    if !found {
      return Some(if reader.error then ReadError else Finished), pieces', rest;
    }
    ghost var p, rest' := Piece(reader.Line(), reader.truncated), reader.Rest();
    TakenLine(s, p, rest', capacity, false, fails);
    outcome := FeedLine(session, reader, first, p);
    StandsStep(session.cfg, st, stream, fails, pieces, s, capacity, p, rest', outcome, session.Abs());
    if '\0' !in p.text {
      pieces', rest := pieces + [p], rest';
    }
  }

  /** The loop until the end of the stream, a command or an error. */
  method RunSession(session: Session, reader: LineBuffer, ghost stream: string)
    returns (outcome: Outcome, ghost pieces: seq<Piece>, ghost rest: string)
    requires session.Valid() && reader.Valid() && session.Abs() == InitialState && reader.Rest() == stream
    modifies session, reader, reader.buffer, reader.file
    ensures Stands(
      session.cfg, session.Abs(), stream, reader.file.fails, pieces, rest, Capacity(reader.maxSize), Some(outcome))
  {
    var first, done := true, None;
    pieces, rest := [], stream;
    while done == None
      invariant session.Valid() && (reader.buffer == old(reader.buffer) || fresh(reader.buffer))
      invariant done == None ==> reader.Valid() && rest == reader.Rest() && (first <==> pieces == [])
      invariant Stands(
        session.cfg, session.Abs(), stream, reader.file.fails, pieces, rest, Capacity(reader.maxSize), done)
      decreases done == None, |rest|
    {
      done, pieces, rest := Round(session, reader, first, stream, pieces);
      first := false;
    }
    outcome := done.value;
  }

  /** What a session of this stream may submit, and how it may end. */
  ghost predicate IsSession(
    cfg: Config, stream: string, fails: bool, capacity: nat, executed: seq<string>, outcome: Outcome)
    requires ValidConfig(cfg)
  {
    exists pieces, rest ::
      Ends(cfg, stream, fails, pieces, rest, capacity, outcome) &&
      executed == Submitted(cfg, FeedPieces(cfg, pieces), outcome)
  }

  lemma {:induction false} WhySessionsEnd(
    cfg: Config, stream: string, fails: bool, capacity: nat, executed: seq<string>, outcome: Outcome)
    requires ValidConfig(cfg) && IsSession(cfg, stream, fails, capacity, executed, outcome)
    ensures outcome == Finished ==> !fails
    ensures outcome == ReadError ==> fails
    ensures outcome == ZeroByte ==> '\0' in stream
  {
    var pieces, rest :| Ends(cfg, stream, fails, pieces, rest, capacity, outcome);
    if outcome == ZeroByte {
      var p, rest' :| Takes(rest, p, rest', capacity, false, fails) && '\0' in p.text;
      TakenLine(rest, p, rest', capacity, false, fails);
      RestIsInStream(stream, pieces, rest, capacity, false, fails, '\0');
    }
  }

  /** When every line fits the buffer there is one session, that of the lines of the stream. */
  lemma {:induction false} SessionIsOfLines(
    cfg: Config, stream: string, fails: bool, capacity: nat, executed: seq<string>, outcome: Outcome)
    requires ValidConfig(cfg) && IsSession(cfg, stream, fails, capacity, executed, outcome)
    requires IO_SIZE <= capacity && LinesFit(stream, capacity - IO_SIZE)
    ensures var lines := SplitLines(stream, false, fails);
      var e := SessionEnd(cfg, lines);
      outcome == OutcomeOf(lines, fails, e) && executed == Submitted(cfg, e, outcome)
  {
    var pieces, rest :| Ends(cfg, stream, fails, pieces, rest, capacity, outcome) &&
      executed == Submitted(cfg, FeedPieces(cfg, pieces), outcome);
    FittingSession(cfg, stream, fails, pieces, rest, capacity, outcome);
  }

  lemma {:induction false} SessionMeetsReference(cfg: Config, lines: seq<string>, outcome: Outcome)
    requires ValidConfig(cfg) && Feed(cfg, InitialState, lines).status == Running
    ensures var t := JoinLines(lines);
      var s := Split(cfg, t, "", false);
      !Nests(cfg, InitialState, t) && Glues(cfg, InitialState, t) == 0 ==>
        Submitted(cfg, Feed(cfg, InitialState, lines), outcome) ==
          Executed(cfg, if outcome == Finished then s.stmts + [s.rest] else s.stmts)
  {
    if !Nests(cfg, InitialState, JoinLines(lines)) {
      SplitterMeetsReference(cfg, lines);
    }
  }

  method Open(cfg: Config, stream: string, fails: bool, maxSize: nat) returns (session: Session, reader: LineBuffer)
    requires ValidConfig(cfg) && maxSize < 0x8000_0000
    ensures fresh(session) && fresh(reader) && fresh(reader.buffer) && fresh(reader.file)
    ensures session.cfg == cfg && reader.maxSize == maxSize && reader.file.fails == fails
    ensures session.Valid() && reader.Valid() && session.Abs() == InitialState && reader.Rest() == stream
  {
    session := new Session(cfg);
    var file := new InputFile(stream, fails);
    reader := new LineBuffer(file, maxSize);
  }

  /** The loop, and the last statement, which is sent even without a delimiter if the stream has ended well. */
  method ReadAndExecute(cfg: Config, stream: string, fails: bool, maxSize: nat)
    returns (executed: seq<string>, outcome: Outcome)
    requires ValidConfig(cfg) && maxSize < 0x8000_0000
    ensures IsSession(cfg, stream, fails, Capacity(maxSize), executed, outcome)
  {
    var session, reader := Open(cfg, stream, fails, maxSize);
    ghost var pieces, rest;
    outcome, pieces, rest := RunSession(session, reader, stream);
    executed := Executed(cfg, if outcome == Finished then session.sent + [session.buffer] else session.sent);
    assert session.buffer + "" == session.buffer;
    assert executed == Submitted(cfg, FeedPieces(cfg, pieces), outcome);
  }

  /**
    A whole batch session, for every schedule of reads, to the end of the stream or to a read that
    fails.  It submits what the splitter makes of the pieces read before it ends, and says why it
    ends.  When every line fits the buffer both are functions of the lines before the first with a
    zero byte; and with no client command, nested comment opener or swallowed newline it submits
    exactly the statements of the one-pass reference on those lines joined.
  */
  method ExecuteBatch(cfg: Config, stream: string, fails: bool, maxSize: nat)
    returns (executed: seq<string>, outcome: Outcome)
    requires ValidConfig(cfg) && maxSize < 0x8000_0000
    ensures IsSession(cfg, stream, fails, Capacity(maxSize), executed, outcome)
    ensures outcome == Finished ==> !fails
    ensures outcome == ReadError ==> fails
    ensures outcome == ZeroByte ==> '\0' in stream
    ensures LinesFit(stream, Capacity(maxSize) - IO_SIZE) ==>
      var lines := SplitLines(stream, false, fails);
      var e := SessionEnd(cfg, lines);
      outcome == OutcomeOf(lines, fails, e) && executed == Submitted(cfg, e, outcome)
    ensures LinesFit(stream, Capacity(maxSize) - IO_SIZE) && !outcome.Stopped? ==>
      var t := JoinLines(SkipBom(Clean(SplitLines(stream, false, fails))));
      var s := Split(cfg, t, "", false);
      !Nests(cfg, InitialState, t) && Glues(cfg, InitialState, t) == 0 ==>
        executed == Executed(cfg, if outcome == Finished then s.stmts + [s.rest] else s.stmts)
  {
    executed, outcome := ReadAndExecute(cfg, stream, fails, maxSize);
    WhySessionsEnd(cfg, stream, fails, Capacity(maxSize), executed, outcome);
    if LinesFit(stream, Capacity(maxSize) - IO_SIZE) {
      SessionIsOfLines(cfg, stream, fails, Capacity(maxSize), executed, outcome);
      if !outcome.Stopped? {
        SessionMeetsReference(cfg, SkipBom(Clean(SplitLines(stream, false, fails))), outcome);
      }
    }
  }
}
