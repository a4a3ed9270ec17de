/**
  The text of a client session, as the statement splitter of client/mysql.cc sees it.

  Two definitions live here.  `Run` is the splitter's exact behaviour, one lexical
  step at a time.  `Split` is the reference: a one-pass lexer that jumps over a whole
  comment or a whole string literal and knows nothing of lines, buffers or flags.
  SplitterTheorems.dfy relates the two, StatementSplitter.dfy relates `Run` to the code
  that edits its line buffer in place.

  A `char` stands for one byte of a single-byte character set.
*/
module SqlText {
  import opened Basics

  /** What stays fixed during a run: options, character classes and the command tables. */
  datatype Config = Config(
    delimiter: string,
    ansiQuotes: bool,
    noBackslashEscapes: bool,
    unknownIsFatal: bool,           // put_info(..., INFO_ERROR) > 0
    namedCommands: bool,            // commands are looked for on every line
    blanks: set<char>,
    printable: set<char>,
    shortCommands: set<char>,        // find_command(char)
    longCommand: string -> bool     // find_command(char *)
  )

  predicate IsMarkup(c: char) {
    c == '\\' || c == '\'' || c == '"' || c == '`' || c == '#' || c == '-' || c == '/' || c == '*'
  }

  /** The delimiter is a non-empty C string on one line; no character set calls markup blank. */
  ghost predicate ValidConfig(cfg: Config) {
    && cfg.delimiter != "" && '\n' !in cfg.delimiter && '\0' !in cfg.delimiter
    && (forall c :: c in cfg.blanks ==> !IsMarkup(c))
  }

  datatype Mode = Normal | InString(quote: char) | InComment

  /** `AtCommand`: a client command was met, whose effect is not modelled. */
  datatype Status = Running | Quit | AtCommand

  /**
    The splitter between two lexical steps.  The statement collected so far is what has been
    flushed to the statement buffer and what is accepted on the current line after it.
    `sep` is need_space and `ss` is ss_comment.
  */
  datatype State = State(
    sent: seq<string>, flushed: string, pending: string, mode: Mode, sep: bool, ss: bool, status: Status)
  {
    function Acc(): string { flushed + pending }

    predicate Empty() { flushed == "" && pending == "" }

    function Flush(): State { this.(flushed := flushed + pending, pending := "") }
  }

  const InitialState := State([], "", "", Normal, false, false, Running)

  /** Past the end of the text reads as the end of a line. */
  function At(t: string, i: nat): char {
    if i < |t| then t[i] else '\n'
  }

  /** Number of characters before the first newline. */
  function LineLength(t: string): (n: nat)
    ensures n <= |t|
    ensures forall i :: 0 <= i < n ==> t[i] != '\n'
    ensures n < |t| ==> t[n] == '\n'
  {
    if t == [] || t[0] == '\n' then 0 else 1 + LineLength(t[1..])
  }

  lemma {:induction false} LineHasNoNewline(t: string)
    requires '\n' !in t
    ensures LineLength(t) == |t|
  {
    if t != [] { LineHasNoNewline(t[1..]); }
  }

  predicate IsOpener(t: string) { At(t, 0) == '/' && At(t, 1) == '*' }

  predicate IsCloser(t: string) { At(t, 0) == '*' && At(t, 1) == '/' }

  /** A comment the client drops: not one of the server's conditional comments. */
  predicate OpensBlock(t: string) {
    IsOpener(t) && !(At(t, 2) == '!' || (At(t, 2) == 'M' && At(t, 3) == '!'))
  }

  predicate StartsLineComment(cfg: Config, t: string, atStart: bool) {
    || At(t, 0) == '#'
    || (At(t, 0) == '-' && At(t, 1) == '-' &&
        (At(t, 2) in cfg.blanks || At(t, 2) == '\n' || atStart))
  }

  /** Whether a backslash escapes the next character in this mode. */
  predicate Escaping(cfg: Config, mode: Mode) {
    && !mode.InComment?
    && mode != InString('`')
    && !(mode == InString('"') && cfg.ansiQuotes)
    && !(mode.InString? && cfg.noBackslashEscapes)
  }

  /** The weight of a byte in latin1_swedish_ci: neither case nor most accents count. */
  function Weight(c: char): int {
    var b := c as int;
    if 97 <= b <= 122 then b - 32
    else if b == 215 || b == 223 || b == 247 || b == 255 then b
    else if 192 <= b <= 222 then UpperWeight(b)
    else if 224 <= b <= 254 then UpperWeight(b - 32)
    else b
  }

  /** The weights of the letters from A with a grave accent to the thorn, capitals. */
  function UpperWeight(b: int): int {
    if b <= 195 then 65 else if b == 197 then 91 else if b <= 198 then 92 else if b == 199 then 67
    else if b <= 203 then 69 else if b <= 207 then 73 else if b == 208 then 68 else if b == 209 then 78
    else if b <= 213 then 79 else if b == 214 then 93 else if b == 216 then 216 else if b <= 219 then 85
    else if b <= 221 then 89 else b
  }

  predicate IsD(c: char) { c == 'd' || c == 'D' || c == '\U{D0}' || c == '\U{F0}' }

  predicate IsE(c: char) { c == 'e' || c == 'E' || '\U{C8}' <= c <= '\U{CB}' || '\U{E8}' <= c <= '\U{EB}' }

  predicate IsI(c: char) { c == 'i' || c == 'I' || '\U{CC}' <= c <= '\U{CF}' || '\U{EC}' <= c <= '\U{EF}' }

  /**
    is_delimiter_command: only the name is looked at, and compared by weight, so that accented
    spellings of it count too.
  */
  predicate IsDelimiterCommand(s: string) {
    && |s| >= 9
    && IsD(s[0]) && IsE(s[1]) && s[2] in {'l', 'L'}
    && IsI(s[3]) && s[4] in {'m', 'M'} && IsI(s[5])
    && s[6] in {'t', 'T'} && IsE(s[7]) && s[8] in {'r', 'R'}
  }

  lemma {:induction false} LetterWeights(c: char)
    ensures IsD(c) <==> Weight(c) == Weight('d')
    ensures IsE(c) <==> Weight(c) == Weight('e')
    ensures IsI(c) <==> Weight(c) == Weight('i')
    ensures c in {'l', 'L'} <==> Weight(c) == Weight('l')
    ensures c in {'m', 'M'} <==> Weight(c) == Weight('m')
    ensures c in {'t', 'T'} <==> Weight(c) == Weight('t')
    ensures c in {'r', 'R'} <==> Weight(c) == Weight('r')
  {
  }

  /** The test is the comparison of nine weights with those of the command's name. */
  lemma {:induction false} DelimiterByWeight(s: string)
    ensures IsDelimiterCommand(s) <==>
      |s| >= 9 && forall i :: 0 <= i < 9 ==> Weight(s[i]) == Weight("delimiter"[i])
  {
    if |s| >= 9 {
      LetterWeights(s[0]); LetterWeights(s[1]); LetterWeights(s[2]);
      LetterWeights(s[3]); LetterWeights(s[4]); LetterWeights(s[5]);
      LetterWeights(s[6]); LetterWeights(s[7]); LetterWeights(s[8]);
      var name := "delimiter";
      assert name[0] == 'd' && name[1] == name[7] == 'e' && name[2] == 'l' && name[3] == name[5] == 'i';
      assert name[4] == 'm' && name[6] == 't' && name[8] == 'r';
    }
  }

  /** What an accepted character adds: a dropped comment before it leaves one blank. */
  function Emit(cfg: Config, acc: string, sep: bool, c: char): string {
    if sep && c !in cfg.blanks then acc + [' ', c] else acc + [c]
  }

  // ---------------------------------------------------------------- exact behaviour

  datatype Token =
    | Newline | LeadingBlank | LoneBackslash | Pair | ShortCommand | FatalUnknown
    | Delimiter | LineComment | OpenBlock | CloseBlock | Plain

  function Classify(cfg: Config, st: State, t: string): Token
    requires t != []
  {
    if t[0] == '\n' then Newline
    else if t[0] in cfg.blanks && st.Empty() then LeadingBlank
    else if t[0] == '\\' && Escaping(cfg, st.mode) then
      if At(t, 1) == '\n' then LoneBackslash
      else if st.mode.InString? || t[1] == 'N' then Pair
      else if t[1] in cfg.shortCommands then ShortCommand
      else if cfg.unknownIsFatal then FatalUnknown else Pair
    else if st.mode.Normal? && cfg.delimiter <= t then Delimiter
    else if st.mode.Normal? && StartsLineComment(cfg, t, st.Empty()) then LineComment
    else if !st.mode.InString? && OpensBlock(t) then OpenBlock
    else if st.mode.InComment? && !st.ss && IsCloser(t) then CloseBlock
    else Plain
  }

  function Width(cfg: Config, st: State, t: string): (n: nat)
    requires ValidConfig(cfg) && t != []
    ensures 1 <= n <= |t|
  {
    match Classify(cfg, st, t)
    case Newline | LeadingBlank | LoneBackslash | Plain => 1
    case Pair | ShortCommand | FatalUnknown | OpenBlock | CloseBlock => 2
    case Delimiter => |cfg.delimiter|
    case LineComment => LineLength(t)
  }

  /** The newline of this line is swallowed because the line looks like a DELIMITER command. */
  predicate GluesHere(st: State, t: string)
    requires t != []
  {
    t[0] == '\n' && st.mode.Normal? && IsDelimiterCommand(st.pending)
  }

  /** Conditional comments are tracked on one line only. */
  function SsAfter(st: State, t: string): bool {
    if !st.mode.InString? && IsOpener(t) && At(t, 2) == '!' then true
    else if !st.mode.InString? && IsCloser(t) then false
    else st.ss
  }

  function ModeAfter(st: State, t: string): Mode
    requires t != []
  {
    if st.mode == InString(t[0]) then Normal
    else if st.mode.Normal? && IsQuote(t[0]) then InString(t[0])
    else st.mode
  }

  function Apply(cfg: Config, st: State, t: string): State
    requires t != []
  {
    match Classify(cfg, st, t)
    case Newline =>
      var swallowed := st.Empty() || st.mode.InComment? || GluesHere(st, t);
      st.(pending := if swallowed then st.pending else st.pending + "\n", sep := false, ss := false).Flush()
    case LeadingBlank => st
    case LoneBackslash => st
    case Pair => st.(pending := st.pending + t[..2])
    case ShortCommand => st.Flush().(status := AtCommand)
    case FatalUnknown => st.(pending := "", status := Quit)
    case Delimiter =>
      if cfg.longCommand(st.Acc()) then st.Flush().(status := AtCommand)
      else st.(sent := st.sent + [st.Acc()], flushed := "", pending := "")
    case LineComment => st.Flush()
    case OpenBlock => st.Flush().(mode := InComment)
    case CloseBlock => st.Flush().(mode := Normal, sep := true)
    case Plain =>
      if st.mode.InComment? then st.(ss := SsAfter(st, t))
      else
        st.(pending := Emit(cfg, st.pending, st.sep, t[0]), mode := ModeAfter(st, t),
            sep := false, ss := SsAfter(st, t))
  }

  /** The splitter's behaviour on a text in which every line ends in a newline. */
  function Run(cfg: Config, st: State, t: string): State
    requires ValidConfig(cfg)
    decreases |t|
  {
    if t == [] || st.status != Running then st
    else Run(cfg, Apply(cfg, st, t), t[Width(cfg, st, t)..])
  }

  /** How many newlines the run swallows. */
  function Glues(cfg: Config, st: State, t: string): nat
    requires ValidConfig(cfg)
    decreases |t|
  {
    if t == [] || st.status != Running then 0
    else (if GluesHere(st, t) then 1 else 0) +
         Glues(cfg, Apply(cfg, st, t), t[Width(cfg, st, t)..])
  }

  /** A comment opener met inside another comment. */
  predicate NestsHere(cfg: Config, st: State, t: string)
    requires t != []
  {
    || (st.mode.InComment? && IsOpener(t))
    || (st.ss && Classify(cfg, st, t) == OpenBlock)
  }

  predicate Nests(cfg: Config, st: State, t: string)
    requires ValidConfig(cfg)
    decreases |t|
  {
    t != [] && st.status == Running &&
    (NestsHere(cfg, st, t) || Nests(cfg, Apply(cfg, st, t), t[Width(cfg, st, t)..]))
  }

  /** The lines of a session, each followed by its newline. */
  function JoinLines(lines: seq<string>): (t: string)
    ensures t != [] ==> t[|t| - 1] == '\n'
  {
    if lines == [] then "" else lines[0] + "\n" + JoinLines(lines[1..])
  }

  ghost predicate IsLine(line: string) { '\n' !in line && '\0' !in line }

  /** The loop of read_and_execute looks for a command before it adds the line. */
  predicate IsCommandLine(cfg: Config, st: State, line: string) {
    (cfg.namedCommands || st.Empty()) && st.mode.Normal? && cfg.longCommand(line)
  }

  /** read_and_execute: one line at a time, until a command is met. */
  function Feed(cfg: Config, st: State, lines: seq<string>): State
    requires ValidConfig(cfg)
    decreases |lines|
  {
    if lines == [] || st.status != Running then st
    else if IsCommandLine(cfg, st, lines[0]) then st.(status := AtCommand)
    else Feed(cfg, Run(cfg, st, lines[0] + "\n"), lines[1..])
  }

  // ---------------------------------------------------------------- reference

  datatype Statements = Statements(stmts: seq<string>, rest: string)

  /** Just past the first comment closer, or the end of the text. */
  function BlockEnd(t: string): (n: nat)
    ensures n <= |t|
  {
    if t == [] then 0 else if IsCloser(t) then 2 else 1 + BlockEnd(t[1..])
  }

  /** Length of the rest of a string literal, closing quote included. */
  function LiteralLength(cfg: Config, q: char, t: string): (n: nat)
    ensures n <= |t|
    decreases |t|
  {
    if t == [] then 0
    else if t[0] == q then 1
    else if t[0] == '\\' && Escaping(cfg, InString(q)) && At(t, 1) != '\n' then
      2 + LiteralLength(cfg, q, t[2..])
    else 1 + LiteralLength(cfg, q, t[1..])
  }

  /** The rest of a string literal as sent: only a backslash that escapes a newline goes. */
  function LiteralText(cfg: Config, q: char, t: string): string
    decreases |t|
  {
    if t == [] then ""
    else if t[0] == q then [q]
    else if t[0] == '\\' && Escaping(cfg, InString(q)) then
      if At(t, 1) == '\n' then LiteralText(cfg, q, t[1..])
      else t[..2] + LiteralText(cfg, q, t[2..])
    else [t[0]] + LiteralText(cfg, q, t[1..])
  }

  /**
    The statements of a text with no client commands, and what is left after the last
    delimiter.  `acc` is the statement collected so far and `sep` says that a dropped
    comment still owes it a blank.
  */
  function Split(cfg: Config, t: string, acc: string, sep: bool): Statements
    requires ValidConfig(cfg)
    decreases |t|
  {
    if t == [] then Statements([], acc)
    else if t[0] == '\n' then Split(cfg, t[1..], if acc == "" then "" else acc + "\n", false)
    else if t[0] in cfg.blanks && acc == "" then Split(cfg, t[1..], acc, sep)
    else if t[0] == '\\' then
      if At(t, 1) == '\n' then Split(cfg, t[1..], acc, sep)
      else Split(cfg, t[2..], acc + t[..2], sep)
    else if cfg.delimiter <= t then
      var r := Split(cfg, t[|cfg.delimiter|..], "", sep);
      Statements([acc] + r.stmts, r.rest)
    else if StartsLineComment(cfg, t, acc == "") then
      Split(cfg, t[LineLength(t)..], acc, sep)
    else if OpensBlock(t) then
      Split(cfg, t[2..][BlockEnd(t[2..])..], acc, true)
    else if IsQuote(t[0]) then
      Split(cfg, t[1..][LiteralLength(cfg, t[0], t[1..])..],
            Emit(cfg, acc, sep, t[0]) + LiteralText(cfg, t[0], t[1..]), false)
    else Split(cfg, t[1..], Emit(cfg, acc, sep, t[0]), false)
  }

  /** remove_cntrl: drop what is not printable from the end. */
  function Trim(cfg: Config, s: string): (r: string)
    ensures r <= s
    ensures r != "" ==> r[|r| - 1] in cfg.printable
    ensures forall i :: |r| <= i < |s| ==> s[i] !in cfg.printable
  {
    if s == "" || s[|s| - 1] in cfg.printable then s else Trim(cfg, s[..|s| - 1])
  }

  /** What reaches the server: trimmed statements, empty ones skipped (batch mode). */
  function Executed(cfg: Config, stmts: seq<string>): seq<string> {
    if stmts == [] then []
    else
      var s := Trim(cfg, stmts[0]);
      (if s == "" then [] else [s]) + Executed(cfg, stmts[1..])
  }
}
