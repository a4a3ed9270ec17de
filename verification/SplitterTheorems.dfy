/** The splitter's exact behaviour against the one-pass reference. */
module SplitterTheorems {
  import opened Basics
  import opened SqlText

  function SumLengths(ss: seq<string>): nat {
    if ss == [] then 0 else |ss[0]| + SumLengths(ss[1..])
  }

  lemma {:induction false} SumLengthsAppend(a: seq<string>, b: seq<string>)
    ensures SumLengths(a + b) == SumLengths(a) + SumLengths(b)
  {
    if a == [] {
      assert a + b == b;
    } else {
      assert (a + b)[1..] == a[1..] + b;
      SumLengthsAppend(a[1..], b);
    }
  }

  /** What a step adds to the statement being collected. */
  function Added(cfg: Config, st: State, t: string): string
    requires t != []
  {
    match Classify(cfg, st, t)
    case Newline => if st.Empty() || st.mode.InComment? || GluesHere(st, t) then "" else "\n"
    case Pair => t[..2]
    case Plain => if st.mode.InComment? then "" else Emit(cfg, "", st.sep, t[0])
    case _ => ""
  }

  lemma {:induction false} StepAdds(cfg: Config, st: State, t: string)
    requires t != [] && Apply(cfg, st, t).status == Running && Classify(cfg, st, t) != Delimiter
    ensures Apply(cfg, st, t).Acc() == st.Acc() + Added(cfg, st, t)
    ensures Apply(cfg, st, t).Empty() <==> st.Empty() && Added(cfg, st, t) == ""
  {
    var f, p, a, r := st.flushed, st.pending, Added(cfg, st, t), Apply(cfg, st, t);
    assert f + (p + a) == (f + p) + a;
    assert f + p + "" == f + p && p + "" == p;
    if r.pending == "" {
      assert r.flushed == f + p + a || r.flushed + "" == f + p + a;
    } else {
      assert r.flushed == f && r.pending == p + a;
    }
  }

  /** One step inside a string literal: the state it leaves. */
  lemma {:induction false} LiteralStep(cfg: Config, q: char, st: State, t: string)
    requires ValidConfig(cfg) && t != []
    requires IsQuote(q) && st.mode == InString(q) && !st.Empty() && !st.sep && st.status == Running
    ensures !GluesHere(st, t) && !NestsHere(cfg, st, t) && Classify(cfg, st, t) != Delimiter
    ensures var r := Apply(cfg, st, t);
      && r.sent == st.sent && !r.sep && r.status == Running
      && r.mode == (if t[0] == q then Normal else st.mode)
  {
  }

  /** What a character inside a string literal is to the splitter. */
  lemma {:induction false} LiteralClass(cfg: Config, q: char, st: State, t: string)
    requires ValidConfig(cfg) && t != []
    requires IsQuote(q) && st.mode == InString(q) && !st.Empty() && !st.sep
    ensures Classify(cfg, st, t) ==
      if t[0] == '\n' then Newline
      else if t[0] == '\\' && Escaping(cfg, InString(q)) then if At(t, 1) == '\n' then LoneBackslash else Pair
      else Plain
  {
  }

  lemma {:induction false} LiteralAdds(cfg: Config, q: char, st: State, t: string)
    requires ValidConfig(cfg) && t != []
    requires IsQuote(q) && st.mode == InString(q) && !st.Empty() && !st.sep
    ensures var w, a := Width(cfg, st, t), Added(cfg, st, t);
      if t[0] == '\\' && Escaping(cfg, InString(q)) then
        if At(t, 1) == '\n' then w == 1 && a == "" else w == 2 && a == t[..2]
      else w == 1 && a == [t[0]]
  {
    LiteralClass(cfg, q, st, t);
  }

  /** One step inside a string literal: the text it adds. */
  lemma {:induction false} LiteralStepText(cfg: Config, q: char, st: State, t: string)
    requires ValidConfig(cfg) && t != []
    requires IsQuote(q) && st.mode == InString(q) && !st.Empty() && !st.sep && st.status == Running
    ensures var w, a := Width(cfg, st, t), Added(cfg, st, t);
      if t[0] == q then w == LiteralLength(cfg, q, t) && a == LiteralText(cfg, q, t)
      else
        && LiteralLength(cfg, q, t) == w + LiteralLength(cfg, q, t[w..])
        && LiteralText(cfg, q, t) == a + LiteralText(cfg, q, t[w..])
  {
    LiteralAdds(cfg, q, st, t);
    assert "" + LiteralText(cfg, q, t[1..]) == LiteralText(cfg, q, t[1..]);
  }

  /** One step of a run. */
  lemma {:induction false} Unroll(cfg: Config, st: State, t: string)
    requires ValidConfig(cfg) && t != [] && st.status == Running
    ensures var st', t' := Apply(cfg, st, t), t[Width(cfg, st, t)..];
      && Run(cfg, st, t) == Run(cfg, st', t')
      && Glues(cfg, st, t) == (if GluesHere(st, t) then 1 else 0) + Glues(cfg, st', t')
      && (Nests(cfg, st, t) <==> NestsHere(cfg, st, t) || Nests(cfg, st', t'))
  {
  }

  /** The run from `st` over `t` comes to `r` with `t'` ahead, and swallows and nests nothing on the way. */
  ghost predicate Reaches(cfg: Config, st: State, t: string, r: State, t': string)
    requires ValidConfig(cfg)
  {
    && Run(cfg, st, t) == Run(cfg, r, t')
    && Glues(cfg, st, t) == Glues(cfg, r, t') && Nests(cfg, st, t) == Nests(cfg, r, t')
  }

  /** Inside a string literal that is still open. */
  ghost predicate InLiteral(q: char, st: State) {
    IsQuote(q) && st.mode == InString(q) && !st.Empty() && !st.sep && st.status == Running
  }

  /** The state at the end of the literal. */
  ghost function AfterLiteral(cfg: Config, q: char, st: State, t: string): State
    requires ValidConfig(cfg)
    decreases |t|
  {
    if t == [] then st
    else if t[0] == q then Apply(cfg, st, t)
    else AfterLiteral(cfg, q, Apply(cfg, st, t), t[Width(cfg, st, t)..])
  }

  lemma {:induction false} LiteralKeepsOn(cfg: Config, q: char, st: State, t: string)
    requires ValidConfig(cfg) && t != [] && InLiteral(q, st)
    ensures var r, w := Apply(cfg, st, t), Width(cfg, st, t);
      Reaches(cfg, st, t, r, t[w..]) && (t[0] != q ==> InLiteral(q, r))
  {
    Unroll(cfg, st, t);
    LiteralStep(cfg, q, st, t);
    StepAdds(cfg, st, t);
  }

  lemma {:induction false} AfterLiteralReached(cfg: Config, q: char, st: State, t: string)
    requires ValidConfig(cfg) && InLiteral(q, st)
    ensures Reaches(cfg, st, t, AfterLiteral(cfg, q, st, t), t[LiteralLength(cfg, q, t)..])
    decreases |t|
  {
    if t != [] {
      LiteralKeepsOn(cfg, q, st, t);
      LiteralStepText(cfg, q, st, t);
      if t[0] != q {
        var w := Width(cfg, st, t);
        var n := LiteralLength(cfg, q, t[w..]);
        AfterLiteralReached(cfg, q, Apply(cfg, st, t), t[w..]);
        assert t[w..][n..] == t[w + n..];
      }
    }
  }

  lemma {:induction false} AfterLiteralState(cfg: Config, q: char, st: State, t: string)
    requires ValidConfig(cfg) && InLiteral(q, st)
    ensures var r := AfterLiteral(cfg, q, st, t);
      && r.sent == st.sent && !r.sep && r.status == Running && (LiteralLength(cfg, q, t) == |t| || r.mode.Normal?)
      && r.Acc() == st.Acc() + LiteralText(cfg, q, t)
    decreases |t|
  {
    if t == [] {
      assert st.Acc() + "" == st.Acc();
    } else {
      LiteralStep(cfg, q, st, t);
      LiteralStepText(cfg, q, st, t);
      StepAdds(cfg, st, t);
      if t[0] != q {
        var w := Width(cfg, st, t);
        LiteralKeepsOn(cfg, q, st, t);
        AfterLiteralState(cfg, q, Apply(cfg, st, t), t[w..]);
        Regroup(st.Acc(), Added(cfg, st, t), LiteralText(cfg, q, t[w..]));
      }
    }
  }

  /** A string literal reaches the statement as `LiteralText`, whatever it contains. */
  lemma {:induction false} RunLiteral(cfg: Config, q: char, st: State, t: string) returns (r: State)
    requires ValidConfig(cfg) && InLiteral(q, st)
    ensures var n := LiteralLength(cfg, q, t);
      Reaches(cfg, st, t, r, t[n..]) && (t[n..] == [] || r.mode.Normal?)
    ensures r.Acc() == st.Acc() + LiteralText(cfg, q, t)
    ensures r.sent == st.sent && !r.sep && r.status == Running
  {
    r := AfterLiteral(cfg, q, st, t);
    AfterLiteralReached(cfg, q, st, t);
    AfterLiteralState(cfg, q, st, t);
  }

  /** A comment with no opener inside is skipped whole and leaves a pending blank. */
  lemma {:induction false} RunBlock(cfg: Config, st: State, t: string) returns (r: State)
    requires ValidConfig(cfg)
    requires st.mode.InComment? && !st.ss && st.status == Running
    requires !Nests(cfg, st, t)
    ensures var n := BlockEnd(t);
      && Run(cfg, st, t) == Run(cfg, r, t[n..])
      && Glues(cfg, st, t) == Glues(cfg, r, t[n..])
      && Nests(cfg, st, t) == Nests(cfg, r, t[n..])
      && (t[n..] == [] || (r.mode.Normal? && r.sep))
    ensures r.Acc() == st.Acc() && r.sent == st.sent && r.status == Running
    decreases |t|
  {
    if t == [] {
      r := st;
    } else {
      var st' := Apply(cfg, st, t);
      if IsCloser(t) && Classify(cfg, st, t) == CloseBlock {
        r := st';
      } else {
        r := RunBlock(cfg, st', t[1..]);
        assert t[1..][BlockEnd(t[1..])..] == t[1 + BlockEnd(t[1..])..];
      }
    }
  }

  /**
    The run from `st` against the reference from `acc`: they collect as many characters, up
    to the swallowed newlines, and the same statements when none is swallowed.
  */
  ghost predicate Agree(cfg: Config, st: State, t: string, acc: string)
    requires ValidConfig(cfg)
  {
    var e := Run(cfg, st, t);
    var s := Split(cfg, t, acc, st.sep);
    var glues := Glues(cfg, st, t);
    && SumLengths(e.sent) + |e.Acc()| + glues + |acc|
       == SumLengths(st.sent) + |st.Acc()| + SumLengths(s.stmts) + |s.rest|
    && (glues == 0 && st.Acc() == acc ==> e.sent == st.sent + s.stmts && e.Acc() == s.rest)
  }

  ghost predicate Comparable(cfg: Config, st: State, t: string, acc: string)
    requires ValidConfig(cfg)
  {
    && st.status == Running && (st.Empty() <==> acc == "")
    && Run(cfg, st, t).status == Running && !Nests(cfg, st, t)
  }

  lemma {:induction false} RunAgrees(cfg: Config, st: State, t: string, acc: string)
    requires ValidConfig(cfg)
    requires Comparable(cfg, st, t, acc)
    requires t == [] || st.mode.Normal?
    ensures Agree(cfg, st, t, acc)
    decreases |t|, 1
  {
    if t == [] {
      assert st.sent + [] == st.sent;
    } else {
      match Classify(cfg, st, t)
      case Delimiter => DelimiterAgrees(cfg, st, t, acc);
      case OpenBlock => BlockAgrees(cfg, st, t, acc);
      case Plain =>
        if IsQuote(t[0]) { LiteralAgrees(cfg, st, t, acc); } else { SimpleAgrees(cfg, st, t, acc); }
      case _ => SimpleAgrees(cfg, st, t, acc);
    }
  }

  /** Unrolling one step of a run that stays comparable. */
  lemma {:induction false} OneStep(cfg: Config, st: State, t: string, acc: string)
    requires ValidConfig(cfg)
    requires Comparable(cfg, st, t, acc) && t != []
    ensures var st', t' := Apply(cfg, st, t), t[Width(cfg, st, t)..];
      && st'.status == Running
      && Run(cfg, st, t) == Run(cfg, st', t')
      && Glues(cfg, st, t) == (if GluesHere(st, t) then 1 else 0) + Glues(cfg, st', t')
      && !NestsHere(cfg, st, t) && !Nests(cfg, st', t')
  {
    Unroll(cfg, st, t);
  }

  predicate Simple(cfg: Config, st: State, t: string)
    requires t != []
  {
    var k := Classify(cfg, st, t);
    st.mode.Normal? && k != Delimiter && k != OpenBlock && (k == Plain ==> !IsQuote(t[0]))
  }

  /** What the same step adds in the reference. */
  function Owed(cfg: Config, st: State, t: string): string
    requires t != []
  {
    if GluesHere(st, t) then "\n" else Added(cfg, st, t)
  }

  lemma {:induction false} NewlineSplit(cfg: Config, st: State, t: string, acc: string)
    requires ValidConfig(cfg) && t != [] && st.mode.Normal? && t[0] == '\n' && (st.Empty() <==> acc == "")
    ensures Split(cfg, t, acc, st.sep) == Split(cfg, t[1..], acc + Owed(cfg, st, t), false)
    ensures Width(cfg, st, t) == 1 && !Apply(cfg, st, t).sep
    ensures GluesHere(st, t) ==> !st.Empty() && Added(cfg, st, t) == ""
  {
    assert acc + "" == acc;
    assert IsDelimiterCommand(st.pending) ==> !st.Empty();
  }

  lemma {:induction false} PlainSplit(cfg: Config, st: State, t: string, acc: string)
    requires ValidConfig(cfg) && t != [] && st.mode.Normal? && (st.Empty() <==> acc == "")
    requires Classify(cfg, st, t) == Plain && !IsQuote(t[0])
    ensures Split(cfg, t, acc, st.sep) == Split(cfg, t[1..], acc + Added(cfg, st, t), false)
    ensures Width(cfg, st, t) == 1 && !Apply(cfg, st, t).sep && !GluesHere(st, t)
  {
    assert Emit(cfg, acc, st.sep, t[0]) == acc + Emit(cfg, "", st.sep, t[0]);
  }

  lemma {:induction false} SkipSplit(cfg: Config, st: State, t: string, acc: string)
    requires ValidConfig(cfg) && t != [] && st.mode.Normal? && (st.Empty() <==> acc == "")
    requires Classify(cfg, st, t) in {LeadingBlank, LoneBackslash, Pair, LineComment}
    ensures Split(cfg, t, acc, st.sep) == Split(cfg, t[Width(cfg, st, t)..], acc + Added(cfg, st, t), st.sep)
    ensures Apply(cfg, st, t).sep == st.sep && !GluesHere(st, t)
  {
    assert acc + "" == acc;
  }

  lemma {:induction false} SimpleSplit(cfg: Config, st: State, t: string, acc: string)
    requires ValidConfig(cfg) && t != [] && Simple(cfg, st, t)
    requires (st.Empty() <==> acc == "") && Apply(cfg, st, t).status == Running
    ensures Split(cfg, t, acc, st.sep)
         == Split(cfg, t[Width(cfg, st, t)..], acc + Owed(cfg, st, t), Apply(cfg, st, t).sep)
    ensures GluesHere(st, t) ==> !st.Empty() && Added(cfg, st, t) == ""
  {
    var k := Classify(cfg, st, t);
    if k == Newline {
      NewlineSplit(cfg, st, t, acc);
    } else if k == Plain {
      PlainSplit(cfg, st, t, acc);
    } else {
      SkipSplit(cfg, st, t, acc);
    }
  }

  lemma {:induction false} SimpleState(cfg: Config, st: State, t: string)
    requires t != [] && Simple(cfg, st, t) && Apply(cfg, st, t).status == Running
    ensures Apply(cfg, st, t).mode.Normal? && Apply(cfg, st, t).sent == st.sent
  {
  }

  /** Agreement carries back over steps that send nothing, add `x` to the run and `y` to the reference. */
  lemma {:induction false} AgreeBack(
    cfg: Config, st: State, t: string, acc: string, st': State, t': string, x: string, y: string, glued: nat)
    requires ValidConfig(cfg) && Agree(cfg, st', t', acc + y)
    requires Run(cfg, st, t) == Run(cfg, st', t') && Glues(cfg, st, t) == glued + Glues(cfg, st', t')
    requires Split(cfg, t, acc, st.sep) == Split(cfg, t', acc + y, st'.sep)
    requires st'.sent == st.sent && st'.Acc() == st.Acc() + x
    requires |y| == |x| + glued && (glued == 0 ==> x == y)
    ensures Agree(cfg, st, t, acc)
  {
  }

  lemma {:induction false} SimpleAgrees(cfg: Config, st: State, t: string, acc: string)
    requires ValidConfig(cfg) && Comparable(cfg, st, t, acc)
    requires t != [] && Simple(cfg, st, t)
    ensures Agree(cfg, st, t, acc)
    decreases |t|, 0
  {
    OneStep(cfg, st, t, acc);
    SimpleSplit(cfg, st, t, acc);
    SimpleState(cfg, st, t);
    StepAdds(cfg, st, t);
    var st', t' := Apply(cfg, st, t), t[Width(cfg, st, t)..];
    RunAgrees(cfg, st', t', acc + Owed(cfg, st, t));
    AgreeBack(cfg, st, t, acc, st', t', Added(cfg, st, t), Owed(cfg, st, t), if GluesHere(st, t) then 1 else 0);
  }

  lemma {:induction false} BlockSplit(cfg: Config, st: State, t: string, acc: string)
    requires ValidConfig(cfg) && t != [] && st.mode.Normal? && (st.Empty() <==> acc == "")
    requires Classify(cfg, st, t) == OpenBlock
    ensures Width(cfg, st, t) == 2 && !GluesHere(st, t)
    ensures Split(cfg, t, acc, st.sep) == Split(cfg, t[2..][BlockEnd(t[2..])..], acc, true)
    ensures var r := Apply(cfg, st, t); r.mode.InComment? && r.sent == st.sent && r.Acc() == st.Acc() && r.ss == st.ss
  {
    assert st.flushed + st.pending + "" == st.flushed + st.pending;
  }

  lemma {:induction false} BlockAgrees(cfg: Config, st: State, t: string, acc: string)
    requires ValidConfig(cfg) && Comparable(cfg, st, t, acc)
    requires t != [] && st.mode.Normal? && Classify(cfg, st, t) == OpenBlock
    ensures Agree(cfg, st, t, acc)
    decreases |t|, 0
  {
    OneStep(cfg, st, t, acc);
    var r := RunBlock(cfg, Apply(cfg, st, t), t[2..]);
    var t' := t[2..][BlockEnd(t[2..])..];
    BlockSplit(cfg, st, t, acc);
    assert acc + "" == acc && st.Acc() + "" == st.Acc();
    RunAgrees(cfg, r, t', acc);
    AgreeBack(cfg, st, t, acc, r, t', "", "", 0);
  }

  lemma {:induction false} LiteralAgrees(cfg: Config, st: State, t: string, acc: string)
    requires ValidConfig(cfg) && Comparable(cfg, st, t, acc)
    requires t != [] && st.mode.Normal? && Classify(cfg, st, t) == Plain && IsQuote(t[0])
    ensures Agree(cfg, st, t, acc)
    decreases |t|, 0
  {
    OneStep(cfg, st, t, acc);
    StepAdds(cfg, st, t);
    LiteralOpens(cfg, st, t, acc);
    var q, a, text := t[0], Added(cfg, st, t), LiteralText(cfg, t[0], t[1..]);
    var r := RunLiteral(cfg, q, Apply(cfg, st, t), t[1..]);
    var t' := t[1..][LiteralLength(cfg, q, t[1..])..];
    Regroup(st.Acc(), a, text);
    RunAgrees(cfg, r, t', acc + (a + text));
    AgreeBack(cfg, st, t, acc, r, t', a + text, a + text, 0);
  }

  lemma {:induction false} LiteralOpens(cfg: Config, st: State, t: string, acc: string)
    requires ValidConfig(cfg) && (st.Empty() <==> acc == "")
    requires t != [] && st.mode.Normal? && Classify(cfg, st, t) == Plain && IsQuote(t[0])
    ensures !GluesHere(st, t) && Width(cfg, st, t) == 1 && Added(cfg, st, t) != ""
    ensures var r := Apply(cfg, st, t);
      r.mode == InString(t[0]) && !r.sep && r.status == st.status && r.sent == st.sent
    ensures Split(cfg, t, acc, st.sep)
         == Split(cfg, t[1..][LiteralLength(cfg, t[0], t[1..])..],
                  acc + (Added(cfg, st, t) + LiteralText(cfg, t[0], t[1..])), false)
  {
    var a, text := Added(cfg, st, t), LiteralText(cfg, t[0], t[1..]);
    assert Emit(cfg, acc, st.sep, t[0]) == acc + a;
    Regroup(acc, a, text);
  }

  lemma {:induction false} DelimiterStep(cfg: Config, st: State, t: string, acc: string)
    requires ValidConfig(cfg) && (st.Empty() <==> acc == "")
    requires t != [] && st.mode.Normal? && Classify(cfg, st, t) == Delimiter
    requires Apply(cfg, st, t).status == Running
    ensures !GluesHere(st, t) && Width(cfg, st, t) == |cfg.delimiter|
    ensures Apply(cfg, st, t) == st.(sent := st.sent + [st.Acc()], flushed := "", pending := "")
    ensures var r := Split(cfg, t[|cfg.delimiter|..], "", st.sep);
      Split(cfg, t, acc, st.sep) == Statements([acc] + r.stmts, r.rest)
  {
  }

  lemma {:induction false} DelimiterAgrees(cfg: Config, st: State, t: string, acc: string)
    requires ValidConfig(cfg) && Comparable(cfg, st, t, acc)
    requires t != [] && st.mode.Normal? && Classify(cfg, st, t) == Delimiter
    ensures Agree(cfg, st, t, acc)
    decreases |t|, 0
  {
    OneStep(cfg, st, t, acc);
    DelimiterStep(cfg, st, t, acc);
    var st', t' := Apply(cfg, st, t), t[|cfg.delimiter|..];
    RunAgrees(cfg, st', t', "");
    DelimiterSums(st.sent, st.Acc(), acc, Split(cfg, t', "", st.sep).stmts);
  }

  lemma {:induction false} DelimiterSums(sent: seq<string>, a: string, b: string, stmts: seq<string>)
    ensures SumLengths(sent + [a]) == SumLengths(sent) + |a|
    ensures SumLengths([b] + stmts) == |b| + SumLengths(stmts)
    ensures a == b ==> sent + [a] + stmts == sent + ([b] + stmts)
  {
    SumLengthsAppend(sent, [a]);
    assert ([b] + stmts)[1..] == stmts;
  }

  // ---------------------------------------------------------------- from lines to text

  /** No lexical step looks past a newline. */
  lemma {:induction false} ClassIsLocal(cfg: Config, st: State, t: string, b: string)
    requires ValidConfig(cfg) && t != [] && t[|t| - 1] == '\n'
    ensures Classify(cfg, st, t + b) == Classify(cfg, st, t)
    ensures IsOpener(t + b) == IsOpener(t) && IsCloser(t + b) == IsCloser(t)
  {
    assert cfg.delimiter <= t + b <==> cfg.delimiter <= t by {
      assert |cfg.delimiter| >= |t| ==> cfg.delimiter[|t| - 1] != (t + b)[|t| - 1];
    }
    assert forall i: nat :: i < |t| ==> At(t + b, i) == At(t, i);
  }

  lemma {:induction false} StepIsLocal(cfg: Config, st: State, t: string, b: string)
    requires ValidConfig(cfg)
    requires t != [] && t[|t| - 1] == '\n'
    ensures Width(cfg, st, t + b) == Width(cfg, st, t)
    ensures Apply(cfg, st, t + b) == Apply(cfg, st, t)
    ensures GluesHere(st, t + b) == GluesHere(st, t)
    ensures NestsHere(cfg, st, t + b) == NestsHere(cfg, st, t)
  {
    ClassIsLocal(cfg, st, t, b);
    LineLengthIsLocal(t, b);
    match Classify(cfg, st, t)
    case Pair => assert (t + b)[..2] == t[..2];
    case Plain => assert IsOpener(t) ==> At(t + b, 2) == At(t, 2);
    case _ =>
  }

  lemma {:induction false} LineLengthIsLocal(t: string, b: string)
    requires t != [] && t[|t| - 1] == '\n'
    ensures LineLength(t + b) == LineLength(t)
  {
    if t[0] != '\n' {
      assert (t + b)[1..] == t[1..] + b;
      LineLengthIsLocal(t[1..], b);
    }
  }

  /** A run over whole lines can be cut at any newline. */
  lemma {:induction false} RunAppend(cfg: Config, st: State, a: string, b: string)
    requires ValidConfig(cfg)
    requires a == [] || a[|a| - 1] == '\n'
    ensures var r := Run(cfg, st, a);
      && Run(cfg, st, a + b) == Run(cfg, r, b)
      && Glues(cfg, st, a + b) == Glues(cfg, st, a) + Glues(cfg, r, b)
      && Nests(cfg, st, a + b) == (Nests(cfg, st, a) || Nests(cfg, r, b))
    decreases |a|
  {
    if a == [] {
      assert a + b == b;
    } else if st.status == Running {
      StepIsLocal(cfg, st, a, b);
      var w := Width(cfg, st, a);
      assert (a + b)[w..] == a[w..] + b;
      RunAppend(cfg, Apply(cfg, st, a), a[w..], b);
    }
  }

  /** Feeding lines one by one is running over the joined text, unless a command stops it. */
  lemma {:induction false} FeedIsRun(cfg: Config, st: State, lines: seq<string>)
    requires ValidConfig(cfg)
    requires Feed(cfg, st, lines).status == Running
    ensures Feed(cfg, st, lines) == Run(cfg, st, JoinLines(lines))
    decreases |lines|
  {
    if lines != [] && st.status == Running {
      var line := lines[0] + "\n";
      RunAppend(cfg, st, line, JoinLines(lines[1..]));
      FeedIsRun(cfg, Run(cfg, st, line), lines[1..]);
    }
  }

  /**
    The main result: with no client command met and no comment opener inside a comment,
    feeding the lines one by one gives exactly the statements of the one-pass reference
    on the joined text, if and only if no newline is swallowed.
  */
  lemma {:induction false} SplitterMeetsReference(cfg: Config, lines: seq<string>)
    requires ValidConfig(cfg)
    requires Feed(cfg, InitialState, lines).status == Running
    requires !Nests(cfg, InitialState, JoinLines(lines))
    ensures var e := Feed(cfg, InitialState, lines);
            var s := Split(cfg, JoinLines(lines), "", false);
      (e.sent == s.stmts && e.Acc() == s.rest) <==> Glues(cfg, InitialState, JoinLines(lines)) == 0
  {
    FeedIsRun(cfg, InitialState, lines);
    RunAgrees(cfg, InitialState, JoinLines(lines), "");
  }

  // ---------------------------------------------------------------- strings and words

  /** A text has no backslash at the end of a line. */
  predicate NoLoneBackslash(t: string) {
    forall i :: 0 <= i < |t| && t[i] == '\\' ==> At(t, i + 1) != '\n'
  }

  /** Quoted text is sent byte for byte, whatever delimiters or comment markers it holds. */
  lemma {:induction false} LiteralIsVerbatim(cfg: Config, q: char, t: string)
    requires NoLoneBackslash(t) || !Escaping(cfg, InString(q))
    ensures LiteralText(cfg, q, t) == t[..LiteralLength(cfg, q, t)]
    decreases |t|
  {
    if t != [] && t[0] != q {
      var pair := t[0] == '\\' && Escaping(cfg, InString(q));
      if pair {
        assert At(t, 0 + 1) != '\n';
      }
      var k := if pair then 2 else 1;
      assert NoLoneBackslash(t) ==> NoLoneBackslash(t[k..]) by {
        assert forall i: nat :: At(t[k..], i) == At(t, i + k);
      }
      LiteralIsVerbatim(cfg, q, t[k..]);
      var n := LiteralLength(cfg, q, t[k..]);
      assert t[..k + n] == t[..k] + t[k..][..n];
    }
  }

  /** Characters with no meaning to the splitter. */
  ghost predicate IsWord(cfg: Config, w: string)
    requires ValidConfig(cfg)
  {
    w != "" && forall c :: c in w ==>
      c !in cfg.blanks && !IsMarkup(c) && c != '\n' && c != cfg.delimiter[0]
  }

  lemma {:induction false} WordStep(cfg: Config, st: State, w: string, t: string)
    requires ValidConfig(cfg) && IsWord(cfg, w)
    requires st.mode.Normal? && !st.sep && st.status == Running
    ensures Apply(cfg, st, w + t) == st.(pending := st.pending + [w[0]])
    ensures Width(cfg, st, w + t) == 1 && (w + t)[1..] == w[1..] + t
  {
    assert (w + t)[0] == w[0] && w[0] in w;
    assert Classify(cfg, st, w + t) == Plain;
  }

  lemma {:induction false} RestIsWord(p: string, w: string)
    requires w != []
    ensures p + [w[0]] + w[1..] == p + w
  {
    Regroup(p, [w[0]], w[1..]);
    assert [w[0]] + w[1..] == w;
  }

  lemma {:induction false} RunWord(cfg: Config, st: State, w: string, t: string)
    requires ValidConfig(cfg) && IsWord(cfg, w)
    requires st.mode.Normal? && !st.sep && st.status == Running
    ensures Run(cfg, st, w + t) == Run(cfg, st.(pending := st.pending + w), t)
    decreases |w|
  {
    var st' := st.(pending := st.pending + [w[0]]);
    WordStep(cfg, st, w, t);
    Unroll(cfg, st, w + t);
    if |w| == 1 {
      assert w == [w[0]] && w[1..] + t == t;
    } else {
      assert forall c :: c in w[1..] ==> c in w;
      RunWord(cfg, st', w[1..], t);
      RestIsWord(st.pending, w);
    }
  }

  lemma {:induction false} SplitWord(cfg: Config, w: string, t: string, acc: string)
    requires ValidConfig(cfg) && IsWord(cfg, w)
    ensures Split(cfg, w + t, acc, false) == Split(cfg, t, acc + w, false)
    decreases |w|
  {
    assert w[0] in w;
    assert (w + t)[1..] == w[1..] + t;
    assert Split(cfg, w + t, acc, false) == Split(cfg, w[1..] + t, acc + [w[0]], false);
    if |w| == 1 {
      assert w == [w[0]] && w[1..] + t == t;
    } else {
      assert forall c :: c in w[1..] ==> c in w;
      SplitWord(cfg, w[1..], t, acc + [w[0]]);
      RestIsWord(acc, w);
    }
  }

  /** What a line holding one word adds to the statement. */
  function WordLine(w: string): string {
    if IsDelimiterCommand(w) then w else w + "\n"
  }

  lemma {:induction false} WordLineLength(w: string)
    ensures |WordLine(w)| <= |w| + 1
  {
  }

  lemma {:induction false} FeedWord(cfg: Config, st: State, w: string, lines: seq<string>)
    requires ValidConfig(cfg) && IsWord(cfg, w) && !IsCommandLine(cfg, st, w)
    requires st == State(st.sent, st.flushed, "", Normal, false, false, Running)
    ensures Feed(cfg, st, [w] + lines) == Feed(cfg, st.(flushed := st.flushed + WordLine(w)), lines)
  {
    RunWord(cfg, st, w, "\n");
    var st' := st.(pending := st.pending + w);
    assert st.pending + w == w;
    assert Run(cfg, st', "\n") == Apply(cfg, st', "\n");
    assert ([w] + lines)[1..] == lines;
  }

  lemma {:induction false} SplitWordLine(cfg: Config, w: string, lines: seq<string>, acc: string)
    requires ValidConfig(cfg) && IsWord(cfg, w)
    ensures Split(cfg, JoinLines([w] + lines), acc, false) == Split(cfg, JoinLines(lines), acc + (w + "\n"), false)
  {
    var t := JoinLines(lines);
    assert ([w] + lines)[1..] == lines;
    Regroup(w, "\n", t);
    SplitWord(cfg, w, "\n" + t, acc);
    assert ("\n" + t)[1..] == t;
    Regroup(acc, w, "\n");
  }

  /** The state between two lines, with `acc` collected. */
  function Collecting(acc: string): State {
    State([], acc, "", Normal, false, false, Running)
  }

  lemma {:induction false} GluedRest(cfg: Config, acc: string, d: string, y: string)
    requires ValidConfig(cfg) && !cfg.namedCommands && acc != ""
    requires IsWord(cfg, d) && IsWord(cfg, y) && IsDelimiterCommand(d)
    ensures Feed(cfg, Collecting(acc), [d] + [y]) == Collecting(acc + d + WordLine(y))
  {
    FeedWord(cfg, Collecting(acc), d, [y]);
    assert [y] == [y] + [];
    FeedWord(cfg, Collecting(acc + d), y, []);
  }

  lemma {:induction false} SplitThree(cfg: Config, x: string, d: string, y: string)
    requires ValidConfig(cfg) && IsWord(cfg, x) && IsWord(cfg, d) && IsWord(cfg, y)
    ensures Split(cfg, JoinLines([x] + ([d] + [y])), "", false) == Statements([], x + "\n" + (d + "\n") + (y + "\n"))
  {
    var a := x + "\n";
    SplitWordLine(cfg, x, [d] + [y], "");
    assert "" + a == a;
    SplitTwo(cfg, d, y, a);
  }

  lemma {:induction false} SplitTwo(cfg: Config, d: string, y: string, a: string)
    requires ValidConfig(cfg) && IsWord(cfg, d) && IsWord(cfg, y)
    ensures Split(cfg, JoinLines([d] + [y]), a, false) == Statements([], a + (d + "\n") + (y + "\n"))
  {
    SplitWordLine(cfg, d, [y], a);
    assert [y] == [y] + [];
    SplitWordLine(cfg, y, [], a + (d + "\n"));
  }

  /**
    Where the splitter and the reference part: a continuation line that starts like a
    DELIMITER command is joined to the next line with nothing in between.
  */
  lemma {:induction false} DelimiterLineIsGlued(cfg: Config, x: string, d: string, y: string)
    requires ValidConfig(cfg) && !cfg.namedCommands && !cfg.longCommand(x)
    requires IsWord(cfg, x) && IsWord(cfg, d) && IsWord(cfg, y) && IsDelimiterCommand(d)
    ensures Feed(cfg, InitialState, [x] + ([d] + [y])) == Collecting(WordLine(x) + d + WordLine(y))
    ensures Split(cfg, JoinLines([x] + ([d] + [y])), "", false)
         == Statements([], x + "\n" + (d + "\n") + (y + "\n"))
    ensures WordLine(x) + d + WordLine(y) != x + "\n" + (d + "\n") + (y + "\n")
  {
    WordLineLength(x);
    WordLineLength(y);
    FeedWord(cfg, InitialState, x, [d] + [y]);
    assert "" + WordLine(x) == WordLine(x);
    GluedRest(cfg, WordLine(x), d, y);
    SplitThree(cfg, x, d, y);
  }
}
