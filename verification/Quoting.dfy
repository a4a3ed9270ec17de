/** Names that quote_name writes, and what get_arg makes of them. */
module Quoting {
  import opened Arguments
  import opened Basics

  /** A name with its quote characters doubled. */
  function Doubled(name: string, q: char): string {
    if name == [] then []
    else (if name[0] == q then [q, q] else [name[0]]) + Doubled(name[1..], q)
  }

  function Quoted(name: string, q: char): string {
    [q] + Doubled(name, q) + [q]
  }

  predicate HasSpecial(name: string, word: set<char>) {
    exists i :: 0 <= i < |name| && name[i] !in word
  }

  method TestIfSpecialChars(name: string, word: set<char>) returns (special: bool)
    ensures special <==> HasSpecial(name, word)
  {
    for i := 0 to |name|
      invariant forall j :: 0 <= j < i ==> name[j] in word
    {
      if name[i] !in word {
        return true;
      }
    }
    return false;
  }

  lemma {:induction false} DoubledStep(name: string, i: nat, q: char)
    requires i < |name|
    ensures Doubled(name[..i + 1], q) == Doubled(name[..i], q) + if name[i] == q then [q, q] else [name[i]]
    ensures |Doubled(name[..i + 1], q)| <= |Doubled(name, q)|
  {
    DoubledAppend(name[..i], [name[i]], q);
    DoubledAppend(name[..i + 1], name[i + 1..], q);
    assert name[..i + 1] == name[..i] + [name[i]] && name == name[..i + 1] + name[i + 1..];
    assert [name[i]][1..] == [];
  }

  lemma {:induction false} DoubledAppend(a: string, b: string, q: char)
    ensures Doubled(a + b, q) == Doubled(a, q) + Doubled(b, q)
  {
    if a == [] {
      assert a + b == b;
    } else {
      assert (a + b)[1..] == a[1..] + b;
      DoubledAppend(a[1..], b, q);
    }
  }

  /** One character of the name, doubled when it is the quote. */
  method PutChar(buff: array<char>, to: nat, c: char, q: char) returns (to': nat)
    requires to + (if c == q then 2 else 1) <= buff.Length
    modifies buff
    ensures to' == to + if c == q then 2 else 1
    ensures buff[..to'] == old(buff[..to]) + if c == q then [q, q] else [c]
    ensures buff[to'..] == old(buff[to'..])
  {
    to' := to;
    if c == q {
      buff[to'] := q;
      to' := to' + 1;
    }
    buff[to'] := c;
    to' := to' + 1;
  }

  /** The opening quote and the name. */
  method PutName(buff: array<char>, name: string, q: char) returns (to: nat)
    requires |Quoted(name, q)| < buff.Length
    modifies buff
    ensures to + 1 == |Quoted(name, q)|
    ensures buff[..to] == [q] + Doubled(name, q) && buff[to..] == old(buff[to..])
  {
    ghost var was := buff[..];
    buff[0] := q;
    to := 1;
    for i := 0 to |name|
      invariant to == 1 + |Doubled(name[..i], q)| <= 1 + |Doubled(name, q)|
      invariant buff[..to] == [q] + Doubled(name[..i], q) && buff[to..] == was[to..]
    {
      DoubledStep(name, i, q);
      ghost var n := to;
      to := PutChar(buff, to, name[i], q);
      assert was[n..][to - n..] == was[to..];
    }
    assert name[..|name|] == name;
  }

  /**
    quote_name: the quoted name and a NUL are written to the buffer, unless the name needs no
    quotes and may go without; nothing else is written.
  */
  method QuoteName(name: string, buff: array<char>, force: bool, optQuoted: bool, ansi: bool, word: set<char>)
    returns (inBuffer: bool)
    requires var q := if ansi then '"' else '`'; |Quoted(name, q)| < buff.Length
    modifies buff
    ensures inBuffer <==> force || optQuoted || HasSpecial(name, word)
    ensures var quoted := Quoted(name, if ansi then '"' else '`');
      && (inBuffer ==> buff[..|quoted| + 1] == quoted + [NUL] && buff[|quoted| + 1..] == old(buff[|quoted| + 1..]))
      && (!inBuffer ==> buff[..] == old(buff[..]))
  {
    var qtype := if ansi then '"' else '`';
    var special := TestIfSpecialChars(name, word);
    if !force && !optQuoted && !special {
      return false;
    }
    var to := PutName(buff, name, qtype);
    assert buff[to + 2..] == buff[to..][2..] && old(buff[to + 2..]) == old(buff[to..])[2..];
    buff[to] := qtype;
    buff[to + 1] := NUL;
    return true;
  }

  // ---- What is read back ----

  lemma {:induction false} ScanClean(t: string, short: bool, q: char)
    requires NUL !in t
    ensures NUL !in Scan(t, short, q).value
    decreases |t|
  {
    if t != [] {
      if |t| > 1 {
        ScanClean(t[2..], short, q);
      }
      ScanClean(t[1..], short, q);
    }
  }

  /** The text behind the opening quote of a name. */
  function Text(name: string, q: char, tail: string): string {
    Doubled(name, q) + [q] + tail
  }

  lemma {:induction false} TextStep(name: string, q: char, tail: string)
    requires name != []
    ensures var t, u := Text(name, q, tail), Text(name[1..], q, tail);
      if name[0] == q then |t| > 1 && t[0] == t[1] == q && t[2..] == u
      else t != [] && t[0] == name[0] && t[1..] == u
    ensures forall c :: c in name <==> c == name[0] || c in name[1..]
  {
    assert name == [name[0]] + name[1..];
    var t, u := Text(name, q, tail), Text(name[1..], q, tail);
    assert t == (if name[0] == q then [q, q] else [name[0]]) + u;
  }

  lemma {:induction false} QuoteEnds(q: char, tail: string)
    requires q != NUL && q != '\\' && (tail != [] ==> tail[0] != q)
    ensures Scan(Text([], q, tail), false, q) == Arg([], 0, true, tail)
  {
    var t := Text([], q, tail);
    assert t == [q] + tail;
    assert t[0] == q && t[1..] == tail;
  }

  /** One character of a quoted name is read back. */
  lemma {:induction false} QuotedCharStep(name: string, q: char, tail: string)
    requires name != [] && q != NUL && (q == '`' || name[0] != '\\') && q != '\\'
    ensures var r, r' := Scan(Text(name, q, tail), false, q), Scan(Text(name[1..], q, tail), false, q);
      r.value == [name[0]] + r'.value && r.ended == r'.ended && r.rest == r'.rest
  {
    TextStep(name, q, tail);
  }

  /** A quoted name is read back, whatever it holds, in back quotes; a backslash is in the way in others. */
  lemma {:induction false} ScanQuoted(name: string, q: char, tail: string)
    requires q != NUL && (q == '`' || '\\' !in name) && q != '\\' && (tail != [] ==> tail[0] != q)
    ensures var r := Scan(Text(name, q, tail), false, q); r.value == name && r.ended && r.rest == tail
    decreases |name|
  {
    if name == [] {
      QuoteEnds(q, tail);
    } else {
      QuotedCharStep(name, q, tail);
      ScanQuoted(name[1..], q, tail);
      assert name == [name[0]] + name[1..];
    }
  }

  /**
    Where backslashes escape, a quoted name that holds one is not read back: what is read is
    shorter, or is not closed at all.
  */
  lemma {:induction false} ScanEscaped(name: string, q: char)
    requires IsQuote(q) && q != '`' && NUL !in name
    ensures var r := Scan(Text(name, q, []), false, q);
      r.ended ==> |r.value| <= |name| && ('\\' in name ==> |r.value| < |name|)
    decreases |name|, 1
  {
    if name != [] {
      TextStep(name, q, []);
      if name[0] != '\\' {
        ScanEscaped(name[1..], q);
      } else {
        ScanBackslash(name, q);
      }
    }
  }

  /** What is left behind a backslash and the character it hides. */
  lemma {:induction false} BackslashStep(name: string, q: char)
    requires name != [] && name[0] == '\\' != q
    ensures var t := Text(name, q, []);
      && |t| > 1 && t[0] == '\\' && t[1] == (if |name| == 1 then q else name[1])
      && if |name| == 1 then t[2..] == []
         else t[2..] == if name[1] == q then [q] + Text(name[2..], q, []) else Text(name[2..], q, [])
  {
    TextStep(name, q, []);
    var t, u := Text(name, q, []), Text(name[1..], q, []);
    assert t == [t[0]] + u;
    if |name| == 1 {
      assert u == [q];
    } else {
      assert name[1..][0] == name[1] && name[1..][1..] == name[2..];
      TextBehind(name[1..], q);
    }
  }

  lemma {:induction false} TextBehind(name: string, q: char)
    requires name != []
    ensures var t := Text(name, q, []);
      && t != [] && t[0] == name[0]
      && t[1..] == if name[0] == q then [q] + Text(name[1..], q, []) else Text(name[1..], q, [])
  {
    TextStep(name, q, []);
    var t := Text(name, q, []);
    if name[0] == q {
      assert t[1..] == [q] + t[2..];
    }
  }

  lemma {:induction false} ScanBackslash(name: string, q: char)
    requires IsQuote(q) && q != '`' && NUL !in name && name != [] && name[0] == '\\'
    ensures var r := Scan(Text(name, q, []), false, q); r.ended ==> |r.value| < |name|
    decreases |name|, 0
  {
    BackslashStep(name, q);
    if |name| > 1 {
      if name[1] == q {
        ScanSplit(name[2..], q);
      } else {
        ScanEscaped(name[2..], q);
      }
    }
  }

  /** The same from the second of two quotes on. */
  lemma {:induction false} ScanSplit(name: string, q: char)
    requires IsQuote(q) && q != '`'
    ensures var r := Scan([q] + Text(name, q, []), false, q); r.ended ==> |r.value| <= |name|
    decreases |name|, 0
  {
    var u := Text(name, q, []);
    var t := [q] + u;
    assert t[1..] == u && t[2..] == u[1..];
    if name == [] {
      assert u == [q];
    } else {
      TextStep(name, q, []);
      if name[0] == q {
        ScanSplit(name[1..], q);
        assert u[1..] == [q] + Text(name[1..], q, []);
      }
    }
  }

  /** A short command ends a quoted argument at the first quote. */
  lemma {:induction false} ScanShort(name: string, q: char)
    requires IsQuote(q) && NUL !in name
    ensures var r := Scan(Text(name, q, []), true, q);
      if '\\' !in name && q !in name then r.ended && r.value == name
      else r.ended ==> |r.value| < |name|
    decreases |name|
  {
    if name == [] {
      assert Text(name, q, []) == [q];
    } else {
      TextStep(name, q, []);
      if name[0] != '\\' {
        ScanShort(name[1..], q);
        assert name == [name[0]] + name[1..];
      } else {
        ScanShortBackslash(name, q);
      }
    }
  }

  lemma {:induction false} ScanShortBackslash(name: string, q: char)
    requires IsQuote(q) && NUL !in name && name != [] && name[0] == '\\'
    ensures var r := Scan(Text(name, q, []), true, q); r.ended ==> |r.value| < |name|
    decreases |name|, 0
  {
    BackslashStep(name, q);
    if |name| > 1 {
      if name[1] == q {
        assert ([q] + Text(name[2..], q, []))[0] == q;
      } else {
        ScanShort(name[2..], q);
      }
    }
  }

  /** A name without blanks, quotes or backslashes needs no quotes. */
  lemma {:induction false} ScanPlain(name: string, short: bool)
    requires '\\' !in name && ' ' !in name
    ensures Scan(name, short, NUL) == Arg(name, 0, false, [])
    decreases |name|
  {
    if name != [] {
      ScanPlain(name[1..], short);
      assert name == [name[0]] + name[1..];
    }
  }

  // ---- Arguments in a line ----

  /** A command, perhaps behind blanks: a backslash and a letter, or a word. */
  ghost predicate IsCommand(head: string, short: bool, blanks: set<char>) {
    var p := FirstNotIn(head, 0, blanks);
    && NUL !in head && p < |head|
    && if short then head[p] == '\\' && |head| == p + 2
       else head[p] != '\\' && forall k :: p <= k < |head| ==> head[k] !in blanks
  }

  ghost predicate IsBlank(gap: string, blanks: set<char>) {
    forall k :: 0 <= k < |gap| ==> gap[k] in blanks
  }

  /** The C string at a place. */
  function CString(s: string, i: nat): string {
    if i <= |s| then s[i..FirstIn(s, i, {NUL})] else []
  }

  /** What a caller of get_arg finds at the place it is given; nothing for null. */
  function ReadBack(s: string, mode: Mode, blanks: set<char>): seq<string> {
    match Result(s, mode, blanks)
    case To(i) => [CString(LineAfter(s, mode, blanks), i)]
    case Null => []
  }

  lemma {:induction false} BehindCommand(head: string, tail: string, short: bool, mode: Mode, blanks: set<char>)
    requires IsCommand(head, short, blanks) && mode != GetNext && tail != []
    requires !short ==> tail[0] in blanks + {NUL}
    ensures Begin(head + tail, mode, blanks) == |head| && IsShort(head + tail, mode, blanks) == short
  {
    var s, p := head + tail, FirstNotIn(head, 0, blanks);
    assert s[p] == head[p] && forall k :: 0 <= k < p ==> s[k] == head[k];
    assert FirstNotIn(s, 0, blanks) == p;
    if !short {
      assert forall k :: p <= k < |head| ==> s[k] == head[k];
      assert s[|head|] == tail[0];
    }
  }

  /** Where the argument at `n`, in a text that ends at `e`, is looked for. */
  lemma {:induction false} PlaceAt(s: string, n: nat, e: nat, mode: Mode, blanks: set<char>)
    requires Begin(s, mode, blanks) <= n < e < |s| && Clean(s, n, e) && s[e] == NUL && s[n] !in blanks
    requires forall k :: Begin(s, mode, blanks) <= k < n ==> s[k] in blanks
    ensures FirstNotIn(s, Begin(s, mode, blanks), blanks) == n && FirstIn(s, n, {NUL}) == e == FirstIn(s, n + 1, {NUL})
  {
  }

  /** The argument that is found there. */
  function FoundAt(n: nat, arg: string, short: bool): Found
    requires arg != []
  {
    if IsQuote(arg[0]) then Found(n + 1, n + |arg|, arg[0], Scan(arg[1..], short, arg[0]))
    else Found(n, n + |arg|, NUL, Scan(arg, short, NUL))
  }

  lemma {:induction false} FindAt(s: string, n: nat, arg: string, mode: Mode, blanks: set<char>)
    requires arg != [] && Begin(s, mode, blanks) <= n && n + |arg| < |s| && s[n] == arg[0] && arg[0] !in blanks
    requires Clean(s, n, n + |arg|) && s[n + |arg|] == NUL && s[n..n + |arg|] == arg && s[n + 1..n + |arg|] == arg[1..]
    requires forall k :: Begin(s, mode, blanks) <= k < n ==> s[k] in blanks
    ensures Find(s, mode, blanks) == FoundAt(n, arg, IsShort(s, mode, blanks))
  {
    PlaceAt(s, n, n + |arg|, mode, blanks);
  }

  /** A line whose last argument is `arg`. */
  function Line(h: string, gap: string, arg: string, m: nat): string {
    h + (gap + arg + Zeros(m))
  }

  lemma {:induction false} LineParts(h: string, gap: string, arg: string, m: nat)
    requires m > 0 && arg != []
    ensures var s, n, e := Line(h, gap, arg, m), |h| + |gap|, |h| + |gap| + |arg|;
      && |s| == e + m && s[e] == NUL && s[n] == arg[0] && s[n..e] == arg && s[n + 1..e] == arg[1..]
      && (NUL !in arg ==> Clean(s, n, e))
  {
    var s, n, e := Line(h, gap, arg, m), |h| + |gap|, |h| + |gap| + |arg|;
    assert s == h + gap + arg + Zeros(m);
    assert s[n..e] == arg;
    assert s[n + 1..e] == s[n..e][1..];
    assert forall k :: n <= k < e ==> s[k] == arg[k - n];
  }

  /** The text behind the command, and its end. */
  lemma {:induction false} LineStarts(h: string, gap: string, arg: string, m: nat)
    requires m > 0 && arg != []
    ensures var s, e := Line(h, gap, arg, m), |h| + |gap| + |arg|;
      |s| == e + m && s[e] == NUL && s[|h|] == if gap == [] then arg[0] else gap[0]
  {
    assert Line(h, gap, arg, m) == h + gap + arg + Zeros(m);
  }

  lemma {:induction false} LineGap(h: string, gap: string, arg: string, m: nat, blanks: set<char>)
    requires IsBlank(gap, blanks)
    ensures forall k :: |h| <= k < |h| + |gap| ==> Line(h, gap, arg, m)[k] in blanks
  {
    var s := Line(h, gap, arg, m);
    assert forall k :: |h| <= k < |h| + |gap| ==> s[k] == gap[k - |h|];
  }

  /** The argument that ends a line. */
  lemma {:induction false} FindLast(h: string, gap: string, arg: string, m: nat, mode: Mode, blanks: set<char>)
    requires IsBlank(gap, blanks) && m > 0 && arg != [] && NUL !in arg && arg[0] !in blanks
    requires Begin(Line(h, gap, arg, m), mode, blanks) == |h|
    ensures var s := Line(h, gap, arg, m);
      Find(s, mode, blanks) == FoundAt(|h| + |gap|, arg, IsShort(s, mode, blanks))
  {
    LineParts(h, gap, arg, m);
    LineGap(h, gap, arg, m, blanks);
    FindAt(Line(h, gap, arg, m), |h| + |gap|, arg, mode, blanks);
  }

  lemma {:induction false} EditedReads(s: string, f: Found)
    requires f.start <= f.end < |s| && s[f.end] == NUL && NUL !in f.arg.value
    ensures CString(Edited(s, f), f.start) == f.arg.value
  {
    var a, v, i := Edited(s, f), f.arg.value, f.start;
    assert a[i..i + |v|] == v && a[i + |v|] == NUL;
    assert forall k :: i <= k < i + |v| ==> a[k] == v[k - i];
    assert FirstIn(a, i, {NUL}) == i + |v|;
  }

  /** The line a call leaves holds the argument at the place it returns. */
  lemma {:induction false} ReadBackIs(s: string, mode: Mode, blanks: set<char>)
    requires mode != Check && Begin(s, mode, blanks) <= |s| && Find(s, mode, blanks).end < |s|
    ensures var f := Find(s, mode, blanks);
      ReadBack(s, mode, blanks) == if At(s, Begin(s, mode, blanks)) != NUL && IsArgument(f) then [f.arg.value] else []
  {
    var f := Find(s, mode, blanks);
    if Result(s, mode, blanks) != Null {
      ScanClean(s[f.start..f.end], IsShort(s, mode, blanks), f.quote);
      EditedReads(s, f);
    }
  }

  ghost predicate ValidBlanks(blanks: set<char>) {
    NUL !in blanks && '\\' !in blanks && forall c :: IsQuote(c) ==> c !in blanks
  }

  /** What is read from the last argument of a line. */
  function Taken(arg: string, short: bool): seq<string>
    requires arg != []
  {
    var f := FoundAt(0, arg, short);
    if IsArgument(f) then [f.arg.value] else []
  }

  lemma {:induction false} TakenAnywhere(n: nat, arg: string, short: bool)
    requires arg != []
    ensures var f := FoundAt(n, arg, short); Taken(arg, short) == if IsArgument(f) then [f.arg.value] else []
  {
  }

  lemma {:induction false} LastArgument(head: string, short: bool, gap: string, arg: string, m: nat, blanks: set<char>)
    requires NUL !in blanks && IsCommand(head, short, blanks) && IsBlank(gap, blanks) && (!short ==> gap != [])
    requires m > 0 && arg != [] && NUL !in arg && arg[0] !in blanks
    ensures var s := Line(head, gap, arg, m);
      Readable(s, Get, blanks) && ReadBack(s, Get, blanks) == Taken(arg, short)
  {
    var s := Line(head, gap, arg, m);
    BehindCommand(head, gap + arg + Zeros(m), short, Get, blanks);
    FindLast(head, gap, arg, m, Get, blanks);
    LineStarts(head, gap, arg, m);
    ReadBackIs(s, Get, blanks);
    TakenAnywhere(|head| + |gap|, arg, short);
  }

  lemma {:induction false} QuotedParts(name: string, q: char)
    ensures Quoted(name, q) != [] && Quoted(name, q)[0] == q && Quoted(name, q)[1..] == Text(name, q, [])
    ensures q != NUL && NUL !in name ==> NUL !in Quoted(name, q)
  {
    assert Quoted(name, q) == [q] + Text(name, q, []);
    DoubledClean(name, q);
  }

  lemma {:induction false} DoubledClean(name: string, q: char)
    ensures forall c :: c in Doubled(name, q) ==> c in name
  {
    if name != [] {
      DoubledClean(name[1..], q);
    }
  }

  /** A long command reads every name in back quotes. */
  lemma {:induction false} BackQuotedName(head: string, gap: string, name: string, m: nat, blanks: set<char>)
    requires ValidBlanks(blanks) && IsCommand(head, false, blanks) && gap != [] && IsBlank(gap, blanks) && m > 0
    requires name != [] && NUL !in name
    ensures var s := Line(head, gap, Quoted(name, '`'), m);
      Readable(s, Get, blanks) && ReadBack(s, Get, blanks) == [name]
  {
    QuotedParts(name, '`');
    LastArgument(head, false, gap, Quoted(name, '`'), m, blanks);
    ScanQuoted(name, '`', []);
  }

  /** In double quotes it reads a name if and only if the name holds no backslash. */
  lemma {:induction false} DoubleQuotedName(head: string, gap: string, name: string, m: nat, blanks: set<char>)
    requires ValidBlanks(blanks) && IsCommand(head, false, blanks) && gap != [] && IsBlank(gap, blanks) && m > 0
    requires name != [] && NUL !in name
    ensures var s := Line(head, gap, Quoted(name, '"'), m);
      Readable(s, Get, blanks) && (ReadBack(s, Get, blanks) == [name] <==> '\\' !in name)
  {
    QuotedParts(name, '"');
    LastArgument(head, false, gap, Quoted(name, '"'), m, blanks);
    ScanEscaped(name, '"');
    if '\\' !in name {
      ScanQuoted(name, '"', []);
    }
  }

  /** A short command reads a quoted name if and only if the name holds neither a backslash nor the quote. */
  lemma {:induction false} ShortCommandName(head: string, gap: string, name: string, q: char, m: nat, blanks: set<char>)
    requires ValidBlanks(blanks) && IsCommand(head, true, blanks) && IsBlank(gap, blanks) && m > 0
    requires name != [] && NUL !in name && IsQuote(q)
    ensures var s := Line(head, gap, Quoted(name, q), m);
      Readable(s, Get, blanks) && (ReadBack(s, Get, blanks) == [name] <==> '\\' !in name && q !in name)
  {
    QuotedParts(name, q);
    LastArgument(head, true, gap, Quoted(name, q), m, blanks);
    ScanShort(name, q);
  }

  /** A name that quote_name leaves without quotes is read by every command. */
  lemma {:induction false} PlainName(head: string, short: bool, gap: string, name: string, m: nat, blanks: set<char>,
                                     word: set<char>)
    requires ValidBlanks(blanks) && IsCommand(head, short, blanks) && gap != [] && IsBlank(gap, blanks) && m > 0
    requires name != [] && !HasSpecial(name, word) && word !! blanks && NUL !in word && '\\' !in word && ' ' !in word
    requires forall c :: IsQuote(c) ==> c !in word
    ensures var s := Line(head, gap, name, m);
      Readable(s, Get, blanks) && ReadBack(s, Get, blanks) == [name]
  {
    assert forall c :: c in name ==> c in word;
    LastArgument(head, short, gap, name, m, blanks);
    ScanPlain(name, short);
  }

  // ---- Two arguments ----

  /** What a call leaves of a line when text follows the argument: the rest, as a line of its own. */
  lemma {:induction false} EditedLine(s: string, f: Found, gap: string, arg: string, m: nat)
    requires f.start <= f.end <= |s| && s[f.end..] == Zeros(m) && f.arg.ended && f.arg.rest == gap + arg
    ensures Edited(s, f) == Line(s[..f.start] + f.arg.value + [NUL], gap, arg, f.arg.dropped + m)
  {
    var h, k := s[..f.start] + f.arg.value, f.arg.dropped;
    assert Zeros(k) + Zeros(m) == Zeros(k + m);
    assert h + ([NUL] + (gap + arg)) + Zeros(k) + Zeros(m) == (h + [NUL]) + (gap + arg + Zeros(k + m));
  }

  /** The next argument begins behind the first NUL. */
  lemma {:induction false} BehindArgument(h: string, tail: string, blanks: set<char>)
    requires NUL !in h && tail != [] && tail[0] != NUL
    ensures Begin(h + [NUL] + tail, GetNext, blanks) == |h| + 1
  {
    var s := h + [NUL] + tail;
    assert s[|h|] == NUL && s[|h| + 1] == tail[0] && forall k :: 0 <= k < |h| ==> s[k] == h[k];
    assert FirstIn(s, 0, {NUL}) == |h|;
  }

  lemma {:induction false} NextArgument(h: string, gap: string, arg: string, m: nat, blanks: set<char>)
    requires NUL !in h && NUL !in blanks && gap != [] && IsBlank(gap, blanks)
    requires m > 0 && arg != [] && NUL !in arg && arg[0] !in blanks
    ensures var s := Line(h + [NUL], gap, arg, m);
      Readable(s, GetNext, blanks) && ReadBack(s, GetNext, blanks) == Taken(arg, false)
  {
    var s := Line(h + [NUL], gap, arg, m);
    BehindArgument(h, gap + arg + Zeros(m), blanks);
    FindLast(h + [NUL], gap, arg, m, GetNext, blanks);
    LineStarts(h + [NUL], gap, arg, m);
    ReadBackIs(s, GetNext, blanks);
    TakenAnywhere(|h| + 1 + |gap|, arg, false);
  }

  /** The text of two arguments in back quotes, from the first quote on. */
  function Pair(a: string, gap: string, b: string): string {
    ['`'] + Text(a, '`', gap + Quoted(b, '`'))
  }

  lemma {:induction false} PairParts(a: string, gap: string, b: string, blanks: set<char>)
    requires NUL !in a && NUL !in b && NUL !in blanks && '`' !in blanks && gap != [] && IsBlank(gap, blanks)
    ensures var p := Pair(a, gap, b); NUL !in p && p[1..] == Text(a, '`', gap + Quoted(b, '`'))
    ensures var r := Scan(Text(a, '`', gap + Quoted(b, '`')), false, '`');
      r.value == a && r.ended && r.rest == gap + Quoted(b, '`')
  {
    DoubledClean(a, '`');
    QuotedParts(b, '`');
    assert forall c :: c in gap ==> c in blanks;
    ScanQuoted(a, '`', gap + Quoted(b, '`'));
  }

  /** Two calls read two names in back quotes, although the first call moves the second name. */
  lemma {:induction false} TwoNames(
    head: string, gap: string, a: string, gap': string, b: string, m: nat, blanks: set<char>)
    requires ValidBlanks(blanks) && IsCommand(head, false, blanks) && m > 0
    requires gap != [] && IsBlank(gap, blanks) && gap' != [] && IsBlank(gap', blanks)
    requires a != [] && NUL !in a && b != [] && NUL !in b
    ensures var s := Line(head, gap, Pair(a, gap', b), m);
      && Readable(s, Get, blanks) && ReadBack(s, Get, blanks) == [a]
      && var s' := LineAfter(s, Get, blanks);
      Readable(s', GetNext, blanks) && ReadBack(s', GetNext, blanks) == [b]
  {
    var arg := Pair(a, gap', b);
    var s := Line(head, gap, arg, m);
    PairParts(a, gap', b, blanks);
    LastArgument(head, false, gap, arg, m, blanks);
    AfterFirst(head, gap, a, gap', b, m, blanks);
    FirstIsClean(head, gap, a, blanks);
    QuotedParts(b, '`');
    NextArgument(head + gap + ['`'] + a, gap', Quoted(b, '`'), Find(s, Get, blanks).arg.dropped + m, blanks);
    ScanQuoted(b, '`', []);
  }

  lemma {:induction false} FirstIsClean(head: string, gap: string, a: string, blanks: set<char>)
    requires ValidBlanks(blanks) && IsCommand(head, false, blanks) && IsBlank(gap, blanks) && NUL !in a
    ensures NUL !in head + gap + ['`'] + a
  {
    assert forall c :: c in gap ==> c in blanks;
  }

  lemma {:induction false} AfterFirst(
    head: string, gap: string, a: string, gap': string, b: string, m: nat, blanks: set<char>)
    requires ValidBlanks(blanks) && IsCommand(head, false, blanks) && m > 0
    requires gap != [] && IsBlank(gap, blanks) && gap' != [] && IsBlank(gap', blanks)
    requires a != [] && NUL !in a && b != [] && NUL !in b
    ensures var s := Line(head, gap, Pair(a, gap', b), m);
      && Begin(s, Get, blanks) <= |s|
      && LineAfter(s, Get, blanks)
         == Line(head + gap + ['`'] + a + [NUL], gap', Quoted(b, '`'), Find(s, Get, blanks).arg.dropped + m)
  {
    var arg := Pair(a, gap', b);
    var s := Line(head, gap, arg, m);
    PairParts(a, gap', b, blanks);
    BehindCommand(head, gap + arg + Zeros(m), false, Get, blanks);
    FindLast(head, gap, arg, m, Get, blanks);
    var f := Find(s, Get, blanks);
    EditedLine(s, f, gap', Quoted(b, '`'), m);
    assert s[..f.start] == head + gap + ['`'];
    assert At(s, |head|) == gap[0];
  }

  lemma {:induction false} CheckIsGet(s: string, blanks: set<char>)
    requires Readable(s, Check, blanks)
    ensures Readable(s, Get, blanks) && Result(s, Check, blanks) == Result(s, Get, blanks)
    ensures LineAfter(s, Check, blanks) == s
  {
    assert Begin(s, Check, blanks) == Begin(s, Get, blanks) && Find(s, Check, blanks) == Find(s, Get, blanks);
  }

  /** The first call only looks; the second then finds the same argument, or misses it too. */
  method CheckThenGet(line: array<char>, blanks: set<char>) returns (checked: Pointer, got: Pointer)
    requires Readable(line[..], Check, blanks)
    modifies line
    ensures checked == got == old(Result(line[..], Get, blanks))
    ensures line[..] == old(LineAfter(line[..], Get, blanks))
  {
    CheckIsGet(line[..], blanks);
    checked := GetArg(line, Check, blanks);
    got := GetArg(line, Get, blanks);
  }

  lemma {:induction false} FoundEnds(s: string, mode: Mode, blanks: set<char>)
    requires Readable(s, mode, blanks) && At(s, Begin(s, mode, blanks)) != NUL
    ensures Find(s, mode, blanks).end < |s|
  {
    var f, b := Find(s, mode, blanks), Begin(s, mode, blanks);
    var k :| b <= k < |s| && s[k] == NUL;
    assert FirstNotIn(s, b, blanks) <= k && f.start <= k && f.end <= k;
  }

  lemma {:induction false} EditedEnds(s: string, f: Found, k: nat)
    requires f.start <= f.end <= k < |s|
    requires f.end - f.start == |f.arg.value| + f.arg.dropped + if f.arg.ended then 1 + |f.arg.rest| else 0
    ensures |Edited(s, f)| == |s| && Edited(s, f)[k] == s[k]
  {
  }

  /** A line that may be read holds a NUL behind the argument, before the call and after it. */
  lemma {:induction false} ArgumentEnds(s: string, mode: Mode, blanks: set<char>)
    requires Readable(s, mode, blanks) && Result(s, mode, blanks) != Null
    ensures NulFrom(LineAfter(s, mode, blanks), Result(s, mode, blanks).index)
  {
    FoundEnds(s, mode, blanks);
    var f := Find(s, mode, blanks);
    EditedEnds(s, f, f.end);
    var a := LineAfter(s, mode, blanks);
    assert f.start <= f.end < |a| && a[f.end] == NUL;
  }

  /** A call, and a copy of what it points at. */
  method GetCopy(line: array<char>, mode: Mode, blanks: set<char>) returns (r: seq<string>)
    requires Readable(line[..], mode, blanks)
    modifies line
    ensures r == old(ReadBack(line[..], mode, blanks)) && line[..] == old(LineAfter(line[..], mode, blanks))
  {
    ghost var s := line[..];
    var p := GetArg(line, mode, blanks);
    if p == Null {
      return [];
    }
    ArgumentEnds(s, mode, blanks);
    var e := SkipText(line, p.index, {NUL});
    return [line[p.index..e]];
  }

  /** A text in a buffer that ends with two NULs. */
  ghost predicate InBuffer(s: string, t: nat) {
    t + 2 <= |s| && (forall k :: 0 <= k < t ==> s[k] != NUL) && forall k :: t <= k < |s| ==> s[k] == NUL
  }

  lemma {:induction false} BufferIsReadable(s: string, t: nat, blanks: set<char>)
    requires InBuffer(s, t) && NUL !in blanks
    ensures Readable(s, Get, blanks)
  {
    var p := FirstNotIn(s, 0, blanks);
    assert s[t] == NUL && s[|s| - 1] == NUL;
    assert p <= t && (s[p] == '\\' ==> p < t) && FirstIn(s, p, blanks + {NUL}) <= t;
  }

  /** Outside the place of the argument the two NULs stay, so that a second call can follow. */
  lemma {:induction false} StillReadable(s: string, t: nat, blanks: set<char>)
    requires InBuffer(s, t) && NUL !in blanks && At(s, Begin(s, Get, blanks)) != NUL
    ensures Readable(LineAfter(s, Get, blanks), GetNext, blanks)
  {
    EndsInBuffer(s, t, blanks);
    var f := Find(s, Get, blanks);
    EditedEnds(s, f, t);
    EditedEnds(s, f, t + 1);
    NextReadable(Edited(s, f), t, blanks);
  }

  lemma {:induction false} EndsInBuffer(s: string, t: nat, blanks: set<char>)
    requires InBuffer(s, t) && NUL !in blanks && At(s, Begin(s, Get, blanks)) != NUL
    ensures Find(s, Get, blanks).end <= t
  {
    var b := Begin(s, Get, blanks);
    assert s[t] == NUL && b < t && FirstNotIn(s, b, blanks) <= t;
  }

  lemma {:induction false} NextReadable(a: string, t: nat, blanks: set<char>)
    requires t + 1 < |a| && a[t] == a[t + 1] == NUL && NUL !in blanks
    ensures Readable(a, GetNext, blanks)
  {
    assert FirstIn(a, 0, {NUL}) <= t;
  }

  /** What a buffer of zeros holds once a line is copied to it: as much of the line as leaves two of them. */
  function Loaded(line: string, size: nat): string
    requires size >= 2
  {
    var t := if |line| <= size - 2 then |line| else size - 2;
    line[..t] + Zeros(size - t)
  }

  /** strmake into a buffer of zeros. */
  method Load(buff: array<char>, line: string) returns (ghost t: nat)
    requires NUL !in line && buff.Length >= 2
    modifies buff
    ensures buff[..] == Loaded(line, buff.Length) && InBuffer(buff[..], t)
  {
    var n := if |line| <= buff.Length - 2 then |line| else buff.Length - 2;
    forall i | 0 <= i < buff.Length { buff[i] := if i < n then line[i] else NUL; }
    t := n;
  }

  /** Two calls; the second sees what the first has made of the buffer. */
  method ReadTwo(buff: array<char>, blanks: set<char>, ghost t: nat) returns (db: seq<string>, host: seq<string>)
    requires InBuffer(buff[..], t) && NUL !in blanks
    modifies buff
    ensures db == old(ReadBack(buff[..], Get, blanks))
    ensures host == if db == [] then [] else old(ReadBack(LineAfter(buff[..], Get, blanks), GetNext, blanks))
  {
    ghost var s := buff[..];
    BufferIsReadable(s, t, blanks);
    db := GetCopy(buff, Get, blanks);
    host := [];
    if db != [] {
      StillReadable(s, t, blanks);
      host := GetCopy(buff, GetNext, blanks);
    }
  }

  /** The arguments of com_connect: the line is copied to a buffer and read twice. */
  method ConnectArguments(buff: array<char>, line: string, blanks: set<char>)
    returns (db: seq<string>, host: seq<string>)
    requires NUL !in line && NUL !in blanks && buff.Length >= 2
    modifies buff
    ensures db == ReadBack(Loaded(line, buff.Length), Get, blanks)
    ensures host ==
      if db == [] then [] else ReadBack(LineAfter(Loaded(line, buff.Length), Get, blanks), GetNext, blanks)
  {
    ghost var t := Load(buff, line);
    db, host := ReadTwo(buff, blanks, t);
  }
}
