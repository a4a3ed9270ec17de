/**
  Texts that mysqldump writes for other readers: a table name as the pattern of SHOW ... LIKE, and
  a field as XML character data. Each is proved against what its reader does.
*/
module Escapers {
  import opened Basics

  // ---- quote_for_like ----

  function LikeEscape(c: char): string {
    if c == '\\' then ['\\', '\\', '\\', '\\']
    else if c == '\'' || c == '_' || c == '%' then ['\\', c]
    else [c]
  }

  function LikeEscaped(name: string): string {
    if name == [] then [] else LikeEscape(name[0]) + LikeEscaped(name[1..])
  }

  function LikeQuoted(name: string): string {
    ['\''] + LikeEscaped(name) + ['\'']
  }

  lemma {:induction false} EscapedStep(name: string, i: nat)
    requires i < |name|
    ensures LikeEscaped(name[..i + 1]) == LikeEscaped(name[..i]) + LikeEscape(name[i])
    ensures |LikeEscaped(name[..i + 1])| <= |LikeEscaped(name)|
  {
    EscapedAppend(name[..i], [name[i]]);
    EscapedAppend(name[..i + 1], name[i + 1..]);
    assert name[..i + 1] == name[..i] + [name[i]] && name == name[..i + 1] + name[i + 1..];
    assert [name[i]][1..] == [];
    assert LikeEscaped([name[i]]) == LikeEscape(name[i]) + LikeEscaped([]);
  }

  lemma {:induction false} EscapedAppend(a: string, b: string)
    ensures LikeEscaped(a + b) == LikeEscaped(a) + LikeEscaped(b)
  {
    if a == [] {
      assert a + b == b;
    } else {
      assert (a + b)[1..] == a[1..] + b;
      EscapedAppend(a[1..], b);
    }
  }

  /** Three more backslashes before a backslash, one before a quote or a wildcard; then the character. */
  method PutLikeChar(buff: array<char>, to: nat, c: char) returns (to': nat)
    requires to + |LikeEscape(c)| <= buff.Length
    modifies buff
    ensures to' == to + |LikeEscape(c)|
    ensures buff[..to'] == old(buff[..to]) + LikeEscape(c) && buff[to'..] == old(buff[to'..])
  {
    to' := to;
    if c == '\\' {
      buff[to'] := '\\';
      to' := to' + 1;
      buff[to'] := '\\';
      to' := to' + 1;
      buff[to'] := '\\';
      to' := to' + 1;
    } else if c == '\'' || c == '_' || c == '%' {
      buff[to'] := '\\';
      to' := to' + 1;
    }
    buff[to'] := c;
    to' := to' + 1;
  }

  method PutNextLike(buff: array<char>, to: nat, name: string, i: nat) returns (to': nat)
    requires i < |name| && |LikeQuoted(name)| < buff.Length && to == 1 + |LikeEscaped(name[..i])| <= buff.Length
    requires buff[..to] == ['\''] + LikeEscaped(name[..i])
    modifies buff
    ensures to <= to' == 1 + |LikeEscaped(name[..i + 1])| < |LikeQuoted(name)|
    ensures buff[..to'] == ['\''] + LikeEscaped(name[..i + 1]) && buff[to'..] == old(buff[to..])[to' - to..]
  {
    EscapedStep(name, i);
    to' := PutLikeChar(buff, to, name[i]);
  }

  method PutLikeName(buff: array<char>, name: string) returns (to: nat)
    requires |LikeQuoted(name)| < buff.Length
    modifies buff
    ensures to + 1 == |LikeQuoted(name)|
    ensures buff[..to] == ['\''] + LikeEscaped(name) && buff[to..] == old(buff[to..])
  {
    ghost var was := buff[..];
    buff[0] := '\'';
    to := 1;
    for i := 0 to |name|
      invariant to == 1 + |LikeEscaped(name[..i])| <= 1 + |LikeEscaped(name)|
      invariant buff[..to] == ['\''] + LikeEscaped(name[..i]) && buff[to..] == was[to..]
    {
      to := PutNextLike(buff, to, name, i);
    }
    assert name[..|name|] == name;
  }

  /** quote_for_like: the quoted pattern and a NUL are written to the buffer, and nothing else. */
  method QuoteForLike(name: string, buff: array<char>)
    requires |LikeQuoted(name)| < buff.Length
    modifies buff
    ensures var n := |LikeQuoted(name)|;
      buff[..n + 1] == LikeQuoted(name) + ['\0'] && buff[n + 1..] == old(buff[n + 1..])
  {
    var to := PutLikeName(buff, name);
    assert buff[to + 2..] == buff[to..][2..] && old(buff[to + 2..]) == old(buff[to..])[2..];
    buff[to] := '\'';
    buff[to + 1] := '\0';
  }

  /** The character a backslash and `c` stand for in a string literal; wildcards keep the backslash. */
  function Unescape(c: char): string {
    if c == 'n' then ['\n'] else if c == 't' then ['\t'] else if c == 'r' then ['\r']
    else if c == 'b' then [8 as char] else if c == '0' then ['\0'] else if c == 'Z' then [26 as char]
    else if c == '_' || c == '%' then ['\\', c]
    else [c]
  }

  datatype Literal = Literal(value: string, closed: bool, rest: string)

  /** The string literal whose text, behind the opening quote, is `t`. */
  function ReadLiteral(t: string, q: char): Literal {
    if t == [] then Literal([], false, [])
    else if t[0] == '\\' && |t| > 1 then
      var r := ReadLiteral(t[2..], q);
      Literal(Unescape(t[1]) + r.value, r.closed, r.rest)
    else if t[0] == q && |t| > 1 && t[1] == q then
      var r := ReadLiteral(t[2..], q);
      Literal([q] + r.value, r.closed, r.rest)
    else if t[0] == q then Literal([], true, t[1..])
    else
      var r := ReadLiteral(t[1..], q);
      Literal([t[0]] + r.value, r.closed, r.rest)
  }

  /** LIKE with escape character backslash; characters are compared as the collation folds them. */
  ghost predicate Like(p: string, s: string, fold: char -> char) {
    if p == [] then s == []
    else if p[0] == '%' then exists k :: 0 <= k <= |s| && Like(p[1..], s[k..], fold)
    else if p[0] == '_' then s != [] && Like(p[1..], s[1..], fold)
    else if p[0] == '\\' && |p| > 1 then s != [] && fold(s[0]) == fold(p[1]) && Like(p[2..], s[1..], fold)
    else s != [] && fold(s[0]) == fold(p[0]) && Like(p[1..], s[1..], fold)
  }

  ghost predicate SameText(s: string, t: string, fold: char -> char) {
    |s| == |t| && forall i :: 0 <= i < |s| ==> fold(s[i]) == fold(t[i])
  }

  function PatternOf(c: char): string {
    if c == '\\' || c == '_' || c == '%' then ['\\', c] else [c]
  }

  function LikePattern(name: string): string {
    if name == [] then [] else PatternOf(name[0]) + LikePattern(name[1..])
  }

  /** A backslash and the character behind it. */
  lemma {:induction false} EscapeStep(c: char, t: string)
    ensures var r := ReadLiteral(t, '\'');
      ReadLiteral(['\\', c] + t, '\'') == Literal(Unescape(c) + r.value, r.closed, r.rest)
  {
    var u := ['\\', c] + t;
    assert u[0] == '\\' && u[1] == c && u[2..] == t;
  }

  /** Four backslashes stand for two. */
  lemma {:induction false} BackslashStep(t: string)
    ensures var r := ReadLiteral(t, '\'');
      ReadLiteral(LikeEscape('\\') + t, '\'') == Literal(PatternOf('\\') + r.value, r.closed, r.rest)
  {
    var two := ['\\', '\\'];
    EscapeStep('\\', t);
    EscapeStep('\\', two + t);
    Regroup(two, two, t);
    assert LikeEscape('\\') == two + two;
    Regroup(['\\'], ['\\'], ReadLiteral(t, '\'').value);
  }

  lemma {:induction false} PlainStep(c: char, t: string)
    requires c != '\\' && c != '\''
    ensures var r := ReadLiteral(t, '\''); ReadLiteral([c] + t, '\'') == Literal([c] + r.value, r.closed, r.rest)
  {
    assert ([c] + t)[0] == c && ([c] + t)[1..] == t;
  }

  lemma {:induction false} LiteralStep(c: char, t: string)
    ensures var r := ReadLiteral(t, '\'');
      ReadLiteral(LikeEscape(c) + t, '\'') == Literal(PatternOf(c) + r.value, r.closed, r.rest)
  {
    if c == '\\' {
      BackslashStep(t);
    } else if c == '\'' || c == '_' || c == '%' {
      EscapeStep(c, t);
    } else {
      PlainStep(c, t);
    }
  }

  /** The text of a quoted name behind its opening quote. */
  function LikeText(name: string, tail: string): string {
    LikeEscaped(name) + (['\''] + tail)
  }

  lemma {:induction false} LikeTextStep(name: string, tail: string)
    requires name != []
    ensures LikeText(name, tail) == LikeEscape(name[0]) + LikeText(name[1..], tail)
  {
  }

  lemma {:induction false} LiteralIsPattern(name: string, tail: string)
    requires tail != [] ==> tail[0] != '\''
    ensures ReadLiteral(LikeText(name, tail), '\'') == Literal(LikePattern(name), true, tail)
    decreases |name|
  {
    if name == [] {
      assert LikeText(name, tail) == ['\''] + tail;
      assert (['\''] + tail)[1..] == tail;
    } else {
      LikeTextStep(name, tail);
      LiteralIsPattern(name[1..], tail);
      LiteralStep(name[0], LikeText(name[1..], tail));
    }
  }

  lemma {:induction false} PatternMatchesOnly(name: string, s: string, fold: char -> char)
    ensures Like(LikePattern(name), s, fold) <==> SameText(s, name, fold)
    decreases |name|
  {
    if name != [] {
      var p := LikePattern(name);
      if name[0] == '\\' || name[0] == '_' || name[0] == '%' {
        assert p[2..] == LikePattern(name[1..]);
      } else {
        assert p[1..] == LikePattern(name[1..]);
      }
      if s != [] {
        PatternMatchesOnly(name[1..], s[1..], fold);
        assert SameText(s, name, fold) <==> fold(s[0]) == fold(name[0]) && SameText(s[1..], name[1..], fold) by {
          assert s == [s[0]] + s[1..] && name == [name[0]] + name[1..];
        }
      }
    }
  }

  /**
    Read as a string literal, the output is a pattern that matches the name, and nothing the
    collation does not take for the name.
  */
  lemma {:induction false} LikeFindsOnlyTheName(name: string, tail: string, s: string, fold: char -> char)
    requires tail != [] ==> tail[0] != '\''
    ensures var r := ReadLiteral((LikeQuoted(name) + tail)[1..], '\'');
      r.closed && r.rest == tail && (Like(r.value, s, fold) <==> SameText(s, name, fold))
  {
    assert (LikeQuoted(name) + tail)[1..] == LikeText(name, tail);
    LiteralIsPattern(name, tail);
    PatternMatchesOnly(name, s, fold);
  }

  // ---- print_xml_cdata ----

  predicate EndsSection(t: string) {
    |t| >= 3 && t[0] == ']' && t[1] == ']' && t[2] == '>'
  }

  predicate StartsSection(t: string) {
    && |t| >= 9 && t[0] == '<' && t[1] == '!' && t[2] == '[' && t[3] == 'C' && t[4] == 'D' && t[5] == 'A'
    && t[6] == 'T' && t[7] == 'A' && t[8] == '['
  }

  /** The text of a section; where it would end the section, that is ended and another one started. */
  function CdataBody(text: string): string {
    if text == [] then []
    else if EndsSection(text) then "]]]]><![CDATA[>" + CdataBody(text[3..])
    else [text[0]] + CdataBody(text[1..])
  }

  function Cdata(text: string): string {
    "<![CDATA[" + (['\n'] + (CdataBody(text) + "\n]]>\n"))
  }

  /** The character data of adjacent sections, as section 2.7 of XML 1.0 reads them. */
  datatype Data = Data(text: string, closed: bool, rest: string)

  function InSection(t: string): Data
    decreases |t|
  {
    if EndsSection(t) then
      if StartsSection(t[3..]) then InSection(t[12..]) else Data([], true, t[3..])
    else if t == [] then Data([], false, [])
    else
      var r := InSection(t[1..]);
      Data([t[0]] + r.text, r.closed, r.rest)
  }

  function ReadCdata(t: string): Data {
    if StartsSection(t) then InSection(t[9..]) else Data([], false, t)
  }

  /** The loop of print_xml_cdata at `i`: what is written, and what the rest will add. */
  ghost predicate Written(out: string, str: string, i: nat, len: nat) {
    i <= len <= |str| && CdataBody(str[..len]) == out + CdataBody(str[i..len])
  }

  lemma {:induction false} WrittenStep(out: string, str: string, i: nat, len: nat)
    requires Written(out, str, i, len) && i < len < |str| && str[len] == '\0'
    ensures if str[i] == ']' && str[i + 1] == ']' && str[i + 2] == '>'
      then Written(out + "]]]]><![CDATA[>", str, i + 3, len) else Written(out + [str[i]], str, i + 1, len)
  {
    var t := str[i..len];
    if EndsSection(t) {
      assert t[3..] == str[i + 3..len];
      Regroup(out, "]]]]><![CDATA[>", CdataBody(t[3..]));
    } else {
      assert t[1..] == str[i + 1..len];
      Regroup(out, [t[0]], CdataBody(t[1..]));
    }
  }

  /**
    print_xml_cdata on `len` characters, with the NUL that stands behind a field: the loop looks
    two characters ahead.
  */
  method PrintXmlCdata(str: string, len: nat) returns (out: string)
    requires len < |str| && str[len] == '\0'
    ensures out == Cdata(str[..len])
  {
    var body, i := "", 0;
    assert str[0..len] == str[..len];
    while i < len
      invariant Written(body, str, i, len)
    {
      WrittenStep(body, str, i, len);
      if str[i] == ']' && str[i + 1] == ']' && str[i + 2] == '>' {
        body, i := body + "]]]]><![CDATA[>", i + 3;
      } else {
        body, i := body + [str[i]], i + 1;
      }
    }
    assert str[len..len] == [];
    out := "<![CDATA[" + (['\n'] + (body + "\n]]>\n"));
  }

  /** No text but the one it replaces looks like the end of a section in the output. */
  lemma {:induction false} BodyEnds(text: string, tail: string)
    requires tail != [] && tail[0] == '\n' && text != [] && !EndsSection(text)
    ensures !EndsSection([text[0]] + (CdataBody(text[1..]) + tail))
  {
    BodyHead(text[1..], tail);
    if |text| > 1 {
      BodyHead(text[2..], tail);
      var t := CdataBody(text[1..]) + tail;
      if !EndsSection(text[1..]) {
        assert text[1..][1..] == text[2..];
        assert t[1..] == CdataBody(text[2..]) + tail;
      }
    }
  }

  lemma {:induction false} BodyHead(text: string, tail: string)
    requires tail != [] && tail[0] == '\n'
    ensures var t := CdataBody(text) + tail; t != [] && t[0] == if text == [] then '\n' else text[0]
    ensures var t := CdataBody(text) + tail; EndsSection(text) ==> |t| > 1 && t[1] == ']'
  {
    if text != [] && EndsSection(text) {
      assert CdataBody(text)[0] == ']' && CdataBody(text)[1] == ']';
    }
  }

  lemma {:induction false} BrokenSection(u: string)
    ensures var r := InSection(u); InSection("]]]]><![CDATA[>" + u) == Data("]]>" + r.text, r.closed, r.rest)
  {
    var t := "]]]]><![CDATA[>" + u;
    var v := ['>'] + u;
    assert t[1..][1..] == "]]>" + ("<![CDATA[" + v);
    assert !EndsSection(t) && !EndsSection(t[1..]) && EndsSection(t[2..]) && StartsSection(t[2..][3..]);
    assert t[2..][12..] == v && v[1..] == u;
    var r := InSection(u);
    assert InSection(v) == Data(['>'] + r.text, r.closed, r.rest);
    assert InSection(t[2..]) == InSection(v);
    assert t[1..][1..] == t[2..];
    assert InSection(t[1..]) == Data([']'] + (['>'] + r.text), r.closed, r.rest);
    assert [']'] + ([']'] + (['>'] + r.text)) == "]]>" + r.text;
  }

  lemma {:induction false} PlainTextStep(text: string, tail: string)
    requires tail != [] && tail[0] == '\n' && text != [] && !EndsSection(text)
    ensures var r := InSection(CdataBody(text[1..]) + tail);
      InSection(CdataBody(text) + tail) == Data(text[..1] + r.text, r.closed, r.rest)
  {
    var u := CdataBody(text[1..]) + tail;
    BodyEnds(text, tail);
    assert CdataBody(text) + tail == [text[0]] + u;
    assert ([text[0]] + u)[1..] == u && text[..1] == [text[0]];
  }

  lemma {:induction false} BrokenStep(text: string, tail: string)
    requires EndsSection(text)
    ensures var r := InSection(CdataBody(text[3..]) + tail);
      InSection(CdataBody(text) + tail) == Data(text[..3] + r.text, r.closed, r.rest)
  {
    BrokenSection(CdataBody(text[3..]) + tail);
    Regroup("]]]]><![CDATA[>", CdataBody(text[3..]), tail);
    assert text[..3] == "]]>";
  }

  lemma {:induction false} Rejoin(text: string, i: nat, c: string)
    requires i <= |text|
    ensures text[..i] + (text[i..] + c) == text + c
  {
  }

  lemma {:induction false} SectionReadsBody(text: string, tail: string)
    requires tail != [] && tail[0] == '\n'
    ensures var r := InSection(tail); InSection(CdataBody(text) + tail) == Data(text + r.text, r.closed, r.rest)
    decreases |text|
  {
    var r := InSection(tail);
    if text == [] {
      assert CdataBody(text) + tail == tail && text + r.text == r.text;
    } else if EndsSection(text) {
      BrokenStep(text, tail);
      SectionReadsBody(text[3..], tail);
      Rejoin(text, 3, r.text);
    } else {
      PlainTextStep(text, tail);
      SectionReadsBody(text[1..], tail);
      Rejoin(text, 1, r.text);
    }
  }

  lemma {:induction false} LastSection()
    ensures InSection("\n]]>\n") == Data("\n", true, "\n")
  {
    var tail := "\n]]>\n";
    assert EndsSection(tail[1..]) && tail[1..][3..] == "\n";
  }

  /** Whatever the text holds, the sections written for it hold it between two newlines. */
  lemma {:induction false} CdataReadsBack(text: string)
    ensures ReadCdata(Cdata(text)) == Data("\n" + text + "\n", true, "\n")
  {
    var u := CdataBody(text) + "\n]]>\n";
    SectionReadsBody(text, "\n]]>\n");
    LastSection();
    FirstSection(u);
    assert ['\n'] + (text + "\n") == "\n" + text + "\n";
  }

  lemma {:induction false} FirstSection(u: string)
    ensures var r := InSection(u);
      ReadCdata("<![CDATA[" + (['\n'] + u)) == Data(['\n'] + r.text, r.closed, r.rest)
  {
    var v := ['\n'] + u;
    assert v[0] == '\n' && v[1..] == u;
    Behind("<![CDATA[", v);
  }

  lemma {:induction false} Behind(a: string, b: string)
    ensures (a + b)[|a|..] == b
  {
  }
}
