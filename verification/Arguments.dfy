/**
  Arguments of client commands: get_arg edits the line it reads in place, and quote_name writes
  the quoted names it has to read back. A C string is a char array with a NUL in it.
*/
module Arguments {
  import opened Basics

  const NUL := '\0'

  datatype Mode = Check | Get | GetNext

  datatype Pointer = Null | To(index: nat)

  // ---- What an argument is ----

  /** The first place from `i` on that holds one of `stops`, or the end. */
  function FirstIn(s: string, i: nat, stops: set<char>): (j: nat)
    requires i <= |s|
    ensures i <= j <= |s| && (j < |s| ==> s[j] in stops)
    ensures forall k :: i <= k < j ==> s[k] !in stops
    decreases |s| - i
  {
    if i < |s| && s[i] !in stops then FirstIn(s, i + 1, stops) else i
  }

  /** The first place from `i` on that holds none of `skipped`, or the end. */
  function FirstNotIn(s: string, i: nat, skipped: set<char>): (j: nat)
    requires i <= |s|
    ensures i <= j <= |s| && (j < |s| ==> s[j] !in skipped)
    ensures forall k :: i <= k < j ==> s[k] in skipped
    decreases |s| - i
  {
    if i < |s| && s[i] in skipped then FirstNotIn(s, i + 1, skipped) else i
  }

  /** No NUL from `i` to `j`. */
  ghost predicate Clean(s: string, i: nat, j: nat) {
    j <= |s| && forall k :: i <= k < j ==> s[k] != NUL
  }

  function At(s: string, i: nat): char {
    if i < |s| then s[i] else NUL
  }

  predicate IsShort(s: string, mode: Mode, blanks: set<char>) {
    mode != GetNext && At(s, FirstNotIn(s, 0, blanks)) == '\\'
  }

  /** Where the text behind the command, or behind the previous argument, begins. */
  function Begin(s: string, mode: Mode, blanks: set<char>): nat {
    if mode == GetNext then
      var p := FirstIn(s, 0, {NUL});
      if At(s, p + 1) != NUL then p + 1 else p
    else
      var p := FirstNotIn(s, 0, blanks);
      if At(s, p) == '\\' then p + 2 else FirstIn(s, p, blanks + {NUL})
  }

  /** What the caller owes: a NUL behind the place where the arguments begin. */
  ghost predicate Readable(s: string, mode: Mode, blanks: set<char>) {
    && NUL !in blanks
    && (mode == GetNext ==> FirstIn(s, 0, {NUL}) + 1 < |s|)
    && exists k :: Begin(s, mode, blanks) <= k < |s| && s[k] == NUL
  }

  /** An argument read from a text: its characters, and how many of the text were dropped as escapes. */
  datatype Arg = Arg(value: string, dropped: nat, ended: bool, rest: string)

  /** A character that hides the one behind it: a backslash, or the first of two quotes. */
  predicate Escapes(c: char, next: char, short: bool, q: char) {
    if short then c == '\\' && next != NUL
    else (c == '\\' && next != NUL && q != '`') || (q != NUL && c == q && next == q)
  }

  predicate Ends(c: char, q: char) {
    c == if q == NUL then ' ' else q
  }

  function Scan(t: string, short: bool, q: char): (r: Arg)
    ensures |t| == |r.value| + r.dropped + if r.ended then 1 + |r.rest| else 0
    ensures r.dropped <= |r.value|
  {
    if t == [] then Arg([], 0, false, [])
    else if Escapes(t[0], At(t, 1), short, q) then
      var r := Scan(t[2..], short, q);
      Arg([t[1]] + r.value, r.dropped + 1, r.ended, r.rest)
    else if Ends(t[0], q) then Arg([], 0, true, t[1..])
    else
      var r := Scan(t[1..], short, q);
      Arg([t[0]] + r.value, r.dropped, r.ended, r.rest)
  }

  /** An argument in a line: where it starts, the end of the text, its quote and what is read. */
  datatype Found = Found(start: nat, end: nat, quote: char, arg: Arg)

  function Find(s: string, mode: Mode, blanks: set<char>): (f: Found)
    requires Begin(s, mode, blanks) <= |s|
    ensures Begin(s, mode, blanks) <= f.start <= f.end <= |s| && Clean(s, f.start, f.end)
  {
    var p := FirstNotIn(s, Begin(s, mode, blanks), blanks);
    var quote := if IsQuote(At(s, p)) then At(s, p) else NUL;
    var start := if quote != NUL then p + 1 else p;
    var end := FirstIn(s, start, {NUL});
    Found(start, end, quote, Scan(s[start..end], IsShort(s, mode, blanks), quote))
  }

  /** There is an argument: it is not empty, and its quote is closed. */
  predicate IsArgument(f: Found) {
    f.arg.value != [] && (f.arg.ended || f.quote == NUL)
  }

  function Result(s: string, mode: Mode, blanks: set<char>): Pointer {
    if At(s, Begin(s, mode, blanks)) != NUL && IsArgument(Find(s, mode, blanks)) then To(Find(s, mode, blanks).start)
    else Null
  }

  function Zeros(n: nat): string {
    seq(n, _ => NUL)
  }

  /** The line with the argument in place of its text, a NUL behind it, and the rest moved up. */
  function Edited(s: string, f: Found): string
    requires f.start <= f.end <= |s|
  {
    s[..f.start] + f.arg.value + (if f.arg.ended then [NUL] + f.arg.rest else []) + Zeros(f.arg.dropped) + s[f.end..]
  }

  function LineAfter(s: string, mode: Mode, blanks: set<char>): string {
    if mode == Check || At(s, Begin(s, mode, blanks)) == NUL then s else Edited(s, Find(s, mode, blanks))
  }

  // ---- get_arg ----

  /** The line while an argument is read: `val` is done, `k` characters are dropped. */
  function Layout(s: string, start: nat, end: nat, val: string, k: nat): string
    requires start + |val| + k <= end <= |s|
  {
    seq(|s|, i requires 0 <= i < |s| =>
      if i < start || i >= end then s[i] else if i < start + |val| then val[i - start]
      else if i < end - k then s[i + k] else NUL)
  }

  lemma {:induction false} LayoutAt(s: string, start: nat, end: nat, val: string, k: nat)
    requires start + |val| + k <= end < |s| && s[end] == NUL
    ensures var a, p := Layout(s, start, end, val, k), start + |val|;
      && |a| == |s| && a[end - k] == NUL
      && (forall i :: p <= i < end - k ==> a[i] == s[i + k])
  {
  }

  lemma {:induction false} LayoutKeep(s: string, start: nat, end: nat, val: string, k: nat)
    requires start + |val| + k < end <= |s|
    ensures Layout(s, start, end, val + [s[start + |val| + k]], k) == Layout(s, start, end, val, k)
  {
  }

  /** A text that ends at `m`, without the character at `p`: what was behind it has moved up. */
  function Without(a: string, p: nat, m: nat): string
    requires p < m < |a|
  {
    seq(|a|, i requires 0 <= i < |a| => if p <= i < m then a[i + 1] else a[i])
  }

  lemma {:induction false} LayoutDrop(s: string, start: nat, end: nat, val: string, k: nat)
    requires start + |val| + k < end < |s| && s[end] == NUL
    ensures var a, p := Layout(s, start, end, val, k), start + |val|;
      |a| == |s| && Layout(s, start, end, val, k + 1) == Without(a, p, end - k)
  {
    var a, b, p := Layout(s, start, end, val, k), Layout(s, start, end, val, k + 1), start + |val|;
    LayoutAt(s, start, end, val, k);
    var c := Without(a, p, end - k);
    assert |b| == |c|;
    assert forall i :: 0 <= i < |b| ==> b[i] == c[i];
  }

  lemma {:induction false} LayoutEnd(s: string, start: nat, end: nat, val: string, k: nat, f: Found)
    requires start + |val| + k < end <= |s| && f.start == start && f.end == end
    requires f.arg == Arg(val, k, true, s[start + |val| + k + 1..end])
    ensures var a := Layout(s, start, end, val, k);
      |a| == |s| && a[start + |val| := NUL] == Edited(s, f)
  {
  }

  ghost predicate Removable(a: string, p: nat, m: nat) {
    p < m < |a| && a[m] == NUL && Clean(a, p + 1, m)
  }

  /** strmov_overlapp: moves the text behind a character over it. */
  method RemoveChar(line: array<char>, p: nat, ghost m: nat)
    requires Removable(line[..], p, m)
    modifies line
    ensures line[..] == Without(old(line[..]), p, m)
  {
    var i := p;
    while line[i + 1] != NUL
      invariant p <= i < m
      invariant forall j :: 0 <= j < p ==> line[j] == old(line[j])
      invariant forall j :: p <= j < i ==> line[j] == old(line[j + 1])
      invariant forall j :: i < j < line.Length ==> line[j] == old(line[j])
      decreases m - i
    {
      line[i] := line[i + 1];
      i := i + 1;
    }
    assert i == m - 1;
    line[i] := NUL;
  }

  function Onto(val: string, k: nat, r: Arg): Arg {
    Arg(val + r.value, k + r.dropped, r.ended, r.rest)
  }

  /** `val` is read and `k` characters are dropped; the rest of the text gives the rest of the argument. */
  ghost predicate Reading(s: string, f: Found, short: bool, val: string, k: nat) {
    && f.start + |val| + k <= f.end < |s| && s[f.end] == NUL && Clean(s, f.start, f.end) && (val == [] ==> k == 0)
    && f.arg == Onto(val, k, Scan(s[f.start + |val| + k..f.end], short, f.quote))
  }

  lemma {:induction false} Starts(s: string, f: Found, short: bool)
    requires f.start <= f.end < |s| && s[f.end] == NUL && Clean(s, f.start, f.end)
    requires f.arg == Scan(s[f.start..f.end], short, f.quote)
    ensures Reading(s, f, short, [], 0) && Layout(s, f.start, f.end, [], 0) == s
  {
    assert [] + f.arg.value == f.arg.value;
  }

  lemma {:induction false} ScanKeeps(t: string, short: bool, q: char, val: string, k: nat)
    requires t != [] && !Escapes(t[0], At(t, 1), short, q) && !Ends(t[0], q)
    ensures Onto(val, k, Scan(t, short, q)) == Onto(val + [t[0]], k, Scan(t[1..], short, q))
  {
    var r := Scan(t[1..], short, q);
    assert val + ([t[0]] + r.value) == (val + [t[0]]) + r.value;
  }

  lemma {:induction false} ScanDrops(t: string, short: bool, q: char, val: string, k: nat)
    requires t != [] && Escapes(t[0], At(t, 1), short, q)
    ensures |t| > 1 && Onto(val, k, Scan(t, short, q)) == Onto(val + [t[1]], k + 1, Scan(t[2..], short, q))
  {
    var r := Scan(t[2..], short, q);
    assert val + ([t[1]] + r.value) == (val + [t[1]]) + r.value;
  }

  lemma {:induction false} Next(s: string, o: nat, end: nat)
    requires o < end < |s| && s[end] == NUL
    ensures var t := s[o..end]; t[0] == s[o] && At(t, 1) == s[o + 1] && t[1..] == s[o + 1..end]
    ensures o + 1 < end ==> s[o..end][2..] == s[o + 2..end]
  {
  }

  lemma {:induction false} Keeps(s: string, f: Found, short: bool, val: string, k: nat)
    requires Reading(s, f, short, val, k) && f.start + |val| + k < f.end
    requires var o := f.start + |val| + k; !Escapes(s[o], s[o + 1], short, f.quote) && !Ends(s[o], f.quote)
    ensures Reading(s, f, short, val + [s[f.start + |val| + k]], k)
  {
    var o := f.start + |val| + k;
    Next(s, o, f.end);
    ScanKeeps(s[o..f.end], short, f.quote, val, k);
  }

  lemma {:induction false} Drops(s: string, f: Found, short: bool, val: string, k: nat)
    requires Reading(s, f, short, val, k) && f.start + |val| + k < f.end
    requires var o := f.start + |val| + k; Escapes(s[o], s[o + 1], short, f.quote)
    ensures f.start + |val| + k + 1 < f.end && Reading(s, f, short, val + [s[f.start + |val| + k + 1]], k + 1)
  {
    var o := f.start + |val| + k;
    Next(s, o, f.end);
    ScanDrops(s[o..f.end], short, f.quote, val, k);
  }

  lemma {:induction false} Stops(s: string, f: Found, short: bool, val: string, k: nat)
    requires Reading(s, f, short, val, k)
    requires var o := f.start + |val| + k;
      o < f.end ==> !Escapes(s[o], s[o + 1], short, f.quote) && Ends(s[o], f.quote)
    ensures var o := f.start + |val| + k;
      f.arg == if o < f.end then Arg(val, k, true, s[o + 1..f.end]) else Arg(val, k, false, [])
  {
    var o := f.start + |val| + k;
    if o < f.end {
      Next(s, o, f.end);
    }
    assert val + [] == val;
  }

  /** The text has ended. */
  lemma {:induction false} Done(a: string, ptr: nat, s: string, f: Found, short: bool, val: string, k: nat, mode: Mode)
    requires Reading(s, f, short, val, k) && Placed(a, ptr, s, f, val, k, mode) && f.start + |val| + k == f.end
    ensures !f.arg.ended && (ptr == f.start <==> f.arg.value == [])
    ensures a == if mode == Check then s else Edited(s, f)
  {
    Stops(s, f, short, val, k);
    assert Layout(s, f.start, f.end, val, k) == Edited(s, f);
  }

  /** Where the reading is: the line as it was, or with the edits made so far. */
  ghost predicate Placed(a: string, ptr: nat, s: string, f: Found, val: string, k: nat, mode: Mode)
    requires f.start + |val| + k <= f.end <= |s|
  {
    if mode == Check then a == s && ptr == f.start + |val| + k
    else a == Layout(s, f.start, f.end, val, k) && ptr == f.start + |val|
  }

  lemma {:induction false} Sees(a: string, ptr: nat, s: string, f: Found, short: bool, val: string, k: nat, mode: Mode)
    requires Reading(s, f, short, val, k) && Placed(a, ptr, s, f, val, k, mode)
    ensures var o := f.start + |val| + k;
      && |a| == |s| && ptr < |a| && a[ptr] == s[o] && (a[ptr] == NUL <==> o == f.end)
      && (o < f.end ==> ptr + 1 < |a| && a[ptr + 1] == s[o + 1])
  {
    LayoutAt(s, f.start, f.end, val, k);
  }

  lemma {:induction false} DropIsShift(s: string, f: Found, val: string, k: nat)
    requires f.start + |val| + k + 1 < f.end < |s| && s[f.end] == NUL && Clean(s, f.start, f.end)
    ensures var a, p, m := Layout(s, f.start, f.end, val, k), f.start + |val|, f.end - k;
      && Removable(a, p, m)
      && Layout(s, f.start, f.end, val + [s[f.start + |val| + k + 1]], k + 1) == Without(a, p, m)
  {
    LayoutAt(s, f.start, f.end, val, k);
    LayoutDrop(s, f.start, f.end, val, k);
    LayoutKeep(s, f.start, f.end, val, k + 1);
  }

  /** Removes the escaping character. */
  method DropChar(line: array<char>, ptr: nat, ghost s: string, ghost f: Found, ghost val: string, ghost k: nat)
    requires f.start + |val| + k + 1 < f.end < |s| && s[f.end] == NUL && Clean(s, f.start, f.end)
    requires line[..] == Layout(s, f.start, f.end, val, k) && ptr == f.start + |val|
    modifies line
    ensures line[..] == Layout(s, f.start, f.end, val + [s[f.start + |val| + k + 1]], k + 1)
  {
    DropIsShift(s, f, val, k);
    RemoveChar(line, ptr, f.end - k);
  }

  /** An escape: the backslash, or the first of two quotes, is removed or skipped. */
  method Escape(line: array<char>, ptr: nat, mode: Mode, ghost s: string, ghost f: Found, ghost short: bool,
                ghost val: string, ghost k: nat)
    returns (ptr': nat, ghost val': string)
    requires Reading(s, f, short, val, k) && Placed(line[..], ptr, s, f, val, k, mode)
    requires var o := f.start + |val| + k; o < f.end && Escapes(s[o], s[o + 1], short, f.quote)
    modifies line
    ensures |val'| == |val| + 1 && Reading(s, f, short, val', k + 1) && Placed(line[..], ptr', s, f, val', k + 1, mode)
  {
    Drops(s, f, short, val, k);
    val' := val + [s[f.start + |val| + k + 1]];
    if mode != Check {
      DropChar(line, ptr, s, f, val, k);
      ptr' := ptr + 1;
    } else {
      ptr' := ptr + 2;
    }
  }

  /** The end of an argument: a NUL is put behind it. */
  method Finish(line: array<char>, ptr: nat, mode: Mode, ghost s: string, ghost f: Found, ghost short: bool,
                ghost val: string, ghost k: nat)
    requires Reading(s, f, short, val, k) && Placed(line[..], ptr, s, f, val, k, mode)
    requires var o := f.start + |val| + k; o < f.end && !Escapes(s[o], s[o + 1], short, f.quote) && Ends(s[o], f.quote)
    modifies line
    ensures f.arg.ended && f.arg.value == val
    ensures line[..] == if mode == Check then s else Edited(s, f)
  {
    Stops(s, f, short, val, k);
    if mode != Check {
      LayoutEnd(s, f.start, f.end, val, k, f);
      ghost var a := line[..];
      line[ptr] := NUL;
      assert line[..] == a[ptr := NUL];
    }
  }

  /** One character of the text, with the one it hides; `more` unless it ends the argument. */
  method ReadStep(line: array<char>, ptr: nat, mode: Mode, short: bool, qtype: char, ghost s: string, ghost f: Found,
                  ghost val: string, ghost k: nat)
    returns (more: bool, ptr': nat, ghost val': string, ghost k': nat)
    requires Reading(s, f, short, val, k) && Placed(line[..], ptr, s, f, val, k, mode)
    requires qtype == f.quote && ptr < line.Length && line[ptr] != NUL
    modifies line
    ensures more ==> Reading(s, f, short, val', k') && Placed(line[..], ptr', s, f, val', k', mode) && |val'| > |val|
    ensures more ==> |val'| + k' > |val| + k
    ensures !more ==> ptr' == ptr && f.arg.ended && f.arg.value == val
    ensures !more ==> line[..] == if mode == Check then s else Edited(s, f)
  {
    more, ptr', val', k' := true, ptr, val, k;
    Sees(line[..], ptr, s, f, short, val, k, mode);
    if Escapes(line[ptr], line[ptr + 1], short, qtype) {
      ptr', val' := Escape(line, ptr, mode, s, f, short, val, k);
      k' := k + 1;
    } else if Ends(line[ptr], qtype) {
      Finish(line, ptr, mode, s, f, short, val, k);
      more := false;
    } else {
      Keeps(s, f, short, val, k);
      LayoutKeep(s, f.start, f.end, val, k);
      ptr', val' := ptr + 1, val + [s[f.start + |val| + k]];
    }
  }

  /** The loop over the text of an argument. */
  method ReadArg(line: array<char>, mode: Mode, short: bool, qtype: char, start: nat, ghost s: string, ghost f: Found)
    returns (ptr: nat, q: char)
    requires line[..] == s && f.start == start <= f.end < |s| && s[f.end] == NUL && Clean(s, f.start, f.end)
    requires f.quote == qtype && f.arg == Scan(s[f.start..f.end], short, qtype)
    modifies line
    ensures line[..] == if mode == Check then s else Edited(s, f)
    ensures ptr == start <==> f.arg.value == []
    ensures q == NUL <==> f.arg.ended || qtype == NUL
  {
    Starts(s, f, short);
    ptr, q := start, qtype;
    ghost var val: string, k: nat := [], 0;
    var more := true;
    while more && line[ptr] != NUL
      invariant more ==> Reading(s, f, short, val, k) && Placed(line[..], ptr, s, f, val, k, mode) && ptr < line.Length
      invariant more ==> q == qtype
      invariant !more ==> f.arg.ended && q == NUL && (ptr == start <==> f.arg.value == [])
      invariant !more ==> line[..] == if mode == Check then s else Edited(s, f)
      decreases more, f.end - |val| - k
    {
      more, ptr, val, k := ReadStep(line, ptr, mode, short, qtype, s, f, val, k);
      if more {
        Sees(line[..], ptr, s, f, short, val, k, mode);
      } else {
        q := NUL;
      }
    }
    if more {
      Sees(line[..], ptr, s, f, short, val, k, mode);
      Done(line[..], ptr, s, f, short, val, k, mode);
    }
  }

  /** A NUL from `i` on: loops over the line that stop there stay inside it. */
  ghost predicate NulFrom(s: string, i: nat) {
    exists k :: i <= k < |s| && s[k] == NUL
  }

  method SkipBlanks(line: array<char>, i: nat, blanks: set<char>) returns (ptr: nat)
    requires NulFrom(line[..], i) && NUL !in blanks
    ensures i < line.Length && ptr == FirstNotIn(line[..], i, blanks) && NulFrom(line[..], ptr)
  {
    ghost var s := line[..];
    ghost var k :| i <= k < |s| && s[k] == NUL;
    ptr := i;
    while line[ptr] in blanks
      invariant i <= ptr <= k && FirstNotIn(s, i, blanks) == FirstNotIn(s, ptr, blanks)
      decreases k - ptr
    {
      assert ptr != k;
      ptr := ptr + 1;
    }
  }

  method SkipText(line: array<char>, i: nat, stops: set<char>) returns (ptr: nat)
    requires NulFrom(line[..], i) && NUL in stops
    ensures i < line.Length && ptr == FirstIn(line[..], i, stops) < line.Length && NulFrom(line[..], ptr)
  {
    ghost var s := line[..];
    ghost var k :| i <= k < |s| && s[k] == NUL;
    ptr := i;
    while line[ptr] !in stops
      invariant i <= ptr <= k && FirstIn(s, i, stops) == FirstIn(s, ptr, stops)
      decreases k - ptr
    {
      assert ptr != k;
      ptr := ptr + 1;
    }
  }

  /** Behind the command, or behind the previous argument. */
  method SkipCommand(line: array<char>, mode: Mode, blanks: set<char>) returns (ptr: nat, short: bool)
    requires Readable(line[..], mode, blanks)
    ensures ptr == Begin(line[..], mode, blanks) && short == IsShort(line[..], mode, blanks)
    ensures NulFrom(line[..], ptr)
  {
    ghost var s := line[..];
    short := false;
    if mode == GetNext {
      ptr := SkipText(line, 0, {NUL});
      if line[ptr + 1] != NUL {
        ptr := ptr + 1;
      }
    } else {
      ptr := SkipBlanks(line, 0, blanks);
      short := line[ptr] == '\\';
      if short {
        ptr := ptr + 2;
      } else {
        ptr := SkipText(line, ptr, blanks + {NUL});
      }
    }
  }

  /** Past the blanks and the quote before an argument. */
  method SkipQuote(line: array<char>, i: nat, blanks: set<char>) returns (start: nat, qtype: char)
    requires NulFrom(line[..], i) && NUL !in blanks
    ensures i < line.Length && NulFrom(line[..], start)
    ensures var c := At(line[..], FirstNotIn(line[..], i, blanks)); qtype == if IsQuote(c) then c else NUL
    ensures start == FirstNotIn(line[..], i, blanks) + if qtype != NUL then 1 else 0
  {
    start := SkipBlanks(line, i, blanks);
    qtype := NUL;
    if IsQuote(line[start]) {
      qtype := line[start];
      start := start + 1;
    }
  }

  /** Where the argument starts, behind its quote if it has one. */
  method FindStart(line: array<char>, mode: Mode, blanks: set<char>)
    returns (found: bool, start: nat, qtype: char, short: bool)
    requires Readable(line[..], mode, blanks)
    ensures Begin(line[..], mode, blanks) <= line.Length
    ensures found <==> At(line[..], Begin(line[..], mode, blanks)) != NUL
    ensures found ==> var f := Find(line[..], mode, blanks);
      && f.start == start && f.quote == qtype && short == IsShort(line[..], mode, blanks)
      && f.end < line.Length && line[f.end] == NUL
  {
    start, short := SkipCommand(line, mode, blanks);
    qtype, found := NUL, line[start] != NUL;
    if found {
      start, qtype := SkipQuote(line, start, blanks);
    }
  }

  /**
    get_arg. The result is the place of the argument, or null when it is missing, empty or not
    closed; outside Check the line is edited so that the argument stands there, ended by a NUL.
  */
  method GetArg(line: array<char>, mode: Mode, blanks: set<char>) returns (start: Pointer)
    requires Readable(line[..], mode, blanks)
    modifies line
    ensures start == old(Result(line[..], mode, blanks))
    ensures line[..] == old(LineAfter(line[..], mode, blanks))
  {
    var found, first, qtype, short := FindStart(line, mode, blanks);
    if !found {
      return Null;
    }
    var ptr, q := ReadArg(line, mode, short, qtype, first, line[..], Find(line[..], mode, blanks));
    start := if ptr != first && q == NUL then To(first) else Null;
  }
}
