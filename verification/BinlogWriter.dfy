/**
  Where mysqlbinlog puts what it prints. The comment lines of an event go to one cache and its
  encoded body to another; a table map sends the comments to the file at once, and the event that
  ends a statement empties both caches, to the file or, in flashback, to a block held until the end.
*/
module BinlogWriter {
  import opened Basics
  import opened BinlogEvents

  /** The comment lines of an event, or its encoded body. */
  datatype Unit = Note(event: nat) | Code(event: nat, stmtEnd: bool)

  /** head_cache, body_cache, result_file, output_buf of the event at hand, and binlog_events. */
  datatype Sinks = Sinks(head: seq<Unit>, body: seq<Unit>, file: seq<Unit>, buf: seq<Unit>, held: seq<seq<Unit>>)

  const NoSinks := Sinks([], [], [], [], [])

  function NotesOf(items: seq<Item>): (u: seq<Unit>)
    ensures |u| == |items|
  {
    seq(|items|, i requires 0 <= i < |items| => Note(items[i].event))
  }

  function CodesOf(items: seq<Item>): (u: seq<Unit>)
    ensures |u| == |items|
  {
    seq(|items|, i requires 0 <= i < |items| => Code(items[i].event, items[i].stmtEnd))
  }

  /** Both caches go to the file. */
  function Flushed(s: Sinks): Sinks {
    s.(head := [], body := [], file := s.file + s.head + s.body)
  }

  /** A row event is printed; one that ends the statement empties the caches. */
  function WithRow(s: Sinks, it: Item, o: Options): Sinks {
    var t := s.(head := s.head + [Note(it.event)], body := s.body + [Code(it.event, it.stmtEnd)]);
    if !it.stmtEnd then t
    else if o.flashback then t.(head := [], body := [], buf := t.buf + t.head + t.body)
    else Flushed(t)
  }

  function WithRows(s: Sinks, items: seq<Item>, o: Options): Sinks {
    if items == [] then s else WithRow(WithRows(s, items[..|items| - 1], o), items[|items| - 1], o)
  }

  /** The comments of an Annotate event, if one is printed. */
  function NotesFor(kept: Option<nat>): seq<Unit> {
    match kept case None => [] case Some(a) => [Note(a)]
  }

  /** A table map is printed, behind the Annotate event that waits for it. */
  function WithMap(s: Sinks, kept: Option<nat>, n: nat): Sinks {
    s.(head := [], file := s.file + (s.head + NotesFor(kept) + [Note(n)]), body := s.body + [Code(n, false)])
  }

  /** The output of an event is held in flashback, and written otherwise. */
  function Kept(s: Sinks, o: Options): Sinks {
    if s.buf == [] then s
    else if o.flashback then s.(buf := [], held := s.held + [s.buf])
    else s.(buf := [], file := s.file + s.buf)
  }

  ghost function WithEvent(s: Sinks, past: seq<Event>, ev: Event, o: Options): Sinks {
    match ev
    case Annotate => s
    case TableMap(_, filtered) => if filtered then s else WithMap(s, Waiting(past, o), |past|)
    case Rows(id, stmtEnd) =>
      WithRows(if stmtEnd && Filtered(past, id) then Flushed(s) else s, Emitted(past, ev, o), o)
  }

  ghost function Written(log: seq<Event>, o: Options): Sinks {
    if log == [] then NoSinks
    else var n := |log| - 1; Kept(WithEvent(Written(log[..n], o), log[..n], log[n], o), o)
  }

  /** Blocks from the last to the first. */
  function Backwards(blocks: seq<seq<Unit>>): seq<Unit> {
    if blocks == [] then [] else blocks[|blocks| - 1] + Backwards(blocks[..|blocks| - 1])
  }

  /** The file at the end of a run. */
  ghost function FinalFile(log: seq<Event>, o: Options): seq<Unit> {
    var w := Written(log, o);
    if o.flashback then w.file + Backwards(w.held) else w.file
  }

  lemma {:induction false} WrittenStep(past: seq<Event>, ev: Event, o: Options)
    ensures Written(past + [ev], o) == Kept(WithEvent(Written(past, o), past, ev, o), o)
  {
    assert (past + [ev])[..|past|] == past;
  }

  // ---- Printing several row events ----

  lemma {:induction false} OpenRows(s: Sinks, items: seq<Item>, o: Options)
    requires forall i :: 0 <= i < |items| ==> !items[i].stmtEnd
    ensures WithRows(s, items, o) == s.(head := s.head + NotesOf(items), body := s.body + CodesOf(items))
    decreases |items|
  {
    if items == [] {
      assert s.head + NotesOf(items) == s.head && s.body + CodesOf(items) == s.body;
    } else {
      var front, last := items[..|items| - 1], items[|items| - 1];
      OpenRows(s, front, o);
      assert NotesOf(items) == NotesOf(front) + [Note(last.event)];
      assert CodesOf(items) == CodesOf(front) + [Code(last.event, last.stmtEnd)];
    }
  }

  /** The row events of a statement come out behind what the caches held, comments first. */
  lemma {:induction false} EndedRows(s: Sinks, items: seq<Item>, o: Options)
    requires EndsAtLast(items)
    ensures var out := s.head + NotesOf(items) + (s.body + CodesOf(items));
      WithRows(s, items, o) ==
        if o.flashback then s.(head := [], body := [], buf := s.buf + out)
        else s.(head := [], body := [], file := s.file + out)
  {
    var front, last := items[..|items| - 1], items[|items| - 1];
    OpenRows(s, front, o);
    assert NotesOf(items) == NotesOf(front) + [Note(last.event)];
    assert CodesOf(items) == CodesOf(front) + [Code(last.event, last.stmtEnd)];
    var h, b := s.head + NotesOf(items), s.body + CodesOf(items);
    assert s.head + NotesOf(front) + [Note(last.event)] == h;
    assert s.body + CodesOf(front) + [Code(last.event, last.stmtEnd)] == b;
    assert s.buf + h + b == s.buf + (h + b) && s.file + h + b == s.file + (h + b);
  }

  // ---- Flashback ----

  /** The maps shown in the statement that is open. */
  ghost function OpenMaps(past: seq<Event>): seq<Item> {
    if past == [] || IsEnd(past[|past| - 1]) then []
    else var n := |past| - 1; OpenMaps(past[..n]) + if IsShownMap(past[n]) then [Item(n, false)] else []
  }

  lemma {:induction false} OpenMapsStep(past: seq<Event>, ev: Event)
    ensures OpenMaps(past + [ev]) ==
      if IsEnd(ev) then [] else if IsShownMap(ev) then OpenMaps(past) + [Item(|past|, false)] else OpenMaps(past)
  {
    assert (past + [ev])[..|past|] == past;
    assert OpenMaps(past) + [] == OpenMaps(past);
  }

  lemma {:induction false} OpenFromStep(past: seq<Event>, ev: Event, m: nat)
    requires m <= |past|
    ensures OpenFrom(past + [ev], m) <==> OpenFrom(past, m) && !IsEnd(ev)
  {
    var log := past + [ev];
    assert log[|past|] == ev && forall k :: 0 <= k < |past| ==> log[k] == past[k];
  }

  /** They are the maps shown since the last statement end. */
  lemma {:induction false} OpenMapsAre(past: seq<Event>, m: nat)
    ensures Has(OpenMaps(past), m) <==> m < |past| && IsShownMap(past[m]) && OpenFrom(past, m)
  {
    if past != [] {
      var n := |past| - 1;
      var front, ev := past[..n], past[n];
      assert past == front + [ev];
      OpenMapsAre(front, m);
      OpenMapsStep(front, ev);
      if m <= n {
        OpenFromStep(front, ev, m);
      }
      if IsShownMap(ev) {
        HasAppend(OpenMaps(front), [Item(n, false)], m);
        assert [Item(n, false)][0].event == n;
      }
    }
  }

  /** Each stands there once, and in order. */
  lemma {:induction false} OpenMapsOrdered(past: seq<Event>, j: nat)
    requires j < |OpenMaps(past)|
    ensures var it := OpenMaps(past)[j]; it.event < |past| && IsShownMap(past[it.event]) && !it.stmtEnd
    ensures forall i :: 0 <= i < j ==> OpenMaps(past)[i].event < OpenMaps(past)[j].event
  {
    var n := |past| - 1;
    var front := OpenMaps(past[..n]);
    if j < |front| {
      OpenMapsOrdered(past[..n], j);
    } else {
      forall i | 0 <= i < j ensures OpenMaps(past)[i].event < n {
        OpenMapsOrdered(past[..n], i);
      }
    }
  }

  /** What the end of a statement holds: comments, then the maps of the statement, then its row events. */
  ghost function Block(past: seq<Event>, ev: Event, o: Options): seq<Unit> {
    NotesOf(Emitted(past, ev, o)) + (CodesOf(OpenMaps(past)) + CodesOf(Emitted(past, ev, o)))
  }

  /** In flashback only maps wait in the caches. */
  ghost predicate OnlyMapsWait(w: Sinks, past: seq<Event>) {
    w.head == [] && w.buf == [] && w.body == CodesOf(OpenMaps(past))
  }

  /** What an event of a flashback run adds to the file. */
  ghost function FileGain(past: seq<Event>, ev: Event, o: Options): seq<Unit> {
    if IsShownMap(ev) then NotesFor(Waiting(past, o)) + [Note(|past|)]
    else if IsEnd(ev) && Filtered(past, ev.id) then CodesOf(OpenMaps(past))
    else []
  }

  /** What it adds to the blocks. */
  ghost function BlockGain(past: seq<Event>, ev: Event, o: Options): seq<seq<Unit>> {
    if IsEnd(ev) && !Filtered(past, ev.id) then [Block(past, ev, o)] else []
  }

  ghost predicate Gains(w: Sinks, w': Sinks, past: seq<Event>, ev: Event, o: Options) {
    && OnlyMapsWait(w', past + [ev])
    && w'.file == w.file + FileGain(past, ev, o) && w'.held == w.held + BlockGain(past, ev, o)
  }

  lemma {:induction false} MapGains(w: Sinks, past: seq<Event>, ev: Event, o: Options)
    requires o.flashback && OnlyMapsWait(w, past) && IsShownMap(ev)
    ensures Gains(w, Kept(WithEvent(w, past, ev, o), o), past, ev, o)
  {
    OpenMapsStep(past, ev);
    var maps := OpenMaps(past);
    assert CodesOf(maps + [Item(|past|, false)]) == CodesOf(maps) + [Code(|past|, false)];
    assert [] + NotesFor(Waiting(past, o)) == NotesFor(Waiting(past, o)) && w.held + [] == w.held;
  }

  lemma {:induction false} EndGains(w: Sinks, past: seq<Event>, ev: Event, o: Options)
    requires o.flashback && OnlyMapsWait(w, past) && IsEnd(ev)
    ensures Gains(w, Kept(WithEvent(w, past, ev, o), o), past, ev, o)
  {
    OpenMapsStep(past, ev);
    var e := Emitted(past, ev, o);
    if Filtered(past, ev.id) {
      assert w.file + [] == w.file && w.held + [] == w.held;
    } else {
      EndPrints(past, ev, o);
      EndedRows(w, e, o);
      assert [] + NotesOf(e) == NotesOf(e) && [] + Block(past, ev, o) == Block(past, ev, o);
      assert w.file + [] == w.file && |Block(past, ev, o)| > 0;
    }
  }

  lemma {:induction false} OtherGains(w: Sinks, past: seq<Event>, ev: Event, o: Options)
    requires o.flashback && OnlyMapsWait(w, past) && !IsShownMap(ev) && !IsEnd(ev)
    ensures Gains(w, Kept(WithEvent(w, past, ev, o), o), past, ev, o)
  {
    OpenMapsStep(past, ev);
    NothingPrinted(w, past, ev, o);
    assert w.file + [] == w.file && w.held + [] == w.held;
  }

  lemma {:induction false} NothingPrinted(w: Sinks, past: seq<Event>, ev: Event, o: Options)
    requires !IsShownMap(ev) && (ev.Rows? ==> o.flashback && !ev.stmtEnd)
    ensures WithEvent(w, past, ev, o) == w && Emitted(past, ev, o) == []
  {
  }

  /** Every event of a flashback run. */
  lemma {:induction false} FlashbackGains(past: seq<Event>, ev: Event, o: Options)
    requires o.flashback
    ensures Gains(Written(past, o), Written(past + [ev], o), past, ev, o)
    decreases |past|, 1
  {
    FlashbackState(past, o);
    WrittenStep(past, ev, o);
    var w := Written(past, o);
    if IsShownMap(ev) {
      MapGains(w, past, ev, o);
    } else if IsEnd(ev) {
      EndGains(w, past, ev, o);
    } else {
      OtherGains(w, past, ev, o);
    }
  }

  lemma {:induction false} FlashbackState(log: seq<Event>, o: Options)
    requires o.flashback
    ensures OnlyMapsWait(Written(log, o), log)
    decreases |log|, 0
  {
    if log != [] {
      var n := |log| - 1;
      assert log == log[..n] + [log[n]];
      FlashbackGains(log[..n], log[n], o);
    }
  }

  lemma {:induction false} BackwardsAppend(b: seq<seq<Unit>>, e: seq<Unit>)
    ensures Backwards(b + [e]) == e + Backwards(b)
  {
    assert (b + [e])[..|b|] == b;
  }

  /** `b` stands in `t` at place `i`. */
  ghost predicate StandsAt(b: seq<Unit>, t: seq<Unit>, i: nat) {
    i + |b| <= |t| && t[i..i + |b|] == b
  }

  lemma {:induction false} StandingUnit(b: seq<Unit>, t: seq<Unit>, i: nat, k: nat)
    requires StandsAt(b, t, i) && k < |b|
    ensures i + k < |t| && t[i + k] == b[k]
  {
    assert t[i + k] == t[i..i + |b|][k];
  }

  lemma {:induction false} StandsBehind(b: seq<Unit>, t: seq<Unit>, i: nat, u: seq<Unit>)
    requires StandsAt(b, t, i)
    ensures StandsAt(b, u + t, |u| + i)
  {
    assert (u + t)[|u| + i..|u| + i + |b|] == t[i..i + |b|];
  }

  lemma {:induction false} BlockIsHeld(log: seq<Event>, e: nat, o: Options) returns (i: nat)
    requires o.flashback && e < |log| && IsEnd(log[e]) && !Filtered(log[..e], log[e].id)
    ensures StandsAt(Block(log[..e], log[e], o), Backwards(Written(log, o).held), i)
    decreases |log|
  {
    var n := |log| - 1;
    var front := log[..n];
    assert log == front + [log[n]];
    FlashbackGains(front, log[n], o);
    var h := Written(front, o).held;
    if e == n {
      i := 0;
      BackwardsAppend(h, Block(front, log[n], o));
    } else {
      assert front[..e] == log[..e];
      i := BlockIsHeld(front, e, o);
      i := StaysHeld(h, BlockGain(front, log[n], o), Block(log[..e], log[e], o), i);
    }
  }

  lemma {:induction false} StaysHeld(h: seq<seq<Unit>>, gain: seq<seq<Unit>>, b: seq<Unit>, i: nat) returns (j: nat)
    requires |gain| <= 1 && StandsAt(b, Backwards(h), i)
    ensures StandsAt(b, Backwards(h + gain), j)
  {
    if gain == [] {
      assert h + gain == h;
      j := i;
    } else {
      assert gain == [gain[0]];
      BackwardsAppend(h, gain[0]);
      StandsBehind(b, Backwards(h), i, gain[0]);
      j := |gain[0]| + i;
    }
  }

  /**
    In the file of a flashback run every statement whose last row event is not filtered stands in
    one piece: its comments, then the maps it has shown, then its row events.
  */
  lemma {:induction false} StatementInFile(log: seq<Event>, e: nat, o: Options) returns (i: nat)
    requires o.flashback && e < |log| && IsEnd(log[e]) && !Filtered(log[..e], log[e].id)
    ensures StandsAt(Block(log[..e], log[e], o), FinalFile(log, o), i)
  {
    i := BlockIsHeld(log, e, o);
    var block, file, held := Block(log[..e], log[e], o), Written(log, o).file, Backwards(Written(log, o).held);
    StandsBehind(block, held, i, file);
    i := |file| + i;
    assert FinalFile(log, o) == file + held;
  }

  /** The maps a statement has shown stand before its row events. */
  lemma {:induction false} MapsPrecedeRows(log: seq<Event>, e: nat, m: nat, k: nat, o: Options) returns (p: nat, q: nat)
    requires o.flashback && e < |log| && IsEnd(log[e]) && !Filtered(log[..e], log[e].id)
    requires m < e && IsShownMap(log[m]) && OpenFrom(log[..e], m) && k < |Emitted(log[..e], log[e], o)|
    ensures p < q < |FinalFile(log, o)| && FinalFile(log, o)[p] == Code(m, false)
    ensures var it := Emitted(log[..e], log[e], o)[k]; FinalFile(log, o)[q] == Code(it.event, it.stmtEnd)
  {
    var i := StatementInFile(log, e, o);
    var j := MapIsOpen(log[..e], m);
    var rows := Emitted(log[..e], log[e], o);
    p, q := MapBeforeRow(NotesOf(rows), OpenMaps(log[..e]), rows, FinalFile(log, o), i, j, k);
  }

  lemma {:induction false} MapIsOpen(past: seq<Event>, m: nat) returns (j: nat)
    requires m < |past| && IsShownMap(past[m]) && OpenFrom(past, m)
    ensures j < |OpenMaps(past)| && OpenMaps(past)[j] == Item(m, false)
  {
    OpenMapsAre(past, m);
    j :| j < |OpenMaps(past)| && OpenMaps(past)[j].event == m;
    OpenMapsOrdered(past, j);
  }

  lemma {:induction false} MapBeforeRow(
    notes: seq<Unit>, maps: seq<Item>, rows: seq<Item>, file: seq<Unit>, i: nat, j: nat, k: nat)
    returns (p: nat, q: nat)
    requires StandsAt(notes + (CodesOf(maps) + CodesOf(rows)), file, i) && j < |maps| && k < |rows|
    ensures p < q < |file| && file[p] == Code(maps[j].event, maps[j].stmtEnd)
    ensures file[q] == Code(rows[k].event, rows[k].stmtEnd)
  {
    var b, x, y := notes + (CodesOf(maps) + CodesOf(rows)), |notes| + j, |notes| + |maps| + k;
    assert b[x] == CodesOf(maps)[j] && b[y] == CodesOf(rows)[k];
    StandingUnit(b, file, i, x);
    StandingUnit(b, file, i, y);
    p, q := i + x, i + y;
  }

  // ---- Outside flashback ----

  function Pick(units: seq<Unit>, want: Unit -> bool): seq<Unit> {
    if units == [] then [] else (if want(units[0]) then [units[0]] else []) + Pick(units[1..], want)
  }

  lemma {:induction false} PickAppend(a: seq<Unit>, b: seq<Unit>, want: Unit -> bool)
    ensures Pick(a + b, want) == Pick(a, want) + Pick(b, want)
  {
    if a == [] {
      assert a + b == b;
    } else {
      var head := if want(a[0]) then [a[0]] else [];
      assert (a + b)[0] == a[0] && (a + b)[1..] == a[1..] + b;
      PickAppend(a[1..], b, want);
      Regroup(head, Pick(a[1..], want), Pick(b, want));
    }
  }

  predicate IsAnnotate(log: seq<Event>, e: nat) {
    e < |log| && log[e].Annotate?
  }

  /** The encoded events. */
  function Codes(log: seq<Event>): Unit -> bool {
    (u: Unit) => u.Code? && !IsAnnotate(log, u.event)
  }

  /** The comments of Annotate events. */
  function Annotations(log: seq<Event>): Unit -> bool {
    (u: Unit) => u.Note? && IsAnnotate(log, u.event)
  }

  /** What has been written, and what waits, is what has been printed, in that order. */
  ghost predicate InOrder(w: Sinks, printed: seq<Item>, log: seq<Event>) {
    && w.buf == [] && w.held == []
    && Pick(w.head, Codes(log)) == [] && Pick(w.head, Annotations(log)) == []
    && Pick(w.file, Codes(log)) + Pick(w.body, Codes(log)) == Pick(CodesOf(printed), Codes(log))
    && Pick(w.file, Annotations(log)) == Pick(NotesOf(printed), Annotations(log))
    && Pick(w.body, Annotations(log)) == []
  }

  lemma {:induction false} PickThree(a: seq<Unit>, b: seq<Unit>, c: seq<Unit>, want: Unit -> bool)
    ensures Pick(a + b + c, want) == Pick(a, want) + Pick(b, want) + Pick(c, want)
  {
    PickAppend(a + b, c, want);
    PickAppend(a, b, want);
  }

  lemma {:induction false} PickPush(t: seq<Unit>, u: Unit, want: Unit -> bool)
    ensures Pick(t + [u], want) == if want(u) then Pick(t, want) + [u] else Pick(t, want)
  {
    PickAppend(t, [u], want);
    assert [u][1..] == [];
    assert Pick([u], want) == if want(u) then [u] else [];
    assert Pick(t, want) + [] == Pick(t, want);
  }

  lemma {:induction false} FlushKeepsOrder(w: Sinks, printed: seq<Item>, log: seq<Event>)
    requires InOrder(w, printed, log)
    ensures InOrder(Flushed(w), printed, log)
  {
    PickThree(w.file, w.head, w.body, Codes(log));
    PickThree(w.file, w.head, w.body, Annotations(log));
    var f := Pick(w.file, Codes(log));
    assert f + [] + Pick(w.body, Codes(log)) + [] == f + Pick(w.body, Codes(log));
    assert Pick(w.file, Annotations(log)) + [] + [] == Pick(w.file, Annotations(log));
  }

  /** A row event goes behind what waits. */
  lemma {:induction false} RowWaitsInOrder(w: Sinks, printed: seq<Item>, it: Item, log: seq<Event>)
    requires InOrder(w, printed, log) && it.event < |log| && log[it.event].Rows?
    ensures InOrder(
      w.(head := w.head + [Note(it.event)], body := w.body + [Code(it.event, it.stmtEnd)]), printed + [it], log)
  {
    var n, c := Note(it.event), Code(it.event, it.stmtEnd);
    PushPrinted(printed, it, log);
    PickPush(w.head, n, Codes(log));
    PickPush(w.head, n, Annotations(log));
    PickPush(w.body, c, Codes(log));
    PickPush(w.body, c, Annotations(log));
    Regroup(Pick(w.file, Codes(log)), Pick(w.body, Codes(log)), [c]);
  }

  lemma {:induction false} PushPrinted(printed: seq<Item>, it: Item, log: seq<Event>)
    requires it.event < |log| && !log[it.event].Annotate?
    ensures Pick(CodesOf(printed + [it]), Codes(log)) ==
      Pick(CodesOf(printed), Codes(log)) + [Code(it.event, it.stmtEnd)]
    ensures Pick(NotesOf(printed + [it]), Annotations(log)) == Pick(NotesOf(printed), Annotations(log))
  {
    var n, c := Note(it.event), Code(it.event, it.stmtEnd);
    assert NotesOf(printed + [it]) == NotesOf(printed) + [n] && CodesOf(printed + [it]) == CodesOf(printed) + [c];
    PickPush(CodesOf(printed), c, Codes(log));
    PickPush(NotesOf(printed), n, Annotations(log));
  }

  lemma {:induction false} RowInOrder(w: Sinks, printed: seq<Item>, it: Item, log: seq<Event>, o: Options)
    requires !o.flashback && InOrder(w, printed, log) && it.event < |log| && log[it.event].Rows?
    ensures InOrder(WithRows(w, [it], o), printed + [it], log)
  {
    RowWaitsInOrder(w, printed, it, log);
    assert [it][..0] == [];
    assert WithRows(w, [it], o) == WithRow(WithRows(w, [], o), it, o);
    if it.stmtEnd {
      FlushKeepsOrder(
        w.(head := w.head + [Note(it.event)], body := w.body + [Code(it.event, it.stmtEnd)]), printed + [it], log);
    }
  }

  lemma {:induction false} PushAnnotate(printed: seq<Item>, a: nat, log: seq<Event>)
    requires IsAnnotate(log, a)
    ensures Pick(CodesOf(printed + [Item(a, false)]), Codes(log)) == Pick(CodesOf(printed), Codes(log))
    ensures Pick(NotesOf(printed + [Item(a, false)]), Annotations(log)) ==
      Pick(NotesOf(printed), Annotations(log)) + [Note(a)]
  {
    var all := printed + [Item(a, false)];
    assert NotesOf(all) == NotesOf(printed) + [Note(a)] && CodesOf(all) == CodesOf(printed) + [Code(a, false)];
    PickPush(CodesOf(printed), Code(a, false), Codes(log));
    PickPush(NotesOf(printed), Note(a), Annotations(log));
  }

  /** An Annotate event goes to the file, behind the comments that wait. */
  lemma {:induction false} AnnotateInOrder(w: Sinks, printed: seq<Item>, a: nat, log: seq<Event>)
    requires InOrder(w, printed, log) && IsAnnotate(log, a)
    ensures InOrder(w.(head := [], file := w.file + w.head + [Note(a)]), printed + [Item(a, false)], log)
  {
    PushAnnotate(printed, a, log);
    HeadInFile(w, printed, log);
    PickPush(w.file + w.head, Note(a), Codes(log));
    PickPush(w.file + w.head, Note(a), Annotations(log));
  }

  lemma {:induction false} HeadInFile(w: Sinks, printed: seq<Item>, log: seq<Event>)
    requires InOrder(w, printed, log)
    ensures InOrder(w.(head := [], file := w.file + w.head), printed, log)
  {
    PickAppend(w.file, w.head, Codes(log));
    PickAppend(w.file, w.head, Annotations(log));
    assert Pick(w.file, Codes(log)) + [] == Pick(w.file, Codes(log));
    assert Pick(w.file, Annotations(log)) + [] == Pick(w.file, Annotations(log));
  }

  /** The comments of a map go to the file, and the map behind what waits. */
  lemma {:induction false} PlainMapInOrder(w: Sinks, printed: seq<Item>, m: nat, log: seq<Event>)
    requires InOrder(w, printed, log) && w.head == [] && m < |log| && log[m].TableMap?
    ensures InOrder(w.(file := w.file + [Note(m)], body := w.body + [Code(m, false)]), printed + [Item(m, false)], log)
  {
    PushPrinted(printed, Item(m, false), log);
    PickPush(w.file, Note(m), Codes(log));
    PickPush(w.file, Note(m), Annotations(log));
    PickPush(w.body, Code(m, false), Codes(log));
    PickPush(w.body, Code(m, false), Annotations(log));
    Regroup(Pick(w.file, Codes(log)), Pick(w.body, Codes(log)), [Code(m, false)]);
  }

  lemma {:induction false} MapInOrder(
    w: Sinks, printed: seq<Item>, past: seq<Event>, m: Event, log: seq<Event>, o: Options)
    requires past + [m] <= log && IsShownMap(m) && InOrder(w, printed, log)
    ensures InOrder(WithEvent(w, past, m, o), printed + Emitted(past, m, o), log)
  {
    var n, kept := |past|, Waiting(past, o);
    assert log[n] == (past + [m])[n] == m;
    if kept.None? {
      BareMapInOrder(w, printed, n, log);
      assert [] + [Item(n, false)] == [Item(n, false)];
    } else {
      var a := kept.value;
      assert Waits(past, a);
      assert log[a] == (past + [m])[a] == past[a];
      AnnotatedMapInOrder(w, printed, a, n, log);
    }
  }

  lemma {:induction false} BareMapInOrder(w: Sinks, printed: seq<Item>, n: nat, log: seq<Event>)
    requires InOrder(w, printed, log) && n < |log| && log[n].TableMap?
    ensures InOrder(WithMap(w, None, n), printed + [Item(n, false)], log)
  {
    HeadInFile(w, printed, log);
    PlainMapInOrder(w.(head := [], file := w.file + w.head), printed, n, log);
    assert w.file + (w.head + [] + [Note(n)]) == w.file + w.head + [Note(n)];
  }

  lemma {:induction false} AnnotatedMapInOrder(w: Sinks, printed: seq<Item>, a: nat, n: nat, log: seq<Event>)
    requires InOrder(w, printed, log) && IsAnnotate(log, a) && n < |log| && log[n].TableMap?
    ensures InOrder(WithMap(w, Some(a), n), printed + ([Item(a, false)] + [Item(n, false)]), log)
  {
    AnnotateInOrder(w, printed, a, log);
    PlainMapInOrder(w.(head := [], file := w.file + w.head + [Note(a)]), printed + [Item(a, false)], n, log);
    Regroup(printed, [Item(a, false)], [Item(n, false)]);
    assert w.file + (w.head + [Note(a)] + [Note(n)]) == w.file + w.head + [Note(a)] + [Note(n)];
  }

  lemma {:induction false} RowsInOrder(
    w: Sinks, printed: seq<Item>, past: seq<Event>, ev: Event, log: seq<Event>, o: Options)
    requires !o.flashback && past + [ev] <= log && ev.Rows? && InOrder(w, printed, log)
    ensures InOrder(WithEvent(w, past, ev, o), printed + Emitted(past, ev, o), log)
  {
    assert log[|past|] == (past + [ev])[|past|] == ev;
    if Filtered(past, ev.id) {
      assert printed + [] == printed;
      FlushKeepsOrder(w, printed, log);
    } else {
      RowInOrder(w, printed, Item(|past|, ev.stmtEnd), log, o);
    }
  }

  lemma {:induction false} EventInOrder(
    w: Sinks, printed: seq<Item>, past: seq<Event>, ev: Event, log: seq<Event>, o: Options)
    requires !o.flashback && past + [ev] <= log && InOrder(w, printed, log)
    ensures InOrder(Kept(WithEvent(w, past, ev, o), o), printed + Emitted(past, ev, o), log)
  {
    if IsShownMap(ev) {
      MapInOrder(w, printed, past, ev, log, o);
    } else if ev.Rows? {
      RowsInOrder(w, printed, past, ev, log, o);
    } else {
      NothingPrinted(w, past, ev, o);
      assert printed + [] == printed;
    }
  }

  /**
    Outside flashback the file, with what waits for the end of a statement, has the encoded events
    in the order they are printed in, and the file has the comments of the Annotate events.
  */
  lemma {:induction false} FileIsInOrder(past: seq<Event>, log: seq<Event>, o: Options)
    requires !o.flashback && past <= log
    ensures InOrder(Written(past, o), Output(past, o), log)
    decreases past
  {
    if past != [] {
      var n := |past| - 1;
      FileIsInOrder(past[..n], log, o);
      assert past == past[..n] + [past[n]];
      EventInOrder(Written(past[..n], o), Output(past[..n], o), past[..n], past[n], log, o);
    }
  }

  /** The end of a statement leaves nothing in the caches. */
  lemma {:induction false} EndEmptiesCaches(past: seq<Event>, ev: Event, o: Options)
    requires IsEnd(ev)
    ensures var w := Written(past + [ev], o); w.head == [] && w.body == []
  {
    WrittenStep(past, ev, o);
    var w := Written(past, o);
    if !Filtered(past, ev.id) {
      EndPrints(past, ev, o);
      EndedRows(w, Emitted(past, ev, o), o);
    }
  }

  /** Once the last statement has ended, the file has all that is printed. */
  lemma {:induction false} FileIsComplete(log: seq<Event>, o: Options)
    requires !o.flashback && log != [] && IsEnd(log[|log| - 1])
    ensures Pick(FinalFile(log, o), Codes(log)) == Pick(CodesOf(Output(log, o)), Codes(log))
    ensures Pick(FinalFile(log, o), Annotations(log)) == Pick(NotesOf(Output(log, o)), Annotations(log))
  {
    FileIsInOrder(log, log, o);
    var n := |log| - 1;
    assert log == log[..n] + [log[n]];
    EndEmptiesCaches(log[..n], log[n], o);
    assert Pick(Written(log, o).file, Codes(log)) + [] == Pick(Written(log, o).file, Codes(log));
  }
}
