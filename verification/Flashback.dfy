/** What flashback makes of whole statements and of a whole log. */
module Flashback {
  import opened Basics
  import opened BinlogEvents
  import opened BinlogWriter

  const FLASHBACK := Options(true, false)

  /** The events of a statement before its row events. */
  ghost predicate IsHead(heads: seq<Event>) {
    forall i :: 0 <= i < |heads| ==> !heads[i].Rows?
  }

  /** Row events, of which exactly the last ends the statement. */
  ghost predicate IsBody(rows: seq<Event>) {
    rows != [] && forall i :: 0 <= i < |rows| ==> rows[i].Rows? && (rows[i].stmtEnd <==> i == |rows| - 1)
  }

  /** Every row event has a map of its table in the head of the statement. */
  ghost predicate IsMapped(heads: seq<Event>, rows: seq<Event>) {
    forall i :: 0 <= i < |rows| ==>
      rows[i].Rows? && exists j :: 0 <= j < |heads| && heads[j].TableMap? && heads[j].id == rows[i].id
  }

  /** `m` row events from place `n` on, as they are queued. */
  function Queued(n: nat, m: nat): seq<Item> {
    seq(m, i requires 0 <= i => Item(n + i, i == 0))
  }

  lemma {:induction false} QueuedStep(n: nat, k: nat)
    ensures Queued(n, k + 1) == Queued(n, k) + [Item(n + k, k == 0)]
    ensures Queued(n, k) == [] <==> k == 0
  {
  }

  /** A head that shows a map empties the queue. */
  lemma {:induction false} HeadEmptiesQueue(pre: seq<Event>, heads: seq<Event>, j: nat)
    requires IsHead(heads) && j < |heads| && IsShownMap(heads[j])
    ensures Queue(pre + heads) == []
    decreases |heads|
  {
    var n := |heads| - 1;
    var front := heads[..n];
    assert pre + heads == (pre + front) + [heads[n]];
    LogStep(pre + front, heads[n], FLASHBACK);
    if !IsShownMap(heads[n]) {
      HeadEmptiesQueue(pre, front, j);
    }
  }

  /** Row events change nothing in what is filtered, up to the end of the statement. */
  lemma {:induction false} RowsKeepFilter(base: seq<Event>, rows: seq<Event>, k: nat, id: nat)
    requires IsBody(rows) && k < |rows|
    ensures Filtered(base + rows[..k], id) <==> Filtered(base, id)
    decreases k
  {
    if k == 0 {
      assert base + rows[..0] == base;
    } else {
      RowsKeepFilter(base, rows, k - 1, id);
      assert base + rows[..k] == (base + rows[..k - 1]) + [rows[k - 1]];
      FilteredStep(base + rows[..k - 1], rows[k - 1], id);
    }
  }

  lemma {:induction false} RowsAreQueued(base: seq<Event>, rows: seq<Event>, k: nat)
    requires IsBody(rows) && k < |rows| && Queue(base) == []
    ensures Queue(base + rows[..k]) == Queued(|base|, k)
    decreases k
  {
    if k == 0 {
      assert base + rows[..0] == base;
    } else {
      RowsAreQueued(base, rows, k - 1);
      assert base + rows[..k] == (base + rows[..k - 1]) + [rows[k - 1]];
      QueueGrows(base + rows[..k - 1], rows[k - 1], |base|, k - 1);
    }
  }

  lemma {:induction false} QueueGrows(past: seq<Event>, ev: Event, n: nat, k: nat)
    requires |past| == n + k && Queue(past) == Queued(n, k) && ev.Rows? && !ev.stmtEnd
    ensures Queue(past + [ev]) == Queued(n, k + 1)
  {
    LogStep(past, ev, FLASHBACK);
    QueuedStep(n, k);
  }

  /** The last row event, if it is not filtered, prints the whole queue. */
  lemma {:induction false} LastPrints(base: seq<Event>, rows: seq<Event>, o: Options)
    requires o.flashback && IsBody(rows) && !Filtered(base, rows[|rows| - 1].id) && Queue(base) == []
    ensures var m := |rows|; Emitted(base + rows[..m - 1], rows[m - 1], o) == Reversed(Queued(|base|, m))
    ensures Queue(base + rows) == []
  {
    var m := |rows|;
    var past, last := base + rows[..m - 1], rows[m - 1];
    RowsKeepFilter(base, rows, m - 1, last.id);
    RowsAreQueued(base, rows, m - 1);
    assert base + rows == past + [last];
    QueueIsPrinted(past, last, |base|, m - 1, o);
  }

  lemma {:induction false} QueueIsPrinted(past: seq<Event>, ev: Event, n: nat, k: nat, o: Options)
    requires o.flashback && |past| == n + k && Queue(past) == Queued(n, k) && IsEnd(ev) && !Filtered(past, ev.id)
    ensures Emitted(past, ev, o) == Reversed(Queued(n, k + 1)) && Queue(past + [ev]) == []
  {
    LogStep(past, ev, o);
    QueuedStep(n, k);
  }

  /** The others print nothing, nor does the last if it is filtered. */
  lemma {:induction false} OthersPrintNothing(base: seq<Event>, rows: seq<Event>, k: nat, o: Options)
    requires o.flashback && IsBody(rows) && k < |rows| && (k == |rows| - 1 ==> Filtered(base, rows[k].id))
    ensures Emitted(base + rows[..k], rows[k], o) == []
  {
    RowsKeepFilter(base, rows, k, rows[k].id);
  }

  /**
    A statement whose last row event is not filtered is printed from its last row event to its
    first; exactly the last one printed ends the statement, and nothing stays queued. A statement
    whose last row event is filtered prints no row event at all.
  */
  lemma {:induction false} StatementIsReversed(pre: seq<Event>, heads: seq<Event>, rows: seq<Event>, o: Options)
    requires o.flashback && IsHead(heads) && IsBody(rows) && IsMapped(heads, rows)
    ensures var base, m := pre + heads, |rows|;
      var printed := Emitted(base + rows[..m - 1], rows[m - 1], o);
      && (forall k :: 0 <= k < m - 1 ==> Emitted(base + rows[..k], rows[k], o) == [])
      && if Filtered(base, rows[m - 1].id) then printed == []
         else |printed| == m && (forall p :: 0 <= p < m ==> printed[p] == Item(|base| + m - 1 - p, p == m - 1))
              && Queue(base + rows) == []
  {
    var base, m := pre + heads, |rows|;
    forall k | 0 <= k < m - 1 ensures Emitted(base + rows[..k], rows[k], o) == [] {
      OthersPrintNothing(base, rows, k, o);
    }
    if Filtered(base, rows[m - 1].id) {
      OthersPrintNothing(base, rows, m - 1, o);
    } else {
      LastRowEmptiesQueue(pre, heads, rows);
      LastPrints(base, rows, o);
    }
    forall p | 0 <= p < m
      ensures |Reversed(Queued(|base|, m))| == m
      ensures Reversed(Queued(|base|, m))[p] == Item(|base| + m - 1 - p, p == m - 1)
    {
      ReversedAt(Queued(|base|, m), p);
    }
    ReversedAt(Queued(|base|, m), 0);
  }

  lemma {:induction false} LastRowEmptiesQueue(pre: seq<Event>, heads: seq<Event>, rows: seq<Event>)
    requires IsHead(heads) && IsBody(rows) && IsMapped(heads, rows)
    requires !Filtered(pre + heads, rows[|rows| - 1].id)
    ensures Queue(pre + heads) == []
  {
    var base, id := pre + heads, rows[|rows| - 1].id;
    var j :| 0 <= j < |heads| && heads[j].TableMap? && heads[j].id == id;
    assert base[|pre| + j] == heads[j];
    assert OpenFrom(base, |pre| + j) by {
      assert forall k :: |pre| + j <= k < |base| ==> base[k] == heads[k - |pre|];
    }
    assert heads[j] != TableMap(id, true);
    HeadEmptiesQueue(pre, heads, j);
  }

  /**
    Flashback prints exactly the row events of a statement that are not filtered if and only if
    all of them are filtered or none of them is.
  */
  lemma {:induction false} FilterInFlashback(pre: seq<Event>, heads: seq<Event>, rows: seq<Event>, o: Options)
    requires o.flashback && IsHead(heads) && IsBody(rows) && IsMapped(heads, rows)
    ensures var base, m := pre + heads, |rows|;
      var printed := Emitted(base + rows[..m - 1], rows[m - 1], o);
      (forall i :: 0 <= i < m ==> (PrintsRow(printed, |base|, i) <==> !Filtered(base, rows[i].id)))
      <==>
      || (forall i :: 0 <= i < m ==> Filtered(base, rows[i].id))
      || (forall i :: 0 <= i < m ==> !Filtered(base, rows[i].id))
  {
    var base, m := pre + heads, |rows|;
    var printed := Emitted(base + rows[..m - 1], rows[m - 1], o);
    StatementIsReversed(pre, heads, rows, o);
    forall i | 0 <= i < m ensures PrintsRow(printed, |base|, i) <==> !Filtered(base, rows[m - 1].id) {
      if !Filtered(base, rows[m - 1].id) {
        assert printed[m - 1 - i].event == |base| + i;
      }
    }
  }

  /** Row event `i` of a statement whose row events begin at place `n` is among those printed. */
  ghost predicate PrintsRow(printed: seq<Item>, n: nat, i: nat) {
    Has(printed, n + i)
  }

  /** A statement on two tables, one of them filtered: flashback prints the filtered row event. */
  lemma {:induction false} FlashbackPrintsFiltered(o: Options)
    requires o.flashback
    ensures var heads, rows := [TableMap(1, true), TableMap(2, false)], [Rows(1, false), Rows(2, true)];
      && Filtered(heads, rows[0].id)
      && PrintsRow(Emitted(heads + rows[..1], rows[1], o), |heads|, 0)
  {
    var heads, rows := [TableMap(1, true), TableMap(2, false)], [Rows(1, false), Rows(2, true)];
    assert heads[0] == TableMap(1, true) && OpenFrom(heads, 0);
    assert [] + heads == heads;
    assert heads[1].TableMap? && heads[0].id == 1 && heads[1].id == 2;
    StatementIsReversed([], heads, rows, o);
    assert Emitted(heads + rows[..1], rows[1], o)[1].event == 2;
  }

  // ---- A whole log ----

  /** A row event whose statement has not ended. */
  ghost predicate RowOpen(past: seq<Event>) {
    exists k :: 0 <= k < |past| && past[k].Rows? && OpenFrom(past, k)
  }

  /** A row event that is not filtered. */
  ghost predicate IsShownRow(past: seq<Event>, ev: Event) {
    ev.Rows? && !Filtered(past, ev.id)
  }

  /** A shown row event whose statement has not ended. */
  ghost predicate ShownOpen(past: seq<Event>) {
    exists k :: 0 <= k < |past| && OpenFrom(past, k) && IsShownRow(past[..k], past[k])
  }

  ghost predicate MapOpen(past: seq<Event>) {
    exists k :: 0 <= k < |past| && OpenFrom(past, k) && IsShownMap(past[k])
  }

  ghost predicate NoneFiltered(past: seq<Event>) {
    forall k :: 0 <= k < |past| && past[k].Rows? ==> !Filtered(past[..k], past[k].id)
  }

  /**
    An event where a log may have it: a map that is shown stands before the row events of its
    statement; these are all shown or all filtered; and a shown one has a shown map before it in
    its statement, if any row event of the log has been filtered.
  */
  ghost predicate Fits(past: seq<Event>, ev: Event) {
    && (IsShownMap(ev) ==> !RowOpen(past))
    && (ev.Rows? && RowOpen(past) ==> (IsShownRow(past, ev) <==> ShownOpen(past)))
    && (IsShownRow(past, ev) ==> MapOpen(past) || NoneFiltered(past))
  }

  ghost predicate IsRegular(log: seq<Event>) {
    log == [] || (var n := |log| - 1; IsRegular(log[..n]) && Fits(log[..n], log[n]))
  }

  /** The row events that are not filtered. */
  ghost function ShownRows(log: seq<Event>): seq<nat> {
    if log == [] then []
    else var n := |log| - 1; ShownRows(log[..n]) + if IsShownRow(log[..n], log[n]) then [n] else []
  }

  lemma {:induction false} RowOpenStep(past: seq<Event>, ev: Event)
    ensures RowOpen(past + [ev]) <==> !IsEnd(ev) && (RowOpen(past) || ev.Rows?)
  {
    var log, n := past + [ev], |past|;
    assert log[n] == ev;
    if RowOpen(past) {
      var k: nat :| k < n && past[k].Rows? && OpenFrom(past, k);
      OpenFromStep(past, ev, k);
      assert log[k] == past[k];
    }
    OpenFromStep(past, ev, n);
    if RowOpen(log) {
      var k: nat :| k < |log| && log[k].Rows? && OpenFrom(log, k);
      OpenFromStep(past, ev, k);
      assert k < n ==> past[k] == log[k];
    }
  }

  lemma {:induction false} ShownOpenStep(past: seq<Event>, ev: Event)
    ensures ShownOpen(past + [ev]) <==> !IsEnd(ev) && (ShownOpen(past) || IsShownRow(past, ev))
  {
    var log, n := past + [ev], |past|;
    assert log[n] == ev && log[..n] == past;
    if ShownOpen(past) {
      var k: nat :| k < n && OpenFrom(past, k) && IsShownRow(past[..k], past[k]);
      OpenFromStep(past, ev, k);
      assert log[k] == past[k] && log[..k] == past[..k];
    }
    OpenFromStep(past, ev, n);
    if ShownOpen(log) {
      var k: nat :| k < |log| && OpenFrom(log, k) && IsShownRow(log[..k], log[k]);
      OpenFromStep(past, ev, k);
      assert k < n ==> past[k] == log[k] && past[..k] == log[..k];
    }
  }

  lemma {:induction false} MapOpenStep(past: seq<Event>, ev: Event)
    ensures MapOpen(past + [ev]) <==> !IsEnd(ev) && (MapOpen(past) || IsShownMap(ev))
  {
    var log, n := past + [ev], |past|;
    assert log[n] == ev;
    if MapOpen(past) {
      var k: nat :| k < n && OpenFrom(past, k) && IsShownMap(past[k]);
      OpenFromStep(past, ev, k);
      assert log[k] == past[k];
    }
    OpenFromStep(past, ev, n);
    if MapOpen(log) {
      var k: nat :| k < |log| && OpenFrom(log, k) && IsShownMap(log[k]);
      OpenFromStep(past, ev, k);
      assert k < n ==> past[k] == log[k];
    }
  }

  lemma {:induction false} NoneFilteredStep(past: seq<Event>, ev: Event)
    requires NoneFiltered(past + [ev])
    ensures NoneFiltered(past) && (ev.Rows? ==> !Filtered(past, ev.id))
  {
    var log, n := past + [ev], |past|;
    assert log[n] == ev && log[..n] == past;
    forall k | 0 <= k < n && past[k].Rows? ensures !Filtered(past[..k], past[k].id) {
      assert log[k] == past[k] && log[..k] == past[..k];
    }
  }

  lemma {:induction false} ShownIsOpen(past: seq<Event>)
    requires ShownOpen(past)
    ensures RowOpen(past)
  {
    var k: nat :| k < |past| && OpenFrom(past, k) && IsShownRow(past[..k], past[k]);
    assert past[k].Rows?;
  }

  /** Between statements nothing of use is queued: a shown map empties the queue, and shown row events never stay. */
  lemma {:induction false} QueueIsEmpty(past: seq<Event>)
    requires !RowOpen(past) && (MapOpen(past) || NoneFiltered(past))
    ensures Queue(past) == []
    decreases |past|
  {
    if past != [] {
      var n := |past| - 1;
      var front, ev := past[..n], past[n];
      assert past == front + [ev];
      LogStep(front, ev, FLASHBACK);
      RowOpenStep(front, ev);
      MapOpenStep(front, ev);
      if NoneFiltered(past) {
        NoneFilteredStep(front, ev);
      }
      if !IsEnd(ev) && !IsShownMap(ev) {
        QueueIsEmpty(front);
      }
    }
  }

  // ---- Row events in what is written ----

  function Events(items: seq<Item>): seq<nat> {
    seq(|items|, i requires 0 <= i < |items| => items[i].event)
  }

  predicate IsRowCode(u: Unit, log: seq<Event>) {
    u.Code? && u.event < |log| && log[u.event].Rows?
  }

  /** The row events whose encoded bodies stand in a text, in order. */
  function RowsIn(units: seq<Unit>, log: seq<Event>): seq<nat> {
    if units == [] then []
    else (if IsRowCode(units[0], log) then [units[0].event] else []) + RowsIn(units[1..], log)
  }

  lemma {:induction false} RowsInAppend(a: seq<Unit>, b: seq<Unit>, log: seq<Event>)
    ensures RowsIn(a + b, log) == RowsIn(a, log) + RowsIn(b, log)
  {
    if a == [] {
      assert a + b == b;
    } else {
      assert (a + b)[0] == a[0] && (a + b)[1..] == a[1..] + b;
      RowsInAppend(a[1..], b, log);
      Regroup(if IsRowCode(a[0], log) then [a[0].event] else [], RowsIn(a[1..], log), RowsIn(b, log));
    }
  }

  lemma {:induction false} NoRowsIn(units: seq<Unit>, log: seq<Event>)
    requires forall i :: 0 <= i < |units| ==> !IsRowCode(units[i], log)
    ensures RowsIn(units, log) == []
  {
    if units != [] {
      NoRowsIn(units[1..], log);
    }
  }

  lemma {:induction false} RowsInRows(items: seq<Item>, log: seq<Event>)
    requires AreRows(items, log)
    ensures RowsIn(CodesOf(items), log) == Events(items)
  {
    if items != [] {
      RowsInRows(items[1..], log);
      assert CodesOf(items)[1..] == CodesOf(items[1..]);
      assert Events(items) == [items[0].event] + Events(items[1..]);
    }
  }

  lemma {:induction false} EventsReversed(items: seq<Item>)
    ensures Events(Reversed(items)) == Reversed(Events(items))
  {
    if items != [] {
      var n := |items| - 1;
      var front, last := items[..n], items[n];
      EventsReversed(front);
      assert Events(items) == Events(front) + [last.event];
      ReversedAppend<nat>(Events(front), last.event);
      assert Events([last] + Reversed(front)) == [last.event] + Events(Reversed(front));
    }
  }

  lemma {:induction false} MapsAreNoRows(past: seq<Event>, log: seq<Event>)
    requires past <= log
    ensures RowsIn(CodesOf(OpenMaps(past)), log) == []
  {
    var maps := OpenMaps(past);
    forall i | 0 <= i < |maps| ensures !IsRowCode(CodesOf(maps)[i], log) {
      OpenMapsOrdered(past, i);
    }
    NoRowsIn(CodesOf(maps), log);
  }

  lemma {:induction false} RowsInParts(e: seq<Item>, maps: seq<Unit>, log: seq<Event>)
    requires AreRows(e, log) && RowsIn(maps, log) == []
    ensures RowsIn(NotesOf(e) + (maps + CodesOf(e)), log) == Events(e)
  {
    RowsInAppend(NotesOf(e), maps + CodesOf(e), log);
    RowsInAppend(maps, CodesOf(e), log);
    NoRowsIn(NotesOf(e), log);
    RowsInRows(e, log);
    assert [] + ([] + Events(e)) == Events(e);
  }

  lemma {:induction false} EndEvents(past: seq<Event>, ev: Event, o: Options)
    requires o.flashback && IsEnd(ev) && IsShownRow(past, ev)
    ensures Events(Emitted(past, ev, o)) == Reversed<nat>(Events(Queue(past)) + [|past|])
  {
    var q := Queue(past);
    var all := q + [Item(|past|, q == [])];
    EventsReversed(all);
    assert Events(all) == Events(q) + [|past|];
  }

  lemma {:induction false} RowsOfLonger(items: seq<Item>, past: seq<Event>, log: seq<Event>)
    requires AreRows(items, past) && past <= log
    ensures AreRows(items, log)
  {
    forall i | 0 <= i < |items| ensures items[i].event < |log| && log[items[i].event].Rows? {
      assert past[items[i].event] == log[items[i].event];
    }
  }

  /** The row events of the block that the end of a statement holds: the queue and the event, reversed. */
  lemma {:induction false} RowsInBlock(past: seq<Event>, ev: Event, log: seq<Event>, o: Options)
    requires o.flashback && past <= log && past + [ev] <= log && IsEnd(ev) && IsShownRow(past, ev)
    ensures RowsIn(Block(past, ev, o), log) == Reversed<nat>(Events(Queue(past)) + [|past|])
  {
    var e := Emitted(past, ev, o);
    EndPrints(past, ev, o);
    RowsOfLonger(e, past + [ev], log);
    MapsAreNoRows(past, log);
    RowsInParts(e, CodesOf(OpenMaps(past)), log);
    EndEvents(past, ev, o);
  }

  /** The file has no row event before the blocks are written. */
  lemma {:induction false} FileHasNoRows(past: seq<Event>, log: seq<Event>, o: Options)
    requires o.flashback && past <= log
    ensures RowsIn(Written(past, o).file, log) == []
    decreases past
  {
    if past != [] {
      var n := |past| - 1;
      var front, ev := past[..n], past[n];
      assert past == front + [ev];
      FileHasNoRows(front, log, o);
      FlashbackGains(front, ev, o);
      RowsInAppend(Written(front, o).file, FileGain(front, ev, o), log);
      GainHasNoRows(front, ev, log, o);
    }
  }

  lemma {:induction false} GainHasNoRows(past: seq<Event>, ev: Event, log: seq<Event>, o: Options)
    requires past <= log
    ensures RowsIn(FileGain(past, ev, o), log) == []
  {
    if IsShownMap(ev) {
      NoRowsIn(FileGain(past, ev, o), log);
    } else if IsEnd(ev) && Filtered(past, ev.id) {
      MapsAreNoRows(past, log);
    }
  }

  // ---- Row events in reverse ----

  /** The shown row events of the statement that is open. */
  ghost function Live(past: seq<Event>): seq<nat> {
    if ShownOpen(past) then Events(Queue(past)) else []
  }

  /** What is queued and what is held are the shown row events, from the last to the first. */
  ghost predicate InReverse(past: seq<Event>, log: seq<Event>, o: Options) {
    Accounts(ShownRows(past), Live(past), RowsIn(Backwards(Written(past, o).held), log))
  }

  ghost predicate Accounts(rows: seq<nat>, live: seq<nat>, held: seq<nat>) {
    Reversed(rows) == Reversed(live) + held
  }

  lemma {:induction false} ShownRowsStep(past: seq<Event>, ev: Event)
    ensures ShownRows(past + [ev]) == if IsShownRow(past, ev) then ShownRows(past) + [|past|] else ShownRows(past)
  {
    assert (past + [ev])[..|past|] == past;
    assert ShownRows(past) + [] == ShownRows(past);
  }

  lemma {:induction false} OneMoreLive(rows: seq<nat>, live: seq<nat>, held: seq<nat>, n: nat)
    requires Accounts(rows, live, held)
    ensures Accounts(rows + [n], live + [n], held)
  {
    ReversedAppend<nat>(rows, n);
    ReversedAppend<nat>(live, n);
    Regroup<nat>([n], Reversed(live), held);
  }

  lemma {:induction false} AllHeld(rows: seq<nat>, live: seq<nat>, held: seq<nat>)
    requires Accounts(rows, live, held)
    ensures Accounts(rows, [], Reversed(live) + held)
  {
    assert [] + (Reversed(live) + held) == Reversed(live) + held;
  }

  lemma {:induction false} LiveIsQueue(past: seq<Event>, ev: Event)
    requires Fits(past, ev) && IsShownRow(past, ev)
    ensures Live(past) == Events(Queue(past))
  {
    if !ShownOpen(past) {
      QueueIsEmpty(past);
    }
  }

  /** A shown row event that does not end its statement joins the queue. */
  lemma {:induction false} LiveGrows(past: seq<Event>, ev: Event)
    requires Fits(past, ev) && IsShownRow(past, ev) && !ev.stmtEnd
    ensures Live(past + [ev]) == Live(past) + [|past|]
  {
    LiveIsQueue(past, ev);
    ShownOpenStep(past, ev);
    LogStep(past, ev, FLASHBACK);
    var q := Queue(past);
    assert Events(q + [Item(|past|, q == [])]) == Events(q) + [|past|];
  }

  /** Nothing else changes what is live. */
  lemma {:induction false} LiveStays(past: seq<Event>, ev: Event)
    requires Fits(past, ev) && !IsShownRow(past, ev)
    ensures Live(past + [ev]) == Live(past)
  {
    ShownOpenStep(past, ev);
    LogStep(past, ev, FLASHBACK);
    if ShownOpen(past) {
      ShownIsOpen(past);
    }
  }

  lemma {:induction false} HeldRows(held: seq<seq<Unit>>, b: seq<Unit>, log: seq<Event>)
    ensures RowsIn(Backwards(held + [b]), log) == RowsIn(b, log) + RowsIn(Backwards(held), log)
  {
    BackwardsAppend(held, b);
    RowsInAppend(b, Backwards(held), log);
  }

  lemma {:induction false} HeldAfterEnd(past: seq<Event>, ev: Event, log: seq<Event>, o: Options)
    requires o.flashback && past <= log && past + [ev] <= log && Fits(past, ev) && IsShownRow(past, ev) && ev.stmtEnd
    ensures RowsIn(Backwards(Written(past + [ev], o).held), log)
         == Reversed<nat>(Live(past) + [|past|]) + RowsIn(Backwards(Written(past, o).held), log)
  {
    FlashbackGains(past, ev, o);
    LiveIsQueue(past, ev);
    RowsInBlock(past, ev, log, o);
    HeldRows(Written(past, o).held, Block(past, ev, o), log);
  }

  /** The end of a statement moves what is live to the blocks. */
  lemma {:induction false} EndStep(past: seq<Event>, ev: Event, log: seq<Event>, o: Options)
    requires o.flashback && past <= log && past + [ev] <= log && Fits(past, ev) && InReverse(past, log, o)
    requires IsShownRow(past, ev) && ev.stmtEnd
    ensures InReverse(past + [ev], log, o)
  {
    var rows, live, held := ShownRows(past), Live(past), RowsIn(Backwards(Written(past, o).held), log);
    OneMoreLive(rows, live, held, |past|);
    AllHeld(rows + [|past|], live + [|past|], held);
    ShownRowsStep(past, ev);
    HeldAfterEnd(past, ev, log, o);
    ShownOpenStep(past, ev);
  }

  lemma {:induction false} HeldStays(past: seq<Event>, ev: Event, o: Options)
    requires o.flashback && !(IsShownRow(past, ev) && ev.stmtEnd)
    ensures Written(past + [ev], o).held == Written(past, o).held
  {
    FlashbackGains(past, ev, o);
    assert Written(past, o).held + [] == Written(past, o).held;
  }

  /** Any other shown row event is live until then. */
  lemma {:induction false} RowStep(past: seq<Event>, ev: Event, log: seq<Event>, o: Options)
    requires o.flashback && Fits(past, ev) && InReverse(past, log, o) && IsShownRow(past, ev) && !ev.stmtEnd
    ensures InReverse(past + [ev], log, o)
  {
    var held := Written(past, o).held;
    ShownRowsStep(past, ev);
    OneMoreLive(ShownRows(past), Live(past), RowsIn(Backwards(held), log), |past|);
    HeldStays(past, ev, o);
    LiveGrows(past, ev);
  }

  lemma {:induction false} OtherStep(past: seq<Event>, ev: Event, log: seq<Event>, o: Options)
    requires o.flashback && Fits(past, ev) && !IsShownRow(past, ev) && InReverse(past, log, o)
    ensures InReverse(past + [ev], log, o)
  {
    ShownRowsStep(past, ev);
    LiveStays(past, ev);
    HeldStays(past, ev, o);
  }

  lemma {:induction false} StartInReverse(past: seq<Event>, log: seq<Event>, o: Options)
    requires o.flashback && past <= log && IsRegular(past)
    ensures InReverse(past, log, o)
    decreases past
  {
    if past != [] {
      var n := |past| - 1;
      var front, ev := past[..n], past[n];
      assert past == front + [ev];
      StartInReverse(front, log, o);
      if IsShownRow(front, ev) && ev.stmtEnd {
        EndStep(front, ev, log, o);
      } else if IsShownRow(front, ev) {
        RowStep(front, ev, log, o);
      } else {
        OtherStep(front, ev, log, o);
      }
    }
  }

  /**
    In a log of complete statements, each wholly shown or wholly filtered, flashback writes exactly
    the row events that are not filtered, in the reverse of their order.
  */
  lemma {:induction false} FlashbackReverses(log: seq<Event>, o: Options)
    requires o.flashback && IsRegular(log) && !RowOpen(log)
    ensures RowsIn(FinalFile(log, o), log) == Reversed(ShownRows(log))
  {
    var w := Written(log, o);
    StartInReverse(log, log, o);
    if ShownOpen(log) {
      ShownIsOpen(log);
    }
    FileHasNoRows(log, log, o);
    RowsInAppend(w.file, Backwards(w.held), log);
    assert [] + RowsIn(Backwards(w.held), log) == RowsIn(Backwards(w.held), log);
  }

  // ---- Logs without a filter ----

  ghost predicate Unfiltered(log: seq<Event>) {
    forall i :: 0 <= i < |log| && log[i].TableMap? ==> !log[i].filtered
  }

  /** The maps of a statement stand before its row events. */
  ghost predicate MapsFirst(log: seq<Event>) {
    forall i :: 0 <= i < |log| && log[i].TableMap? ==> !RowOpen(log[..i])
  }

  /** With no filter at all every row event is shown, and maps that come first are all that is asked. */
  lemma {:induction false} UnfilteredIsRegular(log: seq<Event>)
    requires Unfiltered(log) && MapsFirst(log)
    ensures IsRegular(log) && NoneFiltered(log)
    decreases log
  {
    if log != [] {
      var n := |log| - 1;
      var past := log[..n];
      forall i | 0 <= i < n && past[i].TableMap? ensures !RowOpen(past[..i]) {
        assert past[..i] == log[..i];
      }
      UnfilteredIsRegular(past);
      if RowOpen(past) {
        var k: nat :| k < n && past[k].Rows? && OpenFrom(past, k);
        assert IsShownRow(past[..k], past[k]);
      }
      forall k | 0 <= k < |log| && log[k].Rows? ensures !Filtered(log[..k], log[k].id) {
        assert forall j :: 0 <= j < k ==> log[..k][j] == log[j];
      }
    }
  }
}
