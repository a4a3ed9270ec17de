/**
  Row events of a binary log: which of them mysqlbinlog prints, and in which order. An event is
  known by its place in the log.
*/
module BinlogEvents {
  import opened Basics

  datatype Event = Annotate | TableMap(id: nat, filtered: bool) | Rows(id: nat, stmtEnd: bool)

  /** An event as printed, with the statement-end flag it carries then. */
  datatype Item = Item(event: nat, stmtEnd: bool)

  datatype Options = Options(flashback: bool, skipAnnotate: bool)

  predicate IsEnd(ev: Event) {
    ev.Rows? && ev.stmtEnd
  }

  predicate IsShownMap(ev: Event) {
    ev.TableMap? && !ev.filtered
  }

  // ---- What the events so far mean ----

  /** No statement has ended since `j`. */
  ghost predicate OpenFrom(past: seq<Event>, j: nat) {
    forall k :: j <= k < |past| ==> !IsEnd(past[k])
  }

  /** The statement has had a filtered map of this table. */
  ghost predicate Filtered(past: seq<Event>, id: nat) {
    exists j :: 0 <= j < |past| && past[j] == TableMap(id, true) && OpenFrom(past, j)
  }

  /** Annotate event `a` waits: neither another one, nor a map that is shown, nor a statement end has followed. */
  ghost predicate Waits(past: seq<Event>, a: nat) {
    && a < |past| && past[a].Annotate?
    && forall k :: a < k < |past| ==> !past[k].Annotate? && !IsShownMap(past[k]) && !IsEnd(past[k])
  }

  ghost function Waiting(past: seq<Event>, o: Options): Option<nat> {
    if !o.skipAnnotate && exists a :: Waits(past, a) then
      var a :| Waits(past, a); Some(a)
    else None
  }

  /** In flashback: the row events queued, the first of them to end the statement. */
  ghost function Queue(past: seq<Event>): seq<Item> {
    if past == [] then []
    else
      var n := |past| - 1;
      var q := Queue(past[..n]);
      match past[n]
      case Annotate => q
      case TableMap(_, filtered) => if filtered then q else []
      case Rows(id, stmtEnd) => if stmtEnd && !Filtered(past[..n], id) then [] else q + [Item(n, q == [])]
  }

  function Reversed<T>(s: seq<T>): seq<T> {
    if s == [] then [] else [s[|s| - 1]] + Reversed(s[..|s| - 1])
  }

  /** What is printed at an event. */
  ghost function Emitted(past: seq<Event>, ev: Event, o: Options): seq<Item> {
    match ev
    case Annotate => []
    case TableMap(_, filtered) =>
      if filtered then []
      else (match Waiting(past, o) case None => [] case Some(a) => [Item(a, false)]) + [Item(|past|, false)]
    case Rows(id, stmtEnd) =>
      if Filtered(past, id) then []
      else if !o.flashback then [Item(|past|, stmtEnd)]
      else if !stmtEnd then []
      else Reversed(Queue(past) + [Item(|past|, Queue(past) == [])])
  }

  /** Everything printed, in the order it is printed in. */
  ghost function Output(log: seq<Event>, o: Options): seq<Item> {
    if log == [] then []
    else var n := |log| - 1; Output(log[..n], o) + Emitted(log[..n], log[n], o)
  }

  // ---- One more event ----

  lemma {:induction false} FilteredStep(past: seq<Event>, ev: Event, id: nat)
    ensures Filtered(past + [ev], id) <==> !IsEnd(ev) && (Filtered(past, id) || ev == TableMap(id, true))
  {
    var log := past + [ev];
    if !IsEnd(ev) {
      if Filtered(past, id) {
        var j :| 0 <= j < |past| && past[j] == TableMap(id, true) && OpenFrom(past, j);
        assert log[j] == past[j] && OpenFrom(log, j);
      }
      if ev == TableMap(id, true) {
        assert log[|past|] == ev && OpenFrom(log, |past|);
      }
    }
    if Filtered(log, id) {
      var j :| 0 <= j < |log| && log[j] == TableMap(id, true) && OpenFrom(log, j);
      assert !IsEnd(log[|past|]);
      if j < |past| {
        assert past[j] == log[j];
        assert forall k :: j <= k < |past| ==> past[k] == log[k];
        assert OpenFrom(past, j);
      }
    }
  }

  lemma {:induction false} WaitsStep(past: seq<Event>, ev: Event, a: nat)
    ensures Waits(past + [ev], a) <==>
      if ev.Annotate? then a == |past| else Waits(past, a) && !IsShownMap(ev) && !IsEnd(ev)
  {
    var log := past + [ev];
    assert log[|past|] == ev && forall k :: 0 <= k < |past| ==> log[k] == past[k];
  }

  lemma {:induction false} WaitsOnce(past: seq<Event>, a: nat, b: nat)
    requires Waits(past, a) && Waits(past, b)
    ensures a == b
  {
  }

  lemma {:induction false} WaitingIs(past: seq<Event>, o: Options, a: nat)
    requires !o.skipAnnotate && Waits(past, a)
    ensures Waiting(past, o) == Some(a)
  {
    var b: nat :| Waits(past, b) && Waiting(past, o) == Some(b);
    WaitsOnce(past, a, b);
  }

  lemma {:induction false} WaitingStep(past: seq<Event>, ev: Event, o: Options)
    ensures Waiting(past + [ev], o) ==
      if ev.Annotate? && !o.skipAnnotate then Some(|past|)
      else if IsShownMap(ev) || IsEnd(ev) then None
      else Waiting(past, o)
  {
    var log := past + [ev];
    if !o.skipAnnotate {
      forall a ensures Waits(log, a) <==>
          if ev.Annotate? then a == |past| else Waits(past, a) && !IsShownMap(ev) && !IsEnd(ev) {
        WaitsStep(past, ev, a);
      }
      if ev.Annotate? {
        assert Waits(log, |past|);
        WaitingIs(log, o, |past|);
      } else if exists a :: Waits(past, a) {
        var a :| Waits(past, a);
        WaitingIs(past, o, a);
        if Waits(log, a) {
          WaitingIs(log, o, a);
        }
      }
    }
  }

  lemma {:induction false} LogStep(past: seq<Event>, ev: Event, o: Options)
    ensures Output(past + [ev], o) == Output(past, o) + Emitted(past, ev, o)
    ensures Queue(past + [ev]) ==
      if ev.Rows? then
        if ev.stmtEnd && !Filtered(past, ev.id) then [] else Queue(past) + [Item(|past|, Queue(past) == [])]
      else if IsShownMap(ev) then [] else Queue(past)
  {
    var log := past + [ev];
    assert log[..|past|] == past && log[|past|] == ev;
  }

  // ---- Outside flashback ----

  /** Event `e` is printed when event `i` is processed. */
  ghost predicate PrintedAt(log: seq<Event>, e: nat, i: nat, o: Options) {
    i < |log| && Has(Emitted(log[..i], log[i], o), e)
  }

  ghost predicate Has(items: seq<Item>, e: nat) {
    exists p :: 0 <= p < |items| && items[p].event == e
  }

  ghost predicate IsPrinted(log: seq<Event>, e: nat, o: Options) {
    exists i: nat :: PrintedAt(log, e, i, o)
  }

  lemma {:induction false} PrintedAtIs(log: seq<Event>, e: nat, i: nat, o: Options)
    requires !o.flashback && i < |log|
    ensures PrintedAt(log, e, i, o) <==>
      || (e == i && if log[i].Rows? then !Filtered(log[..i], log[i].id) else IsShownMap(log[i]))
      || (!o.skipAnnotate && IsShownMap(log[i]) && Waits(log[..i], e))
  {
    var past := log[..i];
    var out := Emitted(past, log[i], o);
    if IsShownMap(log[i]) {
      if !o.skipAnnotate && exists a :: Waits(past, a) {
        var a :| Waits(past, a);
        WaitingIs(past, o, a);
        assert out == [Item(a, false)] + [Item(i, false)];
        assert out[0].event == a && out[1].event == i;
        if Waits(past, e) {
          WaitsOnce(past, a, e);
        }
      } else {
        assert out == [] + [Item(i, false)];
        assert out[0].event == i;
      }
    } else if log[i].Rows? && !Filtered(past, log[i].id) {
      assert out[0].event == i;
    }
  }

  /** A row event is printed if and only if its statement had no filtered map of its table before it. */
  lemma {:induction false} RowsPrinted(log: seq<Event>, e: nat, o: Options)
    requires !o.flashback && e < |log| && log[e].Rows?
    ensures IsPrinted(log, e, o) <==> !Filtered(log[..e], log[e].id)
  {
    forall i | 0 <= i < |log|
      ensures PrintedAt(log, e, i, o) <==> i == e && !Filtered(log[..e], log[e].id)
    {
      PrintedAtIs(log, e, i, o);
      assert Waits(log[..i], e) ==> log[..i][e] == log[e];
    }
    assert PrintedAt(log, e, e, o) <==> !Filtered(log[..e], log[e].id);
  }

  /** The map that an Annotate event is printed with: the first one shown behind it in its statement. */
  ghost predicate Introduces(log: seq<Event>, a: nat, m: nat) {
    m < |log| && IsShownMap(log[m]) && Waits(log[..m], a)
  }

  /**
    An Annotate event is printed if and only if a map follows in its statement that is shown, before
    any other Annotate event; it is printed there, once, just before the first such map.
  */
  lemma {:induction false} AnnotatePrinted(log: seq<Event>, a: nat, i: nat, o: Options)
    requires !o.flashback && a < |log| && log[a].Annotate? && i < |log|
    ensures PrintedAt(log, a, i, o) <==> !o.skipAnnotate && Introduces(log, a, i)
    ensures PrintedAt(log, a, i, o) ==> Emitted(log[..i], log[i], o) == [Item(a, false), Item(i, false)]
    ensures PrintedAt(log, a, i, o) ==> forall m: nat :: PrintedAt(log, a, m, o) ==> m == i
  {
    PrintedAtIs(log, a, i, o);
    if PrintedAt(log, a, i, o) {
      WaitingIs(log[..i], o, a);
      forall m: nat | PrintedAt(log, a, m, o) ensures m == i {
        PrintedAtIs(log, a, m, o);
      }
    }
  }

  /** No event is printed twice. */
  lemma {:induction false} PrintedOnce(log: seq<Event>, e: nat, i: nat, j: nat, o: Options)
    requires !o.flashback && PrintedAt(log, e, i, o) && PrintedAt(log, e, j, o)
    ensures i == j
  {
    PrintedAtIs(log, e, i, o);
    PrintedAtIs(log, e, j, o);
    if e < |log| && log[e].Annotate? {
      AnnotatePrinted(log, e, i, o);
    }
  }

  lemma {:induction false} PrintedInPrefix(log: seq<Event>, n: nat, e: nat, i: nat, o: Options)
    requires i < n <= |log|
    ensures PrintedAt(log[..n], e, i, o) <==> PrintedAt(log, e, i, o)
  {
    assert log[..n][..i] == log[..i];
  }

  lemma {:induction false} HasAppend(a: seq<Item>, b: seq<Item>, e: nat)
    ensures Has(a + b, e) <==> Has(a, e) || Has(b, e)
  {
    if Has(a, e) {
      var p :| 0 <= p < |a| && a[p].event == e;
      assert (a + b)[p].event == e;
    }
    if Has(b, e) {
      var p :| 0 <= p < |b| && b[p].event == e;
      assert (a + b)[|a| + p].event == e;
    }
  }

  lemma {:induction false} OutputHas(log: seq<Event>, e: nat, o: Options)
    ensures Has(Output(log, o), e) <==> IsPrinted(log, e, o)
  {
    if log != [] {
      var n := |log| - 1;
      OutputHas(log[..n], e, o);
      HasAppend(Output(log[..n], o), Emitted(log[..n], log[n], o), e);
      PrintedSplit(log, e, o);
    }
  }

  lemma {:induction false} PrintedSplit(log: seq<Event>, e: nat, o: Options)
    requires log != []
    ensures var n := |log| - 1;
      IsPrinted(log, e, o) <==> IsPrinted(log[..n], e, o) || Has(Emitted(log[..n], log[n], o), e)
  {
    var n := |log| - 1;
    if IsPrinted(log, e, o) {
      var i: nat :| PrintedAt(log, e, i, o);
      if i < n {
        PrintedInPrefix(log, n, e, i, o);
      }
    }
    if IsPrinted(log[..n], e, o) {
      var i: nat :| PrintedAt(log[..n], e, i, o);
      PrintedInPrefix(log, n, e, i, o);
    }
    assert Has(Emitted(log[..n], log[n], o), e) ==> PrintedAt(log, e, n, o);
  }

  /** The output holds each event that is printed, once, and nothing else. */
  lemma {:induction false} OutputHoldsPrinted(log: seq<Event>, e: nat, o: Options)
    requires !o.flashback
    ensures Has(Output(log, o), e) <==> IsPrinted(log, e, o)
    ensures forall p, q :: 0 <= p < q < |Output(log, o)| ==> Output(log, o)[p].event != Output(log, o)[q].event
  {
    OutputHas(log, e, o);
    forall p, q | 0 <= p < q < |Output(log, o)| ensures Output(log, o)[p].event != Output(log, o)[q].event {
      OutputDistinct(log, p, q, o);
    }
  }

  lemma {:induction false} EmittedDistinct(past: seq<Event>, ev: Event, o: Options, p: nat, q: nat)
    requires !o.flashback && p < q < |Emitted(past, ev, o)|
    ensures Emitted(past, ev, o)[p].event != Emitted(past, ev, o)[q].event
  {
  }

  lemma {:induction false} FrontIsNotLast(log: seq<Event>, e: nat, o: Options)
    requires !o.flashback && log != []
    ensures var n := |log| - 1; !(Has(Output(log[..n], o), e) && Has(Emitted(log[..n], log[n], o), e))
  {
    var n := |log| - 1;
    OutputHas(log[..n], e, o);
    if IsPrinted(log[..n], e, o) && Has(Emitted(log[..n], log[n], o), e) {
      var i: nat :| PrintedAt(log[..n], e, i, o);
      PrintedInPrefix(log, n, e, i, o);
      assert PrintedAt(log, e, n, o);
      PrintedOnce(log, e, i, n, o);
    }
  }

  lemma {:induction false} OutputDistinct(log: seq<Event>, p: nat, q: nat, o: Options)
    requires !o.flashback && p < q < |Output(log, o)|
    ensures Output(log, o)[p].event != Output(log, o)[q].event
    decreases |log|
  {
    var n := |log| - 1;
    var front, last := Output(log[..n], o), Emitted(log[..n], log[n], o);
    if q < |front| {
      OutputDistinct(log[..n], p, q, o);
    } else if p < |front| {
      FrontIsNotLast(log, front[p].event, o);
      assert Has(front, front[p].event) && Has(last, last[q - |front|].event);
    } else {
      EmittedDistinct(log[..n], log[n], o, p - |front|, q - |front|);
    }
  }

  /** When a statement has ended, nothing is ignored and nothing waits. */
  lemma {:induction false} NothingSurvives(past: seq<Event>, ev: Event, id: nat, o: Options)
    requires IsEnd(ev)
    ensures !Filtered(past + [ev], id) && Waiting(past + [ev], o) == None
  {
    FilteredStep(past, ev, id);
    WaitingStep(past, ev, o);
  }

  // ---- The queue of flashback ----

  lemma {:induction false} ReversedAt<T>(s: seq<T>, p: nat)
    requires p < |s|
    ensures |Reversed(s)| == |s| && Reversed(s)[p] == s[|s| - 1 - p]
  {
    var front := s[..|s| - 1];
    if front != [] {
      ReversedAt(front, if p > 0 then p - 1 else 0);
    }
  }

  lemma {:induction false} ReversedAppend<T>(s: seq<T>, x: T)
    ensures Reversed(s + [x]) == [x] + Reversed(s)
  {
    assert (s + [x])[..|s|] == s;
  }

  /** The queue holds row events, and the first of them is to end the statement. */
  lemma {:induction false} QueueHoldsRows(past: seq<Event>, i: nat)
    requires i < |Queue(past)|
    ensures var it := Queue(past)[i]; it.event < |past| && past[it.event].Rows? && (it.stmtEnd <==> i == 0)
  {
    var n := |past| - 1;
    var q := Queue(past[..n]);
    if i < |q| {
      QueueHoldsRows(past[..n], i);
    }
  }

  /** Of the items only the last ends the statement. */
  ghost predicate EndsAtLast(items: seq<Item>) {
    items != [] && forall i :: 0 <= i < |items| ==> (items[i].stmtEnd <==> i == |items| - 1)
  }

  /** All items are row events of the log. */
  ghost predicate AreRows(items: seq<Item>, log: seq<Event>) {
    forall i :: 0 <= i < |items| ==> items[i].event < |log| && log[items[i].event].Rows?
  }

  /** What the end of a statement prints, if it is not filtered: row events, of which only the last ends it. */
  lemma {:induction false} EndPrints(past: seq<Event>, ev: Event, o: Options)
    requires IsEnd(ev) && !Filtered(past, ev.id)
    ensures EndsAtLast(Emitted(past, ev, o)) && AreRows(Emitted(past, ev, o), past + [ev])
  {
    var q := Queue(past);
    var all := q + [Item(|past|, q == [])];
    if o.flashback {
      ReversedAt(all, 0);
      forall p | 0 <= p < |all|
        ensures var it := Reversed(all)[p];
          it.event <= |past| && (past + [ev])[it.event].Rows? && (it.stmtEnd <==> p == |all| - 1)
      {
        ReversedAt(all, p);
        if p > 0 {
          QueueHoldsRows(past, |q| - p);
        }
      }
    }
  }
}
