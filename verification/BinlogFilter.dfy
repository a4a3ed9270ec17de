/** The state mysqlbinlog keeps between row events, changed event by event. */
module BinlogFilter {
  import opened Basics
  import opened BinlogEvents
  import opened BinlogWriter

  /** The state is what the events so far mean. */
  ghost predicate Means(kept: Option<nat>, ignored: set<nat>, queue: seq<Item>, s: Sinks, log: seq<Event>, o: Options) {
    && kept == Waiting(log, o)
    && (forall id :: id in ignored <==> Filtered(log, id))
    && queue == (if o.flashback then Queue(log) else [])
    && s == Written(log, o)
  }

  /** What each event makes of the Annotate event that waits. */
  function KeptAfter(kept: Option<nat>, n: nat, ev: Event, o: Options): Option<nat> {
    if ev.Annotate? && !o.skipAnnotate then Some(n)
    else if IsShownMap(ev) || IsEnd(ev) then None
    else kept
  }

  function IgnoredAfter(ignored: set<nat>, ev: Event): set<nat> {
    if IsEnd(ev) then {} else if ev.TableMap? && ev.filtered then ignored + {ev.id} else ignored
  }

  function QueueAfter(queue: seq<Item>, ignored: set<nat>, n: nat, ev: Event, o: Options): seq<Item> {
    if !o.flashback then queue
    else if ev.Rows? then if ev.stmtEnd && ev.id !in ignored then [] else queue + [Item(n, queue == [])]
    else if IsShownMap(ev) then [] else queue
  }

  lemma {:induction false} MeansStep(kept: Option<nat>, ignored: set<nat>, queue: seq<Item>, s: Sinks, log: seq<Event>,
                                     ev: Event, o: Options)
    requires Means(kept, ignored, queue, s, log, o)
    ensures Means(KeptAfter(kept, |log|, ev, o), IgnoredAfter(ignored, ev), QueueAfter(queue, ignored, |log|, ev, o),
                  Kept(WithEvent(s, log, ev, o), o), log + [ev], o)
  {
    LogStep(log, ev, o);
    WaitingStep(log, ev, o);
    WrittenStep(log, ev, o);
    forall id ensures id in IgnoredAfter(ignored, ev) <==> Filtered(log + [ev], id) {
      FilteredStep(log, ev, id);
    }
  }

  class EventFilter {
    const o: Options
    var annotateEvent: Option<nat>      // the Annotate event that waits to be printed
    var ignored: map<nat, nat>          // m_table_map_ignored: filtered maps of the statement
    var eventsInStmt: seq<Item>         // flashback: row events to be printed in reverse
    var headCache: seq<Unit>
    var bodyCache: seq<Unit>
    var outputBuf: seq<Unit>            // of the event at hand
    var binlogEvents: seq<seq<Unit>>    // flashback: the output of events, held
    var output: seq<Unit>               // the result file
    ghost var log: seq<Event>

    ghost function Abs(): Sinks
      reads this
    {
      Sinks(headCache, bodyCache, output, outputBuf, binlogEvents)
    }

    ghost predicate Valid()
      reads this
    {
      Means(annotateEvent, ignored.Keys, eventsInStmt, Abs(), log, o)
    }

    constructor (options: Options)
      ensures Valid() && log == [] && o == options
    {
      o := options;
      annotateEvent, ignored, eventsInStmt, log := None, map[], [], [];
      headCache, bodyCache, outputBuf, binlogEvents, output := [], [], [], [], [];
    }

    /** The output of an event is held in flashback, and written otherwise. */
    method Hold()
      modifies this`outputBuf, this`binlogEvents, this`output
      ensures Abs() == Kept(old(Abs()), o)
    {
      if outputBuf != [] {
        if o.flashback {
          binlogEvents := binlogEvents + [outputBuf];
        } else {
          output := output + outputBuf;
        }
        outputBuf := [];
      }
    }

    method FreeAnnotateEvent()
      modifies this`annotateEvent
      ensures annotateEvent == None
    {
      annotateEvent := None;
    }

    method KeepAnnotateEvent(n: nat)
      modifies this`annotateEvent
      ensures annotateEvent == Some(n)
    {
      FreeAnnotateEvent();
      annotateEvent := Some(n);
    }

    method PrintAnnotateEvent()
      modifies this`annotateEvent, this`headCache
      ensures annotateEvent == None && headCache == old(headCache) + NotesFor(old(annotateEvent))
    {
      if annotateEvent != None {
        headCache := headCache + [Note(annotateEvent.value)];
        FreeAnnotateEvent();
      }
    }

    /** Table_map_log_event::print: the comments go to the file at once, the encoded map waits. */
    method PrintTableMap(n: nat)
      modifies this`headCache, this`bodyCache, this`output
      ensures headCache == [] && bodyCache == old(bodyCache) + [Code(n, false)]
      ensures output == old(output) + (old(headCache) + [Note(n)])
    {
      headCache := headCache + [Note(n)];
      bodyCache := bodyCache + [Code(n, false)];
      output := output + headCache;
      headCache := [];
    }

    /** A table map: filtered, it is remembered for the row events of the statement; else it is printed. */
    method ProcessTableMap(id: nat, filtered: bool, n: nat)
      modifies this`annotateEvent, this`ignored, this`eventsInStmt, this`headCache, this`bodyCache, this`output
      ensures annotateEvent == if filtered then old(annotateEvent) else None
      ensures ignored == if filtered then old(ignored)[id := n] else old(ignored)
      ensures eventsInStmt == if filtered || !o.flashback then old(eventsInStmt) else []
      ensures Abs() == if filtered then old(Abs()) else WithMap(old(Abs()), old(annotateEvent), n)
    {
      if filtered {
        ignored := ignored[id := n];
        return;
      }
      PrintAnnotateEvent();
      PrintTableMap(n);
      if o.flashback {
        eventsInStmt := [];
      }
    }

    method FlushCaches()
      modifies this`headCache, this`bodyCache, this`output
      ensures Abs() == Flushed(old(Abs()))
    {
      output := output + headCache;
      output := output + bodyCache;
      headCache, bodyCache := [], [];
    }

    /** Rows_log_event::print_helper: the event that ends the statement empties the caches. */
    method PrintRows(it: Item)
      modifies this`headCache, this`bodyCache, this`output, this`outputBuf
      ensures Abs() == WithRow(old(Abs()), it, o)
    {
      headCache := headCache + [Note(it.event)];
      bodyCache := bodyCache + [Code(it.event, it.stmtEnd)];
      if it.stmtEnd {
        if !o.flashback {
          FlushCaches();
        } else {
          outputBuf := outputBuf + headCache + bodyCache;
          headCache, bodyCache := [], [];
        }
      }
    }

    /** The queued events, last to first. */
    method PrintQueue()
      modifies this`headCache, this`bodyCache, this`output, this`outputBuf
      ensures Abs() == WithRows(old(Abs()), Reversed(eventsInStmt), o)
    {
      ghost var all := Reversed(eventsInStmt);
      ghost var s := Abs();
      assert eventsInStmt != [] ==> |all| == |eventsInStmt| by {
        if eventsInStmt != [] {
          ReversedAt(eventsInStmt, 0);
        }
      }
      for i := |eventsInStmt| downto 0
        invariant |all| == |eventsInStmt| && Abs() == WithRows(s, all[..|all| - i], o)
      {
        ReversedAt(eventsInStmt, |eventsInStmt| - 1 - i);
        ghost var k := |all| - i;
        assert all[..k][..k - 1] == all[..k - 1] && all[..k][k - 1] == eventsInStmt[i];
        PrintRows(eventsInStmt[i]);
      }
      assert all[..|all|] == all;
    }

    /** In flashback every row event is queued, and only the first keeps or gets the flag. */
    method Enqueue(isStmtEnd: bool, n: nat)
      modifies this`eventsInStmt
      ensures eventsInStmt == old(eventsInStmt) + [Item(n, old(eventsInStmt) == [])]
    {
      var flag := isStmtEnd;
      if isStmtEnd {
        flag := false;
      }
      if |eventsInStmt| == 0 {
        flag := true;
      }
      eventsInStmt := eventsInStmt + [Item(n, flag)];
    }

    /** The end of a statement: nothing that was kept for it stays. */
    method EndStatement(skipEvent: bool)
      modifies this`annotateEvent, this`ignored, this`headCache, this`bodyCache, this`output
      ensures annotateEvent == None && ignored == map[]
      ensures Abs() == if skipEvent then Flushed(old(Abs())) else old(Abs())
    {
      if |ignored| > 0 {
        ignored := map[];
      }
      FreeAnnotateEvent();
      if skipEvent {
        FlushCaches();
      }
    }

    /** print_row_event. */
    method PrintRowEvent(id: nat, isStmtEnd: bool, n: nat)
      requires Valid() && n == |log|
      modifies this`annotateEvent, this`ignored, this`eventsInStmt
      modifies this`headCache, this`bodyCache, this`output, this`outputBuf
      ensures annotateEvent == if isStmtEnd then None else old(annotateEvent)
      ensures ignored == if isStmtEnd then map[] else old(ignored)
      ensures eventsInStmt == QueueAfter(old(eventsInStmt), old(ignored).Keys, n, Rows(id, isStmtEnd), o)
      ensures Abs() == WithEvent(old(Abs()), log, Rows(id, isStmtEnd), o)
    {
      var skipEvent := id in ignored;
      if o.flashback {
        Enqueue(isStmtEnd, n);
      }
      if isStmtEnd {
        EndStatement(skipEvent);
      }
      if skipEvent {
        return;
      }
      if !o.flashback {
        OneRow(Abs(), Item(n, isStmtEnd), o);
        PrintRows(Item(n, isStmtEnd));
      } else if isStmtEnd {
        PrintQueue();
        eventsInStmt := [];
      }
    }

    /** The case of process_event for an event. */
    method HandleEvent(ev: Event, n: nat)
      requires Valid() && n == |log|
      modifies this`annotateEvent, this`ignored, this`eventsInStmt
      modifies this`headCache, this`bodyCache, this`output, this`outputBuf
      ensures annotateEvent == KeptAfter(old(annotateEvent), n, ev, o)
      ensures ignored.Keys == IgnoredAfter(old(ignored).Keys, ev)
      ensures eventsInStmt == QueueAfter(old(eventsInStmt), old(ignored).Keys, n, ev, o)
      ensures Abs() == WithEvent(old(Abs()), log, ev, o)
    {
      if ev.Annotate? {
        if !o.skipAnnotate {
          KeepAnnotateEvent(n);
        }
      } else if ev.TableMap? {
        ProcessTableMap(ev.id, ev.filtered, n);
      } else {
        PrintRowEvent(ev.id, ev.stmtEnd, n);
      }
    }

    /** process_event, for the event at place `n` of the log. */
    method ProcessEvent(ev: Event, n: nat)
      requires Valid() && n == |log|
      modifies this
      ensures Valid() && log == old(log) + [ev]
    {
      MeansStep(annotateEvent, ignored.Keys, eventsInStmt, Abs(), log, ev, o);
      HandleEvent(ev, n);
      Hold();
      assert Means(annotateEvent, ignored.Keys, eventsInStmt, Abs(), log + [ev], o);
      log := log + [ev];
    }

    /** The end of a run: in flashback, what was held is written from the last event to the first. */
    method Finish()
      requires Valid()
      modifies this`output
      ensures output == FinalFile(log, o)
    {
      if o.flashback {
        ghost var all := Backwards(binlogEvents);
        assert binlogEvents[..|binlogEvents|] == binlogEvents;
        assert output + all == FinalFile(log, o);
        for i := |binlogEvents| downto 0
          invariant output + Backwards(binlogEvents[..i]) == FinalFile(log, o)
        {
          assert binlogEvents[..i + 1][..i] == binlogEvents[..i];
          Regroup(output, binlogEvents[i], Backwards(binlogEvents[..i]));
          output := output + binlogEvents[i];
        }
      }
    }
  }

  lemma {:induction false} OneRow(s: Sinks, it: Item, o: Options)
    ensures WithRows(s, [it], o) == WithRow(s, it, o)
  {
    assert [it][..0] == [];
    assert WithRows(s, [], o) == s;
  }

  /** `done` is the first `n` events of a log. */
  ghost predicate IsStart(done: seq<Event>, log: seq<Event>, n: nat) {
    |done| == n <= |log| && forall k :: 0 <= k < n ==> done[k] == log[k]
  }

  lemma {:induction false} IsStartStep(done: seq<Event>, log: seq<Event>, n: nat)
    requires IsStart(done, log, n) && n < |log|
    ensures IsStart(done + [log[n]], log, n + 1)
  {
  }

  lemma {:induction false} IsStartEnd(done: seq<Event>, log: seq<Event>)
    requires IsStart(done, log, |log|)
    ensures done == log
  {
  }

  /** All events of a log, in order. */
  method ProcessAll(f: EventFilter, log: seq<Event>)
    requires f.Valid() && f.log == []
    modifies f
    ensures f.Valid() && f.log == log
  {
    for n := 0 to |log|
      invariant f.Valid() && IsStart(f.log, log, n)
    {
      IsStartStep(f.log, log, n);
      f.ProcessEvent(log[n], n);
    }
    IsStartEnd(f.log, log);
  }

  /** A whole run over a log. */
  method Dump(log: seq<Event>, o: Options) returns (output: seq<Unit>)
    ensures output == FinalFile(log, o)
  {
    var f := new EventFilter(o);
    ProcessAll(f, log);
    f.Finish();
    output := f.output;
  }
}
