/**
  The asynchronous connection pool of client/connection_pool.cc, poll() branch.

  all_connections and pollset are vectors of structs, so they are sequences of values here, and
  a `pooled_connection *` is an index into them, as in add_to_pollset.
*/
module ConnectionPool {
  import opened Basics

  /** A call of a completion handler, for a query that a connection carried. */
  datatype Call = Call(conn: nat, handler: nat, query: string, success: bool, context: int)

  /** What the server makes of a query: mysql_send_query fails, or its result can be read, well or not. */
  datatype Answer = Refused | Carried(success: bool)

  /** `success` is what mysql_read_query_result will find for the query that is carried. */
  datatype Connection = Connection(
    fd: nat, handler: Option<nat>, context: int, query: string, success: bool, inUse: bool, releaseConnection: bool)

  /** A pollfd: a disarmed slot has fd -1 and is ignored by poll(). */
  datatype PollFd = PollFd(fd: int, pollIn: bool, revents: bool)

  const Disarmed := PollFd(-1, false, false)

  function CountReady(ps: seq<PollFd>): nat {
    if ps == [] then 0 else (if ps[0].revents then 1 else 0) + CountReady(ps[1..])
  }

  /** What a query owes on a connection: one call, if it has a handler. */
  function CallFor(conn: nat, handler: Option<nat>, query: string, success: bool, context: int): multiset<Call> {
    match handler
    case None => multiset{}
    case Some(h) => multiset{Call(conn, h, query, success, context)}
  }

  /** What a slot's query owes. */
  function Owed(c: Connection, i: nat): multiset<Call> {
    CallFor(i, c.handler, c.query, c.success, c.context)
  }

  /** The calls owed by the first `n` slots. */
  function InFlight(conns: seq<Connection>, ps: seq<PollFd>, n: nat): multiset<Call>
    requires n <= |conns| && n <= |ps|
  {
    if n == 0 then multiset{}
    else InFlight(conns, ps, n - 1) + InSlot(conns[n - 1], ps[n - 1], n - 1)
  }

  /** What slot `i` owes: nothing unless it is armed. */
  function InSlot(c: Connection, p: PollFd, i: nat): multiset<Call> {
    if p.fd >= 0 then Owed(c, i) else multiset{}
  }

  lemma {:induction false} InFlightSame(
    conns: seq<Connection>, ps: seq<PollFd>, conns': seq<Connection>, ps': seq<PollFd>, n: nat)
    requires n <= |conns| && n <= |ps| && n <= |conns'| && n <= |ps'|
    requires forall i :: 0 <= i < n ==> (ps[i].fd >= 0 <==> ps'[i].fd >= 0)
    requires forall i :: 0 <= i < n && ps[i].fd >= 0 ==> Owed(conns[i], i) == Owed(conns'[i], i)
    ensures InFlight(conns, ps, n) == InFlight(conns', ps', n)
  {
    if n > 0 { InFlightSame(conns, ps, conns', ps', n - 1); }
  }

  /** Arming slot `k` adds what its connection owes. */
  lemma {:induction false} InFlightArm(
    conns: seq<Connection>, ps: seq<PollFd>, conns': seq<Connection>, ps': seq<PollFd>, n: nat, k: nat)
    requires n <= |conns| == |conns'| && n <= |ps| == |ps'| && k < n
    requires forall i :: 0 <= i < n && i != k ==> ps[i].fd == ps'[i].fd && conns[i] == conns'[i]
    requires ps[k].fd < 0 && ps'[k].fd >= 0
    ensures InFlight(conns', ps', n) == InFlight(conns, ps, n) + Owed(conns'[k], k)
  {
    if n == k + 1 {
      InFlightSame(conns, ps, conns', ps', k);
      Nothing(InFlight(conns, ps, k));
    } else {
      InFlightArm(conns, ps, conns', ps', n - 1, k);
      Commute(InFlight(conns, ps, n - 1), Owed(conns'[k], k), InSlot(conns[n - 1], ps[n - 1], n - 1));
    }
  }

  lemma {:induction false} InFlightNone(conns: seq<Connection>, ps: seq<PollFd>, n: nat)
    requires n <= |conns| && n <= |ps|
    requires forall i :: 0 <= i < n ==> ps[i].fd < 0
    ensures InFlight(conns, ps, n) == multiset{}
  {
    if n > 0 { InFlightNone(conns, ps, n - 1); }
  }

  function ArmedOf(ps: seq<PollFd>): set<nat> { set i | 0 <= i < |ps| && ps[i].fd >= 0 }

  lemma {:induction false} ArmedShrinks(ps: seq<PollFd>, ps': seq<PollFd>)
    requires |ps| == |ps'| && forall j :: 0 <= j < |ps| ==> ps'[j].fd >= 0 ==> ps[j].fd >= 0
    requires exists j :: 0 <= j < |ps| && ps[j].fd >= 0 && ps'[j].fd < 0
    ensures ArmedOf(ps') < ArmedOf(ps)
  {
    var j :| 0 <= j < |ps| && ps[j].fd >= 0 && ps'[j].fd < 0;
    assert j in ArmedOf(ps) && j !in ArmedOf(ps');
  }

  lemma {:induction false} Nothing(a: multiset<Call>)
    ensures a + multiset{} == a
  {
  }

  lemma {:induction false} SumUp(a: multiset<Call>, b: multiset<Call>, c: multiset<Call>)
    ensures a + (b + c) == a + b + c
  {
  }

  lemma {:induction false} Commute(a: multiset<Call>, b: multiset<Call>, c: multiset<Call>)
    ensures a + b + c == a + c + b
  {
  }

  lemma {:induction false} ReadyNone(ps: seq<PollFd>, i: nat)
    requires CountReady(ps) == 0 && i < |ps|
    ensures !ps[i].revents
  {
    if i > 0 { ReadyNone(ps[1..], i - 1); }
  }

  lemma {:induction false} NoneReady(ps: seq<PollFd>, i: nat)
    requires i <= |ps| && CountReady(ps[i..]) == 0
    ensures forall j :: i <= j < |ps| ==> !ps[j].revents
  {
    forall j | i <= j < |ps| ensures !ps[j].revents {
      ReadyNone(ps[i..], j - i);
    }
  }

  // ---------------------------------------------------------------- counting the free queue

  ghost predicate Distinct(q: seq<nat>) { forall a, b :: 0 <= a < b < |q| ==> q[a] != q[b] }

  function Members(q: seq<nat>): (s: set<nat>)
    ensures forall x :: x in s <==> x in q
  {
    if q == [] then {} else Members(q[..|q| - 1]) + {q[|q| - 1]}
  }

  lemma {:induction false} DistinctSize(q: seq<nat>)
    requires Distinct(q)
    ensures |Members(q)| == |q|
  {
    if q != [] { DistinctSize(q[..|q| - 1]); }
  }

  function Below(n: nat): (s: set<nat>)
    ensures forall i: nat :: i in s <==> i < n
    ensures |s| == n
  {
    if n == 0 then {} else Below(n - 1) + {n - 1}
  }

  lemma {:induction false} AllQueued(q: seq<nat>, n: nat)
    requires Distinct(q) && (forall x :: x in q ==> x < n) && forall i: nat :: i < n ==> i in q
    ensures |q| == n
  {
    DistinctSize(q);
    assert Members(q) == Below(n);
  }

  lemma {:induction false} OneMissing(q: seq<nat>, n: nat, i: nat)
    requires Distinct(q) && (forall x :: x in q ==> x < n) && i < n && i !in q
    ensures |q| < n
  {
    var s, b := Members(q), Below(n);
    DistinctSize(q);
    assert b == s + (b - s) && i in b - s;
  }

  /** A queue of distinct slots below `n` holds them all exactly when it is `n` long. */
  lemma {:induction false} FullQueue(q: seq<nat>, n: nat)
    requires Distinct(q) && forall x :: x in q ==> x < n
    ensures |q| == n <==> forall i: nat :: i < n ==> i in q
  {
    if forall i: nat :: i < n ==> i in q {
      AllQueued(q, n);
    } else {
      var i: nat :| i < n && i !in q;
      OneMissing(q, n, i);
    }
  }

  /** A slot is free, carries a query, or was kept back by a query that asked for it. */
  ghost predicate SlotOk(c: Connection, p: PollFd, free: bool) {
    if p.fd >= 0 then p.fd == c.fd && p.pollIn && c.inUse && !free
    else p == Disarmed && (if free then !c.inUse else c.inUse && !c.releaseConnection)
  }

  ghost predicate Slots(all: seq<Connection>, free: seq<nat>, ps: seq<PollFd>) {
    && |ps| == |all| && Distinct(free) && (forall x :: x in free ==> x < |all|)
    && forall i :: 0 <= i < |all| ==> SlotOk(all[i], ps[i], i in free)
  }

  function NewConnections(fds: seq<nat>): (cs: seq<Connection>)
    ensures |cs| == |fds| && forall i :: 0 <= i < |cs| ==> !cs[i].inUse
  {
    seq(|fds|, i requires 0 <= i < |fds| => Connection(fds[i], None, 0, "", false, false, false))
  }

  function Upto(n: nat): (q: seq<nat>)
    ensures |q| == n && forall i :: 0 <= i < n ==> q[i] == i && i in q
  {
    if n == 0 then [] else Upto(n - 1) + [n - 1]
  }

  function Completed(c: Connection): Connection { c.(inUse := !c.releaseConnection) }

  lemma {:induction false} SlotsComplete(all: seq<Connection>, free: seq<nat>, ps: seq<PollFd>, i: nat)
    requires Slots(all, free, ps) && i < |all| && ps[i].fd >= 0
    ensures Slots(all[i := Completed(all[i])], if all[i].releaseConnection then free + [i] else free, ps[i := Disarmed])
  {
    assert SlotOk(all[i], ps[i], i in free);
  }

  /** What the scan leaves of a slot: one with an event is completed, the others are untouched. */
  ghost predicate Scanned(c: Connection, p: PollFd, c': Connection, p': PollFd) {
    if p.revents then p' == Disarmed && c' == Completed(c) else p' == p && c' == c
  }

  ghost predicate ScannedTo(all: seq<Connection>, ps: seq<PollFd>, all': seq<Connection>, ps': seq<PollFd>, n: nat) {
    && |all| == |ps| == |all'| == |ps'|
    && forall i :: 0 <= i < |ps| ==>
      if i < n then Scanned(all[i], ps[i], all'[i], ps'[i]) else all'[i] == all[i] && ps'[i] == ps[i]
  }

  lemma {:induction false} ScanStep(
    all: seq<Connection>, ps: seq<PollFd>, all': seq<Connection>, ps': seq<PollFd>, n: nat)
    requires ScannedTo(all, ps, all', ps', n) && n < |ps|
    ensures if ps'[n].revents then ScannedTo(all, ps, all'[n := Completed(all'[n])], ps'[n := Disarmed], n + 1)
            else ScannedTo(all, ps, all', ps', n + 1)
  {
  }

  /** A slot is as it was, or was armed and has been completed. */
  ghost predicate SlotAdvanced(c: Connection, p: PollFd, c': Connection, p': PollFd) {
    (p' == p && c' == c) || (p.fd >= 0 && p' == Disarmed && c' == Completed(c))
  }

  /** poll() only fills in the events, and only of armed entries. */
  ghost predicate Polled(p: PollFd, p': PollFd) {
    p' == p.(revents := p'.revents) && (p'.revents ==> p.fd >= 0)
  }

  lemma {:induction false} PollKeepsSlots(all: seq<Connection>, free: seq<nat>, ps: seq<PollFd>, ps': seq<PollFd>)
    requires Slots(all, free, ps) && |ps'| == |ps| && forall i :: 0 <= i < |ps| ==> Polled(ps[i], ps'[i])
    requires forall i :: 0 <= i < |ps| ==> !ps[i].revents
    ensures Slots(all, free, ps') && InFlight(all, ps', |all|) == InFlight(all, ps, |all|)
  {
    InFlightSame(all, ps, all, ps', |all|);
    forall i | 0 <= i < |all| ensures SlotOk(all[i], ps'[i], i in free) {
      assert SlotOk(all[i], ps[i], i in free);
    }
  }

  /** poll() and the scan together. */
  lemma {:induction false} WaitAdvances(
    all: seq<Connection>, ps: seq<PollFd>, polled: seq<PollFd>, all': seq<Connection>, ps': seq<PollFd>)
    requires |all| == |ps| == |polled| == |all'| == |ps'|
    requires forall i :: 0 <= i < |ps| ==> !ps[i].revents && Polled(ps[i], polled[i])
    requires forall i :: 0 <= i < |ps| ==> Scanned(all[i], polled[i], all'[i], ps'[i])
    requires exists i :: 0 <= i < |ps| && polled[i].revents
    ensures forall i :: 0 <= i < |ps| ==> !ps'[i].revents && SlotAdvanced(all[i], ps[i], all'[i], ps'[i])
    ensures ArmedOf(ps') < ArmedOf(ps)
  {
    var i :| 0 <= i < |ps| && polled[i].revents;
    assert ps[i].fd >= 0 && ps'[i].fd < 0;
    ArmedShrinks(ps, ps');
  }

  /** Some connection is free, or will be when its query completes. */
  ghost predicate CanAcquire(all: seq<Connection>, free: seq<nat>, ps: seq<PollFd>)
    requires |ps| == |all|
  {
    free != [] || exists i :: 0 <= i < |all| && ps[i].fd >= 0 && all[i].releaseConnection
  }

  /** No connection is kept back, now or when its query completes. */
  ghost predicate AllReturn(all: seq<Connection>, free: seq<nat>, ps: seq<PollFd>)
    requires |ps| == |all|
  {
    forall i :: 0 <= i < |all| ==> i in free || (ps[i].fd >= 0 && all[i].releaseConnection)
  }

  ghost predicate AllAdvanced(all: seq<Connection>, ps: seq<PollFd>, all': seq<Connection>, ps': seq<PollFd>) {
    && |all| == |ps| == |all'| == |ps'|
    && forall i :: 0 <= i < |ps| ==> SlotAdvanced(all[i], ps[i], all'[i], ps'[i])
  }

  /** Waiting with an empty queue loses no connection that is due to come back. */
  lemma {:induction false} WaitKeepsCanAcquire(
    all: seq<Connection>, ps: seq<PollFd>, all': seq<Connection>, free': seq<nat>, ps': seq<PollFd>)
    requires Slots(all', free', ps') && AllAdvanced(all, ps, all', ps') && CanAcquire(all, [], ps)
    ensures CanAcquire(all', free', ps')
  {
    var i :| 0 <= i < |all| && ps[i].fd >= 0 && all[i].releaseConnection;
    assert SlotAdvanced(all[i], ps[i], all'[i], ps'[i]) && SlotOk(all'[i], ps'[i], i in free');
  }

  lemma {:induction false} WaitKeepsAllReturn(
    all: seq<Connection>, free: seq<nat>, ps: seq<PollFd>, all': seq<Connection>, free': seq<nat>, ps': seq<PollFd>)
    requires Slots(all, free, ps) && Slots(all', free', ps')
    requires AllAdvanced(all, ps, all', ps') && AllReturn(all, free, ps)
    ensures AllReturn(all', free', ps')
  {
    forall i | 0 <= i < |all'| ensures i in free' || (ps'[i].fd >= 0 && all'[i].releaseConnection) {
      assert SlotOk(all[i], ps[i], i in free) && SlotOk(all'[i], ps'[i], i in free');
      assert SlotAdvanced(all[i], ps[i], all'[i], ps'[i]);
    }
  }

  /** Something is armed as long as a connection is missing from the queue. */
  lemma {:induction false} SomeArmed(all: seq<Connection>, free: seq<nat>, ps: seq<PollFd>)
    requires Slots(all, free, ps)
    requires (free == [] && CanAcquire(all, free, ps)) || (|free| != |all| && AllReturn(all, free, ps))
    ensures ArmedOf(ps) != {}
  {
    var i: nat;
    if free == [] && CanAcquire(all, free, ps) {
      i :| i < |all| && ps[i].fd >= 0 && all[i].releaseConnection;
    } else {
      FullQueue(free, |all|);
      i :| i < |all| && i !in free;
    }
    assert i in ArmedOf(ps);
  }

  /** poll(): waits until some armed entries have an event, and says how many. */
  method Poll(ps: seq<PollFd>) returns (ps': seq<PollFd>, n: nat)
    requires ArmedOf(ps) != {}
    ensures |ps'| == |ps| && forall i :: 0 <= i < |ps| ==> Polled(ps[i], ps'[i])
    ensures 0 < n == CountReady(ps')
  {
    var certain: nat :| certain < |ps| && ps[certain].fd >= 0;
    ps', n := ps, 0;
    for i := |ps| downto 0
      invariant |ps'| == |ps| && n == CountReady(ps'[i..]) && (i <= certain ==> 0 < n)
      invariant forall j :: 0 <= j < i ==> ps'[j] == ps[j]
      invariant forall j :: i <= j < |ps| ==> Polled(ps[j], ps'[j])
    {
      var event := *;
      var ready := ps[i].fd >= 0 && (event || i == certain);
      ghost var rest := ps'[i + 1..];
      ps' := ps'[i := ps[i].(revents := ready)];
      n := if ready then n + 1 else n;
      assert ps'[i..][1..] == rest;
    }
    assert ps'[0..] == ps';
  }

  /** A connection whose query was rejected goes to the back of the queue. */
  lemma {:induction false} Requeued(all: seq<Connection>, free: seq<nat>, ps: seq<PollFd>, c: nat, conn: Connection)
    requires Slots(all, [c] + free, ps) && c < |all| && !conn.inUse
    ensures Slots(all[c := conn], free + [c], ps)
    ensures InFlight(all[c := conn], ps, |all|) == InFlight(all, ps, |all|)
    ensures AllReturn(all, [c] + free, ps) ==> AllReturn(all[c := conn], free + [c], ps)
  {
    var all' := all[c := conn];
    RotateQueue(free, c);
    assert c in [c] + free && SlotOk(all[c], ps[c], c in [c] + free);
    InFlightSame(all, ps, all', ps, |all|);
    forall i | 0 <= i < |all| ensures SlotOk(all'[i], ps[i], i in free + [c]) {
      assert i in free + [c] <==> i in [c] + free;
      assert SlotOk(all[i], ps[i], i in [c] + free);
    }
    assert forall i: nat :: i in free + [c] <==> i in [c] + free;
  }

  /** A connection whose query was sent leaves the queue with its slot armed. */
  lemma {:induction false} Sent(all: seq<Connection>, free: seq<nat>, ps: seq<PollFd>, c: nat, conn: Connection)
    requires Slots(all, [c] + free, ps) && c < |all| && conn.inUse
    ensures var all', ps' := all[c := conn], ps[c := PollFd(conn.fd, true, false)];
      && Slots(all', free, ps')
      && InFlight(all', ps', |all|) == InFlight(all, ps, |all|) + Owed(conn, c)
      && (AllReturn(all, [c] + free, ps) && conn.releaseConnection ==> AllReturn(all', free, ps'))
  {
    var all', ps' := all[c := conn], ps[c := PollFd(conn.fd, true, false)];
    RotateQueue(free, c);
    assert c in [c] + free && SlotOk(all[c], ps[c], c in [c] + free);
    InFlightArm(all, ps, all', ps', |all|, c);
    forall i | 0 <= i < |all| ensures SlotOk(all'[i], ps'[i], i in free) {
      assert i in [c] + free <==> i == c || i in free;
      assert SlotOk(all[i], ps[i], i in [c] + free);
    }
    assert forall x :: x in free ==> x in [c] + free;
    if AllReturn(all, [c] + free, ps) && conn.releaseConnection {
      forall i | 0 <= i < |all| ensures i in free || (ps'[i].fd >= 0 && all'[i].releaseConnection) {
        assert i in [c] + free <==> i == c || i in free;
      }
    }
  }

  lemma {:induction false} RotateQueue(q: seq<nat>, c: nat)
    requires Distinct([c] + q)
    ensures Distinct(q) && c !in q && Distinct(q + [c])
    ensures forall x: nat {:trigger x in [c] + q} {:trigger x in q + [c]} ::
      (x in [c] + q <==> x == c || x in q) && (x in q + [c] <==> x == c || x in q)
  {
    assert forall k :: 0 <= k < |q| ==> q[k] == ([c] + q)[k + 1];
    assert ([c] + q)[0] == c;
  }

  /** The books balance: what was accepted is delivered or still in flight. */
  ghost predicate Balanced(all: seq<Connection>, ps: seq<PollFd>, calls: seq<Call>, accepted: multiset<Call>) {
    |ps| == |all| && multiset(calls) + InFlight(all, ps, |all|) == accepted
  }

  ghost predicate Books(
    all: seq<Connection>, free: seq<nat>, ps: seq<PollFd>, calls: seq<Call>, accepted: multiset<Call>)
  {
    Slots(all, free, ps) && Balanced(all, ps, calls, accepted)
  }

  ghost predicate Quiet(ps: seq<PollFd>) {
    forall i :: 0 <= i < |ps| ==> !ps[i].revents
  }

  lemma {:induction false} SentBooks(
    all: seq<Connection>, free: seq<nat>, ps: seq<PollFd>, calls: seq<Call>, accepted: multiset<Call>,
    c: nat, conn: Connection)
    requires Books(all, [c] + free, ps, calls, accepted) && Quiet(ps) && c < |all| && conn.inUse
    ensures var all', ps' := all[c := conn], ps[c := PollFd(conn.fd, true, false)];
      && Books(all', free, ps', calls, accepted + Owed(conn, c)) && Quiet(ps')
      && (AllReturn(all, [c] + free, ps) && conn.releaseConnection ==> AllReturn(all', free, ps'))
  {
    Sent(all, free, ps, c, conn);
    SumUp(multiset(calls), InFlight(all, ps, |all|), Owed(conn, c));
  }

  class Pool {
    var all: seq<Connection>
    var free: seq<nat>                  // the queue, front first
    var pollset: seq<PollFd>
    var calls: seq<Call>          // every handler call so far
    ghost var accepted: multiset<Call>  // every accepted query that has a handler

    ghost predicate Consistent()
      reads this
    {
      Books(all, free, pollset, calls, accepted)
    }

    /** Between two calls no slot has an event left to handle. */
    ghost predicate Valid()
      reads this
    {
      Consistent() && Quiet(pollset)
    }

    ghost function ArmedSet(): set<nat>
      reads this
    {
      ArmedOf(pollset)
    }

    constructor (fds: seq<nat>)
      ensures Valid() && |all| == |fds| && AllReturn(all, free, pollset)
      ensures accepted == multiset{} && calls == []
    {
      all, free, pollset := NewConnections(fds), Upto(|fds|), seq(|fds|, i => Disarmed);
      calls, accepted := [], multiset{};
      new;
      InFlightNone(all, pollset, |all|);
    }

    /** The call of the handler, if there is one. */
    method Deliver(i: nat)
      requires i < |all|
      modifies this`calls
      ensures multiset(calls) == old(multiset(calls)) + Owed(all[i], i)
    {
      var c := all[i];
      if c.handler.Some? {
        calls := calls + [Call(i, c.handler.value, c.query, c.success, c.context)];
      }
    }

    /** The connection goes back to the queue, if its query said so. */
    method Release(i: nat)
      requires |pollset| == |all| && i < |all| && pollset[i] == Disarmed && all[i].inUse
      modifies this`all, this`free
      ensures all == old(all)[i := Completed(old(all)[i])]
      ensures InFlight(all, pollset, |all|) == old(InFlight(all, pollset, |all|))
      ensures free == if old(all)[i].releaseConnection then old(free) + [i] else old(free)
    {
      if all[i].releaseConnection {
        all := all[i := all[i].(inUse := false)];
        free := free + [i];
        InFlightSame(old(all), pollset, all, pollset, |all|);
      }
    }

    /** mysql_read_query_result, the handler's call and the connection's return to the queue. */
    method CompleteQuery(i: nat)
      requires |pollset| == |all| && i < |all| && pollset[i] == Disarmed && all[i].inUse
      requires multiset(calls) + InFlight(all, pollset, |all|) + Owed(all[i], i) == accepted
      modifies this`calls, this`all, this`free
      ensures Balanced(all, pollset, calls, accepted) && all == old(all)[i := Completed(old(all)[i])]
      ensures free == if old(all)[i].releaseConnection then old(free) + [i] else old(free)
    {
      Deliver(i);
      Commute(old(multiset(calls)), InFlight(all, pollset, |all|), Owed(all[i], i));
      Release(i);
    }

    /** The scan's work on one slot with an event. */
    method HandleEvent(i: nat)
      requires Consistent() && i < |pollset| && pollset[i].fd >= 0
      modifies this`pollset, this`calls, this`all, this`free
      ensures Consistent()
      ensures pollset == old(pollset)[i := Disarmed] && all == old(all)[i := Completed(old(all)[i])]
      ensures free == if old(all)[i].releaseConnection then old(free) + [i] else old(free)
    {
      SlotsComplete(all, free, pollset, i);
      assert SlotOk(all[i], pollset[i], i in free);
      pollset := pollset[i := Disarmed];
      InFlightArm(all, pollset, all, old(pollset), |all|, i);
      CompleteQuery(i);
    }

    /** The scan for the `n` slots with an event: it finds them all. */
    method ScanEvents(ready: nat)
      requires Consistent() && ready == CountReady(pollset)
      requires forall i :: 0 <= i < |pollset| && pollset[i].revents ==> pollset[i].fd >= 0
      modifies this`pollset, this`calls, this`all, this`free
      ensures Consistent() && |all| == |old(all)|
      ensures forall i :: 0 <= i < |all| ==> Scanned(old(all)[i], old(pollset)[i], all[i], pollset[i])
      ensures ready > 0 ==> exists i :: 0 <= i < |all| && old(pollset)[i].revents
    {
      var n, i := ready, 0;
      ghost var hit: nat := 0;
      assert pollset[0..] == pollset;
      while n > 0 && i < |pollset|
        invariant 0 <= i <= |pollset| && Consistent() && n == CountReady(pollset[i..])
        invariant ScannedTo(old(all), old(pollset), all, pollset, i)
        invariant n < ready ==> hit < i && old(pollset)[hit].revents
      {
        ghost var later := pollset[i + 1..];
        ScanStep(old(all), old(pollset), all, pollset, i);
        if pollset[i].revents {
          HandleEvent(i);
          n := n - 1;
          hit := i;
        }
        i := i + 1;
        assert pollset[i..] == later;
      }
      // the test of n after the scan never fails
      assert n == 0;
      NoneReady(pollset, i);
    }

    /**
      Waits for events and completes their queries.  At least one query completes, and the scan
      accounts for every event that poll() reported.
    */
    method WaitForCompletions()
      requires Valid() && ArmedSet() != {}
      modifies this`pollset, this`calls, this`all, this`free
      ensures Valid() && ArmedSet() < old(ArmedSet())
      ensures AllAdvanced(old(all), old(pollset), all, pollset)
    {
      var polled, n := Poll(pollset);
      PollKeepsSlots(all, free, pollset, polled);
      pollset := polled;
      ScanEvents(n);
      WaitAdvances(old(all), old(pollset), polled, all, pollset);
    }

    /** One turn of the wait for a connection. */
    method WaitForConnection()
      requires Valid() && CanAcquire(all, free, pollset) && free == []
      modifies this`pollset, this`calls, this`all, this`free
      ensures Valid() && CanAcquire(all, free, pollset) && |all| == |old(all)| && ArmedSet() < old(ArmedSet())
      ensures old(AllReturn(all, free, pollset)) ==> AllReturn(all, free, pollset)
    {
      SomeArmed(all, free, pollset);
      ghost var all0, ps0 := all, pollset;
      WaitForCompletions();
      WaitKeepsCanAcquire(all0, ps0, all, free, pollset);
      if AllReturn(all0, [], ps0) {
        WaitKeepsAllReturn(all0, [], ps0, all, free, pollset);
      }
    }

    /** Takes the connection at the front of the queue, after waiting for one if need be. */
    method GetConnection() returns (c: nat)
      requires Valid() && CanAcquire(all, free, pollset)
      modifies this`pollset, this`calls, this`all, this`free
      ensures Taken(c) && |all| == |old(all)| && !all[c].inUse && accepted == old(accepted)
      ensures old(AllReturn(all, free, pollset)) ==> AllReturn(all, [c] + free, pollset)
    {
      while free == []
        invariant Valid() && CanAcquire(all, free, pollset) && |all| == |old(all)|
        invariant old(AllReturn(all, free, pollset)) ==> AllReturn(all, free, pollset)
        decreases ArmedSet()
      {
        WaitForConnection();
      }
      c := TakeFront();
    }

    method TakeFront() returns (c: nat)
      requires Valid() && free != []
      modifies this`free
      ensures [c] + free == old(free) && Taken(c) && !all[c].inUse
    {
      ghost var queue := free;
      c := free[0];
      free := free[1..];
      assert [c] + free == queue && c in queue;
      assert SlotOk(all[c], pollset[c], c in queue);
    }

    /** A connection has been taken from the front of the queue, and all else is in order. */
    ghost predicate Taken(c: nat)
      reads this
    {
      Books(all, [c] + free, pollset, calls, accepted) && Quiet(pollset) && c < |all|
    }

    /** The query was sent: the connection `c` becomes `conn`, and its slot is armed. */
    method AddToPollset(c: nat, conn: Connection)
      requires Taken(c) && conn.inUse
      modifies this`all, this`pollset, this`accepted
      ensures Valid() && |all| == |old(all)| && accepted == old(accepted) + Owed(conn, c)
      ensures conn.releaseConnection && old(AllReturn(all, [c] + free, pollset)) ==> AllReturn(all, free, pollset)
    {
      SentBooks(all, free, pollset, calls, accepted, c, conn);
      all := all[c := conn];
      pollset := pollset[c := PollFd(conn.fd, true, false)];
      accepted := accepted + Owed(conn, c);
    }

    /** The query was not sent: the connection goes back to the queue. */
    method PutBack(c: nat, conn: Connection)
      requires Taken(c) && !conn.inUse
      modifies this`all, this`free
      ensures Valid() && |all| == |old(all)|
      ensures old(AllReturn(all, [c] + free, pollset)) ==> AllReturn(all, free, pollset)
    {
      Requeued(all, free, pollset, c, conn);
      all := all[c := conn];
      free := free + [c];
    }

    /**
      Sends a query on a free connection; whether mysql_send_query accepts it is up to the server.
      An accepted query owes its handler one call; a rejected one leaves the books as they were.
    */
    method ExecuteAsync(query: string, handler: Option<nat>, context: int, release: bool, answer: Answer)
      returns (ok: bool, conn: nat)
      requires Valid() && CanAcquire(all, free, pollset)
      modifies this
      ensures Valid() && |all| == |old(all)| && conn < |all| && (ok <==> answer.Carried?)
      ensures answer.Refused? ==> accepted == old(accepted)
      ensures answer.Carried? ==> accepted == old(accepted) + CallFor(conn, handler, query, answer.success, context)
      ensures release && old(AllReturn(all, free, pollset)) ==> AllReturn(all, free, pollset)
    {
      conn := GetConnection();
      var c := all[conn].(context := context, handler := handler, releaseConnection := release, query := query);
      match answer {
        case Refused =>
          PutBack(conn, c);
          ok := false;
        case Carried(success) =>
          AddToPollset(conn, c.(inUse := true, success := success));
          ok := true;
      }
    }

    /** Waits until every query is completed and every connection is idle. */
    method WaitAll()
      requires Valid() && AllReturn(all, free, pollset)
      modifies this`pollset, this`calls, this`all, this`free
      ensures Valid() && AllReturn(all, free, pollset) && |all| == |old(all)|
      ensures |free| == |all| && multiset(calls) == accepted
    {
      while |free| != |all|
        invariant Valid() && AllReturn(all, free, pollset) && |all| == |old(all)|
        decreases ArmedSet()
      {
        SomeArmed(all, free, pollset);
        ghost var all0, free0, ps0 := all, free, pollset;
        WaitForCompletions();
        WaitKeepsAllReturn(all0, free0, ps0, all, free, pollset);
      }
      NothingInFlight(all, free, pollset);
    }
  }

  /** With every connection in the queue nothing is in flight. */
  lemma {:induction false} NothingInFlight(all: seq<Connection>, free: seq<nat>, ps: seq<PollFd>)
    requires Slots(all, free, ps) && |free| == |all|
    ensures InFlight(all, ps, |all|) == multiset{}
  {
    FullQueue(free, |all|);
    forall i | 0 <= i < |all| ensures ps[i].fd < 0 {
      assert SlotOk(all[i], ps[i], i in free);
    }
    InFlightNone(all, ps, |all|);
  }

  // ---------------------------------------------------------------- whole runs

  /** A query, with what the server will make of it, or a wait. */
  datatype Op = Submit(query: string, handler: Option<nat>, context: int, answer: Answer) | Wait

  datatype Reply = Accepted(conn: nat) | Rejected | Waited

  /** The answer to an operation: a query is accepted exactly when it could be sent. */
  ghost predicate Answers(op: Op, reply: Reply, size: nat) {
    match reply
    case Waited => op == Wait
    case Rejected => op.Submit? && op.answer == Refused
    case Accepted(conn) => op.Submit? && op.answer.Carried? && conn < size
  }

  /** The call one operation owes, on the connection its query was sent on. */
  function OwedBy(op: Op, reply: Reply): multiset<Call> {
    if op.Submit? && op.answer.Carried? && reply.Accepted? then
      CallFor(reply.conn, op.handler, op.query, op.answer.success, op.context)
    else multiset{}
  }

  /** The calls a run owes: one for each accepted query with a handler. */
  function Expected(ops: seq<Op>, replies: seq<Reply>): multiset<Call>
    requires |ops| == |replies|
  {
    if ops == [] then multiset{}
    else
      var k := |ops| - 1;
      Expected(ops[..k], replies[..k]) + OwedBy(ops[k], replies[k])
  }

  ghost predicate Answered(ops: seq<Op>, replies: seq<Reply>, size: nat) {
    |replies| <= |ops| && forall i :: 0 <= i < |replies| ==> Answers(ops[i], replies[i], size)
  }

  lemma {:induction false} ExpectedStep(ops: seq<Op>, replies: seq<Reply>, i: nat, reply: Reply, size: nat)
    requires |replies| == i < |ops| && Answered(ops, replies, size) && Answers(ops[i], reply, size)
    ensures Answered(ops, replies + [reply], size)
    ensures Expected(ops[..i + 1], replies + [reply]) == Expected(ops[..i], replies) + OwedBy(ops[i], reply)
  {
    assert ops[..i + 1][..i] == ops[..i] && (replies + [reply])[..i] == replies;
  }

  lemma {:induction false} ReturningPoolCanAcquire(all: seq<Connection>, free: seq<nat>, ps: seq<PollFd>)
    requires |ps| == |all| && all != [] && AllReturn(all, free, ps)
    ensures CanAcquire(all, free, ps)
  {
    assert 0 in free || (ps[0].fd >= 0 && all[0].releaseConnection);
  }

  method Perform(pool: Pool, op: Op) returns (reply: Reply)
    requires pool.Valid() && pool.all != [] && AllReturn(pool.all, pool.free, pool.pollset)
    modifies pool
    ensures pool.Valid() && |pool.all| == |old(pool.all)| && AllReturn(pool.all, pool.free, pool.pollset)
    ensures Answers(op, reply, |pool.all|)
    ensures pool.accepted == old(pool.accepted) + OwedBy(op, reply)
  {
    match op {
      case Wait =>
        pool.WaitAll();
        reply := Waited;
      case Submit(query, handler, context, answer) =>
        ReturningPoolCanAcquire(pool.all, pool.free, pool.pollset);
        var ok, conn := pool.ExecuteAsync(query, handler, context, true, answer);
        reply := if ok then Accepted(conn) else Rejected;
    }
  }

  /**
    Any run of submits and waits, ended by a wait, for every server: a query is accepted exactly
    when the server takes it, each accepted query has its handler called exactly once, with its own
    text, result, context and connection, and no other call is made.
  */
  method RunWorkload(fds: seq<nat>, ops: seq<Op>) returns (replies: seq<Reply>, calls: seq<Call>)
    requires fds != []
    ensures |replies| == |ops| && Answered(ops, replies, |fds|)
    ensures multiset(calls) == Expected(ops, replies)
  {
    var pool := new Pool(fds);
    replies := [];
    for i := 0 to |ops|
      invariant fresh(pool) && pool.Valid() && |pool.all| == |fds| && AllReturn(pool.all, pool.free, pool.pollset)
      invariant |replies| == i && pool.accepted == Expected(ops[..i], replies)
      invariant Answered(ops, replies, |fds|)
    {
      var reply := Perform(pool, ops[i]);
      ExpectedStep(ops, replies, i, reply, |fds|);
      replies := replies + [reply];
    }
    pool.WaitAll();
    assert ops[..|ops|] == ops;
    calls := pool.calls;
  }
}
