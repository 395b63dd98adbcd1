/**
 * The queue of outgoing connection attempts. Every method below is one stretch of code that runs under the
 * queue's lock; callbacks run between such stretches and may start any of them, so a run is any sequence of
 * these steps.
 */
module ConnectionQueues {
  import opened Arith

  /** `Never` is the far end of time. */
  datatype Time = At(t: int) | Never

  predicate Earlier(a: Time, b: Time) {
    a.At? && (b.At? ==> a.t < b.t)
  }

  datatype Entry = Entry(ticket: int, connecting: bool, expires: Time, timeout: int, priority: int)

  ghost function Tickets(q: seq<Entry>): (r: seq<int>)
    ensures |r| == |q| && forall i :: 0 <= i < |q| ==> r[i] == q[i].ticket
  {
    seq(|q|, i requires 0 <= i < |q| => q[i].ticket)
  }

  ghost function Connecting(q: seq<Entry>): int {
    if q == [] then 0 else Connecting(q[..|q| - 1]) + (if q[|q| - 1].connecting then 1 else 0)
  }

  predicate Expired(e: Entry, now: Time) {
    e.connecting && Earlier(e.expires, now)
  }

  /** The entries that a timeout at `now` leaves in the queue, and those it takes out. */
  ghost function Kept(q: seq<Entry>, now: Time): seq<Entry> {
    if q == [] then [] else Kept(q[..|q| - 1], now) + (if Expired(q[|q| - 1], now) then [] else [q[|q| - 1]])
  }

  ghost function TimedOut(q: seq<Entry>, now: Time): seq<Entry> {
    if q == [] then [] else TimedOut(q[..|q| - 1], now) + (if Expired(q[|q| - 1], now) then [q[|q| - 1]] else [])
  }

  function Without(q: seq<Entry>, i: int): (r: seq<Entry>)
    requires 0 <= i < |q|
    ensures |r| == |q| - 1
    ensures forall j :: 0 <= j < |r| ==> r[j] == q[if j < i then j else j + 1]
  {
    q[..i] + q[i + 1..]
  }

  // ----- counting -----

  lemma {:induction false} ConnectingJoin(a: seq<Entry>, b: seq<Entry>)
    ensures Connecting(a + b) == Connecting(a) + Connecting(b)
  {
    if b == [] {
      assert a + b == a;
    } else {
      var n := |b| - 1;
      ConnectingJoin(a, b[..n]);
      assert (a + b)[..|a| + n] == a + b[..n];
    }
  }

  lemma ConnectingOne(e: Entry)
    ensures Connecting([e]) == if e.connecting then 1 else 0
  {
    assert [e][..0] == [];
  }

  lemma ConnectingWithout(q: seq<Entry>, i: int)
    requires 0 <= i < |q|
    ensures Connecting(q) == Connecting(Without(q, i)) + (if q[i].connecting then 1 else 0)
  {
    hide Connecting;
    var a, b, e := q[..i], q[i + 1..], q[i];
    CutAround(q, i);
    ConnectingJoin(a + [e], b);
    ConnectingJoin(a, [e]);
    ConnectingOne(e);
    ConnectingJoin(a, b);
  }

  lemma CutAround(q: seq<Entry>, i: int)
    requires 0 <= i < |q|
    ensures q == q[..i] + [q[i]] + q[i + 1..]
  {
  }

  lemma ConnectingReplaced(q: seq<Entry>, i: int, e: Entry)
    requires 0 <= i < |q|
    ensures Connecting(q[i := e]) ==
            Connecting(q) - (if q[i].connecting then 1 else 0) + (if e.connecting then 1 else 0)
  {
    hide Connecting, Without;
    ConnectingWithout(q, i);
    ConnectingWithout(q[i := e], i);
    assert Without(q[i := e], i) == Without(q, i);
  }

  lemma TicketsJoin(a: seq<Entry>, b: seq<Entry>)
    ensures multiset(Tickets(a + b)) == multiset(Tickets(a)) + multiset(Tickets(b))
  {
    hide Tickets;
    assert Tickets(a + b) == Tickets(a) + Tickets(b);
  }

  lemma TicketsOne(e: Entry)
    ensures multiset(Tickets([e])) == multiset{e.ticket}
  {
    hide Tickets;
    assert Tickets([e]) == [e.ticket];
  }

  lemma TicketsWithout(q: seq<Entry>, i: int)
    requires 0 <= i < |q|
    ensures multiset(Tickets(q)) == multiset(Tickets(Without(q, i))) + multiset{q[i].ticket}
  {
    hide Tickets;
    assert q == q[..i] + [q[i]] + q[i + 1..];
    TicketsJoin(q[..i] + [q[i]], q[i + 1..]);
    TicketsJoin(q[..i], [q[i]]);
    TicketsOne(q[i]);
    TicketsJoin(q[..i], q[i + 1..]);
  }

  /** Every ticket from 0 to n - 1 occurs once and nothing else does. */
  ghost predicate EachOnce(m: multiset<int>, n: int) {
    forall t :: m[t] == if 0 <= t < n then 1 else 0
  }

  /** Tickets in the queue are connecting just when on_connect was called or is about to be. */
  ghost predicate Marked(q: seq<Entry>, connects: multiset<int>) {
    forall i :: 0 <= i < |q| ==> (q[i].connecting <==> q[i].ticket in connects)
  }

  ghost predicate AtMostOnce(m: multiset<int>, n: int) {
    forall t :: m[t] <= 1 && (t in m ==> 0 <= t < n)
  }

  class ConnectionQueue {
    var queue: seq<Entry>
    var nextTicket: int
    var numConnecting: int
    var halfOpenLimit: int
    var abort: bool
    /** Tickets taken out by `done`, for which on_timeout is or will be called, for which on_connect is or will be. */
    ghost var finished: multiset<int>
    ghost var timeouts: multiset<int>
    ghost var connects: multiset<int>

    /** Every ticket given out is queued, finished or timed out, exactly once. */
    ghost predicate Valid()
      reads this`queue, this`nextTicket, this`numConnecting, this`halfOpenLimit, this`finished, this`timeouts,
          this`connects
    {
      && nextTicket >= 0 && halfOpenLimit >= 0
      && numConnecting == Connecting(queue)
      && EachOnce(multiset(Tickets(queue)) + (finished + timeouts), nextTicket)
      && AtMostOnce(connects, nextTicket) && Marked(queue, connects)
    }

    constructor ()
      ensures Valid() && queue == [] && nextTicket == 0
    {
      queue, nextTicket, numConnecting, halfOpenLimit, abort := [], 0, 0, 0, false;
      finished, timeouts, connects := multiset{}, multiset{}, multiset{};
    }

    method Enqueue(timeout: int, priority: int)
      requires Valid() && (priority == 0 || priority == 1)
      modifies this`queue, this`nextTicket
      ensures Valid() && nextTicket == old(nextTicket) + 1
      ensures var e := Entry(old(nextTicket), false, Never, timeout, priority);
              queue == if priority == 0 then old(queue) + [e] else [e] + old(queue)
    {
      hide Connecting, Tickets, EachOnce, Marked;
      var e := Entry(nextTicket, false, Never, timeout, priority);
      NewTicket(multiset(Tickets(queue)) + (finished + timeouts), nextTicket);
      ConnectingOne(e);
      TicketsOne(e);
      NewMark(queue, connects, nextTicket, e);
      if priority == 0 {
        ConnectingJoin(queue, [e]);
        TicketsJoin(queue, [e]);
        queue := queue + [e];
      } else {
        ConnectingJoin([e], queue);
        TicketsJoin([e], queue);
        queue := [e] + queue;
      }
      assert multiset(Tickets(queue)) + (finished + timeouts)
          == multiset(Tickets(old(queue))) + (finished + timeouts) + multiset{nextTicket};
      nextTicket := nextTicket + 1;
    }

    /** The position of a ticket in the queue, or its length. */
    method Find(ticket: int) returns (i: nat)
      ensures i <= |queue| && (i < |queue| ==> queue[i].ticket == ticket)
      ensures forall j :: 0 <= j < i ==> queue[j].ticket != ticket
    {
      i := 0;
      while i < |queue| && queue[i].ticket != ticket
        invariant i <= |queue| && forall j :: 0 <= j < i ==> queue[j].ticket != ticket
      {
        i := i + 1;
      }
    }

    /** Takes the attempt out of the queue, if it is still there. */
    method Done(ticket: int)
      requires Valid()
      modifies this`queue, this`numConnecting, this`finished
      ensures Valid() && numConnecting <= old(numConnecting)
      ensures forall j :: 0 <= j < |queue| ==> queue[j].ticket != ticket
      ensures (forall j :: 0 <= j < |old(queue)| ==> old(queue)[j].ticket != ticket) ==>
              queue == old(queue) && finished == old(finished)
      ensures forall i :: 0 <= i < |old(queue)| && old(queue)[i].ticket == ticket ==>
                            queue == Without(old(queue), i) && finished == old(finished) + multiset{ticket}
    {
      hide Connecting, Tickets, EachOnce, Without;
      var i := Find(ticket);
      if i == |queue| { return; }
      ConnectingWithout(queue, i);
      Leaves(queue, i, finished + timeouts, nextTicket);
      TicketIsUnique(queue, finished + timeouts, nextTicket, i);
      if queue[i].connecting { numConnecting := numConnecting - 1; }
      queue, finished := Without(queue, i), finished + multiset{ticket};
      assert finished + timeouts == old(finished) + timeouts + multiset{ticket};
    }

    /** One round of `close`: the first attempt, if any, leaves the queue and its on_timeout is called. */
    method CloseOne() returns (more: bool)
      requires Valid()
      modifies this`queue, this`numConnecting, this`timeouts, this`abort
      ensures Valid() && abort && more == (old(queue) != []) && numConnecting <= old(numConnecting)
      ensures more ==> queue == old(queue)[1..] && timeouts == old(timeouts) + multiset{old(queue)[0].ticket}
      ensures !more ==> queue == [] && timeouts == old(timeouts)
    {
      hide Valid, Without;
      abort := true;
      if queue == [] { return false; }
      assert Without(queue, 0) == queue[1..];
      TakeOut(0);
      return true;
    }

    method Limit(limit: int)
      requires Valid() && limit >= 0
      modifies this`halfOpenLimit
      ensures Valid() && halfOpenLimit == limit
    {
      halfOpenLimit := limit;
    }

    /** Marks attempt `i` as connecting; its on_connect will be called. */
    method Start(i: nat, expire: Time)
      requires Valid() && i < |queue| && !queue[i].connecting
      modifies this`queue, this`numConnecting, this`connects
      ensures Valid() && numConnecting == old(numConnecting) + 1
      ensures queue == old(queue)[i := old(queue)[i].(connecting := true, expires := expire)]
      ensures connects == old(connects) + multiset{old(queue)[i].ticket}
    {
      hide Connecting, Tickets, EachOnce;
      var e := queue[i].(connecting := true, expires := expire);
      ConnectingReplaced(queue, i, e);
      assert Tickets(queue[i := e]) == Tickets(queue);
      TicketIsUnique(queue, finished + timeouts, nextTicket, i);
      queue, numConnecting, connects := queue[i := e], numConnecting + 1, connects + multiset{e.ticket};
    }

    /**
     * Starts waiting attempts, first in the queue first, until the limit is reached; `started` are their
     * tickets, in order. Each expires its own timeout after `now`.
     */
    method TryConnect(now: int) returns (started: seq<int>)
      requires Valid()
      modifies this`queue, this`numConnecting, this`connects
      ensures Valid() && connects == old(connects) + multiset(started)
      ensures halfOpenLimit > 0 ==> numConnecting <= Max(old(numConnecting), halfOpenLimit)
      ensures |queue| == |old(queue)| && forall j :: 0 <= j < |queue| ==> queue[j].ticket == old(queue)[j].ticket
      ensures !abort && (halfOpenLimit == 0 || numConnecting < halfOpenLimit) ==> forall j :: 0 <= j < |queue| ==>
              queue[j].connecting
      ensures exists k :: StartedPrefix(old(queue), queue, k, now) && started == Waiting(old(queue)[..k])
    {
      hide Valid, StartedPrefix, Waiting;
      started := [];
      NoneStarted(queue, now);
      if abort || (numConnecting >= halfOpenLimit && halfOpenLimit > 0) || queue == [] { return; }
      var i := 0;
      while i < |queue|
        invariant 0 <= i <= |queue| == |old(queue)| && Valid() && connects == old(connects) + multiset(started)
        invariant StartedPrefix(old(queue), queue, i, now) && started == Waiting(old(queue)[..i])
        invariant i < |queue| && halfOpenLimit > 0 ==> numConnecting < halfOpenLimit
        invariant halfOpenLimit > 0 ==> numConnecting <= Max(old(numConnecting), halfOpenLimit)
      {
        OneStarted(old(queue), queue, i, now);
        if !queue[i].connecting {
          Start(i, At(now + queue[i].timeout));
          started := started + [queue[i].ticket];
          if numConnecting >= halfOpenLimit && halfOpenLimit > 0 {
            StartedKept(old(queue), queue, i + 1, now);
            return;
          }
        }
        i := i + 1;
      }
      StartedKept(old(queue), queue, i, now);
    }

    /** The timer's turn: attempts whose time is up leave the queue; returns the next time to wait for. */
    method OnTimeout(now: Time) returns (nextExpire: Time)
      requires Valid()
      modifies this`queue, this`numConnecting, this`timeouts
      ensures Valid() && queue == Kept(old(queue), now) && numConnecting <= old(numConnecting)
      ensures timeouts == old(timeouts) + multiset(Tickets(TimedOut(old(queue), now)))
      ensures NextOk(queue, |queue|, nextExpire)
    {
      hide Valid, Tickets, Without, Kept, TimedOut, Scanned, NextOk;
      nextExpire := Never;
      var i := 0;
      ghost var n := 0;
      NothingScanned(queue, now);
      while i < |queue|
        invariant 0 <= n <= |old(queue)| && 0 <= i <= |queue| && Valid() && Scanned(old(queue), n, queue, i, now)
        invariant timeouts == old(timeouts) + multiset(Tickets(TimedOut(old(queue)[..n], now)))
        invariant NextOk(queue, i, nextExpire) && numConnecting <= old(numConnecting)
        decreases |queue| - i
      {
        ScanOne(old(queue), n, queue, i, now);
        n := n + 1;
        if Expired(queue[i], now) {
          WithoutScanned(queue, i, nextExpire);
          TakeOut(i);
          continue;
        }
        NextUpdated(queue, i, nextExpire);
        if Earlier(queue[i].expires, nextExpire) { nextExpire := queue[i].expires; }
        i := i + 1;
      }
      AllScanned(old(queue), n, queue, i, now);
    }

    /** Moves attempt `i` to those whose on_timeout is called. */
    method TakeOut(i: nat)
      requires Valid() && i < |queue|
      modifies this`queue, this`numConnecting, this`timeouts
      ensures Valid() && queue == Without(old(queue), i) && timeouts == old(timeouts) + multiset{old(queue)[i].ticket}
      ensures queue[..i] == old(queue)[..i] && numConnecting <= old(numConnecting)
    {
      hide Connecting, Tickets, EachOnce, Without;
      ConnectingWithout(queue, i);
      Leaves(queue, i, finished + timeouts, nextTicket);
      if queue[i].connecting { numConnecting := numConnecting - 1; }
      timeouts := timeouts + multiset{queue[i].ticket};
      queue := Without(queue, i);
      assert finished + timeouts == finished + old(timeouts) + multiset{old(queue)[i].ticket};
    }
  }

  /** The tickets of the attempts of `q` that are not connecting, in order. */
  ghost function Waiting(q: seq<Entry>): seq<int> {
    if q == [] then []
    else Waiting(q[..|q| - 1]) + (if q[|q| - 1].connecting then [] else [q[|q| - 1].ticket])
  }

  /** The first `k` attempts are all connecting, since `now` if they were not before; the others are as before. */
  ghost predicate StartedPrefix(q: seq<Entry>, r: seq<Entry>, k: int, now: int) {
    && 0 <= k <= |q| == |r|
    && (forall j :: 0 <= j < k ==>
          r[j] == if q[j].connecting then q[j] else q[j].(connecting := true, expires := At(now + q[j].timeout)))
    && (forall j :: k <= j < |q| ==> r[j] == q[j])
  }

  lemma NoneStarted(q: seq<Entry>, now: int)
    ensures StartedPrefix(q, q, 0, now) && Waiting(q[..0]) == []
  {
  }

  lemma OneStarted(q: seq<Entry>, r: seq<Entry>, i: int, now: int)
    requires StartedPrefix(q, r, i, now) && i < |q|
    ensures r[i] == q[i]
    ensures var e := q[i].(connecting := true, expires := At(now + q[i].timeout));
            StartedPrefix(q, if q[i].connecting then r else r[i := e], i + 1, now)
    ensures Waiting(q[..i + 1]) == Waiting(q[..i]) + if q[i].connecting then [] else [q[i].ticket]
  {
    assert q[..i + 1][..i] == q[..i];
  }

  /** The attempts stay the same, and those of the prefix are all connecting. */
  lemma StartedKept(q: seq<Entry>, r: seq<Entry>, k: int, now: int)
    requires StartedPrefix(q, r, k, now)
    ensures |r| == |q| && (forall j :: 0 <= j < |r| ==> r[j].ticket == q[j].ticket)
    ensures forall j :: 0 <= j < k ==> r[j].connecting
  {
  }

  lemma NewTicket(m: multiset<int>, n: int)
    requires EachOnce(m, n) && n >= 0
    ensures EachOnce(m + multiset{n}, n + 1)
  {
  }

  lemma NewMark(q: seq<Entry>, connects: multiset<int>, n: int, e: Entry)
    requires Marked(q, connects) && AtMostOnce(connects, n) && e.ticket == n && !e.connecting
    ensures Marked(q + [e], connects) && Marked([e] + q, connects)
  {
  }

  /** A ticket that leaves the queue is counted among those out. */
  lemma Leaves(q: seq<Entry>, i: int, out: multiset<int>, n: int)
    requires EachOnce(multiset(Tickets(q)) + out, n) && 0 <= i < |q|
    ensures EachOnce(multiset(Tickets(Without(q, i))) + (out + multiset{q[i].ticket}), n)
  {
    hide Tickets, Without, EachOnce;
    TicketsWithout(q, i);
    assert multiset(Tickets(Without(q, i))) + (out + multiset{q[i].ticket}) == multiset(Tickets(q)) + out;
  }

  lemma TicketIsUnique(q: seq<Entry>, rest: multiset<int>, n: int, i: int)
    requires EachOnce(multiset(Tickets(q)) + rest, n) && 0 <= i < |q|
    ensures 0 <= q[i].ticket < n && forall j :: 0 <= j < |q| && j != i ==> q[j].ticket != q[i].ticket
  {
    hide Tickets, Without;
    TicketsWithout(q, i);
    var r := Without(q, i);
    assert (multiset(Tickets(q)) + rest)[q[i].ticket] >= 1;
    forall j | 0 <= j < |q| && j != i
      ensures q[j].ticket != q[i].ticket
    {
      var k := if j < i then j else j - 1;
      assert Tickets(r)[k] == q[j].ticket;
      assert q[j].ticket in multiset(Tickets(r));
    }
  }

  /** `next` is the earliest of the expiry times of the first `n` attempts. */
  ghost predicate NextOk(q: seq<Entry>, n: int, next: Time)
    requires 0 <= n <= |q|
  {
    && (forall j :: 0 <= j < n ==> !Earlier(q[j].expires, next))
    && (next == Never || exists j :: 0 <= j < n && q[j].expires == next)
  }

  /** The scan of `q0` for a timeout has passed `n` attempts and kept `i` of them. */
  ghost predicate Scanned(q0: seq<Entry>, n: int, q: seq<Entry>, i: int, now: Time)
    requires 0 <= n <= |q0|
  {
    i == |Kept(q0[..n], now)| && q == Kept(q0[..n], now) + q0[n..]
  }

  lemma NothingScanned(q: seq<Entry>, now: Time)
    ensures Scanned(q, 0, q, 0, now) && NextOk(q, 0, Never) && TimedOut(q[..0], now) == [] &&
            multiset(Tickets([])) == multiset{}
  {
    assert q[..0] == [];
  }

  lemma AllScanned(q0: seq<Entry>, n: int, q: seq<Entry>, i: int, now: Time)
    requires 0 <= n <= |q0| && Scanned(q0, n, q, i, now) && i >= |q|
    ensures i == |q| && n == |q0| && q0[..n] == q0 && q == Kept(q0, now)
  {
    hide Kept;
    assert |q0[n..]| == 0;
  }

  lemma ScanOne(q0: seq<Entry>, n: int, q: seq<Entry>, i: int, now: Time)
    requires 0 <= n <= |q0| && Scanned(q0, n, q, i, now) && i < |q|
    ensures n < |q0| && q[i] == q0[n]
    ensures Expired(q[i], now) ==> Scanned(q0, n + 1, Without(q, i), i, now)
    ensures !Expired(q[i], now) ==> Scanned(q0, n + 1, q, i + 1, now)
    ensures multiset(Tickets(TimedOut(q0[..n + 1], now)))
         == multiset(Tickets(TimedOut(q0[..n], now))) + (if Expired(q[i], now) then multiset{q[i].ticket}
                                                         else multiset{})
  {
    hide Expired, Tickets, Without;
    assert q0[..n + 1][..n] == q0[..n];
    var kept, out := Kept(q0[..n], now), TimedOut(q0[..n], now);
    if Expired(q[i], now) {
      TicketsJoin(out, [q[i]]);
      TicketsOne(q[i]);
      assert kept + [] == kept;
      assert Without(q, i) == kept + q0[n + 1..];
    } else {
      assert out + [] == out;
      assert q == kept + [q[i]] + q0[n + 1..];
    }
  }

  lemma NextUpdated(q: seq<Entry>, i: int, next: Time)
    requires 0 <= i < |q| && NextOk(q, i, next)
    ensures NextOk(q, i + 1, if Earlier(q[i].expires, next) then q[i].expires else next)
  {
  }

  lemma WithoutScanned(q: seq<Entry>, i: int, next: Time)
    requires 0 <= i < |q| && NextOk(q, i, next)
    ensures NextOk(Without(q, i), i, next)
  {
    hide Without;
    assert forall j :: 0 <= j < i ==> Without(q, i)[j] == q[j];
  }

  /** Nothing kept had expired. */
  lemma {:induction false} KeptAreAlive(q: seq<Entry>, now: Time)
    ensures forall e :: e in Kept(q, now) ==> e in q && !Expired(e, now)
    ensures forall e :: e in TimedOut(q, now) ==> e in q && Expired(e, now)
    ensures forall e :: e in q ==> e in Kept(q, now) || e in TimedOut(q, now)
  {
    if q != [] {
      var n := |q| - 1;
      KeptAreAlive(q[..n], now);
      assert q == q[..n] + [q[n]];
    }
  }

  // ----- runs -----

  datatype Step =
    | Enqueue(timeout: int, priority: int)
    | Done(ticket: int)
    | TryConnect(clock: int)
    | Timeout(now: Time)
    | Close
    | Limit(limit: int)

  /** Every limit in force during the steps is positive and at most `bound`. */
  ghost predicate Limits(limit: int, steps: seq<Step>, bound: int) {
    0 < limit <= bound && forall i :: 0 <= i < |steps| && steps[i].Limit? ==> 0 < steps[i].limit <= bound
  }

  /**
   * Any interleaving of the locked stretches: afterwards every ticket ever given out is queued, finished or timed
   * out exactly once, has had at most one on_connect, and the counter agrees with the queue. The number of half-open
   * attempts exceeds no bound that it and every limit in force keep; without a change of the limit, it is at most the
   * larger of the limit and what it was.
   */
  method Run(q: ConnectionQueue, steps: seq<Step>, ghost bound: int)
    requires q.Valid()
    requires forall i :: 0 <= i < |steps| ==>
             (steps[i].Enqueue? ==> steps[i].priority in {0, 1}) && (steps[i].Limit? ==> steps[i].limit >= 0)
    modifies q
    ensures q.Valid() && old(q.finished) <= q.finished && old(q.timeouts) <= q.timeouts && old(q.connects) <= q.connects
    ensures Limits(old(q.halfOpenLimit), steps, bound) ==> q.numConnecting <= Max(old(q.numConnecting), bound)
    ensures old(q.halfOpenLimit) > 0 && (forall i :: 0 <= i < |steps| ==> !steps[i].Limit?) ==>
              q.numConnecting <= Max(old(q.numConnecting), old(q.halfOpenLimit))
  {
    hide ConnectionQueue.Valid, Connecting, Tickets, Kept, TimedOut, Without, NextOk, StartedPrefix;
    ghost var limit, still := q.halfOpenLimit, forall i :: 0 <= i < |steps| ==> !steps[i].Limit?;
    for i := 0 to |steps|
      invariant q.Valid() && old(q.finished) <= q.finished && old(q.timeouts) <= q.timeouts &&
                old(q.connects) <= q.connects
      invariant Limits(limit, steps, bound) ==>
                  0 < q.halfOpenLimit <= bound && q.numConnecting <= Max(old(q.numConnecting), bound)
      invariant still ==> q.halfOpenLimit == limit
      invariant still && limit > 0 ==> q.numConnecting <= Max(old(q.numConnecting), limit)
    {
      match steps[i]
      case Enqueue(t, p) => q.Enqueue(t, p);
      case Done(t) => q.Done(t);
      case TryConnect(clock) => var _ := q.TryConnect(clock);
      case Timeout(now) => var _ := q.OnTimeout(now);
      case Close => var _ := q.CloseOne();
      case Limit(n) => q.Limit(n);
    }
  }
}
