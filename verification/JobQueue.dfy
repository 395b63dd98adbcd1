/** The disk thread's job queue: where a job is inserted, and in which order jobs are taken. */
module JobQueues {

  datatype Action = Read | Write | Other

  /** `serial` tells jobs apart; a queued job keeps it. */
  datatype Job = Job(serial: nat, action: Action, storage: int, piece: int, offset: int, size: int, priority: int)

  predicate RangeOverlap(start1: int, length1: int, start2: int, length2: int) {
    || (start1 <= start2 && start1 + length1 > start2)
    || (start2 <= start1 && start2 + length2 > start1)
  }

  ghost predicate InRange(x: int, start: int, length: int) {
    start <= x < start + length
  }

  /** The test is exact for ranges that are not empty. */
  lemma RangeOverlapIsSharing(start1: int, length1: int, start2: int, length2: int)
    requires length1 > 0 && length2 > 0
    ensures RangeOverlap(start1, length1, start2, length2)
       <==> exists x :: InRange(x, start1, length1) && InRange(x, start2, length2)
  {
    if RangeOverlap(start1, length1, start2, length2) {
      var x := if start1 <= start2 then start2 else start1;
      assert InRange(x, start1, length1) && InRange(x, start2, length2);
    }
  }

  /** Whether `a` should come before `b` in the queue. */
  predicate Before(a: Job, b: Job) {
    if a.priority != b.priority then a.priority > b.priority
    else if a.storage != b.storage then a.storage < b.storage
    else if a.piece != b.piece then a.piece < b.piece
    else a.offset < b.offset
  }

  /** A write that a read `r` must not overtake. */
  predicate Feeds(w: Job, r: Job) {
    w.action.Write? && w.storage == r.storage && w.piece == r.piece && RangeOverlap(w.offset, w.size, r.offset, r.size)
  }

  /** What ends the search from the back of the queue for the place of `j`. */
  predicate Stops(x: Job, j: Job) {
    match j.action
    case Read => Before(x, j) || Feeds(x, j)
    case Write => Before(x, j)
    case Other => true
  }

  /** `s` is the place behind the last job of `q` that stops `j`. */
  ghost predicate BehindStop(q: seq<Job>, j: Job, s: int) {
    && 0 <= s <= |q|
    && (s > 0 ==> Stops(q[s - 1], j)) && (s < |q| ==> !Stops(q[s], j))
    && forall i :: s <= i < |q| ==> !Stops(q[i], j)
  }

  /** The place of a job whose search ended at `s`: the back rather than another storage's run or the front. */
  function PlaceOf(q: seq<Job>, j: Job, s: nat): nat
    requires s <= |q|
  {
    if j.action.Write? && 0 < s < |q| && q[s].storage != j.storage then |q|
    else if s == 0 && (q == [] || j.priority <= q[|q| - 1].priority) then |q|
    else s
  }

  // ----- the place in a sorted queue -----

  /** `a` may stand ahead of `b`: descending by priority, then ascending by storage, piece and offset. */
  ghost predicate InOrder(a: Job, b: Job) {
    || a.priority > b.priority
    || (a.priority == b.priority && a.storage < b.storage)
    || (a.priority == b.priority && a.storage == b.storage && a.piece < b.piece)
    || (a.priority == b.priority && a.storage == b.storage && a.piece == b.piece && a.offset <= b.offset)
  }

  ghost predicate Sorted(q: seq<Job>) {
    forall i, j :: 0 <= i < j < |q| ==> InOrder(q[i], q[j])
  }

  /** No queued write feeds the read `j`. */
  ghost predicate Unfed(q: seq<Job>, j: Job) {
    j.action.Read? ==> forall i :: 0 <= i < |q| ==> !Feeds(q[i], j)
  }

  /** Just the first `k` jobs of `q` belong ahead of `j`. */
  ghost predicate Divides(q: seq<Job>, j: Job, k: int) {
    && 0 <= k <= |q|
    && (forall i :: 0 <= i < k ==> !InOrder(j, q[i]))
    && (forall i :: k <= i < |q| ==> InOrder(j, q[i]))
  }

  /** The first of the jobs of `q` that `j` may stand ahead of is of the storage of `j`, or there is none. */
  ghost predicate SameStorageNext(q: seq<Job>, j: Job) {
    forall i :: 0 <= i < |q| && InOrder(j, q[i]) && (i == 0 || !InOrder(j, q[i - 1])) ==> q[i].storage == j.storage
  }

  /** The last job that feeds `j`. */
  ghost predicate LastFeed(q: seq<Job>, j: Job, f: int) {
    0 <= f < |q| && Feeds(q[f], j) && forall i :: f < i < |q| ==> !Feeds(q[i], j)
  }

  /**
   * Where `j` goes in a sorted queue `q`. A job that belongs behind another one goes to its place, ahead of its
   * equals, and a read at least behind the writes that feed it. A job that would come first does so only if its
   * priority is above that of the last job; otherwise it goes to the back, and so do a write that would end a run
   * of another storage, and any job that neither reads nor writes.
   */
  ghost predicate WellPlaced(q: seq<Job>, j: Job, k: int) {
    && (j.action.Other? ==> k == |q|)
    && (!j.action.Other? && Unfed(q, j) && (exists i :: 0 <= i < |q| && !InOrder(j, q[i])) ==>
          if j.action.Read? || SameStorageNext(q, j) then Divides(q, j, k) else k == |q|)
    && (j.action.Read? ==>
          forall d, f :: Divides(q, j, d) && LastFeed(q, j, f) ==> k == if f < d then d else f + 1)
    && (Unfed(q, j) && q != [] && (forall i :: 0 <= i < |q| ==> j.priority > q[i].priority) && !j.action.Other? ==>
          k == 0)
    && (Unfed(q, j) && (forall i :: 0 <= i < |q| ==> j.priority == q[i].priority && InOrder(j, q[i])) ==> k == |q|)
  }

  /** The order that the search compares by is the one above, made strict. */
  lemma BeforeIsStrict(a: Job, b: Job)
    ensures Before(a, b) <==> !InOrder(b, a)
  {
  }

  /** In a sorted queue the search ends where the queue divides, if nothing feeds the job. */
  lemma SearchDivides(q: seq<Job>, j: Job, s: nat)
    requires Sorted(q) && BehindStop(q, j, s) && !j.action.Other? && Unfed(q, j)
    ensures Divides(q, j, s)
  {
    forall i | 0 <= i < |q|
      ensures Before(q[i], j) <==> !InOrder(j, q[i])
    {
      BeforeIsStrict(q[i], j);
    }
    forall i | 0 <= i < s
      ensures !InOrder(j, q[i])
    {
      assert i < s - 1 ==> InOrder(q[i], q[s - 1]);
    }
  }

  /** A read that is fed stops behind the jobs that belong ahead of it and behind those that feed it. */
  lemma SearchFed(q: seq<Job>, j: Job, s: nat, d: int, f: int)
    requires BehindStop(q, j, s) && j.action.Read? && Divides(q, j, d) && LastFeed(q, j, f)
    ensures s == if f < d then d else f + 1
  {
    forall i | 0 <= i < |q|
      ensures Stops(q[i], j) <==> i < d || Feeds(q[i], j)
    {
      BeforeIsStrict(q[i], j);
    }
    assert Stops(q[f], j);
    assert d > 0 ==> Stops(q[d - 1], j);
  }

  /** Anything stops a job that neither reads nor writes. */
  lemma OtherStopsAtBack(q: seq<Job>, j: Job, s: nat)
    requires BehindStop(q, j, s) && j.action.Other?
    ensures s == |q| && PlaceOf(q, j, s) == |q|
  {
  }

  lemma InsertedWellPlaced(q: seq<Job>, j: Job, s: nat)
    requires Sorted(q) && BehindStop(q, j, s)
    ensures WellPlaced(q, j, PlaceOf(q, j, s))
  {
    if j.action.Other? {
      OtherStopsAtBack(q, j, s);
      return;
    }
    forall d, f | j.action.Read? && Divides(q, j, d) && LastFeed(q, j, f)
      ensures s == if f < d then d else f + 1
    {
      SearchFed(q, j, s, d, f);
    }
    if !Unfed(q, j) { return; }
    SearchDivides(q, j, s);
    hide BehindStop, Sorted;
    var k := PlaceOf(q, j, s);
    if i :| 0 <= i < |q| && !InOrder(j, q[i]) {
      assert s > 0;
      if s < |q| { assert SameStorageNext(q, j) <==> q[s].storage == j.storage; }
    }
  }

  /** Putting a job where the queue divides keeps it sorted. */
  lemma DividedStaysSorted(q: seq<Job>, j: Job, k: nat)
    requires Sorted(q) && Divides(q, j, k)
    ensures Sorted(q[..k] + [j] + q[k..])
  {
    hide InOrder;
    var r := q[..k] + [j] + q[k..];
    forall a, b | 0 <= a < b < |r|
      ensures InOrder(r[a], r[b])
    {
      if b == k { Total(r[a], j); }
    }
  }

  lemma Total(a: Job, b: Job)
    ensures InOrder(a, b) || InOrder(b, a)
  {
  }

  class JobQueue {
    var jobs: seq<Job>

    constructor ()
      ensures jobs == []
    {
      jobs := [];
    }

    /** Inserts a job; `k` is its position. */
    method AddJob(j: Job) returns (k: nat)
      modifies this
      ensures k <= |old(jobs)| && jobs == old(jobs)[..k] + [j] + old(jobs)[k..]
      ensures exists s: nat :: s <= |old(jobs)| && BehindStop(old(jobs), j, s) && k == PlaceOf(old(jobs), j, s)
      ensures Added(old(jobs), j, jobs)
      ensures Sorted(old(jobs)) ==> WellPlaced(old(jobs), j, k)
      ensures Sorted(old(jobs)) && Divides(old(jobs), j, k) ==> Sorted(jobs)
    {
      hide Sorted, WellPlaced, Divides;
      k := |jobs|;
      while k > 0 && !Stops(jobs[k - 1], j)
        invariant k <= |jobs| && forall i :: k <= i < |jobs| ==> !Stops(jobs[i], j)
      {
        k := k - 1;
      }
      assert BehindStop(jobs, j, k);
      ghost var s := k;
      if Sorted(jobs) { InsertedWellPlaced(jobs, j, s); }
      if j.action.Write? && k > 0 {
        if k != |jobs| && jobs[k].storage != j.storage { k := |jobs|; }
      }
      if k == 0 && (jobs == [] || j.priority <= jobs[|jobs| - 1].priority) { k := |jobs|; }
      assert k == PlaceOf(jobs, j, s);
      if Sorted(jobs) && Divides(jobs, j, k) { DividedStaysSorted(jobs, j, k); }
      jobs := jobs[..k] + [j] + jobs[k..];
      assert InsertedAt(old(jobs), j, jobs, k);
    }

    /** The worker takes the job in front. */
    method Take() returns (j: Job)
      requires jobs != []
      modifies this
      ensures j == old(jobs)[0] && jobs == old(jobs)[1..]
    {
      j := jobs[0];
      jobs := jobs[1..];
    }
  }

  /** `q'` is `q` with `j` put at `k`, behind every write it must not overtake. */
  ghost predicate InsertedAt(q: seq<Job>, j: Job, q': seq<Job>, k: int) {
    && 0 <= k <= |q| && q' == q[..k] + [j] + q[k..]
    && (j.action.Read? ==> forall i :: 0 <= i < |q| && Feeds(q[i], j) ==> i < k)
  }

  ghost predicate Added(q: seq<Job>, j: Job, q': seq<Job>) {
    exists k :: InsertedAt(q, j, q', k)
  }

  // ----- runs -----

  /** The queue and the jobs taken from it so far, in order. */
  datatype State = State(taken: seq<Job>, queue: seq<Job>) {
    /** Every job seen, in the order in which it was or will be taken if nothing is added. */
    function Order(): seq<Job> {
      taken + queue
    }
  }

  datatype Step = Add(job: Job) | TakeNext

  ghost predicate StepOk(s: State, step: Step, t: State) {
    match step
    case Add(j) => t.taken == s.taken && Added(s.queue, j, t.queue) && forall x :: x in s.Order() ==>
        x.serial != j.serial
    case TakeNext => s.queue != [] && t.taken == s.taken + [s.queue[0]] && t.queue == s.queue[1..]
  }

  ghost predicate IsRun(states: seq<State>, steps: seq<Step>) {
    && |states| == |steps| + 1
    && forall n :: 0 <= n < |steps| ==> StepNumber(states, steps, n)
  }

  ghost predicate StepNumber(states: seq<State>, steps: seq<Step>, n: int)
    requires 0 <= n < |steps| < |states|
  {
    var m := n + 1;
    StepOk(states[n], steps[n], states[m])
  }

  ghost predicate DistinctSerials(order: seq<Job>) {
    forall i, j :: 0 <= i < j < |order| ==> order[i].serial != order[j].serial
  }

  ghost predicate Precedes(order: seq<Job>, w: Job, r: Job) {
    exists i, j :: 0 <= i < j < |order| && order[i] == w && order[j] == r
  }

  /** The place in the total order at which a step inserts its job. */
  ghost predicate Grown(order: seq<Job>, order': seq<Job>, at: int, j: Job) {
    0 <= at <= |order| && order' == order[..at] + [j] + order[at..]
  }

  lemma AddGrowsOrder(s: State, j: Job, t: State) returns (at: int)
    requires StepOk(s, Add(j), t)
    ensures |s.taken| <= at && Grown(s.Order(), t.Order(), at, j)
    ensures j.action.Read? ==> forall w :: w in s.queue && Feeds(w, j) ==> Precedes(t.Order(), w, j)
  {
    var k :| InsertedAt(s.queue, j, t.queue, k);
    at := |s.taken| + k;
    assert t.Order() == s.Order()[..at] + [j] + s.Order()[at..];
    if j.action.Read? {
      forall w | w in s.queue && Feeds(w, j)
        ensures Precedes(t.Order(), w, j)
      {
        var i :| 0 <= i < |s.queue| && s.queue[i] == w;
        assert t.Order()[|s.taken| + i] == w && t.Order()[at] == j;
      }
    }
  }

  /** Growing keeps the relative order of the jobs already there. */
  lemma GrownKeepsOrder(order: seq<Job>, order': seq<Job>, at: int, j: Job, w: Job, r: Job)
    requires Grown(order, order', at, j) && Precedes(order, w, r)
    ensures Precedes(order', w, r)
  {
    var a, b :| 0 <= a < b < |order| && order[a] == w && order[b] == r;
    var a', b' := if a < at then a else a + 1, if b < at then b else b + 1;
    assert order'[a'] == w && order'[b'] == r;
  }

  /** Every step keeps serial numbers distinct and the order of any two jobs. */
  lemma StepKeepsOrder(s: State, step: Step, t: State, w: Job, r: Job)
    requires StepOk(s, step, t) && DistinctSerials(s.Order())
    ensures DistinctSerials(t.Order()) && s.taken <= t.taken
    ensures Precedes(s.Order(), w, r) ==> Precedes(t.Order(), w, r)
  {
    match step
    case Add(j) =>
      var at := AddGrowsOrder(s, j, t);
      DistinctAfterGrowth(s.Order(), t.Order(), at, j);
      if Precedes(s.Order(), w, r) { GrownKeepsOrder(s.Order(), t.Order(), at, j, w, r); }
    case TakeNext =>
      assert t.Order() == s.Order();
  }

  lemma DistinctAfterGrowth(order: seq<Job>, order': seq<Job>, at: int, j: Job)
    requires Grown(order, order', at, j) && DistinctSerials(order) && forall x :: x in order ==> x.serial != j.serial
    ensures DistinctSerials(order')
  {
    forall a, b | 0 <= a < b < |order'|
      ensures order'[a].serial != order'[b].serial
    {
      assert a != at ==> order'[a] == order[if a < at then a else a - 1];
      assert b != at ==> order'[b] == order[if b < at then b else b - 1];
    }
  }

  /** Over any run, the order of two jobs never changes once both have been seen. */
  lemma {:induction false} RunKeepsOrder(states: seq<State>, steps: seq<Step>, m: int, n: int, w: Job, r: Job)
    requires IsRun(states, steps) && DistinctSerials(states[0].Order()) && 0 <= m <= n <= |steps|
    ensures DistinctSerials(states[n].Order())
    ensures Precedes(states[m].Order(), w, r) ==> Precedes(states[n].Order(), w, r)
    decreases n
  {
    if n == 0 { return; }
    var k := n - 1;
    RunKeepsOrder(states, steps, if m < n then m else k, k, w, r);
    assert StepNumber(states, steps, k);
    StepKeepsOrder(states[k], steps[k], states[n], w, r);
  }

  /**
   * Over every run: if read `r` is added in step `m` while a write feeding it is queued, then in every later
   * state in which the read has been taken the write has been taken too, and earlier.
   */
  lemma ReadNeverOvertakesWrite(states: seq<State>, steps: seq<Step>, m: int, n: int, w: Job, r: Job)
    requires IsRun(states, steps) && DistinctSerials(states[0].Order()) && 0 <= m < n <= |steps|
    requires steps[m] == Add(r) && r.action.Read? && w in states[m].queue && Feeds(w, r)
    ensures r in states[n].taken ==> Precedes(states[n].taken, w, r)
  {
    var k := m + 1;
    assert StepNumber(states, steps, m);
    var at := AddGrowsOrder(states[m], r, states[k]);
    assert Precedes(states[k].Order(), w, r);
    RunKeepsOrder(states, steps, k, n, w, r);
    var s := states[n];
    var a, b :| 0 <= a < b < |s.Order()| && s.Order()[a] == w && s.Order()[b] == r;
    if r in s.taken {
      var c :| 0 <= c < |s.taken| && s.taken[c] == r;
      assert s.Order()[c] == r;
      assert b == c;
      assert s.taken[a] == w;
    }
  }

  /** What clients and the worker do to a queue. */
  datatype Event = Post(job: Job) | Fetch

  ghost predicate FreshSerials(seen: seq<Job>, events: seq<Event>, n: nat) {
    && (forall m :: n <= m < |events| && events[m].Post? ==> forall x :: x in seen ==> x.serial != events[m].job.serial)
    && (forall l, m :: n <= l < m < |events| && events[l].Post? && events[m].Post? ==>
        events[l].job.serial != events[m].job.serial)
  }

  /** Any events on a new queue make a run; fetching from an empty queue does nothing. */
  method Serve(events: seq<Event>)
    returns (q: JobQueue, taken: seq<Job>, ghost states: seq<State>, ghost steps: seq<Step>)
    requires FreshSerials([], events, 0)
    ensures IsRun(states, steps) && states[0] == State([], []) && states[|steps|] == State(taken, q.jobs)
    ensures forall j :: Post(j) in events ==> j in taken + q.jobs
  {
    hide StepOk, Added;
    q := new JobQueue();
    taken, states, steps := [], [State([], [])], [];
    for n := 0 to |events|
      invariant IsRun(states, steps) && states[0] == State([], []) && states[|steps|] == State(taken, q.jobs)
      invariant fresh(q) && FreshSerials(taken + q.jobs, events, n)
      invariant forall m :: 0 <= m < n && events[m].Post? ==> events[m].job in taken + q.jobs
    {
      ghost var s := State(taken, q.jobs);
      match events[n]
      case Post(j) =>
        var _ := q.AddJob(j);
        Posted(s, j, q.jobs, events, n);
        MoreRun(states, steps, Add(j), State(taken, q.jobs));
        states, steps := states + [State(taken, q.jobs)], steps + [Add(j)];
      case Fetch =>
        if q.jobs != [] {
          var j := q.Take();
          taken := taken + [j];
          Fetched(s, State(taken, q.jobs));
          MoreRun(states, steps, TakeNext, State(taken, q.jobs));
          states, steps := states + [State(taken, q.jobs)], steps + [TakeNext];
        }
    }
    forall j | Post(j) in events
      ensures j in taken + q.jobs
    {
      var m :| 0 <= m < |events| && events[m] == Post(j);
      assert events[m].job == j;
    }
  }

  lemma Posted(s: State, j: Job, queue: seq<Job>, events: seq<Event>, n: nat)
    requires Added(s.queue, j, queue) && FreshSerials(s.Order(), events, n) && n < |events| && events[n] == Post(j)
    ensures StepOk(s, Add(j), State(s.taken, queue)) && FreshSerials(s.taken + queue, events, n + 1)
    ensures j in s.taken + queue && forall x :: x in s.Order() ==> x in s.taken + queue
  {
    var k :| InsertedAt(s.queue, j, queue, k);
    assert queue[k] == j;
    forall x
      ensures x in s.taken + queue <==> x in s.Order() || x == j
    {
      if x in s.queue { assert x in s.queue[..k] || x in s.queue[k..]; }
    }
  }

  lemma Fetched(s: State, t: State)
    requires s.queue != [] && t == State(s.taken + [s.queue[0]], s.queue[1..])
    ensures StepOk(s, TakeNext, t) && t.Order() == s.Order()
  {
  }

  lemma MoreRun(states: seq<State>, steps: seq<Step>, step: Step, t: State)
    requires IsRun(states, steps) && StepOk(states[|steps|], step, t)
    ensures IsRun(states + [t], steps + [step])
  {
    hide StepOk;
    forall n | 0 <= n < |steps| + 1
      ensures StepNumber(states + [t], steps + [step], n)
    {
      if n < |steps| { assert StepNumber(states, steps, n); }
    }
  }
}
