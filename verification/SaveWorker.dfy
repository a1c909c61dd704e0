/**
 * The background settings writer: any number of saving threads, a one-slot
 * coalescing mailbox, a lazily spawned worker and a draining shutdown,
 * interleaved at the granularity of their locks.
 */
module SaveWorker {
  import opened Prelude

  type Thread = nat

  /** A settings snapshot together with the path it is to be written to. */
  type Snapshot = nat

  datatype Pc =
    | Idle
    | Snapped(snap: Snapshot)
    | WantHandle(snap: Snapshot)
    | Locked(snap: Snapshot)
    | Offered(queued: bool)
    | Stopping
    | WantTake
    | Joining(had: bool)

  datatype WorkerPc = NotSpawned | Waiting | Writing(snap: Snapshot) | Exited

  /**
   * `NeverStored` and `Taken` are both the empty handle slot; only the proofs
   * tell them apart. Likewise `stopper`, `spawned`, `accepted` and `written`
   * below only record what happened.
   */
  datatype Handle = NeverStored | Stored | Taken

  datatype State = State(
    initialised: bool,
    lock: Option<Thread>,
    handle: Handle,
    slot: Option<Snapshot>,
    stop: bool,
    stopper: Option<Thread>,
    worker: WorkerPc,
    threads: map<Thread, Pc>,
    spawned: nat,
    accepted: seq<Snapshot>,
    written: seq<Snapshot>)

  datatype Event =
    | TakeSnapshot(t: Thread, snap: Snapshot)
    | GetOrInit(t: Thread)
    | LockHandle(t: Thread)
    | Offer(t: Thread)
    | SpawnAndUnlock(t: Thread)
    | CallShutdown(t: Thread)
    | SetStop(t: Thread)
    | TakeHandle(t: Thread)
    | Join(t: Thread)
    | WorkerTake
    | WorkerWrite

  const INITIAL := State(false, None, NeverStored, None, false, None, NotSpawned, map[], 0, [], [])

  function PcOf(st: State, t: Thread): Pc {
    if t in st.threads then st.threads[t] else Idle
  }

  predicate Enabled(st: State, ev: Event) {
    match ev
    case TakeSnapshot(t, _) => PcOf(st, t) == Idle
    case GetOrInit(t) => PcOf(st, t).Snapped?
    case LockHandle(t) => PcOf(st, t).WantHandle? && st.lock == None
    case Offer(t) => PcOf(st, t).Locked?
    case SpawnAndUnlock(t) => PcOf(st, t).Offered?
    case CallShutdown(t) => PcOf(st, t) == Idle
    case SetStop(t) => PcOf(st, t) == Stopping
    case TakeHandle(t) => PcOf(st, t) == WantTake && st.lock == None
    case Join(t) => PcOf(st, t).Joining? && (PcOf(st, t).had ==> st.worker == Exited)
    case WorkerTake => st.worker == Waiting && (st.slot.Some? || st.stop)
    case WorkerWrite => st.worker.Writing?
  }

  function Apply(st: State, ev: Event): State
    requires Enabled(st, ev)
  {
    match ev
    case TakeSnapshot(t, s) => st.(threads := st.threads[t := Snapped(s)])
    case GetOrInit(t) => st.(initialised := true, threads := st.threads[t := WantHandle(PcOf(st, t).snap)])
    case LockHandle(t) => st.(lock := Some(t), threads := st.threads[t := Locked(PcOf(st, t).snap)])
    case Offer(t) =>
      var s := PcOf(st, t).snap;
      if st.stop then st.(threads := st.threads[t := Offered(false)])
      else st.(slot := Some(s), accepted := st.accepted + [s], threads := st.threads[t := Offered(true)])
    case SpawnAndUnlock(t) =>
      var idle := st.(lock := None, threads := st.threads[t := Idle]);
      if PcOf(st, t).queued && st.handle != Stored
      then idle.(handle := Stored, worker := Waiting, spawned := st.spawned + 1)
      else idle
    case CallShutdown(t) => if st.initialised then st.(threads := st.threads[t := Stopping]) else st
    case SetStop(t) =>
      if st.stop then st.(threads := st.threads[t := Idle])
      else st.(stop := true, stopper := Some(t), threads := st.threads[t := WantTake])
    case TakeHandle(t) =>
      st.(handle := Taken, threads := st.threads[t := Joining(st.handle == Stored)])
    case Join(t) => st.(threads := st.threads[t := Idle])
    case WorkerTake =>
      if st.slot.Some? then st.(slot := None, worker := Writing(st.slot.value)) else st.(worker := Exited)
    case WorkerWrite => st.(worker := Waiting, written := st.written + [st.worker.snap])
  }

  function After(run: seq<Event>): Option<State> {
    if run == [] then Some(INITIAL)
    else
      var last := run[|run| - 1];
      match After(run[..|run| - 1])
      case None => None
      case Some(st) => if Enabled(st, last) then Some(Apply(st, last)) else None
  }

  // ----- subsequences -----

  predicate Subsequence(a: seq<Snapshot>, b: seq<Snapshot>)
    decreases |b|
  {
    a == [] ||
    (b != [] &&
     (Subsequence(a, b[..|b| - 1])
      || (a[|a| - 1] == b[|b| - 1] && Subsequence(a[..|a| - 1], b[..|b| - 1]))))
  }

  lemma {:induction false} SubsequenceDropLast(a: seq<Snapshot>, b: seq<Snapshot>)
    requires a != [] && Subsequence(a, b)
    ensures Subsequence(a[..|a| - 1], b)
    decreases |b|
  {
    if Subsequence(a, b[..|b| - 1]) {
      SubsequenceDropLast(a, b[..|b| - 1]);
    }
  }

  lemma SubsequenceSnoc(a: seq<Snapshot>, b: seq<Snapshot>, s: Snapshot)
    requires Subsequence(a, b)
    ensures Subsequence(a + [s], b + [s])
  {
    assert (a + [s])[..|a|] == a && (b + [s])[..|b|] == b;
  }

  // ----- the invariant -----

  function Listed(o: Option<Snapshot>): seq<Snapshot> {
    if o == None then [] else [o.value]
  }

  function InHand(st: State): seq<Snapshot> {
    st.written + if st.worker.Writing? then [st.worker.snap] else []
  }

  /** Everything written, being written or still queued, oldest first. */
  function Pipeline(st: State): seq<Snapshot> {
    InHand(st) + Listed(st.slot)
  }

  /** Coalescing keeps acceptance order and never loses the newest snapshot. */
  predicate NewestKept(st: State) {
    var p := Pipeline(st);
    && Subsequence(p, st.accepted)
    && (st.accepted != [] ==> p != [] && p[|p| - 1] == st.accepted[|st.accepted| - 1])
  }

  predicate ThreadOk(st: State, t: Thread) {
    var pc := PcOf(st, t);
    && (pc.Locked? || pc.Offered? ==> st.lock == Some(t))
    && (!pc.Idle? && !pc.Snapped? ==> st.initialised)
    && (pc == Offered(true) ==> st.handle != Taken && (st.worker == NotSpawned ==> st.slot.Some?))
    && (pc == WantTake || pc.Joining? ==> st.stop && st.stopper == Some(t))
    && (pc == WantTake ==> st.handle != Taken)
    && (pc.Joining? ==> st.handle == Taken && (pc.had <==> st.worker != NotSpawned))
  }

  predicate LockOk(st: State) {
    && (st.lock.Some? ==> PcOf(st, st.lock.value).Locked? || PcOf(st, st.lock.value).Offered?)
    && (st.worker == NotSpawned && st.slot.Some? ==>
          st.lock.Some? && PcOf(st, st.lock.value) == Offered(true))
  }

  predicate HandleOk(st: State) {
    && (st.spawned == if st.worker == NotSpawned then 0 else 1)
    && (st.worker == NotSpawned ==> st.written == [])
    && (st.handle == Taken ==> st.stop)
    && (st.handle != Taken ==> (st.handle == Stored <==> st.worker != NotSpawned))
    && (st.stop ==> st.initialised)
    && (st.worker == Exited ==> st.stop && st.slot == None)
  }

  predicate WorkerOk(st: State) {
    LockOk(st) && HandleOk(st)
  }

  ghost predicate Inv(st: State) {
    WorkerOk(st) && NewestKept(st) && forall t: Thread :: ThreadOk(st, t)
  }

  lemma OverwriteKeepsNewest(front: seq<Snapshot>, slot: Option<Snapshot>, accepted: seq<Snapshot>, s: Snapshot)
    requires Subsequence(front + Listed(slot), accepted)
    ensures Subsequence(front + [s], accepted + [s])
  {
    if slot.Some? {
      assert (front + [slot.value])[..|front|] == front;
      SubsequenceDropLast(front + [slot.value], accepted);
    } else {
      assert front + [] == front;
    }
    SubsequenceSnoc(front, accepted, s);
  }

  lemma OfferKeepsNewest(st: State, t: Thread)
    requires NewestKept(st) && Enabled(st, Offer(t)) && !st.stop
    ensures NewestKept(Apply(st, Offer(t)))
  {
    var front := st.written + if st.worker.Writing? then [st.worker.snap] else [];
    OverwriteKeepsNewest(front, st.slot, st.accepted, PcOf(st, t).snap);
    assert Pipeline(Apply(st, Offer(t))) == front + [PcOf(st, t).snap];
  }

  lemma WorkerKeepsPipeline(st: State, ev: Event)
    requires (ev.WorkerTake? || ev.WorkerWrite?) && Enabled(st, ev)
    ensures Pipeline(Apply(st, ev)) == Pipeline(st)
  {
  }

  lemma StepKeepsNewest(st: State, ev: Event)
    requires NewestKept(st) && Enabled(st, ev)
    requires ev.SpawnAndUnlock? && PcOf(st, ev.t).queued && st.handle != Stored ==> st.worker == NotSpawned
    ensures NewestKept(Apply(st, ev))
  {
    if ev.WorkerTake? || ev.WorkerWrite? {
      WorkerKeepsPipeline(st, ev);
    } else if ev.Offer? && !st.stop {
      OfferKeepsNewest(st, ev.t);
    } else {
      assert Apply(st, ev).accepted == st.accepted && Apply(st, ev).written == st.written;
    }
  }

  predicate ByWorker(ev: Event) {
    ev.WorkerTake? || ev.WorkerWrite?
  }

  lemma OwnStepKeepsThread(st: State, ev: Event)
    requires !ByWorker(ev) && WorkerOk(st) && Enabled(st, ev) && ThreadOk(st, ev.t)
    ensures ThreadOk(Apply(st, ev), ev.t)
  {
  }

  lemma OtherStepKeepsThread(st: State, ev: Event, t: Thread)
    requires !ByWorker(ev) && ev.t != t && WorkerOk(st) && Enabled(st, ev) && ThreadOk(st, t) && ThreadOk(st, ev.t)
    ensures ThreadOk(Apply(st, ev), t)
  {
    assert PcOf(Apply(st, ev), t) == PcOf(st, t);
  }

  lemma WorkerStepKeepsThread(st: State, ev: Event, t: Thread)
    requires ByWorker(ev) && WorkerOk(st) && Enabled(st, ev) && ThreadOk(st, t)
    ensures ThreadOk(Apply(st, ev), t)
  {
    assert PcOf(Apply(st, ev), t) == PcOf(st, t);
  }

  lemma StepKeepsThread(st: State, ev: Event, t: Thread)
    requires WorkerOk(st) && Enabled(st, ev) && ThreadOk(st, t)
    requires !ByWorker(ev) ==> ThreadOk(st, ev.t)
    ensures ThreadOk(Apply(st, ev), t)
  {
    if ByWorker(ev) {
      WorkerStepKeepsThread(st, ev, t);
    } else if ev.t == t {
      OwnStepKeepsThread(st, ev);
    } else {
      OtherStepKeepsThread(st, ev, t);
    }
  }

  lemma StepKeepsLock(st: State, ev: Event)
    requires WorkerOk(st) && Enabled(st, ev)
    requires !ByWorker(ev) ==> ThreadOk(st, ev.t)
    ensures LockOk(Apply(st, ev))
  {
    if !ByWorker(ev) && st.lock.Some? && st.lock.value != ev.t {
      assert PcOf(Apply(st, ev), st.lock.value) == PcOf(st, st.lock.value);
    }
  }

  lemma StepKeepsHandle(st: State, ev: Event)
    requires WorkerOk(st) && Enabled(st, ev)
    requires !ByWorker(ev) ==> ThreadOk(st, ev.t)
    ensures HandleOk(Apply(st, ev))
  {
  }

  lemma StepKeepsInv(st: State, ev: Event)
    requires Inv(st) && Enabled(st, ev)
    ensures Inv(Apply(st, ev))
  {
    assert !ByWorker(ev) ==> ThreadOk(st, ev.t);
    StepKeepsNewest(st, ev);
    StepKeepsLock(st, ev);
    StepKeepsHandle(st, ev);
    forall t: Thread ensures ThreadOk(Apply(st, ev), t) {
      StepKeepsThread(st, ev, t);
    }
  }

  lemma {:induction false} RunKeepsInv(run: seq<Event>)
    requires After(run).Some?
    ensures Inv(After(run).value)
  {
    if run != [] {
      RunKeepsInv(run[..|run| - 1]);
      StepKeepsInv(After(run[..|run| - 1]).value, run[|run| - 1]);
    }
  }

  // ----- the promises -----

  /** A save starts a worker only when there never was one. */
  lemma AtMostOneWorker(run: seq<Event>, t: Thread)
    requires After(run).Some?
    ensures After(run).value.spawned <= 1
    ensures var st, ev := After(run).value, SpawnAndUnlock(t);
            Enabled(st, ev) && Apply(st, ev).worker != st.worker ==>
              st.worker == NotSpawned && Apply(st, ev).worker == Waiting
  {
    RunKeepsInv(run);
    assert ThreadOk(After(run).value, t);
  }

  /** The worker writes accepted snapshots in acceptance order, each at most once. */
  lemma WritesFollowAcceptance(run: seq<Event>)
    requires After(run).Some?
    ensures Subsequence(After(run).value.written, After(run).value.accepted)
  {
    RunKeepsInv(run);
    var st := After(run).value;
    var p := Pipeline(st);
    if st.slot.Some? {
      SubsequenceDropLast(p, st.accepted);
      p := p[..|p| - 1];
    }
    if st.worker.Writing? {
      assert p == st.written + [st.worker.snap];
      SubsequenceDropLast(p, st.accepted);
      p := p[..|p| - 1];
    }
    assert p == st.written;
  }

  lemma StopStays(st: State, ev: Event)
    requires st.stop && Enabled(st, ev)
    ensures Apply(st, ev).stop && Apply(st, ev).accepted == st.accepted
  {
  }

  // ----- what is accepted, read from the log -----

  /** The settings as thread t read them last. */
  function LastSnapshot(run: seq<Event>, t: Thread): Option<Snapshot> {
    if run == [] then None
    else
      var last := run[|run| - 1];
      if last.TakeSnapshot? && last.t == t then Some(last.snap) else LastSnapshot(run[..|run| - 1], t)
  }

  predicate Closed(run: seq<Event>) {
    exists k :: 0 <= k < |run| && run[k].SetStop?
  }

  /** What every thread offered while the queue was open: each time, what that thread had read last. */
  function OfferedWhileOpen(run: seq<Event>): seq<Option<Snapshot>> {
    if run == [] then []
    else
      var init, last := run[..|run| - 1], run[|run| - 1];
      OfferedWhileOpen(init) + if last.Offer? && !Closed(init) then [LastSnapshot(init, last.t)] else []
  }

  function Somes(s: seq<Snapshot>): (r: seq<Option<Snapshot>>)
    ensures |r| == |s|
  {
    seq(|s|, k requires 0 <= k < |s| => Some(s[k]))
  }

  predicate Carries(pc: Pc, snap: Option<Snapshot>) {
    (pc.Snapped? || pc.WantHandle? || pc.Locked?) ==> snap == Some(pc.snap)
  }

  ghost predicate MatchesLog(run: seq<Event>, st: State) {
    && st.stop == Closed(run) && Somes(st.accepted) == OfferedWhileOpen(run)
    && forall t :: Carries(PcOf(st, t), LastSnapshot(run, t))
  }

  lemma LogSnoc(run: seq<Event>, ev: Event, t: Thread)
    ensures LastSnapshot(run + [ev], t) == if ev.TakeSnapshot? && ev.t == t then Some(ev.snap) else LastSnapshot(run, t)
    ensures Closed(run + [ev]) <==> Closed(run) || ev.SetStop?
    ensures OfferedWhileOpen(run + [ev])
            == OfferedWhileOpen(run) + if ev.Offer? && !Closed(run) then [LastSnapshot(run, ev.t)] else []
  {
    var next := run + [ev];
    assert next[..|run|] == run;
    if k :| 0 <= k < |run| && run[k].SetStop? {
      assert next[k].SetStop?;
    }
    assert next[|run|] == ev;
  }

  lemma StepCarries(st: State, ev: Event, t: Thread, snap: Option<Snapshot>)
    requires Enabled(st, ev) && Carries(PcOf(st, t), snap)
    ensures Carries(PcOf(Apply(st, ev), t), if ev.TakeSnapshot? && ev.t == t then Some(ev.snap) else snap)
  {
    if ByWorker(ev) || ev.t != t {
      assert PcOf(Apply(st, ev), t) == PcOf(st, t);
    }
  }

  lemma StepMatchesLog(run: seq<Event>, st: State, ev: Event)
    requires Enabled(st, ev) && MatchesLog(run, st)
    ensures MatchesLog(run + [ev], Apply(st, ev))
  {
    LogSnoc(run, ev, 0);
    if ev.Offer? {
      assert Carries(PcOf(st, ev.t), LastSnapshot(run, ev.t));
    }
    assert Somes(Apply(st, ev).accepted)
        == Somes(st.accepted) + if ev.Offer? && !st.stop then [LastSnapshot(run, ev.t)] else [];
    forall t ensures Carries(PcOf(Apply(st, ev), t), LastSnapshot(run + [ev], t)) {
      LogSnoc(run, ev, t);
      StepCarries(st, ev, t, LastSnapshot(run, t));
    }
  }

  /**
   * By the log alone: accepted is exactly what was offered before any shutdown
   * set stop, in the order of the offers, each the snapshot its thread took.
   */
  lemma {:induction false} AcceptedIsOffered(run: seq<Event>)
    requires After(run).Some?
    ensures MatchesLog(run, After(run).value)
  {
    if run != [] {
      var init, ev := run[..|run| - 1], run[|run| - 1];
      AcceptedIsOffered(init);
      StepMatchesLog(init, After(init).value, ev);
      assert init + [ev] == run;
    }
  }

  /** Once `stop` is set it stays set and nothing more is accepted. */
  lemma {:induction false} StopIsFinal(run: seq<Event>, more: seq<Event>)
    requires After(run).Some? && After(run + more).Some? && After(run).value.stop
    ensures After(run + more).value.stop && After(run + more).value.accepted == After(run).value.accepted
  {
    if more == [] {
      assert run + more == run;
    } else {
      assert (run + more)[..|run + more| - 1] == run + more[..|more| - 1];
      StopIsFinal(run, more[..|more| - 1]);
      StopStays(After(run + more[..|more| - 1]).value, more[|more| - 1]);
    }
  }

  /**
   * When the shutdown call that set `stop` returns, the slot is empty, no
   * worker is running, the last accepted snapshot is the last one written, and
   * nothing is accepted ever after.
   */
  lemma ShutdownDrains(run: seq<Event>, t: Thread, more: seq<Event>)
    requires After(run + [Join(t)]).Some? && After(run + [Join(t)] + more).Some?
    ensures var st := After(run + [Join(t)]).value;
            && st.slot == None && (st.worker == NotSpawned || st.worker == Exited)
            && (st.accepted == [] <==> st.written == [])
            && (st.accepted != [] ==> st.written[|st.written| - 1] == st.accepted[|st.accepted| - 1])
            && After(run + [Join(t)] + more).value.accepted == st.accepted
  {
    assert (run + [Join(t)])[..|run|] == run;
    RunKeepsInv(run);
    var st := After(run).value;
    assert PcOf(st, t).Joining?;
    assert ThreadOk(st, t);
    assert st.lock.Some? ==> ThreadOk(st, st.lock.value);
    assert Pipeline(st) == st.written;
    if st.accepted == [] {
      assert Subsequence(st.written, []);
    }
    StopIsFinal(run + [Join(t)], more);
  }

  lemma Snoc(run: seq<Event>, ev: Event)
    ensures After(run + [ev])
            == match After(run)
               case None => None
               case Some(st) => if Enabled(st, ev) then Some(Apply(st, ev)) else None
  {
    assert (run + [ev])[..|run|] == run;
  }

  predicate InShutdown(st: State, t: Thread) {
    var pc := PcOf(st, t);
    pc == Stopping || pc == WantTake || pc.Joining? || (pc == Idle && st.stop)
  }

  lemma ShutdownStepsOn(st: State, ev: Event, t: Thread)
    requires InShutdown(st, t) && Enabled(st, ev) && ThreadOk(st, t)
    requires !(ev.CallShutdown? && ev.t == t) && !(ev.TakeSnapshot? && ev.t == t)
    ensures InShutdown(Apply(st, ev), t)
  {
  }

  /** A shutdown call that finds the worker state initialised has stopped the queue by the time it returns. */
  lemma {:induction false} InitialisedShutdownStops(run: seq<Event>, t: Thread, more: seq<Event>)
    requires After(run + [CallShutdown(t)]).Some? && After(run + [CallShutdown(t)] + more).Some?
    requires After(run).Some? && After(run).value.initialised
    requires forall k | 0 <= k < |more| :: more[k] != CallShutdown(t) && !(more[k].TakeSnapshot? && more[k].t == t)
    ensures InShutdown(After(run + [CallShutdown(t)] + more).value, t)
  {
    var called := run + [CallShutdown(t)];
    Snoc(run, CallShutdown(t));
    if more == [] {
      assert called + more == called;
    } else {
      var init, last := more[..|more| - 1], more[|more| - 1];
      assert called + more == (called + init) + [last];
      Snoc(called + init, last);
      InitialisedShutdownStops(run, t, init);
      RunKeepsInv(called + init);
      ShutdownStepsOn(After(called + init).value, last, t);
    }
  }

  /** With nobody in the way and the queue open, one thread's save is accepted. */
  lemma SaveIsAccepted(st: State, t: Thread, s: Snapshot)
    requires Enabled(st, TakeSnapshot(t, s)) && st.lock == None && !st.stop
    ensures var s1 := Apply(st, TakeSnapshot(t, s));
            Enabled(s1, GetOrInit(t))
            && var s2 := Apply(s1, GetOrInit(t));
            Enabled(s2, LockHandle(t))
            && var s3 := Apply(s2, LockHandle(t));
            Enabled(s3, Offer(t)) && Apply(s3, Offer(t)).accepted == st.accepted + [s]
  {
  }

  function SaveBy(t: Thread, s: Snapshot): seq<Event> {
    [TakeSnapshot(t, s), GetOrInit(t), LockHandle(t), Offer(t)]
  }

  lemma SnocTo(run: seq<Event>, st: State, ev: Event, next: State)
    requires After(run) == Some(st) && Enabled(st, ev) && next == Apply(st, ev)
    ensures After(run + [ev]) == Some(next)
  {
    Snoc(run, ev);
  }

  lemma TwoSteps(run: seq<Event>, st: State, e: Event, mid: State, f: Event, end: State)
    requires After(run) == Some(st) && Enabled(st, e) && mid == Apply(st, e)
    requires Enabled(mid, f) && end == Apply(mid, f)
    ensures After(run + [e, f]) == Some(end)
  {
    SnocTo(run, st, e, mid);
    SnocTo(run + [e], mid, f, end);
    assert run + [e] + [f] == run + [e, f];
  }

  lemma SaveRunIsAccepted(run: seq<Event>, t: Thread, s: Snapshot)
    requires After(run).Some?
    requires var st := After(run).value; Enabled(st, TakeSnapshot(t, s)) && st.lock == None && !st.stop
    ensures After(run + SaveBy(t, s)).Some?
    ensures After(run + SaveBy(t, s)).value.accepted == After(run).value.accepted + [s]
  {
    var st := After(run).value;
    SaveIsAccepted(st, t, s);
    var s1 := Apply(st, TakeSnapshot(t, s));
    var s2 := Apply(s1, GetOrInit(t));
    var s3 := Apply(s2, LockHandle(t));
    TwoSteps(run, st, TakeSnapshot(t, s), s1, GetOrInit(t), s2);
    TwoSteps(run + [TakeSnapshot(t, s), GetOrInit(t)], s2, LockHandle(t), s3, Offer(t), Apply(s3, Offer(t)));
    assert run + [TakeSnapshot(t, s), GetOrInit(t)] + [LockHandle(t), Offer(t)] == run + SaveBy(t, s);
  }

  /**
   * A shutdown call that comes before the first save does nothing at all:
   * whatever is saved next is still accepted. So a shutdown closes the queue
   * exactly when the worker state was initialised when it was called.
   */
  lemma EarlyShutdownClosesNothing(run: seq<Event>, t: Thread, s: Snapshot)
    requires After(run).Some? && Enabled(After(run).value, CallShutdown(t)) && !After(run).value.initialised
    ensures After(run + [CallShutdown(t)]) == After(run)
    ensures exists more: seq<Event> ::
              After(run + [CallShutdown(t)] + more).Some?
              && After(run + [CallShutdown(t)] + more).value.accepted == After(run).value.accepted + [s]
  {
    RunKeepsInv(run);
    var st := After(run).value;
    assert st.lock.Some? ==> ThreadOk(st, st.lock.value);
    Snoc(run, CallShutdown(t));
    SaveRunIsAccepted(run + [CallShutdown(t)], t, s);
  }

  // ----- progress -----

  /** While some call is unfinished, some thread or the worker can take a step that finishes it. */
  lemma NoDeadlock(run: seq<Event>, busy: Thread) returns (ev: Event)
    requires After(run).Some? && PcOf(After(run).value, busy) != Idle
    ensures Enabled(After(run).value, ev) && !ev.TakeSnapshot? && !ev.CallShutdown?
  {
    RunKeepsInv(run);
    var st := After(run).value;
    var pc := PcOf(st, busy);
    assert ThreadOk(st, busy);
    if st.lock.Some? {
      var t := st.lock.value;
      ev := if PcOf(st, t).Locked? then Offer(t) else SpawnAndUnlock(t);
    } else if pc.Joining? && pc.had && st.worker != Exited {
      ev := if st.worker.Writing? then WorkerWrite else WorkerTake;
    } else {
      ev := match pc
        case Snapped(_) => GetOrInit(busy)
        case WantHandle(_) => LockHandle(busy)
        case Stopping => SetStop(busy)
        case WantTake => TakeHandle(busy)
        case _ => Join(busy);
    }
  }

  function FirstSteps(st: State): seq<Event> {
    if st.worker.Writing? then [WorkerWrite] else []
  }

  function LastSteps(st: State): seq<Event> {
    if st.slot.Some? then [WorkerTake, WorkerWrite] else []
  }

  /** The worker's own next steps, until nothing is queued or in hand. */
  function WorkerDrain(st: State): seq<Event> {
    FirstSteps(st) + LastSteps(st)
  }

  /** A worker that waits with a snapshot queued takes it, no shutdown needed. */
  lemma QueuedWakesWorker(run: seq<Event>)
    requires After(run).Some? && After(run).value.worker == Waiting && After(run).value.slot.Some?
    ensures Enabled(After(run).value, WorkerTake)
    ensures Apply(After(run).value, WorkerTake).worker == Writing(After(run).value.slot.value)
  {
  }

  lemma WriteStep(run: seq<Event>)
    requires After(run).Some? && After(run).value.worker.Writing?
    ensures var st := After(run).value;
            After(run + [WorkerWrite]) == Some(st.(worker := Waiting, written := st.written + [st.worker.snap]))
  {
    Snoc(run, WorkerWrite);
  }

  lemma TakeAndWriteSteps(run: seq<Event>)
    requires After(run).Some? && After(run).value.worker == Waiting && After(run).value.slot.Some?
    ensures var st := After(run).value;
            After(run + [WorkerTake, WorkerWrite]) == Some(st.(slot := None, written := st.written + [st.slot.value]))
  {
    QueuedWakesWorker(run);
    Snoc(run, WorkerTake);
    WriteStep(run + [WorkerTake]);
    assert run + [WorkerTake, WorkerWrite] == run + [WorkerTake] + [WorkerWrite];
  }

  lemma Regroup(a: seq<Event>, b: seq<Event>, c: seq<Event>)
    ensures a + (b + c) == a + b + c
  {
  }

  lemma FinishWrite(run: seq<Event>)
    requires After(run).Some? && (After(run).value.worker == Waiting || After(run).value.worker.Writing?)
    ensures var st := After(run).value;
            After(run + FirstSteps(st)) == Some(st.(worker := Waiting, written := InHand(st)))
  {
    if After(run).value.worker.Writing? {
      WriteStep(run);
    } else {
      assert run + [] == run && After(run).value.written + [] == After(run).value.written;
    }
  }

  lemma EmptySlot(run: seq<Event>)
    requires After(run).Some? && After(run).value.worker == Waiting
    ensures var st := After(run).value;
            After(run + LastSteps(st)) == Some(st.(slot := None, written := st.written + Listed(st.slot)))
  {
    if After(run).value.slot.Some? {
      TakeAndWriteSteps(run);
    } else {
      assert run + [] == run && After(run).value.written + [] == After(run).value.written;
    }
  }

  lemma DrainSteps(run: seq<Event>)
    requires After(run).Some? && (After(run).value.worker == Waiting || After(run).value.worker.Writing?)
    ensures var st := After(run).value;
            After(run + WorkerDrain(st)) == Some(st.(worker := Waiting, slot := None, written := Pipeline(st)))
  {
    var st := After(run).value;
    FinishWrite(run);
    EmptySlot(run + FirstSteps(st));
    Regroup(run, FirstSteps(st), LastSteps(st));
  }

  /** The thread that queued the first snapshot starts the worker. */
  lemma FirstSaverSpawns(run: seq<Event>) returns (t: Thread)
    requires After(run).Some? && After(run).value.worker == NotSpawned && After(run).value.slot.Some?
    ensures Enabled(After(run).value, SpawnAndUnlock(t))
    ensures var st := Apply(After(run).value, SpawnAndUnlock(t));
            st.worker == Waiting && st.slot == After(run).value.slot && st.accepted == After(run).value.accepted
  {
    RunKeepsInv(run);
    t := After(run).value.lock.value;
    assert ThreadOk(After(run).value, t);
  }

  predicate NewestWritten(st: State) {
    && st.slot == None && st.accepted != [] && st.written != []
    && st.written[|st.written| - 1] == st.accepted[|st.accepted| - 1]
  }

  lemma StartedWorkerWrites(run: seq<Event>) returns (more: seq<Event>)
    requires After(run).Some? && After(run).value.accepted != [] && After(run).value.worker != NotSpawned
    ensures forall k | 0 <= k < |more| :: ByWorker(more[k])
    ensures After(run + more).Some? && After(run + more).value.accepted == After(run).value.accepted
    ensures NewestWritten(After(run + more).value)
  {
    RunKeepsInv(run);
    if After(run).value.worker == Exited {
      more := [];
      assert run + more == run;
    } else {
      DrainSteps(run);
      more := WorkerDrain(After(run).value);
    }
  }

  /**
   * Nothing accepted waits for a shutdown: from every reachable state, steps of
   * the worker alone, after that of the thread about to start it if it has not
   * been started, write the newest accepted snapshot last.
   */
  lemma AcceptedIsWritten(run: seq<Event>) returns (start: seq<Event>, more: seq<Event>)
    requires After(run).Some? && After(run).value.accepted != []
    ensures start == [] || (After(run).value.worker == NotSpawned && |start| == 1 && start[0].SpawnAndUnlock?)
    ensures forall k | 0 <= k < |more| :: ByWorker(more[k])
    ensures After(run + start + more).Some?
    ensures After(run + start + more).value.accepted == After(run).value.accepted
    ensures NewestWritten(After(run + start + more).value)
  {
    start := [];
    assert run + start == run;
    if After(run).value.worker == NotSpawned {
      RunKeepsInv(run);
      var t := FirstSaverSpawns(run);
      Snoc(run, SpawnAndUnlock(t));
      start := [SpawnAndUnlock(t)];
    }
    more := StartedWorkerWrites(run + start);
  }

  // ----- calls end -----

  predicate ByCaller(ev: Event) {
    ev.TakeSnapshot? || ev.CallShutdown?
  }

  predicate StepOf(ev: Event, t: Thread) {
    !ev.WorkerTake? && !ev.WorkerWrite? && ev.t == t
  }

  /** How many steps a call has left at most. */
  function Rank(pc: Pc): nat {
    match pc
    case Idle => 0
    case Offered(_) => 1
    case Joining(_) => 1
    case Locked(_) => 2
    case WantTake => 2
    case WantHandle(_) => 3
    case Stopping => 3
    case Snapped(_) => 4
  }

  lemma StepsLowerRank(st: State, ev: Event, t: Thread)
    requires Enabled(st, ev) && (StepOf(ev, t) ==> !ByCaller(ev))
    ensures if StepOf(ev, t) then Rank(PcOf(Apply(st, ev), t)) < Rank(PcOf(st, t))
            else PcOf(Apply(st, ev), t) == PcOf(st, t)
  {
  }

  function StepsOf(run: seq<Event>, t: Thread): nat {
    if run == [] then 0
    else StepsOf(run[..|run| - 1], t) + if StepOf(run[|run| - 1], t) then 1 else 0
  }

  /** However savers, worker and shutdown interleave, a call in progress takes at most four steps of its own. */
  lemma {:induction false} CallsAreBounded(run: seq<Event>, more: seq<Event>, t: Thread)
    requires After(run).Some? && After(run + more).Some?
    requires forall k | 0 <= k < |more| && StepOf(more[k], t) :: !ByCaller(more[k])
    ensures StepsOf(more, t) + Rank(PcOf(After(run + more).value, t)) <= Rank(PcOf(After(run).value, t)) <= 4
  {
    if more == [] {
      assert run + more == run;
    } else {
      var init, last := more[..|more| - 1], more[|more| - 1];
      assert (run + more)[..|run + more| - 1] == run + init;
      assert (run + more)[|run + more| - 1] == last;
      CallsAreBounded(run, init, t);
      StepsLowerRank(After(run + init).value, last, t);
    }
  }

  /** Steps the worker still takes once the queue is stopped. */
  function WorkerSteps(st: State): nat {
    (match st.worker
     case NotSpawned => if st.slot.Some? then 4 else 0
     case Waiting => 1
     case Writing(_) => 2
     case Exited => 0) + if st.slot.Some? then 2 else 0
  }

  /** After `stop` every worker step is one of a bounded number, and nobody adds to them. */
  lemma StoppedWorkerDrains(run: seq<Event>, ev: Event)
    requires After(run).Some? && After(run).value.stop && Enabled(After(run).value, ev)
    ensures WorkerSteps(Apply(After(run).value, ev)) <= WorkerSteps(After(run).value)
    ensures ev.WorkerTake? || ev.WorkerWrite? ==>
              WorkerSteps(Apply(After(run).value, ev)) < WorkerSteps(After(run).value)
  {
    RunKeepsInv(run);
    assert ev.SpawnAndUnlock? ==> ThreadOk(After(run).value, ev.t);
  }
}
