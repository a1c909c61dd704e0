/** When the second-instance listener acts: backoff, the connection cap, and taking over a stale name. */
module Policy {
  import opened Prelude

  // Milliseconds.
  const BACKOFF_MIN: nat := 10
  const BACKOFF_MAX: nat := 1000

  const MAX_CONNECTIONS: nat := 8
  const REBIND_RETRIES: nat := 5
  const REBIND_DELAY: nat := 50

  function Doubled(next: nat): nat {
    Min(next * 2, BACKOFF_MAX)
  }

  class Backoff {
    var next: nat

    constructor ()
      ensures next == BACKOFF_MIN
    {
      next := BACKOFF_MIN;
    }

    method NextDelay() returns (delay: nat)
      modifies this
      ensures delay == old(next) && next == if old(next) < 500 then 2 * old(next) else 1000
    {
      delay := next;
      next := Min(next * 2, BACKOFF_MAX);
    }

    method Reset()
      modifies this
      ensures next == 10
    {
      next := BACKOFF_MIN;
    }
  }

  predicate HasCapacity(active: int) {
    active < MAX_CONNECTIONS
  }

  datatype ProbeAnswer = Connected | ConnectionRefused | NotFound | Unreachable

  predicate ProbeIsStale(p: ProbeAnswer) {
    p == ConnectionRefused || p == NotFound
  }

  function RebindDelay(retriesDone: nat): Option<nat> {
    if retriesDone < REBIND_RETRIES then Some(REBIND_DELAY) else None
  }

  datatype Bind = Bound | NameTaken | BindFailed

  datatype Start = Started | AlreadyRunning | Failed

  method Rebind(binds: nat -> Bind) returns (start: Start, attempts: nat, waited: nat)
    requires binds(0) != Bound
    ensures 2 <= attempts <= 7 && waited == 50 * (attempts - 2)
    ensures start == if binds(attempts - 1) == Bound then Started else Failed
    ensures forall k | 0 <= k < attempts - 1 :: binds(k) != Bound
    ensures start == Failed ==> attempts == 7
  {
    var retries := 0;
    attempts, waited := 1, 0;
    while true
      invariant attempts == retries + 1 && retries <= REBIND_RETRIES && waited == REBIND_DELAY * retries
      invariant forall k | 0 <= k < attempts :: binds(k) != Bound
      decreases REBIND_RETRIES - retries
    {
      var bind := binds(attempts);
      attempts := attempts + 1;
      if bind == Bound {
        return Started, attempts, waited;
      }
      var delay := RebindDelay(retries);
      if delay == None {
        return Failed, attempts, waited;
      }
      waited := waited + delay.value;
      retries := retries + 1;
    }
  }

  /**
   * Bind the listener's name. `binds` answers the attempts in order, `probe`
   * the one connect made when the name turns out to be held. An attempt after
   * the first overwrites the name.
   */
  method CreateWith(binds: nat -> Bind, probe: ProbeAnswer) returns (start: Start, attempts: nat, waited: nat)
    ensures 1 <= attempts <= 7 && waited == 50 * Max(0, attempts - 2)
    ensures attempts > 1 <==> binds(0) == NameTaken && (probe == ConnectionRefused || probe == NotFound)
    ensures start == Started <==> binds(attempts - 1) == Bound
    ensures start == AlreadyRunning <==> binds(0) == NameTaken && probe == Connected
    ensures forall k | 0 <= k < attempts - 1 :: binds(k) != Bound
    ensures attempts > 1 && start != Started ==> attempts == 7
  {
    attempts, waited := 1, 0;
    match binds(0) {
      case Bound =>
        start := Started;
      case BindFailed =>
        start := Failed;
      case NameTaken =>
        if probe == Connected {
          start := AlreadyRunning;
        } else if ProbeIsStale(probe) {
          start, attempts, waited := Rebind(binds);
        } else {
          start := Failed;
        }
    }
  }
}

/** The accept loop and the tasks it spawns, interleaved around one atomic counter. */
module AcceptLoop {
  import opened Prelude
  import opened Policy

  type Task = nat

  datatype Pc = Accepting | Sleeping(delay: nat) | FirstCheck | Grace | SecondCheck | Admitting | Spawning | Stopped

  /** `Leaving` has finished serving but not yet given its slot back. */
  datatype TaskPc = Serving | Leaving

  datatype State = State(pc: Pc, next: nat, active: int, tasks: map<Task, TaskPc>)

  datatype Event =
    | AcceptOk
    | AcceptErr
    | Wake
    | LoadActive
    | FetchAdd
    | Spawn(t: Task)
    | Stop
    | ServeEnds(t: Task)
    | FetchSub(t: Task)

  predicate Enabled(st: State, ev: Event) {
    match ev
    case AcceptOk => st.pc == Accepting
    case AcceptErr => st.pc == Accepting
    case Wake => st.pc.Sleeping? || st.pc == Grace
    case LoadActive => st.pc == FirstCheck || st.pc == SecondCheck
    case FetchAdd => st.pc == Admitting
    case Spawn(t) => st.pc == Spawning && t !in st.tasks
    case Stop => st.pc == Accepting || st.pc.Sleeping? || st.pc == Grace
    case ServeEnds(t) => t in st.tasks && st.tasks[t] == Serving
    case FetchSub(t) => t in st.tasks && st.tasks[t] == Leaving
  }

  function Apply(st: State, ev: Event): State
    requires Enabled(st, ev)
  {
    match ev
    case AcceptOk => st.(pc := FirstCheck, next := BACKOFF_MIN)
    case AcceptErr => st.(pc := Sleeping(st.next), next := Doubled(st.next))
    case Wake => st.(pc := if st.pc == Grace then SecondCheck else Accepting)
    case LoadActive =>
      if st.pc == FirstCheck then st.(pc := if HasCapacity(st.active) then SecondCheck else Grace)
      else st.(pc := if HasCapacity(st.active) then Admitting else Accepting)
    case FetchAdd => st.(pc := Spawning, active := st.active + 1)
    case Spawn(t) => st.(pc := Accepting, tasks := st.tasks[t := Serving])
    case Stop => st.(pc := Stopped)
    case ServeEnds(t) => st.(tasks := st.tasks[t := Leaving])
    case FetchSub(t) => st.(active := st.active - 1, tasks := st.tasks - {t})
  }

  function After(run: seq<Event>): Option<State> {
    if run == [] then Some(State(Accepting, BACKOFF_MIN, 0, map[]))
    else
      var last := run[|run| - 1];
      match After(run[..|run| - 1])
      case None => None
      case Some(st) => if Enabled(st, last) then Some(Apply(st, last)) else None
  }

  /** Accept failures since the last success. */
  function Failures(run: seq<Event>): nat {
    if run == [] then 0
    else
      match run[|run| - 1]
      case AcceptOk => 0
      case AcceptErr => Failures(run[..|run| - 1]) + 1
      case _ => Failures(run[..|run| - 1])
  }

  function Pow2(k: nat): nat {
    if k == 0 then 1 else 2 * Pow2(k - 1)
  }

  function Delay(k: nat): nat {
    Min(10 * Pow2(k), 1000)
  }

  predicate Counted(st: State) {
    && st.active == |st.tasks.Keys| + (if st.pc == Spawning then 1 else 0)
    && st.active <= MAX_CONNECTIONS
    && (st.pc == Admitting ==> HasCapacity(st.active))
  }

  lemma StepKeepsCount(st: State, ev: Event)
    requires Counted(st) && Enabled(st, ev)
    ensures Counted(Apply(st, ev))
  {
    match ev {
      case FetchSub(t) =>
        assert Apply(st, ev).tasks.Keys == st.tasks.Keys - {t};
      case ServeEnds(t) =>
        assert Apply(st, ev).tasks.Keys == st.tasks.Keys;
      case Spawn(t) =>
        assert Apply(st, ev).tasks.Keys == st.tasks.Keys + {t};
      case _ =>
    }
  }

  lemma StepKeepsBackoff(run: seq<Event>, st: State, ev: Event)
    requires st.next == Delay(Failures(run)) && Enabled(st, ev)
    ensures Apply(st, ev).next == Delay(Failures(run + [ev]))
  {
    assert (run + [ev])[..|run|] == run;
  }

  lemma {:induction false} RunKeepsInv(run: seq<Event>)
    requires After(run).Some?
    ensures Counted(After(run).value) && After(run).value.next == Delay(Failures(run))
  {
    if run != [] {
      var init, last := run[..|run| - 1], run[|run| - 1];
      RunKeepsInv(init);
      StepKeepsCount(After(init).value, last);
      StepKeepsBackoff(init, After(init).value, last);
      assert init + [last] == run;
    }
  }

  /** The counter is the number of unfinished serving tasks, counting one about to start, and never passes the cap. */
  lemma CapHolds(run: seq<Event>)
    requires After(run).Some?
    ensures var st := After(run).value;
            && st.active == |st.tasks.Keys| + (if st.pc == Spawning then 1 else 0)
            && |st.tasks.Keys| <= st.active <= 8
  {
    RunKeepsInv(run);
  }

  /**
   * An accepted peer is turned away only with the cap reached at that moment;
   * one that finds room at the second look is served.
   */
  lemma RefusedOnlyAtTheCap(run: seq<Event>)
    requires After(run).Some? && After(run).value.pc == SecondCheck
    ensures var st := After(run + [LoadActive]).value;
            (st.pc == Accepting <==> |st.tasks.Keys| == 8) && (st.pc == Admitting <==> |st.tasks.Keys| < 8)
  {
    RunKeepsInv(run);
    assert (run + [LoadActive])[..|run|] == run;
  }

  lemma AfterSnoc(run: seq<Event>, st: State, ev: Event)
    requires After(run) == Some(st) && Enabled(st, ev)
    ensures After(run + [ev]) == Some(Apply(st, ev))
  {
    assert (run + [ev])[..|run|] == run;
  }

  /** The wait after the k-th consecutive failure doubles from ten milliseconds up to a second. */
  lemma BackoffIsExponential(run: seq<Event>)
    requires After(run).Some? && Enabled(After(run).value, AcceptErr)
    ensures After(run + [AcceptErr]).value.pc == Sleeping(Min(10 * Pow2(Failures(run)), 1000))
  {
    RunKeepsInv(run);
    assert (run + [AcceptErr])[..|run|] == run;
  }

  /** When it is over the loop accepts again, with nothing else changed. */
  lemma WaitEnds(run: seq<Event>)
    requires After(run).Some? && After(run).value.pc.Sleeping?
    ensures After(run + [Wake]) == Some(After(run).value.(pc := Accepting))
  {
    AfterSnoc(run, After(run).value, Wake);
  }

  /** The first look: room is looked at again at once, a full house only after a grace wait. */
  lemma FullHouseGetsGrace(run: seq<Event>)
    requires After(run).Some? && After(run).value.pc == FirstCheck
    ensures var st, next := After(run).value, After(run + [LoadActive]);
            next == Some(st.(pc := if |st.tasks.Keys| < 8 then SecondCheck else Grace))
    ensures var st, next := After(run).value, After(run + [LoadActive] + [Wake]);
            |st.tasks.Keys| == 8 ==> next == Some(st.(pc := SecondCheck))
  {
    var st := After(run).value;
    RunKeepsInv(run);
    AfterSnoc(run, st, LoadActive);
    if |st.tasks.Keys| == 8 {
      AfterSnoc(run + [LoadActive], st.(pc := Grace), Wake);
    }
  }

  /** A peer accepted with fewer than eight tasks about is served, and the loop is back at accepting. */
  lemma RoomMeansService(run: seq<Event>, t: Task)
    requires After(run).Some? && After(run).value.pc == Accepting
    requires |After(run).value.tasks.Keys| < 8 && t !in After(run).value.tasks
    ensures var st := After(run).value;
            After(run + [AcceptOk] + [LoadActive] + [LoadActive] + [FetchAdd] + [Spawn(t)])
            == Some(State(Accepting, 10, st.active + 1, st.tasks[t := Serving]))
  {
    var st := After(run).value;
    RunKeepsInv(run);
    var accepted := State(FirstCheck, 10, st.active, st.tasks);
    AfterSnoc(run, st, AcceptOk);
    AfterSnoc(run + [AcceptOk], accepted, LoadActive);
    AfterSnoc(run + [AcceptOk] + [LoadActive], accepted.(pc := SecondCheck), LoadActive);
    AfterSnoc(run + [AcceptOk] + [LoadActive] + [LoadActive], accepted.(pc := Admitting), FetchAdd);
    var counted := accepted.(pc := Spawning, active := st.active + 1);
    AfterSnoc(run + [AcceptOk] + [LoadActive] + [LoadActive] + [FetchAdd], counted, Spawn(t));
  }

  /** Whatever the loop is doing, a task that has finished gives its slot back. */
  lemma SlotComesBack(run: seq<Event>, t: Task)
    requires After(run).Some? && t in After(run).value.tasks && After(run).value.tasks[t] == Serving
    ensures var st := After(run).value;
            After(run + [ServeEnds(t)] + [FetchSub(t)])
            == Some(State(st.pc, st.next, st.active - 1, st.tasks - {t}))
  {
    var st := After(run).value;
    AfterSnoc(run, st, ServeEnds(t));
    var leaving := st.(tasks := st.tasks[t := Leaving]);
    AfterSnoc(run + [ServeEnds(t)], leaving, FetchSub(t));
    assert leaving.tasks - {t} == st.tasks - {t};
  }

  /** Until it is stopped the loop can go on by itself, without waiting for any task. */
  lemma LoopGoesOn(run: seq<Event>, t: Task) returns (ev: Event)
    requires After(run).Some? && After(run).value.pc != Stopped && t !in After(run).value.tasks
    ensures Enabled(After(run).value, ev) && !ev.Stop? && !ev.ServeEnds? && !ev.FetchSub?
  {
    match After(run).value.pc {
      case Accepting => ev := AcceptOk;
      case Sleeping(_) => ev := Wake;
      case Grace => ev := Wake;
      case FirstCheck => ev := LoadActive;
      case SecondCheck => ev := LoadActive;
      case Admitting => ev := FetchAdd;
      case Spawning => ev := Spawn(t);
    }
  }

  lemma {:induction false} StoppedIff(run: seq<Event>)
    requires After(run).Some?
    ensures After(run).value.pc == Stopped <==> Stop in run
  {
    if run != [] {
      var init, last := run[..|run| - 1], run[|run| - 1];
      StoppedIff(init);
      assert run == init + [last];
    }
  }

  /** A stop is heard wherever the loop waits, ends it for good, and leaves the tasks that serve to finish. */
  lemma StopIsHeard(run: seq<Event>, more: seq<Event>)
    requires After(run).Some?
    ensures var st := After(run).value;
            Enabled(st, Stop) <==> st.pc == Accepting || st.pc.Sleeping? || st.pc == Grace
    ensures Enabled(After(run).value, Stop) ==> After(run + [Stop]) == Some(After(run).value.(pc := Stopped))
    ensures After(run + [Stop] + more).Some? ==> After(run + [Stop] + more).value.pc == Stopped
  {
    if Enabled(After(run).value, Stop) {
      AfterSnoc(run, After(run).value, Stop);
    }
    if After(run + [Stop] + more).Some? {
      StoppedIff(run + [Stop] + more);
      assert (run + [Stop] + more)[|run|] == Stop;
    }
  }
}
