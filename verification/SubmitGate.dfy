/**
 * Many surfaces on one device, interleaved: a configure takes the write side of
 * the submit gate, an acquire-submit-present section holds the read side.
 *
 * A run is a sequence of events; everything the window system or a caller may
 * choose is part of the event, so a step is a function.
 */
module SubmitGate {
  import opened Prelude
  import opened Swapchain
  import opened Surface

  type Id = nat

  datatype Why = ForNew | ForResize | ForExtent | ForRetry | ForSuboptimal

  datatype Pc =
    | Idle
    | WantWrite(why: Why)
    | Configuring(why: Why)
    | WantRead(retried: bool)
    | Acquiring(retried: bool)
    | Holding(suboptimal: bool)

  datatype Local = Local(site: ConfigureSite, policy: SizePolicy, chain: Chain, pc: Pc)

  datatype State = State(readers: set<Id>, writer: Option<Id>, surfaces: map<Id, Local>)

  datatype Event =
    | New(id: Id, target: WindowTarget, extent: Extent)
    | Resize(id: Id, w: int, h: int)
    | Detach(id: Id)
    | BeginPresent(id: Id, frame: Extent)
    | DropImport(id: Id)
    | TakeWrite(id: Id, why: Why)
    | ReleaseWrite(id: Id)
    | TakeRead(id: Id)
    | Answer(id: Id, answer: Acquired)
    | SubmitAndPresent(id: Id)

  /** The largest extent the device can hold. */
  const MAX_DIM: nat

  predicate MayMove(pc: Pc, ev: Event) {
    match ev
    case New(_, _, _) => false
    case Resize(_, _, _) => pc == Idle
    case Detach(_) => pc == Idle
    case BeginPresent(_, _) => pc == Idle
    case DropImport(_) => pc == WantRead(false)
    case TakeWrite(_, why) => pc == WantWrite(why)
    case ReleaseWrite(_) => pc.Configuring?
    case TakeRead(_) => pc.WantRead?
    case Answer(_, _) => pc.Acquiring?
    case SubmitAndPresent(_) => pc.Holding?
  }

  predicate Enabled(st: State, ev: Event) {
    if ev.New? then ev.id !in st.surfaces
    else
      && ev.id in st.surfaces
      && MayMove(st.surfaces[ev.id].pc, ev)
      && (ev.TakeWrite? ==> st.writer == None && st.readers == {})
      && (ev.TakeRead? ==> st.writer == None)
  }

  /** Move the swapchain to `want`; when that needs a configure, go and ask for the write side. */
  function Reconfiguring(l: Local, want: Extent, why: Why, otherwise: Pc): Local {
    l.(chain := Reconfigured(l.chain, l.policy, want),
       pc := if ConfigureNeeded(l.chain, want) then WantWrite(why) else otherwise)
  }

  function AfterConfigure(why: Why): Pc {
    match why
    case ForExtent => WantRead(false)
    case ForRetry => WantRead(true)
    case _ => Idle
  }

  /** Where one answer of the acquire loop leads. */
  function AfterAnswer(site: ConfigureSite, retried: bool, answer: Acquired): Pc {
    match answer
    case Fresh => Holding(false)
    case Suboptimal => if site == Owner then Idle else Holding(true)
    case Lost => if site == Owner || retried then Idle else WantWrite(ForRetry)
    case Outdated => if site == Owner || retried then Idle else WantWrite(ForRetry)
    case _ => Idle
  }

  function Moved(l: Local, ev: Event): Local
    requires MayMove(l.pc, ev)
  {
    match ev
    case Resize(_, w, h) =>
      if Texels(w, h) == None then l
      else
        var stored := l.(chain := l.chain.(pending := Texels(w, h).value));
        if l.site == Owner then Reconfiguring(stored, ClampExtent(Texels(w, h).value, MAX_DIM), ForResize, Idle)
        else stored
    case Detach(_) => l.(chain := l.chain.(needsConfigure := true))
    case BeginPresent(_, frame) =>
      if l.site == Painter
      then Reconfiguring(l, WantedExtent(l.chain, l.policy, frame, MAX_DIM), ForExtent, WantRead(false))
      else l.(pc := WantRead(false))
    case DropImport(_) => l.(pc := Idle)
    case TakeWrite(_, why) => l.(pc := Configuring(why))
    case ReleaseWrite(_) => l.(pc := AfterConfigure(l.pc.why))
    case TakeRead(_) => l.(pc := Acquiring(l.pc.retried))
    case Answer(_, answer) => l.(pc := AfterAnswer(l.site, l.pc.retried, answer))
    case SubmitAndPresent(_) => l.(pc := if l.pc.suboptimal then WantWrite(ForSuboptimal) else Idle)
  }

  predicate HoldsRead(pc: Pc) {
    pc.Acquiring? || pc.Holding?
  }

  function Apply(st: State, ev: Event): State
    requires Enabled(st, ev)
  {
    match ev
    case New(id, target, e) =>
      var l := Local(SiteFor(target), PolicyFor(target), Chain(e, e, false), WantWrite(ForNew));
      st.(surfaces := st.surfaces[id := l])
    case _ =>
      var l := Moved(st.surfaces[ev.id], ev);
      State(
        if ev.TakeRead? then st.readers + {ev.id}
        else if (ev.Answer? || ev.SubmitAndPresent?) && !HoldsRead(l.pc) then st.readers - {ev.id}
        else st.readers,
        if ev.TakeWrite? then Some(ev.id) else if ev.ReleaseWrite? then None else st.writer,
        st.surfaces[ev.id := l])
  }

  /** The state a run ends in, or nothing when some event was not possible. */
  function After(run: seq<Event>): Option<State> {
    if run == [] then Some(State({}, None, map[]))
    else
      var last := run[|run| - 1];
      match After(run[..|run| - 1])
      case None => None
      case Some(st) => if Enabled(st, last) then Some(Apply(st, last)) else None
  }

  // ----- the log, read independently of the state -----

  /** The content binding of `id` is intact: a configure happened since it was last severed. */
  predicate Bound(run: seq<Event>, id: Id) {
    if run == [] then false
    else
      var last := run[|run| - 1];
      if last.id == id && last.ReleaseWrite? then true
      else if last.id == id && last.Detach? then false
      else Bound(run[..|run| - 1], id)
  }

  /** Configures of `id` for reason `why` since its latest present began. */
  function ConfiguresSince(run: seq<Event>, id: Id, why: Why): nat {
    if run == [] then 0
    else
      var last := run[|run| - 1];
      if last.id == id && last.BeginPresent? then 0
      else ConfiguresSince(run[..|run| - 1], id, why) + if last == TakeWrite(id, why) then 1 else 0
  }

  // ----- safety -----

  predicate InPresent(pc: Pc) {
    pc.WantRead? || HoldsRead(pc)
  }

  predicate Asks(pc: Pc) {
    pc.WantWrite? || pc.Configuring?
  }

  predicate WellPlaced(l: Local) {
    && (l.site == Owner ==>
          && (Asks(l.pc) ==> l.pc.why == ForNew || l.pc.why == ForResize)
          && (l.pc.WantRead? || l.pc.Acquiring? ==> !l.pc.retried)
          && (l.pc.Holding? ==> !l.pc.suboptimal))
    && (l.site == Painter && Asks(l.pc) ==> l.pc.why != ForResize)
  }

  /** The lock's two sides are held by exactly the surfaces whose program point says so. */
  ghost predicate GateOk(st: State) {
    && (forall id :: id in st.readers <==> id in st.surfaces && HoldsRead(st.surfaces[id].pc))
    && (forall id :: st.writer == Some(id) <==> id in st.surfaces && st.surfaces[id].pc.Configuring?)
    && (st.writer != None ==> st.readers == {})
  }

  /** How many retry configures a present may have behind it at each program point. */
  function RetriesAt(pc: Pc): nat {
    if pc == WantRead(false) || pc == Acquiring(false) || pc == WantWrite(ForRetry)
       || (Asks(pc) && pc.why == ForExtent) then 0 else 1
  }

  /** The settings and the program point of `id` agree with what the log says about it. */
  ghost predicate LogAgrees(run: seq<Event>, l: Local, id: Id) {
    && (!Bound(run, id) ==> l.chain.needsConfigure || Asks(l.pc))
    && (l.site == Painter && InPresent(l.pc) ==> Bound(run, id))
    && ConfiguresSince(run, id, ForRetry) <= RetriesAt(l.pc)
  }

  ghost predicate Inv(run: seq<Event>, st: State) {
    && GateOk(st)
    && (forall id | id in st.surfaces :: WellPlaced(st.surfaces[id]))
    && (forall id | id in st.surfaces :: LogAgrees(run, st.surfaces[id], id))
    && (forall id | id !in st.surfaces :: ConfiguresSince(run, id, ForRetry) == 0)
  }

  lemma OtherLogsStand(run: seq<Event>, ev: Event, id: Id, why: Why)
    requires ev.id != id
    ensures Bound(run + [ev], id) == Bound(run, id)
    ensures ConfiguresSince(run + [ev], id, why) == ConfiguresSince(run, id, why)
  {
    assert (run + [ev])[..|run|] == run;
  }

  lemma MoveKeepsLog(run: seq<Event>, l: Local, ev: Event)
    requires MayMove(l.pc, ev) && WellPlaced(l) && LogAgrees(run, l, ev.id)
    ensures WellPlaced(Moved(l, ev)) && LogAgrees(run + [ev], Moved(l, ev), ev.id)
  {
    assert (run + [ev])[..|run|] == run;
  }

  lemma NewKeepsGate(st: State, ev: Event)
    requires GateOk(st) && Enabled(st, ev) && ev.New?
    ensures GateOk(Apply(st, ev))
  {
  }

  lemma MoveKeepsReaders(st: State, ev: Event, id: Id)
    requires GateOk(st) && Enabled(st, ev) && !ev.New?
    ensures var st' := Apply(st, ev); id in st'.readers <==> id in st'.surfaces && HoldsRead(st'.surfaces[id].pc)
  {
    assert ev.id in st.readers <==> HoldsRead(st.surfaces[ev.id].pc);
  }

  lemma MoveKeepsWriter(st: State, ev: Event, id: Id)
    requires GateOk(st) && Enabled(st, ev) && !ev.New?
    ensures var st' := Apply(st, ev); st'.writer == Some(id) <==> id in st'.surfaces && st'.surfaces[id].pc.Configuring?
  {
    assert st.writer == Some(ev.id) <==> st.surfaces[ev.id].pc.Configuring?;
  }

  lemma StepKeepsGate(st: State, ev: Event)
    requires GateOk(st) && Enabled(st, ev)
    ensures GateOk(Apply(st, ev))
  {
    if ev.New? {
      NewKeepsGate(st, ev);
    } else {
      var st' := Apply(st, ev);
      forall id ensures id in st'.readers <==> id in st'.surfaces && HoldsRead(st'.surfaces[id].pc) {
        MoveKeepsReaders(st, ev, id);
      }
      forall id ensures st'.writer == Some(id) <==> id in st'.surfaces && st'.surfaces[id].pc.Configuring? {
        MoveKeepsWriter(st, ev, id);
      }
    }
  }

  lemma StepKeepsInv(run: seq<Event>, st: State, ev: Event)
    requires Inv(run, st) && Enabled(st, ev)
    ensures Inv(run + [ev], Apply(st, ev))
  {
    var st' := Apply(st, ev);
    StepKeepsGate(st, ev);
    forall id
      ensures id in st'.surfaces ==> WellPlaced(st'.surfaces[id]) && LogAgrees(run + [ev], st'.surfaces[id], id)
      ensures id !in st'.surfaces ==> ConfiguresSince(run + [ev], id, ForRetry) == 0
    {
      if id != ev.id {
        OtherLogsStand(run, ev, id, ForRetry);
      } else if ev.New? {
        assert (run + [ev])[..|run|] == run;
      } else {
        MoveKeepsLog(run, st.surfaces[id], ev);
      }
    }
  }

  lemma {:induction false} RunKeepsInv(run: seq<Event>)
    requires After(run).Some?
    ensures Inv(run, After(run).value)
  {
    if run != [] {
      var init := run[..|run| - 1];
      RunKeepsInv(init);
      StepKeepsInv(init, After(init).value, run[|run| - 1]);
      assert init + [run[|run| - 1]] == run;
    }
  }

  /** A configure never overlaps anyone's acquire-submit-present section. */
  lemma ConfigureExcludesSections(run: seq<Event>, a: Id, b: Id)
    requires After(run).Some? && a in After(run).value.surfaces && b in After(run).value.surfaces
    requires After(run).value.surfaces[a].pc.Configuring?
    ensures !HoldsRead(After(run).value.surfaces[b].pc)
    ensures b != a ==> !After(run).value.surfaces[b].pc.Configuring?
  {
    RunKeepsInv(run);
    var st := After(run).value;
    assert st.writer == Some(a);
    assert b in st.surfaces && HoldsRead(st.surfaces[b].pc) ==> b in st.readers;
    assert st.surfaces[b].pc.Configuring? ==> st.writer == Some(b);
  }

  /** Nobody asks for the write side, or for the read side again, while holding the read side. */
  lemma NoReentry(run: seq<Event>, id: Id)
    requires After(run).Some? && id in After(run).value.surfaces && id in After(run).value.readers
    ensures var pc := After(run).value.surfaces[id].pc; !pc.WantWrite? && !pc.WantRead?
  {
    RunKeepsInv(run);
  }

  /** Between `Detach` and the next configure, a surface that configures itself never presents. */
  lemma PainterPresentsBound(run: seq<Event>, id: Id)
    requires After(run).Some? && Enabled(After(run).value, SubmitAndPresent(id))
    requires After(run).value.surfaces[id].site == Painter
    ensures Bound(run, id)
  {
    RunKeepsInv(run);
  }

  /** A surface whose layer belongs to another thread configures only when created or resized by its owner. */
  lemma OwnerConfiguresOnlyAsOwner(run: seq<Event>, id: Id, why: Why)
    requires After(run).Some? && Enabled(After(run).value, TakeWrite(id, why))
    requires After(run).value.surfaces[id].site == Owner
    ensures why == ForNew || why == ForResize
  {
    RunKeepsInv(run);
  }

  /** One present never runs a second retry configure. */
  lemma AtMostOneRetry(run: seq<Event>, id: Id)
    requires After(run).Some?
    ensures ConfiguresSince(run, id, ForRetry) <= 1
  {
    RunKeepsInv(run);
  }

  // ----- what a present asks for, read from the log -----

  function TargetOf(run: seq<Event>, id: Id): Option<WindowTarget> {
    if run == [] then None
    else
      var last := run[|run| - 1];
      if last.New? && last.id == id then Some(last.target) else TargetOf(run[..|run| - 1], id)
  }

  /** The size the window's owner gave last. */
  function StoredSize(run: seq<Event>, id: Id): Extent {
    if run == [] then Extent(0, 0)
    else
      var last := run[|run| - 1];
      if last.New? && last.id == id then last.extent
      else if last.Resize? && last.id == id && last.w > 0 && last.h > 0 then Extent(last.w, last.h)
      else StoredSize(run[..|run| - 1], id)
  }

  /** The extent last configured. */
  function LastExtent(run: seq<Event>, id: Id): Extent
    decreases |run|, 0
  {
    if run == [] then Extent(0, 0)
    else
      var init, last := run[..|run| - 1], run[|run| - 1];
      if last.id != id then LastExtent(init, id)
      else
        match last
        case New(_, _, extent) => extent
        case BeginPresent(_, frame) => ExtentDue(init, id, frame)
        case Resize(_, w, h) =>
          if w > 0 && h > 0 && TargetOf(init, id) == Some(CoreAnimationLayer)
          then ClampExtent(Extent(w, h), MAX_DIM) else LastExtent(init, id)
        case _ => LastExtent(init, id)
  }

  /** The extent a present of a frame has to find, before it may draw. */
  function ExtentDue(run: seq<Event>, id: Id, frame: Extent): Extent
    decreases |run|, 1
  {
    match TargetOf(run, id)
    case Some(Xcb) => ClampExtent(StoredSize(run, id), MAX_DIM)
    case Some(CoreAnimationLayer) => LastExtent(run, id)
    case _ => frame
  }

  /** The swapchain settings are those the log tells of, and a configure is owed only while the binding is severed. */
  predicate ChainFollowsLog(run: seq<Event>, l: Local, id: Id) {
    && TargetOf(run, id).Some?
    && (l.site == Owner <==> TargetOf(run, id) == Some(CoreAnimationLayer))
    && (l.policy == FollowTarget <==> TargetOf(run, id) == Some(CoreAnimationLayer) || TargetOf(run, id) == Some(Xcb))
    && l.chain.extent == LastExtent(run, id)
    && (l.policy == FollowTarget ==> l.chain.pending == StoredSize(run, id))
    && (l.chain.needsConfigure ==> !Bound(run, id) && !Asks(l.pc))
  }

  lemma OtherChainsStand(run: seq<Event>, ev: Event, l: Local, id: Id)
    requires ev.id != id && ChainFollowsLog(run, l, id)
    ensures ChainFollowsLog(run + [ev], l, id)
  {
    assert (run + [ev])[..|run|] == run;
  }

  lemma NewChainFollowsLog(run: seq<Event>, ev: Event)
    requires ev.New?
    ensures var chain := Chain(ev.extent, ev.extent, false);
            var l := Local(SiteFor(ev.target), PolicyFor(ev.target), chain, WantWrite(ForNew));
            ChainFollowsLog(run + [ev], l, ev.id)
  {
  }

  lemma MoveFollowsLog(run: seq<Event>, l: Local, ev: Event)
    requires MayMove(l.pc, ev) && WellPlaced(l) && LogAgrees(run, l, ev.id) && ChainFollowsLog(run, l, ev.id)
    ensures ChainFollowsLog(run + [ev], Moved(l, ev), ev.id)
  {
    assert (run + [ev])[..|run|] == run;
  }

  lemma {:induction false} RunFollowsLog(run: seq<Event>, id: Id)
    requires After(run).Some? && id in After(run).value.surfaces
    ensures ChainFollowsLog(run, After(run).value.surfaces[id], id)
  {
    if run != [] {
      var init, ev := run[..|run| - 1], run[|run| - 1];
      assert init + [ev] == run;
      var st := After(init).value;
      RunKeepsInv(init);
      if ev.New? && ev.id == id {
        NewChainFollowsLog(init, ev);
      } else {
        RunFollowsLog(init, id);
        if ev.id == id {
          MoveFollowsLog(init, st.surfaces[id], ev);
        } else {
          OtherChainsStand(init, ev, st.surfaces[id], id);
        }
      }
    }
  }

  /**
   * By the log alone: a present first configures if and only if the painter may
   * and the extent due is not the one last configured, or the binding was
   * severed after the last configure. Either way that is the extent it has then.
   */
  lemma PresentConfiguresIff(run: seq<Event>, id: Id, frame: Extent)
    requires After(run).Some? && Enabled(After(run).value, BeginPresent(id, frame))
    ensures var l := Apply(After(run).value, BeginPresent(id, frame)).surfaces[id];
            && (l.pc == WantWrite(ForExtent)
                <==> TargetOf(run, id) != Some(CoreAnimationLayer)
                     && (LastExtent(run, id) != ExtentDue(run, id, frame) || !Bound(run, id)))
            && (l.pc == WantWrite(ForExtent) || l.pc == WantRead(false))
            && l.chain.extent == ExtentDue(run, id, frame)
  {
    RunKeepsInv(run);
    RunFollowsLog(run, id);
  }

  // ----- progress -----

  predicate ByCaller(ev: Event) {
    ev.New? || ev.Resize? || ev.Detach? || ev.BeginPresent?
  }

  /** Own steps a surface still has to take before its current call returns. */
  function Rank(pc: Pc): nat {
    match pc
    case Idle => 0
    case Configuring(ForExtent) => 10
    case Configuring(ForRetry) => 6
    case Configuring(_) => 1
    case WantWrite(ForExtent) => 11
    case WantWrite(ForRetry) => 7
    case WantWrite(_) => 2
    case Holding(_) => 3
    case Acquiring(retried) => if retried then 4 else 8
    case WantRead(retried) => if retried then 5 else 9
  }

  /** Every step of a call brings that call nearer its end and no other call further from its own. */
  lemma StepsLowerRank(st: State, ev: Event)
    requires Enabled(st, ev) && !ByCaller(ev)
    ensures Rank(Apply(st, ev).surfaces[ev.id].pc) < Rank(st.surfaces[ev.id].pc)
    ensures forall id | id in st.surfaces && id != ev.id :: Apply(st, ev).surfaces[id] == st.surfaces[id]
  {
  }

  function StepsOf(run: seq<Event>, id: Id): nat {
    if run == [] then 0
    else StepsOf(run[..|run| - 1], id) + if run[|run| - 1].id == id then 1 else 0
  }

  /** However the others interleave, a call in progress takes at most eleven steps of its own. */
  lemma {:induction false} CallsAreBounded(run: seq<Event>, more: seq<Event>, id: Id)
    requires After(run).Some? && After(run + more).Some? && id in After(run).value.surfaces
    requires forall k | 0 <= k < |more| :: more[k].id == id ==> !ByCaller(more[k])
    ensures id in After(run + more).value.surfaces
    ensures StepsOf(more, id) + Rank(After(run + more).value.surfaces[id].pc)
            <= Rank(After(run).value.surfaces[id].pc) <= 11
  {
    if more == [] {
      assert run + more == run;
    } else {
      var init, last := more[..|more| - 1], more[|more| - 1];
      assert (run + more)[..|run + more| - 1] == run + init;
      assert (run + more)[|run + more| - 1] == last;
      CallsAreBounded(run, init, id);
      if !ByCaller(last) {
        StepsLowerRank(After(run + init).value, last);
      }
    }
  }

  /** Readers that queue behind waiting writers, as a writer-preferring lock makes them. */
  predicate EnabledBehindWriters(st: State, ev: Event) {
    Enabled(st, ev) && (ev.TakeRead? ==> forall id | id in st.surfaces :: !st.surfaces[id].pc.WantWrite?)
  }

  /** The gate cannot deadlock: while any call is unfinished some call can take a step. */
  lemma NoDeadlock(run: seq<Event>, busy: Id) returns (ev: Event)
    requires After(run).Some? && busy in After(run).value.surfaces
    requires After(run).value.surfaces[busy].pc != Idle
    ensures EnabledBehindWriters(After(run).value, ev) && !ByCaller(ev)
  {
    RunKeepsInv(run);
    var st := After(run).value;
    if st.writer != None {
      ev := ReleaseWrite(st.writer.value);
    } else if id :| id in st.readers {
      ev := if st.surfaces[id].pc.Acquiring? then Answer(id, Timeout) else SubmitAndPresent(id);
    } else if id :| id in st.surfaces && st.surfaces[id].pc.WantWrite? {
      ev := TakeWrite(id, st.surfaces[id].pc.why);
    } else {
      ev := TakeRead(busy);
    }
  }

  lemma Happens(run: seq<Event>, ev: Event)
    requires After(run).Some? && Enabled(After(run).value, ev)
    ensures After(run + [ev]) == Some(Apply(After(run).value, ev))
  {
    assert (run + [ev])[..|run|] == run;
  }

  /** The gate is free and `id` is at this point, everyone else where `others` says. */
  predicate FreeAt(st: Option<State>, id: Id, l: Local, others: map<Id, Local>) {
    st == Some(State({}, None, others[id := l]))
  }

  lemma ConfigureHappens(run: seq<Event>, id: Id, l: Local, others: map<Id, Local>)
    requires FreeAt(After(run), id, l, others) && l.pc.WantWrite?
    ensures FreeAt(After(run + [TakeWrite(id, l.pc.why)] + [ReleaseWrite(id)]), id,
                   l.(pc := AfterConfigure(l.pc.why)), others)
  {
    Happens(run, TakeWrite(id, l.pc.why));
    Happens(run + [TakeWrite(id, l.pc.why)], ReleaseWrite(id));
    var st := After(run + [TakeWrite(id, l.pc.why)] + [ReleaseWrite(id)]).value;
    assert st.surfaces == others[id := l.(pc := AfterConfigure(l.pc.why))];
  }

  lemma DropHappens(run: seq<Event>, id: Id, l: Local, others: map<Id, Local>)
    requires FreeAt(After(run), id, l, others) && l.pc == WantRead(false)
    ensures FreeAt(After(run + [DropImport(id)]), id, l.(pc := Idle), others)
  {
    Happens(run, DropImport(id));
    assert others[id := l][id := l.(pc := Idle)] == others[id := l.(pc := Idle)];
  }

  /** A surface is made at any time, waits for the gate alone, and is ready once configured at its extent. */
  lemma NewIsConfiguredFirst(run: seq<Event>, id: Id, target: WindowTarget, e: Extent)
    requires After(run).Some? && id !in After(run).value.surfaces
    ensures var st := After(run + [New(id, target, e)]);
            st.Some? && id in st.value.surfaces && st.value.surfaces[id].pc == WantWrite(ForNew)
    ensures var st := After(run).value;
            st.readers == {} && st.writer == None ==>
              FreeAt(After(run + [New(id, target, e)] + [TakeWrite(id, ForNew)] + [ReleaseWrite(id)]), id,
                     Local(SiteFor(target), PolicyFor(target), Chain(e, e, false), Idle), st.surfaces)
  {
    Happens(run, New(id, target, e));
    var st := After(run).value;
    if st.readers == {} && st.writer == None {
      var l := Local(SiteFor(target), PolicyFor(target), Chain(e, e, false), WantWrite(ForNew));
      ConfigureHappens(run + [New(id, target, e)], id, l, st.surfaces);
    }
  }

  /** A shared frame is given up as a failed import only before the first frame was asked for. */
  lemma ImportIsDecidedFirst(run: seq<Event>, id: Id)
    requires After(run).Some? && Enabled(After(run).value, DropImport(id))
    ensures ConfiguresSince(run, id, ForRetry) == 0 && id !in After(run).value.readers
    ensures After(run + [DropImport(id)]).value.surfaces[id] == After(run).value.surfaces[id].(pc := Idle)
  {
    RunKeepsInv(run);
    Happens(run, DropImport(id));
  }

  /** With the gate free a frame whose import fails costs the configure its extent needs, and nothing else. */
  lemma FailedImportIsSkipped(run: seq<Event>, id: Id, frame: Extent, l: Local, others: map<Id, Local>)
    requires FreeAt(After(run), id, l, others) && l.pc == Idle
    ensures var begun := run + [BeginPresent(id, frame)];
            var sized := l.(chain := Sized(l.site, l.policy, MAX_DIM, l.chain, frame));
            if SizingConfigures(l.site, l.policy, MAX_DIM, l.chain, frame) == 0
            then FreeAt(After(begun + [DropImport(id)]), id, sized, others)
            else FreeAt(After(begun + [TakeWrite(id, ForExtent)] + [ReleaseWrite(id)] + [DropImport(id)]),
                        id, sized, others)
  {
    var begun := run + [BeginPresent(id, frame)];
    Happens(run, BeginPresent(id, frame));
    var now := Moved(l, BeginPresent(id, frame));
    assert others[id := l][id := now] == others[id := now];
    assert FreeAt(After(begun), id, now, others);
    if SizingConfigures(l.site, l.policy, MAX_DIM, l.chain, frame) == 0 {
      DropHappens(begun, id, now, others);
    } else {
      ConfigureHappens(begun, id, now, others);
      DropHappens(begun + [TakeWrite(id, ForExtent)] + [ReleaseWrite(id)], id, now.(pc := WantRead(false)), others);
    }
  }

  // ----- what a present does, whoever interleaves -----

  /** Configures started by `id`. */
  function Configures(run: seq<Event>, id: Id): nat {
    if run == [] then 0
    else
      var last := run[|run| - 1];
      Configures(run[..|run| - 1], id) + if last.TakeWrite? && last.id == id then 1 else 0
  }

  /** Frames shown by `id`. */
  function Shows(run: seq<Event>, id: Id): nat {
    if run == [] then 0
    else
      var last := run[|run| - 1];
      Shows(run[..|run| - 1], id) + if last == SubmitAndPresent(id) then 1 else 0
  }

  /** What the window system answered `id`, in order. */
  function Answers(run: seq<Event>, id: Id): seq<Acquired> {
    if run == [] then []
    else
      var rest, last := Answers(run[..|run| - 1], id), run[|run| - 1];
      if last.Answer? && last.id == id then rest + [last.answer] else rest
  }

  /** Configures and shown frames still to come at a program point, with these answers ahead. */
  function Ahead(site: ConfigureSite, pc: Pc, answers: seq<Acquired>): (int, int)
    decreases Rank(pc)
  {
    match pc
    case Idle => (0, 0)
    case WantWrite(why) =>
      var rest := Ahead(site, Configuring(why), answers);
      (rest.0 + 1, rest.1)
    case Configuring(why) => Ahead(site, AfterConfigure(why), answers)
    case WantRead(retried) => Ahead(site, Acquiring(retried), answers)
    case Acquiring(retried) =>
      if answers == [] then (0, 0) else Ahead(site, AfterAnswer(site, retried, answers[0]), answers[1..])
    case Holding(suboptimal) =>
      var rest := Ahead(site, if suboptimal then WantWrite(ForSuboptimal) else Idle, answers);
      (rest.0, rest.1 + 1)
  }

  predicate OwnSteps(more: seq<Event>, id: Id) {
    forall k | 0 <= k < |more| && more[k].id == id :: !ByCaller(more[k]) && !more[k].DropImport?
  }

  lemma StepLedger(l: Local, ev: Event, answers: seq<Acquired>)
    requires MayMove(l.pc, ev) && !ByCaller(ev) && !ev.DropImport?
    requires ev.Answer? ==> answers != [] && answers[0] == ev.answer
    ensures var before := Ahead(l.site, l.pc, answers);
            var after := Ahead(l.site, Moved(l, ev).pc, if ev.Answer? then answers[1..] else answers);
            && before.0 == after.0 + (if ev.TakeWrite? then 1 else 0)
            && before.1 == after.1 + (if ev.SubmitAndPresent? then 1 else 0)
    ensures Moved(l, ev).site == l.site && Moved(l, ev).chain == l.chain
  {
  }

  /** Between two moments of a run: what was ahead is what has happened since and what is ahead now. */
  predicate Balanced(l: Local, now: Local, more: seq<Event>, id: Id, answers: seq<Acquired>) {
    && Answers(more, id) <= answers && now.site == l.site && now.chain == l.chain
    && var before, after := Ahead(l.site, l.pc, answers), Ahead(l.site, now.pc, answers[|Answers(more, id)|..]);
    before.0 == after.0 + Configures(more, id) && before.1 == after.1 + Shows(more, id)
  }

  lemma LogSnoc(init: seq<Event>, last: Event, id: Id)
    ensures Configures(init + [last], id) == Configures(init, id) + if last.TakeWrite? && last.id == id then 1 else 0
    ensures Shows(init + [last], id) == Shows(init, id) + if last == SubmitAndPresent(id) then 1 else 0
    ensures Answers(init + [last], id)
            == Answers(init, id) + if last.Answer? && last.id == id then [last.answer] else []
  {
    assert (init + [last])[..|init|] == init;
  }

  lemma NextAnswer(answers: seq<Acquired>, seen: seq<Acquired>, a: Acquired)
    requires seen + [a] <= answers
    ensures answers[|seen|..] != [] && answers[|seen|..][0] == a
    ensures answers[|seen|..][1..] == answers[|seen + [a]|..]
  {
    assert a == (seen + [a])[|seen|] == answers[|seen|];
  }

  lemma BalanceStep(l: Local, now: Local, init: seq<Event>, last: Event, answers: seq<Acquired>)
    requires Balanced(l, now, init, last.id, answers) && Answers(init + [last], last.id) <= answers
    requires MayMove(now.pc, last) && !ByCaller(last) && !last.DropImport?
    ensures Balanced(l, Moved(now, last), init + [last], last.id, answers)
  {
    var seen := Answers(init, last.id);
    LogSnoc(init, last, last.id);
    if last.Answer? {
      NextAnswer(answers, seen, last.answer);
    }
    StepLedger(now, last, answers[|seen|..]);
  }

  lemma BalanceOthers(l: Local, now: Local, init: seq<Event>, last: Event, id: Id, answers: seq<Acquired>)
    requires Balanced(l, now, init, id, answers) && last.id != id
    ensures Balanced(l, now, init + [last], id, answers)
  {
    LogSnoc(init, last, id);
  }

  lemma BalanceBegins(l: Local, id: Id, answers: seq<Acquired>)
    ensures Balanced(l, l, [], id, answers)
  {
    assert answers[0..] == answers;
  }

  lemma LocalStep(run: seq<Event>, ev: Event, id: Id)
    requires After(run).Some? && After(run + [ev]).Some? && id in After(run).value.surfaces
    ensures id in After(run + [ev]).value.surfaces
    ensures var before, after := After(run).value.surfaces[id], After(run + [ev]).value.surfaces[id];
            if ev.id == id then MayMove(before.pc, ev) && after == Moved(before, ev) else after == before
  {
    assert (run + [ev])[..|run|] == run;
  }

  lemma {:induction false} AfterPrefix(run: seq<Event>, more: seq<Event>)
    requires After(run + more).Some?
    ensures After(run).Some?
  {
    if more == [] {
      assert run + more == run;
    } else {
      assert (run + more)[..|run + more| - 1] == run + more[..|more| - 1];
      AfterPrefix(run, more[..|more| - 1]);
    }
  }

  lemma OwnStepsSnoc(init: seq<Event>, last: Event, id: Id, answers: seq<Acquired>)
    requires OwnSteps(init + [last], id) && Answers(init + [last], id) <= answers
    ensures OwnSteps(init, id) && Answers(init, id) <= answers
    ensures last.id == id ==> !ByCaller(last) && !last.DropImport?
  {
    assert (init + [last])[..|init|] == init && (init + [last])[|init|] == last;
    LogSnoc(init, last, id);
    forall k | 0 <= k < |init| && init[k].id == id ensures !ByCaller(init[k]) && !init[k].DropImport? {
      assert (init + [last])[k] == init[k];
    }
  }

  lemma BalanceMoves(
      l: Local, now: Local, next: Local, init: seq<Event>, last: Event, id: Id, answers: seq<Acquired>)
    requires Balanced(l, now, init, id, answers) && Answers(init + [last], id) <= answers
    requires if last.id == id
             then MayMove(now.pc, last) && next == Moved(now, last) && !ByCaller(last) && !last.DropImport?
             else next == now
    ensures Balanced(l, next, init + [last], id, answers)
  {
    if last.id == id {
      BalanceStep(l, now, init, last, answers);
    } else {
      BalanceOthers(l, now, init, last, id, answers);
    }
  }

  lemma {:induction false} Ledger(run: seq<Event>, more: seq<Event>, id: Id, answers: seq<Acquired>)
    requires After(run).Some? && After(run + more).Some? && id in After(run).value.surfaces
    requires OwnSteps(more, id) && Answers(more, id) <= answers
    ensures id in After(run + more).value.surfaces
    ensures Balanced(After(run).value.surfaces[id], After(run + more).value.surfaces[id], more, id, answers)
  {
    if more == [] {
      assert run + more == run;
      BalanceBegins(After(run).value.surfaces[id], id, answers);
    } else {
      var init, last := more[..|more| - 1], more[|more| - 1];
      assert more == init + [last] && run + more == (run + init) + [last];
      AfterPrefix(run + init, [last]);
      OwnStepsSnoc(init, last, id, answers);
      Ledger(run, init, id, answers);
      LocalStep(run + init, last, id);
      BalanceMoves(After(run).value.surfaces[id], After(run + init).value.surfaces[id],
                   After(run + more).value.surfaces[id], init, last, id, answers);
    }
  }

  /** Answers as the acquire loop asks for them; beyond those given it is never asked. */
  function Asked(answers: seq<Acquired>): nat -> Acquired {
    (k: nat) => if k < |answers| then answers[k] else Timeout
  }

  predicate Draws(site: ConfigureSite, a: Acquired) {
    DrawnOn(site, a) == Success(Yes)
  }

  /** The last answer of an acquire loop: a frame is shown or not, and a suboptimal one costs a painter a configure. */
  lemma AheadOfLastAnswer(site: ConfigureSite, retried: bool, a: Acquired, rest: seq<Acquired>)
    requires Stale(a) ==> site == Owner || retried
    ensures var ahead := Ahead(site, AfterAnswer(site, retried, a), rest);
            && ahead.0 == (if site == Painter && a == Suboptimal then 1 else 0)
            && ahead.1 == (if Draws(site, a) then 1 else 0)
  {
    assert Ahead(site, Idle, rest) == (0, 0);
    assert Ahead(site, Configuring(ForSuboptimal), rest) == (0, 0);
    assert Ahead(site, WantWrite(ForSuboptimal), rest) == (1, 0);
  }

  lemma AheadOfRetry(answers: seq<Acquired>)
    ensures var ahead := Ahead(Painter, WantWrite(ForRetry), answers);
            && ahead.0 == 1 + (if answers != [] && answers[0] == Suboptimal then 1 else 0)
            && ahead.1 == (if answers != [] && Draws(Painter, answers[0]) then 1 else 0)
  {
    assert Ahead(Painter, Configuring(ForRetry), answers) == Ahead(Painter, WantRead(true), answers);
    assert Ahead(Painter, WantRead(true), answers) == Ahead(Painter, Acquiring(true), answers);
    if answers != [] {
      AheadOfLastAnswer(Painter, true, answers[0], answers[1..]);
    }
  }

  lemma AheadOfAcquire(site: ConfigureSite, answers: seq<Acquired>)
    ensures var ahead := Ahead(site, WantRead(false), answers);
            && ahead.0 == DrawConfigures(site, Asked(answers))
            && ahead.1 == if Draws(site, LastAnswer(site, Asked(answers))) then 1 else 0
  {
    assert Ahead(site, WantRead(false), answers) == Ahead(site, Acquiring(false), answers);
    if answers == [] {
      assert Asked(answers)(0) == Timeout;
    } else if site == Painter && Stale(answers[0]) {
      AheadOfRetry(answers[1..]);
      assert Asked(answers)(1) == if |answers| > 1 then answers[1..][0] else Timeout;
    } else {
      AheadOfLastAnswer(site, false, answers[0], answers[1..]);
    }
  }

  lemma AheadOfPresent(l: Local, frame: Extent, answers: seq<Acquired>)
    requires l.pc == Idle
    ensures var begun := Moved(l, BeginPresent(0, frame));
            var ahead := Ahead(l.site, begun.pc, answers);
            && begun.site == l.site && begun.chain == Sized(l.site, l.policy, MAX_DIM, l.chain, frame)
            && ahead.0 == SizingConfigures(l.site, l.policy, MAX_DIM, l.chain, frame)
                          + DrawConfigures(l.site, Asked(answers))
            && ahead.1 == if Draws(l.site, LastAnswer(l.site, Asked(answers))) then 1 else 0
  {
    AheadOfAcquire(l.site, answers);
  }

  /**
   * However the others interleave, a present that is over has configured
   * exactly as often, shown a frame exactly when, and left the swapchain
   * exactly where the single-threaded surface says it does.
   */
  lemma PresentAgreesWithSurface(run: seq<Event>, id: Id, frame: Extent, more: seq<Event>)
    requires After(run).Some? && After(run + [BeginPresent(id, frame)] + more).Some?
    requires id in After(run).value.surfaces && After(run).value.surfaces[id].pc == Idle && OwnSteps(more, id)
    requires id in After(run + [BeginPresent(id, frame)] + more).value.surfaces
    requires After(run + [BeginPresent(id, frame)] + more).value.surfaces[id].pc == Idle
    ensures var l := After(run).value.surfaces[id];
            var now := After(run + [BeginPresent(id, frame)] + more).value.surfaces[id];
            var answers := Asked(Answers(more, id));
            && now.chain == Sized(l.site, l.policy, MAX_DIM, l.chain, frame)
            && Configures(more, id) == SizingConfigures(l.site, l.policy, MAX_DIM, l.chain, frame)
                                       + DrawConfigures(l.site, answers)
            && (Shows(more, id) == 1 <==> DrawnOn(l.site, LastAnswer(l.site, answers)) == Success(Yes))
  {
    var begun := run + [BeginPresent(id, frame)];
    assert begun[..|begun| - 1] == run;
    AfterPrefix(begun, more);
    AheadOfPresent(After(run).value.surfaces[id], frame, Answers(more, id));
    Ledger(begun, more, id, Answers(more, id));
  }
}
