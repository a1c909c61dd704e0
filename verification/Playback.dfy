/** The source badge's session: polls, timers and the one notice, over any order of events. */
module Playback {
  import opened Prelude
  import opened Throughput

  const FIRST_POLL_MS: nat := 4000
  const POLL_INTERVAL_MS: nat := 10000
  const PROVISIONAL_POLL_MAX: nat := 12

  type Item = nat

  datatype Method = DirectPlay | DirectStream | Transcode | Unknown(name: nat)

  datatype Level = Direct | Stream | TranscodeGpu | Cpu | Behind

  datatype Notice = Off | CpuOnly | Any

  /** One usable answer about the transcoder. */
  datatype Info = Info(hardware: bool, framerate: Option<real>, lead: Option<real>)

  datatype Session = Session(
    item: Option<Item>,
    playMethod: Option<Method>,
    fps: Option<real>,
    hardware: Option<bool>,
    struggling: bool,
    polled: bool,
    toastShown: bool,
    provisional: bool,
    pollsBeforeStart: nat,
    tracker: Tracked)

  const NEW_SESSION := Session(None, None, None, None, false, false, false, false, 0, NEW_TRACKER)

  /** Timers are numbered as the browser hands them out. */
  type Timer = nat

  datatype Effect =
    | PollStarted(session: nat, provisional: bool)
    | PollSettled(session: nat)
    | Toasted(session: nat, level: Level)

  /**
   * The module's variables, the browser's pending timers, the polls not answered
   * yet and those whose follow-up is due; sessions are numbered for the log.
   */
  datatype State = State(
    session: Session, number: nat, timer: Option<Timer>,
    pending: map<Timer, nat>, nextTimer: Timer, inFlight: nat, settled: nat, log: seq<Effect>)

  const INITIAL := State(NEW_SESSION, 0, None, map[], 0, 0, 0, [])

  datatype Event =
    | NotePlay(agreed: Method, item: Option<Item>, fps: Option<real>)
    | Start(item: Option<Item>, playMethod: Option<Method>, source: Option<Option<real>>)
    | Stop
    | Fire(timer: Timer)
    | Settle(answer: Option<Info>, notice: Notice)
    | FollowUp

  // ----- the steps -----

  function Classify(s: Session): Option<Level> {
    match s.playMethod
    case Some(DirectPlay) => Some(Direct)
    case Some(DirectStream) => Some(Stream)
    case Some(Transcode) =>
      if s.struggling then Some(Behind)
      else if s.hardware == Some(false) then Some(Cpu)
      else Some(TranscodeGpu)
    case _ => None
  }

  predicate Worth(level: Option<Level>, notice: Notice) {
    && level.Some? && !level.value.Direct? && !level.value.Stream?
    && match notice
       case Off => false
       case CpuOnly => level.value.Cpu? || level.value.Behind?
       case Any => true
  }

  predicate KeepPolling(s: Session) {
    s.playMethod == Some(Transcode) && (!s.provisional || s.pollsBeforeStart < PROVISIONAL_POLL_MAX)
  }

  function TimerCleared(st: State): State {
    st.(pending := if st.timer.Some? then st.pending - {st.timer.value} else st.pending, timer := None)
  }

  function Scheduled(st: State, delay: nat): State {
    var clear := TimerCleared(st);
    clear.(timer := Some(st.nextTimer), pending := clear.pending[st.nextTimer := delay], nextTimer := st.nextTimer + 1)
  }

  function Noted(st: State, playMethod: Method, item: Option<Item>, fps: Option<real>): State {
    if playMethod.Unknown? then st
    else
      var s := NEW_SESSION.(item := item, playMethod := Some(playMethod), fps := fps, provisional := true);
      var next := TimerCleared(st.(session := s, number := st.number + 1));
      if playMethod == Transcode then Scheduled(next, FIRST_POLL_MS) else next
  }

  predicate Refines(s: Session, item: Option<Item>) {
    s.provisional && s.item.Some? && s.item == item
  }

  function Started(st: State, item: Option<Item>, playMethod: Option<Method>, source: Option<Option<real>>): State {
    var s := st.session;
    var refining := Refines(s, item);
    var restart := !refining || playMethod != s.playMethod || s.pollsBeforeStart >= PROVISIONAL_POLL_MAX;
    var base := if refining then s else NEW_SESSION;
    var next := st.(
      number := if refining then st.number else st.number + 1,
      session := base.(item := item, playMethod := playMethod, provisional := false,
                       fps := if source.Some? then source.value else base.fps));
    if !restart then next
    else if playMethod == Some(Transcode) then Scheduled(TimerCleared(next), FIRST_POLL_MS)
    else TimerCleared(next)
  }

  function Stopped(st: State): State {
    TimerCleared(st).(session := NEW_SESSION, number := st.number + 1)
  }

  function Fired(st: State, timer: Timer): State {
    var idle := st.(pending := st.pending - {timer}, timer := None);
    if !KeepPolling(st.session) then idle
    else
      idle.(
        session := if st.session.provisional
                   then st.session.(pollsBeforeStart := st.session.pollsBeforeStart + 1) else st.session,
        inFlight := st.inFlight + 1,
        log := st.log + [PollStarted(st.number, st.session.provisional)])
  }

  function Informed(s: Session, answer: Option<Info>): Session {
    match answer
    case None => s
    case Some(info) =>
      var tracker := Next(s.tracker, Sample(s.fps, info.framerate, info.lead));
      s.(hardware := Some(info.hardware), tracker := tracker, struggling := Struggling(tracker))
  }

  predicate Toasts(s: Session, notice: Notice) {
    !s.toastShown && s.polled && Worth(Classify(s), notice)
  }

  function Settled(st: State, answer: Option<Info>, notice: Notice): State
    requires st.inFlight > 0
  {
    var s := Informed(st.session, answer).(polled := true);
    var next := st.(inFlight := st.inFlight - 1, settled := st.settled + 1, log := st.log + [PollSettled(st.number)]);
    if Toasts(s, notice)
    then next.(session := s.(toastShown := true), log := next.log + [Toasted(st.number, Classify(s).value)])
    else next.(session := s)
  }

  function FollowedUp(st: State): State
    requires st.settled > 0
  {
    var next := st.(settled := st.settled - 1);
    if KeepPolling(st.session) then Scheduled(next, POLL_INTERVAL_MS) else next
  }

  predicate Possible(st: State, ev: Event) {
    match ev
    case Fire(t) => t in st.pending
    case Settle(_, _) => st.inFlight > 0
    case FollowUp => st.settled > 0
    case _ => true
  }

  function Step(st: State, ev: Event): State
    requires Possible(st, ev)
  {
    match ev
    case NotePlay(m, i, f) => Noted(st, m, i, f)
    case Start(i, m, s) => Started(st, i, m, s)
    case Stop => Stopped(st)
    case Fire(t) => Fired(st, t)
    case Settle(a, n) => Settled(st, a, n)
    case FollowUp => FollowedUp(st)
  }

  function After(run: seq<Event>): Option<State> {
    if run == [] then Some(INITIAL)
    else match After(run[..|run| - 1])
      case None => None
      case Some(st) => if Possible(st, run[|run| - 1]) then Some(Step(st, run[|run| - 1])) else None
  }

  // ----- timers -----

  /**
   * The one pending timer is the one remembered, and it is there to poll; as long
   * as polling should go on, a timer is pending or a poll is on its way.
   */
  predicate TimersOk(st: State) {
    && st.pending.Keys == (if st.timer.Some? then {st.timer.value} else {})
    && (st.timer.Some? ==> st.timer.value < st.nextTimer && KeepPolling(st.session))
    && (KeepPolling(st.session) ==> st.timer.Some? || st.inFlight + st.settled > 0)
  }

  lemma ClearedTimers(st: State)
    requires st.pending.Keys == (if st.timer.Some? then {st.timer.value} else {})
    ensures TimerCleared(st).pending == map[]
  {
  }

  lemma StepKeepsTimers(st: State, ev: Event)
    requires TimersOk(st) && Possible(st, ev)
    ensures TimersOk(Step(st, ev))
  {
    ClearedTimers(st);
    match ev {
      case NotePlay(_, _, _) =>
      case Start(_, _, _) =>
      case Stop =>
      case Fire(t) =>
        assert st.timer == Some(t);
      case Settle(answer, _) =>
        assert Informed(st.session, answer).playMethod == st.session.playMethod;
      case FollowUp =>
    }
  }

  /** At most one poll timer is ever pending; it always has work to do; polling that should go on never dies. */
  lemma {:induction false} OneTimerThatPolls(run: seq<Event>)
    requires After(run).Some?
    ensures TimersOk(After(run).value)
    ensures |After(run).value.pending| <= 1
  {
    if run != [] {
      OneTimerThatPolls(run[..|run| - 1]);
      StepKeepsTimers(After(run[..|run| - 1]).value, run[|run| - 1]);
    }
  }

  // ----- the log -----

  datatype Kind = EarlyPoll | AnyPollSettled | Toast

  predicate Is(e: Effect, kind: Kind, n: nat) {
    e.session == n &&
    match kind
    case EarlyPoll => e.PollStarted? && e.provisional
    case AnyPollSettled => e.PollSettled?
    case Toast => e.Toasted?
  }

  /** How often session n did that. */
  function Count(log: seq<Effect>, kind: Kind, n: nat): nat {
    if log == [] then 0
    else Count(log[..|log| - 1], kind, n) + if Is(log[|log| - 1], kind, n) then 1 else 0
  }

  lemma CountSnoc(log: seq<Effect>, e: Effect, kind: Kind, n: nat)
    ensures Count(log + [e], kind, n) == Count(log, kind, n) + if Is(e, kind, n) then 1 else 0
  {
    assert (log + [e])[..|log|] == log;
  }

  /** Every toast comes after an answer its own session saw. */
  predicate ToastsFollowAnswers(log: seq<Effect>) {
    log == [] || (
      var init, last := log[..|log| - 1], log[|log| - 1];
      ToastsFollowAnswers(init) && (last.Toasted? ==> Count(init, AnyPollSettled, last.session) > 0))
  }

  lemma FollowSnoc(log: seq<Effect>, e: Effect)
    ensures ToastsFollowAnswers(log + [e]) <==>
              ToastsFollowAnswers(log) && (e.Toasted? ==> Count(log, AnyPollSettled, e.session) > 0)
  {
    assert (log + [e])[..|log|] == log;
  }

  /** What the log says about session n: past, current or still to come. */
  predicate CountsOk(st: State, n: nat) {
    var early, settled := Count(st.log, EarlyPoll, n), Count(st.log, AnyPollSettled, n);
    var toasts := Count(st.log, Toast, n);
    if n > st.number then early == settled == toasts == 0
    else if n < st.number then early <= PROVISIONAL_POLL_MAX && toasts <= 1
    else
      && early == st.session.pollsBeforeStart <= PROVISIONAL_POLL_MAX
      && (st.session.polled <==> settled > 0)
      && toasts == (if st.session.toastShown then 1 else 0)
  }

  lemma FireKeepsCounts(st: State, t: Timer, n: nat)
    requires CountsOk(st, n)
    ensures CountsOk(Fired(st, t), n)
  {
    var e := PollStarted(st.number, st.session.provisional);
    CountSnoc(st.log, e, EarlyPoll, n);
    CountSnoc(st.log, e, AnyPollSettled, n);
    CountSnoc(st.log, e, Toast, n);
  }

  lemma SettleKeepsCounts(st: State, answer: Option<Info>, notice: Notice, n: nat)
    requires st.inFlight > 0 && CountsOk(st, n)
    ensures CountsOk(Settled(st, answer, notice), n)
  {
    var settled := PollSettled(st.number);
    CountSnoc(st.log, settled, EarlyPoll, n);
    CountSnoc(st.log, settled, AnyPollSettled, n);
    CountSnoc(st.log, settled, Toast, n);
    var s := Informed(st.session, answer).(polled := true);
    if Toasts(s, notice) {
      var toast := Toasted(st.number, Classify(s).value);
      CountSnoc(st.log + [settled], toast, EarlyPoll, n);
      CountSnoc(st.log + [settled], toast, AnyPollSettled, n);
      CountSnoc(st.log + [settled], toast, Toast, n);
    }
  }

  /** A step that logs nothing and either keeps the session's counters or begins a session. */
  lemma QuietKeepsCounts(st: State, w: State, n: nat)
    requires CountsOk(st, n) && w.log == st.log
    requires
      || (w.number == st.number + 1 && w.session.pollsBeforeStart == 0 && !w.session.polled && !w.session.toastShown)
      || (w.number == st.number && w.session.pollsBeforeStart == st.session.pollsBeforeStart
          && w.session.polled == st.session.polled && w.session.toastShown == st.session.toastShown)
    ensures CountsOk(w, n)
  {
  }

  lemma StepKeepsCounts(st: State, ev: Event, n: nat)
    requires Possible(st, ev) && CountsOk(st, n)
    ensures CountsOk(Step(st, ev), n)
  {
    match ev {
      case Fire(t) => FireKeepsCounts(st, t, n);
      case Settle(answer, notice) => SettleKeepsCounts(st, answer, notice, n);
      case NotePlay(_, _, _) => QuietKeepsCounts(st, Step(st, ev), n);
      case Start(_, _, _) => QuietKeepsCounts(st, Step(st, ev), n);
      case Stop => QuietKeepsCounts(st, Step(st, ev), n);
      case FollowUp => QuietKeepsCounts(st, Step(st, ev), n);
    }
  }

  /** On every run, every session starts at most 12 polls before it is confirmed, and shows at most one toast. */
  lemma {:induction false} SessionsAreBounded(run: seq<Event>, n: nat)
    requires After(run).Some?
    ensures CountsOk(After(run).value, n)
    ensures Count(After(run).value.log, EarlyPoll, n) <= 12 && Count(After(run).value.log, Toast, n) <= 1
  {
    if run != [] {
      SessionsAreBounded(run[..|run| - 1], n);
      StepKeepsCounts(After(run[..|run| - 1]).value, run[|run| - 1], n);
    }
  }

  lemma SettleKeepsToastsLate(st: State, answer: Option<Info>, notice: Notice)
    requires st.inFlight > 0 && ToastsFollowAnswers(st.log)
    ensures ToastsFollowAnswers(Settled(st, answer, notice).log)
  {
    var settled := PollSettled(st.number);
    FollowSnoc(st.log, settled);
    CountSnoc(st.log, settled, AnyPollSettled, st.number);
    var s := Informed(st.session, answer).(polled := true);
    if Toasts(s, notice) {
      FollowSnoc(st.log + [settled], Toasted(st.number, Classify(s).value));
    }
  }

  lemma StepKeepsToastsLate(st: State, ev: Event)
    requires Possible(st, ev) && ToastsFollowAnswers(st.log)
    ensures ToastsFollowAnswers(Step(st, ev).log)
  {
    match ev {
      case Fire(_) =>
        FollowSnoc(st.log, PollStarted(st.number, st.session.provisional));
      case Settle(answer, notice) =>
        SettleKeepsToastsLate(st, answer, notice);
      case _ =>
    }
  }

  /** No session shows its toast before a poll has settled into it. */
  lemma {:induction false} ToastsComeAfterAnswers(run: seq<Event>)
    requires After(run).Some?
    ensures ToastsFollowAnswers(After(run).value.log)
  {
    if run != [] {
      ToastsComeAfterAnswers(run[..|run| - 1]);
      StepKeepsToastsLate(After(run[..|run| - 1]).value, run[|run| - 1]);
    }
  }

  lemma WorthIff(s: Session, notice: Notice)
    ensures Worth(Classify(s), notice)
            <==> notice != Off && s.playMethod == Some(Transcode)
                 && (notice == Any || s.struggling || s.hardware == Some(false))
  {
  }

  /** The user's choice is respected: a toast tells of a transcode, by default not of one a GPU keeps up with. */
  lemma ToastIsWanted(st: State, answer: Option<Info>, notice: Notice)
    requires st.inFlight > 0
    ensures var w := Settled(st, answer, notice);
            Count(w.log, Toast, st.number) > Count(st.log, Toast, st.number) <==>
              && !st.session.toastShown && notice != Off && w.session.playMethod == Some(Transcode)
              && (notice == Any || w.session.struggling || w.session.hardware == Some(false))
  {
    var settled := PollSettled(st.number);
    CountSnoc(st.log, settled, Toast, st.number);
    var s := Informed(st.session, answer).(polled := true);
    WorthIff(s, notice);
    if Toasts(s, notice) {
      CountSnoc(st.log + [settled], Toasted(st.number, Classify(s).value), Toast, st.number);
    }
  }

  // ----- the verdict on the current session -----

  /** What the page was last told about what plays. */
  datatype Play = Play(item: Option<Item>, playMethod: Option<Method>, fps: Option<real>, provisional: bool)

  const NOTHING := Play(None, None, None, false)

  /** A start that confirms the play announced before, rather than another one. */
  predicate Confirms(p: Play, ev: Event) {
    ev.Start? && p.provisional && p.item.Some? && p.item == ev.item
  }

  /** What an event tells; a confirmation without a source keeps the frame rate announced. */
  function Telling(p: Play, ev: Event): Play {
    match ev
    case NotePlay(agreed, item, fps) => if agreed.Unknown? then p else Play(item, Some(agreed), fps, true)
    case Start(item, playMethod, source) =>
      var kept := if Confirms(p, ev) then p.fps else None;
      Play(item, playMethod, if source.Some? then source.value else kept, false)
    case Stop => NOTHING
    case _ => p
  }

  /** From the log alone. */
  function LastPlay(run: seq<Event>): Play {
    if run == [] then NOTHING else Telling(LastPlay(run[..|run| - 1]), run[|run| - 1])
  }

  /** Another session begins: what is played is announced, starts unannounced, or stops. */
  predicate Begins(p: Play, ev: Event) {
    (ev.NotePlay? && !ev.agreed.Unknown?) || ev.Stop? || (ev.Start? && !Confirms(p, ev))
  }

  predicate Told(s: Session, p: Play) {
    Play(s.item, s.playMethod, s.fps, s.provisional) == p
  }

  lemma StartIsTold(st: State, ev: Event, p: Play)
    requires ev.Start? && Told(st.session, p)
    ensures Told(Step(st, ev).session, Telling(p, ev))
    ensures Step(st, ev).number == st.number + if Begins(p, ev) then 1 else 0
  {
  }

  lemma StepIsTold(st: State, ev: Event, p: Play)
    requires Possible(st, ev) && Told(st.session, p)
    ensures Told(Step(st, ev).session, Telling(p, ev))
    ensures Step(st, ev).number == st.number + if Begins(p, ev) then 1 else 0
  {
    if ev.Start? {
      StartIsTold(st, ev, p);
    }
  }

  /** On every run the session is about what the page was last told plays. */
  lemma {:induction false} SessionIsTold(run: seq<Event>)
    requires After(run).Some?
    ensures Told(After(run).value.session, LastPlay(run))
  {
    if run != [] {
      var init, ev := run[..|run| - 1], run[|run| - 1];
      SessionIsTold(init);
      StepIsTold(After(init).value, ev, LastPlay(init));
    }
  }

  /** The samples the current session has been judged by: every answer about it since it began. */
  function Samples(run: seq<Event>): seq<Sample> {
    if run == [] then []
    else
      var init, ev := run[..|run| - 1], run[|run| - 1];
      if Begins(LastPlay(init), ev) then []
      else if ev.Settle? && ev.answer.Some?
      then Samples(init) + [Sample(LastPlay(init).fps, ev.answer.value.framerate, ev.answer.value.lead)]
      else Samples(init)
  }

  predicate JudgedBy(s: Session, samples: seq<Sample>) {
    s.tracker == AfterAll(samples) && s.struggling == Struggling(AfterAll(samples))
  }

  lemma AnswerIsJudged(s: Session, info: Info, samples: seq<Sample>)
    requires JudgedBy(s, samples)
    ensures JudgedBy(Informed(s, Some(info)), samples + [Sample(s.fps, info.framerate, info.lead)])
  {
    var more := samples + [Sample(s.fps, info.framerate, info.lead)];
    assert more[..|samples|] == samples;
  }

  lemma SettledSession(st: State, answer: Option<Info>, notice: Notice)
    requires st.inFlight > 0
    ensures var s, t := Informed(st.session, answer), Settled(st, answer, notice).session;
            t.tracker == s.tracker && t.struggling == s.struggling && Settled(st, answer, notice).number == st.number
  {
  }

  lemma StepIsJudged(st: State, ev: Event, samples: seq<Sample>)
    requires Possible(st, ev) && JudgedBy(st.session, samples)
    ensures JudgedBy(Step(st, ev).session,
                     if Step(st, ev).number != st.number then []
                     else if ev.Settle? && ev.answer.Some?
                     then samples + [Sample(st.session.fps, ev.answer.value.framerate, ev.answer.value.lead)]
                     else samples)
  {
    if ev.Settle? {
      SettledSession(st, ev.answer, ev.notice);
      if ev.answer.Some? {
        AnswerIsJudged(st.session, ev.answer.value, samples);
      }
    }
  }

  lemma {:induction false} SessionIsJudged(run: seq<Event>)
    requires After(run).Some?
    ensures JudgedBy(After(run).value.session, Samples(run))
  {
    if run != [] {
      var init, ev := run[..|run| - 1], run[|run| - 1];
      SessionIsJudged(init);
      SessionIsTold(init);
      StepIsTold(After(init).value, ev, LastPlay(init));
      StepIsJudged(After(init).value, ev, Samples(init));
    }
  }

  lemma JudgedBehindIff(s: Session, samples: seq<Sample>)
    requires JudgedBy(s, samples)
    ensures Classify(s) == Some(Behind) <==> s.playMethod == Some(Transcode) && FallsBehind(samples)
  {
    StrugglingIff(samples);
  }

  /**
   * On every run a playback is called falling behind exactly when it is a
   * transcode and the answers its own session saw, and no others, say so.
   */
  lemma BehindIff(run: seq<Event>)
    requires After(run).Some?
    ensures Classify(After(run).value.session) == Some(Behind)
            <==> LastPlay(run).playMethod == Some(Transcode) && FallsBehind(Samples(run))
  {
    SessionIsJudged(run);
    SessionIsTold(run);
    JudgedBehindIff(After(run).value.session, Samples(run));
  }

  // ----- the whole badge -----

  /** The last usable answer the current session has seen. */
  function LastAnswer(run: seq<Event>): Option<Info> {
    if run == [] then None
    else
      var init, ev := run[..|run| - 1], run[|run| - 1];
      if Begins(LastPlay(init), ev) then None
      else if ev.Settle? && ev.answer.Some? then ev.answer
      else LastAnswer(init)
  }

  /** What was learnt about the hardware is what that answer said. */
  predicate Heard(s: Session, last: Option<Info>) {
    s.hardware == if last.Some? then Some(last.value.hardware) else None
  }

  lemma StepIsHeard(st: State, ev: Event, last: Option<Info>)
    requires Possible(st, ev) && Heard(st.session, last)
    ensures Heard(Step(st, ev).session,
                  if Step(st, ev).number != st.number then None
                  else if ev.Settle? && ev.answer.Some? then ev.answer
                  else last)
  {
  }

  lemma {:induction false} SessionHasHeard(run: seq<Event>)
    requires After(run).Some?
    ensures Heard(After(run).value.session, LastAnswer(run))
  {
    if run != [] {
      var init, ev := run[..|run| - 1], run[|run| - 1];
      SessionHasHeard(init);
      SessionIsTold(init);
      StepIsTold(After(init).value, ev, LastPlay(init));
      StepIsHeard(After(init).value, ev, LastAnswer(init));
    }
  }

  /** What the badge shows for a play method, once the answers so far are summed up. */
  predicate Shows(level: Option<Level>, playMethod: Option<Method>, behind: bool, last: Option<Info>) {
    && (level == Some(Direct) <==> playMethod == Some(DirectPlay))
    && (level == Some(Stream) <==> playMethod == Some(DirectStream))
    && (level == Some(Behind) <==> playMethod == Some(Transcode) && behind)
    && (level == Some(Cpu) <==> playMethod == Some(Transcode) && !behind && last.Some? && !last.value.hardware)
    && (level == Some(TranscodeGpu) <==>
          playMethod == Some(Transcode) && !behind && (last == None || last.value.hardware))
  }

  lemma HeardShows(s: Session, behind: bool, last: Option<Info>)
    requires Heard(s, last) && (Classify(s) == Some(Behind) <==> s.playMethod == Some(Transcode) && behind)
    ensures Shows(Classify(s), s.playMethod, behind, last)
  {
  }

  /**
   * On every run the badge is the one the play method and the answers of the
   * current session call for: a transcode without a verdict yet passes for one
   * a GPU does, and the last answer alone says whether it is on the CPU.
   */
  lemma BadgeFollowsAnswers(run: seq<Event>)
    requires After(run).Some?
    ensures Shows(Classify(After(run).value.session), LastPlay(run).playMethod,
                  FallsBehind(Samples(run)), LastAnswer(run))
  {
    BehindIff(run);
    SessionIsTold(run);
    SessionHasHeard(run);
    HeardShows(After(run).value.session, FallsBehind(Samples(run)), LastAnswer(run));
  }

  lemma JudgedToast(s: Session, p: Play, samples: seq<Sample>, last: Option<Info>)
    requires Told(s, p) && JudgedBy(s, samples) && Heard(s, last)
    ensures s.playMethod == p.playMethod && s.struggling == FallsBehind(samples)
    ensures s.hardware == Some(false) <==> last.Some? && !last.value.hardware
  {
    StrugglingIff(samples);
  }

  /**
   * On every run an answer shows the toast exactly when its session has shown
   * none, the notice is on, what plays is a transcode and, unless every
   * transcode is to be told of, it falls behind or is on the CPU.
   */
  lemma ToastIff(run: seq<Event>, answer: Option<Info>, notice: Notice)
    requires After(run).Some? && Possible(After(run).value, Settle(answer, notice))
    ensures var st, more := After(run).value, run + [Settle(answer, notice)];
            After(more).Some? &&
            (Count(After(more).value.log, Toast, st.number) > Count(st.log, Toast, st.number) <==>
              && Count(st.log, Toast, st.number) == 0 && notice != Off
              && LastPlay(more).playMethod == Some(Transcode)
              && (notice == Any || FallsBehind(Samples(more))
                  || (LastAnswer(more).Some? && !LastAnswer(more).value.hardware)))
  {
    var st, more := After(run).value, run + [Settle(answer, notice)];
    assert more[..|run|] == run;
    SessionsAreBounded(run, st.number);
    ToastIsWanted(st, answer, notice);
    SessionIsTold(more);
    SessionIsJudged(more);
    SessionHasHeard(more);
    JudgedToast(After(more).value.session, LastPlay(more), Samples(more), LastAnswer(more));
  }

  // ----- when the next poll comes -----

  /** A timer set after an answer waits ten seconds, any other four. */
  lemma PollDelays(st: State, ev: Event)
    requires TimersOk(st) && Possible(st, ev)
    ensures var w := Step(st, ev);
            w.timer.Some? && w.nextTimer > st.nextTimer ==>
              w.pending == map[w.timer.value := if ev.FollowUp? then 10000 else 4000]
  {
    ClearedTimers(st);
  }

  /** After an answer the next poll is timed unless nothing is transcoded, or twelve went out unconfirmed. */
  lemma PollsAgainIff(run: seq<Event>)
    requires After(run).Some? && Possible(After(run).value, FollowUp)
    ensures var st, next := After(run).value, After(run + [FollowUp]);
            next.Some? && (next.value.nextTimer > st.nextTimer <==>
              && st.session.playMethod == Some(Transcode)
              && (!st.session.provisional || Count(st.log, EarlyPoll, st.number) < 12))
  {
    SessionsAreBounded(run, After(run).value.number);
    assert (run + [FollowUp])[..|run|] == run;
  }

  /** Every transcode that begins, announced or confirmed out of the blue, has its first poll timed. */
  lemma FirstPollIsTimed(st: State, item: Option<Item>, fps: Option<real>, source: Option<Option<real>>)
    requires TimersOk(st)
    ensures Step(st, NotePlay(Transcode, item, fps)).pending == map[st.nextTimer := 4000]
    ensures !(st.session.provisional && item.Some? && st.session.item == item) ==>
              Step(st, Start(item, Some(Transcode), source)).pending == map[st.nextTimer := 4000]
  {
    ClearedTimers(st);
  }

  /**
   * A start that confirms the play announced before leaves its timer alone,
   * unless the method changed or twelve polls went out already; then polling
   * begins again, or ends with the transcode.
   */
  lemma ConfirmationKeepsTimer(
      run: seq<Event>, item: Option<Item>, playMethod: Option<Method>, source: Option<Option<real>>)
    requires After(run).Some? && Confirms(LastPlay(run), Start(item, playMethod, source))
    ensures var st, w := After(run).value, Step(After(run).value, Start(item, playMethod, source));
            w.pending == if playMethod == LastPlay(run).playMethod && Count(st.log, EarlyPoll, st.number) < 12
                         then st.pending
                         else if playMethod == Some(Transcode) then map[st.nextTimer := 4000]
                         else map[]
  {
    var st := After(run).value;
    SessionIsTold(run);
    OneTimerThatPolls(run);
    SessionsAreBounded(run, st.number);
    ClearedTimers(st);
  }

  // ----- polls and their answers -----

  function Starts(log: seq<Effect>): nat {
    if log == [] then 0 else Starts(log[..|log| - 1]) + if log[|log| - 1].PollStarted? then 1 else 0
  }

  lemma StartsSnoc(log: seq<Effect>, e: Effect)
    ensures Starts(log + [e]) == Starts(log) + if e.PollStarted? then 1 else 0
  {
    assert (log + [e])[..|log|] == log;
  }

  function Answers(run: seq<Event>): nat {
    if run == [] then 0 else Answers(run[..|run| - 1]) + if run[|run| - 1].Settle? then 1 else 0
  }

  function FollowUps(run: seq<Event>): nat {
    if run == [] then 0 else FollowUps(run[..|run| - 1]) + if run[|run| - 1].FollowUp? then 1 else 0
  }

  lemma StepCountsPolls(st: State, ev: Event)
    requires Possible(st, ev)
    ensures var w := Step(st, ev);
            && Starts(w.log) - w.inFlight == Starts(st.log) - st.inFlight + (if ev.Settle? then 1 else 0)
            && w.settled == st.settled + (if ev.Settle? then 1 else 0) - (if ev.FollowUp? then 1 else 0)
  {
    match ev {
      case Fire(_) =>
        StartsSnoc(st.log, PollStarted(st.number, st.session.provisional));
      case Settle(answer, notice) =>
        var settled := PollSettled(st.number);
        StartsSnoc(st.log, settled);
        var s := Informed(st.session, answer).(polled := true);
        if Toasts(s, notice) {
          StartsSnoc(st.log + [settled], Toasted(st.number, Classify(s).value));
        }
      case _ =>
    }
  }

  /** Every poll started can be answered once, whatever became of its session, and every answer followed up once. */
  lemma {:induction false} PollsAreAnsweredOnce(run: seq<Event>)
    requires After(run).Some?
    ensures var st := After(run).value;
            && Starts(st.log) == Answers(run) + st.inFlight && Answers(run) == FollowUps(run) + st.settled
    ensures forall answer, notice ::
              Possible(After(run).value, Settle(answer, notice)) <==> Starts(After(run).value.log) > Answers(run)
    ensures Possible(After(run).value, FollowUp) <==> Answers(run) > FollowUps(run)
  {
    if run != [] {
      PollsAreAnsweredOnce(run[..|run| - 1]);
      StepCountsPolls(After(run[..|run| - 1]).value, run[|run| - 1]);
    }
  }

  // ----- the module's variables in place -----

  class Source {
    var session: Session
    var timer: Option<Timer>
    /** The browser's side: timers with their delays, the polls it has not answered, follow-ups it has queued. */
    var pending: map<Timer, nat>
    var nextTimer: Timer
    var inFlight: nat
    var settled: nat
    ghost var number: nat
    ghost var log: seq<Effect>

    ghost function Now(): State
      reads this
    {
      State(session, number, timer, pending, nextTimer, inFlight, settled, log)
    }

    constructor ()
      ensures Now() == INITIAL
    {
      session, timer, pending, nextTimer := NEW_SESSION, None, map[], 0;
      inFlight, settled, number, log := 0, 0, 0, [];
    }

    method ClearTimer()
      modifies this`timer, this`pending
      ensures Now() == TimerCleared(old(Now()))
    {
      if timer.Some? {
        pending := pending - {timer.value};
      }
      timer := None;
    }

    method Schedule(delay: nat)
      modifies this`timer, this`pending, this`nextTimer
      ensures Now() == Scheduled(old(Now()), delay)
    {
      ClearTimer();
      timer := Some(nextTimer);
      pending := pending[nextTimer := delay];
      nextTimer := nextTimer + 1;
    }

    method OnTimer(t: Timer)
      requires t in pending
      modifies this
      ensures Now() == Fired(old(Now()), t)
    {
      pending := pending - {t};
      timer := None;
      if !KeepPolling(session) {
        return;
      }
      log := log + [PollStarted(number, session.provisional)];
      if session.provisional {
        session := session.(pollsBeforeStart := session.pollsBeforeStart + 1);
      }
      inFlight := inFlight + 1;
    }

    method OnAnswer(answer: Option<Info>, notice: Notice)
      requires inFlight > 0
      modifies this
      ensures Now() == Settled(old(Now()), answer, notice)
    {
      inFlight := inFlight - 1;
      if answer.Some? {
        var tracker := Next(session.tracker, Sample(session.fps, answer.value.framerate, answer.value.lead));
        session := session.(
          hardware := Some(answer.value.hardware), tracker := tracker, struggling := Struggling(tracker));
      }
      session := session.(polled := true);
      log := log + [PollSettled(number)];
      MaybeToast(notice);
      settled := settled + 1;
    }

    method MaybeToast(notice: Notice)
      modifies this`session, this`log
      ensures if Toasts(old(session), notice)
              then session == old(session).(toastShown := true)
                   && log == old(log) + [Toasted(number, Classify(old(session)).value)]
              else session == old(session) && log == old(log)
    {
      if session.toastShown || !session.polled {
        return;
      }
      var level := Classify(session);
      if level.None? || level.value.Direct? || level.value.Stream? || notice == Off {
        return;
      }
      if notice == CpuOnly && !level.value.Cpu? && !level.value.Behind? {
        return;
      }
      session := session.(toastShown := true);
      log := log + [Toasted(number, level.value)];
    }

    method OnFollowUp()
      requires settled > 0
      modifies this
      ensures Now() == FollowedUp(old(Now()))
    {
      settled := settled - 1;
      if KeepPolling(session) {
        Schedule(POLL_INTERVAL_MS);
      }
    }

    method NotePlayOptions(playMethod: Method, item: Option<Item>, fps: Option<real>)
      modifies this
      ensures Now() == Noted(old(Now()), playMethod, item, fps)
    {
      if playMethod.Unknown? {
        return;
      }
      session := NEW_SESSION.(item := item, playMethod := Some(playMethod), fps := fps, provisional := true);
      number := number + 1;
      ClearTimer();
      if playMethod == Transcode {
        Schedule(FIRST_POLL_MS);
      }
    }

    method HandleStart(item: Option<Item>, playMethod: Option<Method>, source: Option<Option<real>>)
      modifies this
      ensures Now() == Started(old(Now()), item, playMethod, source)
    {
      var refining := Refines(session, item);
      var restartPolling :=
        !refining || playMethod != session.playMethod || session.pollsBeforeStart >= PROVISIONAL_POLL_MAX;
      if !refining {
        session := NEW_SESSION;
        number := number + 1;
      }
      session := session.(item := item, playMethod := playMethod, provisional := false);
      if source.Some? {
        session := session.(fps := source.value);
      }
      if restartPolling {
        ClearTimer();
        if playMethod == Some(Transcode) {
          Schedule(FIRST_POLL_MS);
        }
      }
    }

    method HandleStop()
      modifies this
      ensures Now() == Stopped(old(Now()))
    {
      ClearTimer();
      session := NEW_SESSION;
      number := number + 1;
    }
  }
}
