/** The registry of browser layers and the stack that remembers which of them had the input. */
module FocusHistory {
  import opened Prelude

  type Layer = nat

  datatype View = View(layers: seq<Layer>, stack: seq<Layer>, focused: set<Layer>, shuttingDown: bool)

  datatype Event = Created(l: Layer) | Activated(l: Layer) | Removed(l: Layer) | NoneActivated | ShutdownBegan

  predicate About(ev: Event, l: Layer) {
    (ev.Created? || ev.Activated? || ev.Removed?) && ev.l == l
  }

  function Without(s: seq<Layer>, l: Layer): seq<Layer> {
    if s == [] then []
    else Without(s[..|s| - 1], l) + if s[|s| - 1] == l then [] else [s[|s| - 1]]
  }

  function Top(s: seq<Layer>): Option<Layer> {
    if s == [] then None else Some(s[|s| - 1])
  }

  function TopSet(s: seq<Layer>): set<Layer> {
    if s == [] then {} else {s[|s| - 1]}
  }

  predicate Possible(v: View, ev: Event) {
    match ev
    case Created(l) => l !in v.layers
    case Activated(l) => l in v.layers
    case _ => true
  }

  function Step(v: View, ev: Event): View {
    match ev
    case Created(l) => v.(layers := v.layers + [l])
    case Activated(l) =>
      if Top(v.stack) == Some(l) then v
      else v.(stack := Without(v.stack, l) + [l], focused := v.focused - TopSet(v.stack) + {l})
    case Removed(l) =>
      var rest := Without(v.stack, l);
      var regain := Top(v.stack) == Some(l) && !v.shuttingDown && rest != [];
      v.(stack := rest,
         layers := Without(v.layers, l),
         focused := if l !in v.layers then v.focused
                    else if regain then v.focused - {l} + {rest[|rest| - 1]}
                    else v.focused - {l})
    case NoneActivated => v.(focused := v.focused - TopSet(v.stack))
    case ShutdownBegan => v.(shuttingDown := true)
  }

  lemma {:induction false} AbsentWithout(s: seq<Layer>, l: Layer)
    requires l !in s
    ensures Without(s, l) == s
  {
    if s != [] {
      AbsentWithout(s[..|s| - 1], l);
    }
  }

  lemma {:induction false} WithoutIsRemoval(s: seq<Layer>, idx: nat)
    requires idx < |s| && Distinct(s)
    ensures Without(s, s[idx]) == s[..idx] + s[idx + 1..]
  {
    var n := |s| - 1;
    if idx == n {
      AbsentWithout(s[..n], s[n]);
    } else {
      WithoutIsRemoval(s[..n], idx);
      assert s[..n][..idx] == s[..idx] && s[..n][idx + 1..] + [s[n]] == s[idx + 1..];
    }
  }

  class Browsers {
    var layers: seq<Layer>
    var activeStack: seq<Layer>
    var shuttingDown: bool
    // The layers whose browser was last told it has the focus.
    var focused: set<Layer>

    function AsView(): View
      reads this
    {
      View(layers, activeStack, focused, shuttingDown)
    }

    constructor ()
      ensures AsView() == View([], [], {}, false)
    {
      layers, activeStack, focused, shuttingDown := [], [], {}, false;
    }

    method Create(l: Layer)
      requires l !in layers
      modifies this
      ensures AsView() == Step(old(AsView()), Created(l))
    {
      layers := layers + [l];
    }

    method SetFocus(l: Layer, focus: bool)
      modifies this`focused
      ensures focused == if focus then old(focused) + {l} else old(focused) - {l}
    {
      focused := if focus then focused + {l} else focused - {l};
    }

    /** Activating a layer, or none. */
    method SetActive(layer: Option<Layer>)
      requires layer.Some? ==> layer.value in layers
      modifies this
      ensures AsView() == Step(old(AsView()), if layer.Some? then Activated(layer.value) else NoneActivated)
    {
      var prev := Top(activeStack);
      if prev == layer {
        assert layer == None ==> focused - {} == focused;
        return;
      }
      if layer.Some? {
        activeStack := Without(activeStack, layer.value) + [layer.value];
      }
      if prev.Some? {
        SetFocus(prev.value, false);
      }
      if layer.Some? {
        SetFocus(layer.value, true);
      }
    }

    method DropLayer(l: Layer) returns (found: bool)
      requires Distinct(layers)
      modifies this`layers
      ensures found == (l in old(layers)) && layers == Without(old(layers), l)
      ensures !found ==> layers == old(layers)
    {
      if l !in layers {
        AbsentWithout(layers, l);
        return false;
      }
      var idx :| 0 <= idx < |layers| && layers[idx] == l;
      WithoutIsRemoval(layers, idx);
      layers := layers[..idx] + layers[idx + 1..];
      return true;
    }

    /** The browser is gone: its layer too, and the layer now on top, if any, gets the focus back. */
    method Unregister(l: Layer, regain: Option<Layer>)
      requires Distinct(layers)
      modifies this`layers, this`focused
      ensures layers == Without(old(layers), l)
      ensures focused == if l !in old(layers) then old(focused)
                         else if regain.Some? && !shuttingDown then old(focused) - {l} + {regain.value}
                         else old(focused) - {l}
    {
      var found := DropLayer(l);
      if !found {
        return;
      }
      focused := focused - {l};
      if regain.Some? && !shuttingDown {
        SetFocus(regain.value, true);
      }
    }

    method Remove(l: Layer)
      requires Distinct(layers)
      modifies this
      ensures AsView() == Step(old(AsView()), Removed(l))
    {
      var wasTop := Top(activeStack) == Some(l);
      activeStack := Without(activeStack, l);
      Unregister(l, if wasTop then Top(activeStack) else None);
    }

    method BeginShutdown()
      modifies this
      ensures AsView() == Step(old(AsView()), ShutdownBegan)
    {
      shuttingDown := true;
    }
  }

  // ----- the log -----

  function Replay(log: seq<Event>): Option<View> {
    if log == [] then Some(View([], [], {}, false))
    else
      match Replay(log[..|log| - 1])
      case None => None
      case Some(v) => if Possible(v, log[|log| - 1]) then Some(Step(v, log[|log| - 1])) else None
  }

  /** When `l` was last activated since it was created: a position in the log, from one; zero for never. */
  function LastActivation(log: seq<Event>, l: Layer): nat {
    if log == [] then 0
    else
      match log[|log| - 1]
      case Activated(m) => if m == l then |log| else LastActivation(log[..|log| - 1], l)
      case Created(m) => if m == l then 0 else LastActivation(log[..|log| - 1], l)
      case Removed(m) => if m == l then 0 else LastActivation(log[..|log| - 1], l)
      case _ => LastActivation(log[..|log| - 1], l)
  }

  /** Strictly increasing in time of last activation; so, in particular, without duplicates. */
  predicate OrderedBy(log: seq<Event>, s: seq<Layer>) {
    forall i, j | 0 <= i < j < |s| :: LastActivation(log, s[i]) < LastActivation(log, s[j])
  }

  predicate IsTop(log: seq<Event>, l: Layer) {
    match Replay(log)
    case None => false
    case Some(v) => Top(v.stack) == Some(l)
  }

  /**
   * None was activated, or the top removed during shutdown, and since then
   * neither another layer activated nor, outside shutdown, the top removed.
   * Activating the layer already on top does not count.
   */
  predicate Blurred(log: seq<Event>) {
    if log == [] then false
    else
      var init := log[..|log| - 1];
      match log[|log| - 1]
      case NoneActivated => true
      case Activated(l) => Blurred(init) && IsTop(init, l)
      case Removed(l) => if IsTop(init, l) then ShutdownBegan in init else Blurred(init)
      case _ => Blurred(init)
  }

  /** Who has the focus: the top of the stack, unless it was taken away. */
  function FocusDue(stack: seq<Layer>, blurred: bool): set<Layer> {
    if blurred then {} else TopSet(stack)
  }

  ghost predicate Refines(log: seq<Event>, v: View) {
    && Distinct(v.layers)
    && (forall l :: l in v.stack <==> l in v.layers && LastActivation(log, l) > 0)
    && (forall l | l !in v.layers :: LastActivation(log, l) == 0)
    && OrderedBy(log, v.stack)
    && (v.shuttingDown <==> ShutdownBegan in log)
    && v.focused == FocusDue(v.stack, Blurred(log))
  }

  lemma {:induction false} ActivationInPast(log: seq<Event>, l: Layer)
    ensures LastActivation(log, l) <= |log|
  {
    if log != [] {
      ActivationInPast(log[..|log| - 1], l);
    }
  }

  lemma {:induction false} WithoutMember(s: seq<Layer>, l: Layer, m: Layer)
    ensures m in Without(s, l) <==> m in s && m != l
  {
    if s != [] {
      WithoutMember(s[..|s| - 1], l, m);
      assert m in s <==> m in s[..|s| - 1] || m == s[|s| - 1];
    }
  }

  lemma WithoutMembers(s: seq<Layer>, l: Layer)
    ensures forall m :: m in Without(s, l) <==> m in s && m != l
  {
    forall m ensures m in Without(s, l) <==> m in s && m != l {
      WithoutMember(s, l, m);
    }
  }

  lemma {:induction false} WithoutIsDistinct(s: seq<Layer>, l: Layer)
    requires Distinct(s)
    ensures Distinct(Without(s, l))
  {
    if s != [] {
      WithoutIsDistinct(s[..|s| - 1], l);
      WithoutMember(s[..|s| - 1], l, s[|s| - 1]);
      assert s[|s| - 1] !in s[..|s| - 1];
    }
  }

  lemma {:induction false} WithoutKeepsOrder(log: seq<Event>, s: seq<Layer>, l: Layer)
    requires OrderedBy(log, s)
    ensures OrderedBy(log, Without(s, l))
  {
    if s != [] {
      var n := |s| - 1;
      WithoutKeepsOrder(log, s[..n], l);
      WithoutMembers(s[..n], l);
      var front := Without(s[..n], l);
      forall i | 0 <= i < |front| ensures LastActivation(log, front[i]) < LastActivation(log, s[n]) {
        assert front[i] in s[..n];
      }
    }
  }

  lemma OtherLayersStand(log: seq<Event>, ev: Event, l: Layer)
    requires !About(ev, l)
    ensures LastActivation(log + [ev], l) == LastActivation(log, l)
  {
    assert (log + [ev])[..|log|] == log;
  }

  lemma OrderCarriesOver(log: seq<Event>, ev: Event, s: seq<Layer>)
    requires OrderedBy(log, s) && (forall l | l in s :: !About(ev, l))
    ensures OrderedBy(log + [ev], s)
  {
    forall i | 0 <= i < |s| ensures LastActivation(log + [ev], s[i]) == LastActivation(log, s[i]) {
      OtherLayersStand(log, ev, s[i]);
    }
  }

  lemma LeavingKeepsOrder(log: seq<Event>, stack: seq<Layer>, ev: Event)
    requires OrderedBy(log, stack) && (ev.Activated? || ev.Removed?)
    ensures OrderedBy(log + [ev], Without(stack, ev.l)) && ev.l !in Without(stack, ev.l)
  {
    WithoutMember(stack, ev.l, ev.l);
    WithoutKeepsOrder(log, stack, ev.l);
    OrderCarriesOver(log, ev, Without(stack, ev.l));
  }

  lemma LatestIsLast(log: seq<Event>, rest: seq<Layer>, l: Layer)
    requires OrderedBy(log + [Activated(l)], rest) && l !in rest
    ensures OrderedBy(log + [Activated(l)], rest + [l])
  {
    var log' := log + [Activated(l)];
    forall i | 0 <= i < |rest| ensures LastActivation(log', rest[i]) < LastActivation(log', l) {
      OtherLayersStand(log, Activated(l), rest[i]);
      ActivationInPast(log, rest[i]);
    }
  }

  lemma TopWithout(s: seq<Layer>, log: seq<Event>)
    requires s != [] && OrderedBy(log, s)
    ensures Without(s, s[|s| - 1]) == s[..|s| - 1]
  {
    AbsentWithout(s[..|s| - 1], s[|s| - 1]);
  }

  lemma StepKeepsOrder(log: seq<Event>, v: View, ev: Event)
    requires OrderedBy(log, v.stack) && Possible(v, ev) && (ev.Created? ==> ev.l !in v.stack)
    ensures OrderedBy(log + [ev], Step(v, ev).stack)
  {
    if !ev.Activated? && !ev.Removed? {
      OrderCarriesOver(log, ev, v.stack);
    } else {
      LeavingKeepsOrder(log, v.stack, ev);
      if ev.Activated? {
        if Top(v.stack) == Some(ev.l) {
          TopWithout(v.stack, log);
        }
        assert Step(v, ev).stack == Without(v.stack, ev.l) + [ev.l];
        LatestIsLast(log, Without(v.stack, ev.l), ev.l);
      }
    }
  }

  lemma LastActivationSteps(log: seq<Event>, ev: Event, l: Layer)
    ensures LastActivation(log + [ev], l)
            == if !About(ev, l) then LastActivation(log, l)
               else if ev.Activated? then |log| + 1 else 0
  {
    assert (log + [ev])[..|log|] == log;
  }

  lemma StepKeepsMembers(log: seq<Event>, v: View, ev: Event, l: Layer)
    requires Refines(log, v) && Possible(v, ev)
    ensures l in Step(v, ev).stack <==> l in Step(v, ev).layers && LastActivation(log + [ev], l) > 0
    ensures l !in Step(v, ev).layers ==> LastActivation(log + [ev], l) == 0
  {
    LastActivationSteps(log, ev, l);
    if ev.Activated? || ev.Removed? {
      WithoutMembers(v.stack, ev.l);
      WithoutMembers(v.layers, ev.l);
    }
  }

  lemma KeepsTop(s: seq<Layer>, l: Layer)
    requires Top(s) != Some(l)
    ensures TopSet(Without(s, l)) == TopSet(s) && l !in TopSet(s)
  {
  }

  lemma RemovalRefocuses(v: View, l: Layer, blurred: bool)
    requires v.focused == FocusDue(v.stack, blurred) && (Top(v.stack) == Some(l) ==> l in v.layers)
    ensures Step(v, Removed(l)).focused
            == FocusDue(Without(v.stack, l), if Top(v.stack) == Some(l) then v.shuttingDown else blurred)
  {
    if Top(v.stack) != Some(l) {
      KeepsTop(v.stack, l);
    }
  }

  lemma StepKeepsFocus(v: View, ev: Event, blurred: bool)
    requires v.focused == FocusDue(v.stack, blurred) && Possible(v, ev)
    requires v.stack != [] ==> v.stack[|v.stack| - 1] in v.layers
    ensures Step(v, ev).focused
            == FocusDue(Step(v, ev).stack,
                        match ev
                        case NoneActivated => true
                        case Activated(l) => blurred && Top(v.stack) == Some(l)
                        case Removed(l) => if Top(v.stack) == Some(l) then v.shuttingDown else blurred
                        case _ => blurred)
  {
    if ev.Removed? {
      RemovalRefocuses(v, ev.l, blurred);
    }
  }

  lemma StepKeepsDistinct(v: View, ev: Event)
    requires Distinct(v.layers) && Possible(v, ev)
    ensures Distinct(Step(v, ev).layers)
  {
    if ev.Removed? {
      WithoutIsDistinct(v.layers, ev.l);
    }
  }

  lemma BlurredSteps(log: seq<Event>, v: View, ev: Event)
    requires Replay(log) == Some(v) && (v.shuttingDown <==> ShutdownBegan in log)
    ensures Blurred(log + [ev])
            == match ev
               case NoneActivated => true
               case Activated(l) => Blurred(log) && Top(v.stack) == Some(l)
               case Removed(l) => if Top(v.stack) == Some(l) then v.shuttingDown else Blurred(log)
               case _ => Blurred(log)
  {
    assert (log + [ev])[..|log|] == log;
  }

  lemma StepRefines(log: seq<Event>, v: View, ev: Event)
    requires Replay(log) == Some(v) && Refines(log, v) && Possible(v, ev)
    ensures Refines(log + [ev], Step(v, ev))
  {
    StepKeepsOrder(log, v, ev);
    StepKeepsDistinct(v, ev);
    BlurredSteps(log, v, ev);
    StepKeepsFocus(v, ev, Blurred(log));
    forall l
      ensures l in Step(v, ev).stack <==> l in Step(v, ev).layers && LastActivation(log + [ev], l) > 0
      ensures l !in Step(v, ev).layers ==> LastActivation(log + [ev], l) == 0
    {
      StepKeepsMembers(log, v, ev, l);
    }
  }

  /**
   * Over any log, the stack is exactly the surviving activated layers in order
   * of last activation. Nobody but its top has the focus, and the top has it
   * unless activating none, or losing a top during shutdown, took it away.
   */
  lemma {:induction false} HistoryRefinesLog(log: seq<Event>)
    requires Replay(log).Some?
    ensures Refines(log, Replay(log).value)
  {
    if log != [] {
      var init, last := log[..|log| - 1], log[|log| - 1];
      HistoryRefinesLog(init);
      StepRefines(init, Replay(init).value, last);
      assert init + [last] == log;
    }
  }

  /** So exactly the top has the focus if and only if there is no top or it was not blurred. */
  lemma TopHasFocusIff(log: seq<Event>)
    requires Replay(log).Some?
    ensures var v := Replay(log).value;
            v.focused == TopSet(v.stack) <==> v.stack == [] || !Blurred(log)
  {
    HistoryRefinesLog(log);
    var v := Replay(log).value;
    if v.stack != [] {
      assert v.stack[|v.stack| - 1] in TopSet(v.stack);
    }
  }

  /** Activating the top again after activating none does not give it the focus back. */
  lemma ReactivatingTopStaysBlurred(log: seq<Event>, l: Layer)
    requires Replay(log).Some? && l in Replay(log).value.layers
    ensures var again := log + [Activated(l)] + [NoneActivated] + [Activated(l)];
            && Replay(again).Some? && Top(Replay(again).value.stack) == Some(l)
            && Replay(again).value.focused == {}
  {
    var r1 := log + [Activated(l)];
    var r2 := r1 + [NoneActivated];
    var r3 := r2 + [Activated(l)];
    assert r1[..|log|] == log && r2[..|r1|] == r1 && r3[..|r2|] == r2;
    assert Top(Replay(r1).value.stack) == Some(l);
    HistoryRefinesLog(r3);
    assert Blurred(r2) && IsTop(r2, l);
  }

  // ----- the registry -----

  /** When `l` was created, if it was not removed since: a position in the log, from one; zero otherwise. */
  function Creation(log: seq<Event>, l: Layer): (n: nat)
    ensures n <= |log|
  {
    if log == [] then 0
    else
      match log[|log| - 1]
      case Created(m) => if m == l then |log| else Creation(log[..|log| - 1], l)
      case Removed(m) => if m == l then 0 else Creation(log[..|log| - 1], l)
      case _ => Creation(log[..|log| - 1], l)
  }

  predicate CreatedInOrder(log: seq<Event>, s: seq<Layer>) {
    forall i, j | 0 <= i < j < |s| :: Creation(log, s[i]) < Creation(log, s[j])
  }

  lemma CreationSteps(log: seq<Event>, ev: Event, l: Layer)
    ensures Creation(log + [ev], l)
            == if ev == Created(l) then |log| + 1 else if ev == Removed(l) then 0 else Creation(log, l)
  {
    assert (log + [ev])[..|log|] == log;
  }

  lemma {:induction false} RemovalKeepsCreationOrder(log: seq<Event>, s: seq<Layer>, l: Layer)
    requires CreatedInOrder(log, s)
    ensures CreatedInOrder(log, Without(s, l))
  {
    if s != [] {
      var n := |s| - 1;
      RemovalKeepsCreationOrder(log, s[..n], l);
      WithoutMembers(s[..n], l);
      var front := Without(s[..n], l);
      forall i | 0 <= i < |front| ensures Creation(log, front[i]) < Creation(log, s[n]) {
        assert front[i] in s[..n];
      }
    }
  }

  lemma OthersKeepCreationOrder(log: seq<Event>, ev: Event, s: seq<Layer>)
    requires CreatedInOrder(log, s) && forall l | l in s :: ev != Created(l) && ev != Removed(l)
    ensures CreatedInOrder(log + [ev], s)
  {
    forall i | 0 <= i < |s| ensures Creation(log + [ev], s[i]) == Creation(log, s[i]) {
      CreationSteps(log, ev, s[i]);
    }
  }

  ghost predicate Registered(log: seq<Event>, layers: seq<Layer>) {
    CreatedInOrder(log, layers) && forall l :: l in layers <==> Creation(log, l) > 0
  }

  lemma StepKeepsRegistered(log: seq<Event>, v: View, ev: Event)
    requires Registered(log, v.layers) && Possible(v, ev)
    ensures Registered(log + [ev], Step(v, ev).layers)
  {
    var next := Step(v, ev).layers;
    match ev {
      case Created(l) =>
        OthersKeepCreationOrder(log, ev, v.layers);
        CreationSteps(log, ev, l);
        forall i | 0 <= i < |v.layers| ensures Creation(log + [ev], v.layers[i]) < Creation(log + [ev], l) {
          CreationSteps(log, ev, v.layers[i]);
        }
      case Removed(l) =>
        RemovalKeepsCreationOrder(log, v.layers, l);
        WithoutMembers(v.layers, l);
        OthersKeepCreationOrder(log, ev, next);
      case _ => OthersKeepCreationOrder(log, ev, next);
    }
    forall l ensures l in next <==> Creation(log + [ev], l) > 0 {
      CreationSteps(log, ev, l);
    }
  }

  /** Over any log the registry holds exactly the layers created and not removed since, oldest first. */
  lemma {:induction false} RegistryFollowsLog(log: seq<Event>)
    requires Replay(log).Some?
    ensures Registered(log, Replay(log).value.layers)
  {
    if log != [] {
      var init, last := log[..|log| - 1], log[|log| - 1];
      RegistryFollowsLog(init);
      StepKeepsRegistered(init, Replay(init).value, last);
      assert init + [last] == log;
    }
  }
}
