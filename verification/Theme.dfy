/** The window colour: buffered until the loading overlay goes, and replaced by mpv's background during video. */
module Theme {
  import opened Prelude
  import opened Color

  const DEFAULT_BG_RGB: Rgb := 0x101010

  datatype Event =
    | SetVideoBg(rgb: Rgb)
    | OnColor(rgb: Rgb)
    | OverlayDismissed
    | SetVideoMode(active: bool)

  /** The tracker's fields, with every colour it has pushed to its sinks. */
  datatype Tracker = Tracker(
    videoBg: Rgb, current: Rgb, unlocked: bool, videoActive: bool, lastApplied: Option<Rgb>, pushed: seq<Rgb>)

  function Resolved(t: Tracker): Rgb {
    if t.videoActive then t.videoBg else t.current
  }

  function Applied(t: Tracker): Tracker {
    if t.lastApplied == Some(Resolved(t)) then t
    else t.(lastApplied := Some(Resolved(t)), pushed := t.pushed + [Resolved(t)])
  }

  function AppliedIf(t: Tracker, cond: bool): Tracker {
    if cond then Applied(t) else t
  }

  const INITIAL: Tracker :=
    Applied(Tracker(DEFAULT_BG_RGB, DEFAULT_BG_RGB, false, false, None, []))

  function Step(t: Tracker, ev: Event): Tracker {
    match ev
    case SetVideoBg(rgb) =>
      var u := t.(videoBg := rgb);
      AppliedIf(u, u.videoActive && u.unlocked)
    case OnColor(rgb) => AppliedIf(t.(current := rgb), t.unlocked)
    case OverlayDismissed => Applied(t.(unlocked := true))
    case SetVideoMode(active) =>
      if t.videoActive == active then t else AppliedIf(t.(videoActive := active), t.unlocked)
  }

  function After(run: seq<Event>): Tracker {
    if run == [] then INITIAL else Step(After(run[..|run| - 1]), run[|run| - 1])
  }

  // ----- what the log says should be on screen -----

  function LastVideoBg(run: seq<Event>): Rgb {
    if run == [] then DEFAULT_BG_RGB
    else if run[|run| - 1].SetVideoBg? then run[|run| - 1].rgb
    else LastVideoBg(run[..|run| - 1])
  }

  function LastColor(run: seq<Event>): Rgb {
    if run == [] then DEFAULT_BG_RGB
    else if run[|run| - 1].OnColor? then run[|run| - 1].rgb
    else LastColor(run[..|run| - 1])
  }

  predicate InVideo(run: seq<Event>) {
    if run == [] then false
    else if run[|run| - 1].SetVideoMode? then run[|run| - 1].active
    else InVideo(run[..|run| - 1])
  }

  function Wanted(video: bool, videoBg: Rgb, color: Rgb): Rgb {
    if video then videoBg else color
  }

  function WantedColor(run: seq<Event>): Rgb {
    Wanted(InVideo(run), LastVideoBg(run), LastColor(run))
  }

  predicate Dismissed(run: seq<Event>) {
    OverlayDismissed in run
  }

  /** The boot default, then the colour wanted after each event since the overlay went. */
  function Visible(run: seq<Event>): (v: seq<Rgb>)
    ensures |v| > 0
  {
    if run == [] then [DEFAULT_BG_RGB]
    else
      var v := Visible(run[..|run| - 1]);
      if Dismissed(run) then v + [WantedColor(run)] else v
  }

  /** Neighbours differ. */
  predicate NoRepeats(s: seq<Rgb>) {
    |s| <= 1 || (s[|s| - 2] != s[|s| - 1] && NoRepeats(s[..|s| - 1]))
  }

  /** A sequence with each stretch of equal values made one. */
  function Collapsed(s: seq<Rgb>): (c: seq<Rgb>)
    ensures (s == [] <==> c == []) && (s != [] ==> c[|c| - 1] == s[|s| - 1])
    ensures NoRepeats(c)
  {
    if |s| <= 1 then s
    else
      var c := Collapsed(s[..|s| - 1]);
      if s[|s| - 2] == s[|s| - 1] then c else c + [s[|s| - 1]]
  }

  predicate Matches(t: Tracker, videoBg: Rgb, color: Rgb, video: bool, dismissed: bool, visible: seq<Rgb>)
    requires visible != []
  {
    && t.videoBg == videoBg && t.current == color && t.videoActive == video && t.unlocked == dismissed
    && t.pushed == Collapsed(visible) && t.lastApplied == Some(visible[|visible| - 1])
    && (dismissed ==> visible[|visible| - 1] == Wanted(video, videoBg, color))
  }

  lemma CollapsedSnoc(s: seq<Rgb>, x: Rgb)
    requires s != []
    ensures Collapsed(s + [x]) == if s[|s| - 1] == x then Collapsed(s) else Collapsed(s) + [x]
  {
    assert (s + [x])[..|s|] == s;
  }

  lemma AppliedCollapses(t: Tracker, visible: seq<Rgb>)
    requires visible != [] && t.pushed == Collapsed(visible) && t.lastApplied == Some(visible[|visible| - 1])
    ensures var u := Applied(t);
            && u.pushed == Collapsed(visible + [Resolved(t)]) && u.lastApplied == Some(Resolved(t))
            && u == t.(pushed := u.pushed, lastApplied := u.lastApplied)
            && (visible[|visible| - 1] == Resolved(t) ==> u == t)
  {
    CollapsedSnoc(visible, Resolved(t));
  }

  lemma StepMatches(t: Tracker, ev: Event, videoBg: Rgb, color: Rgb, video: bool, dismissed: bool, visible: seq<Rgb>)
    requires visible != [] && Matches(t, videoBg, color, video, dismissed, visible)
    ensures var videoBg' := if ev.SetVideoBg? then ev.rgb else videoBg;
            var color' := if ev.OnColor? then ev.rgb else color;
            var video' := if ev.SetVideoMode? then ev.active else video;
            var dismissed' := dismissed || ev.OverlayDismissed?;
            var visible' := if dismissed' then visible + [Wanted(video', videoBg', color')] else visible;
            Matches(Step(t, ev), videoBg', color', video', dismissed', visible')
  {
    match ev {
      case SetVideoBg(rgb) => AppliedCollapses(t.(videoBg := rgb), visible);
      case OnColor(rgb) => AppliedCollapses(t.(current := rgb), visible);
      case OverlayDismissed => AppliedCollapses(t.(unlocked := true), visible);
      case SetVideoMode(active) => AppliedCollapses(t.(videoActive := active), visible);
    }
  }

  predicate MatchesLog(t: Tracker, run: seq<Event>) {
    Matches(t, LastVideoBg(run), LastColor(run), InVideo(run), Dismissed(run), Visible(run))
  }

  /**
   * What has been pushed is exactly the colour wanted over time, as the log alone
   * tells it, with repeats left out: skipping a push never loses a change.
   */
  lemma {:induction false} PushesFollowTheLog(run: seq<Event>)
    ensures MatchesLog(After(run), run)
  {
    if run != [] {
      var init, ev := run[..|run| - 1], run[|run| - 1];
      PushesFollowTheLog(init);
      assert run == init + [ev];
      StepMatches(After(init), ev, LastVideoBg(init), LastColor(init), InVideo(init), Dismissed(init), Visible(init));
    }
  }

  lemma {:induction false} LockedShowsDefault(run: seq<Event>)
    requires !Dismissed(run)
    ensures Visible(run) == [DEFAULT_BG_RGB]
  {
    if run != [] {
      LockedShowsDefault(run[..|run| - 1]);
    }
  }

  /** Once unlocked, the last colour pushed is the resolved one; while locked, only the default was pushed. */
  lemma LastPushIsResolved(run: seq<Event>)
    ensures var t := After(run);
            && t.pushed != []
            && (t.unlocked ==> t.pushed[|t.pushed| - 1] == Resolved(t) == WantedColor(run))
            && (!t.unlocked ==> t.pushed == [0x101010])
            && NoRepeats(t.pushed)
  {
    PushesFollowTheLog(run);
    if !Dismissed(run) {
      LockedShowsDefault(run);
    }
  }

  // ----- the tracker in place -----

  function HexOf(pushed: seq<Rgb>): seq<seq<Byte>> {
    seq(|pushed|, k requires 0 <= k < |pushed| => HexRgb(pushed[k]))
  }

  class ThemeColor {
    const hasThemeSink: bool
    var videoBg: Rgb
    var current: Rgb
    var unlocked: bool
    var videoActive: bool
    var lastApplied: Option<Rgb>
    /** What the two sinks were called with. */
    var themeCalls: seq<Rgb>
    var bgCalls: seq<seq<Byte>>
    ghost var pushed: seq<Rgb>

    ghost function Now(): Tracker
      reads this
    {
      Tracker(videoBg, current, unlocked, videoActive, lastApplied, pushed)
    }

    /** Both sinks saw every push, the background sink as text. */
    ghost predicate Valid()
      reads this
    {
      themeCalls == (if hasThemeSink then pushed else []) && bgCalls == HexOf(pushed)
    }

    constructor (hasThemeSink: bool)
      ensures Valid() && Now() == INITIAL && this.hasThemeSink == hasThemeSink
    {
      this.hasThemeSink := hasThemeSink;
      videoBg, current := DEFAULT_BG_RGB, DEFAULT_BG_RGB;
      unlocked, videoActive, lastApplied := false, false, None;
      themeCalls, bgCalls, pushed := [], [], [];
      new;
      Apply();
    }

    function ResolvedNow(): Rgb
      reads this
    {
      if videoActive then videoBg else current
    }

    method Apply()
      requires Valid()
      modifies this`lastApplied, this`themeCalls, this`bgCalls, this`pushed
      ensures Valid() && Now() == Applied(old(Now()))
    {
      var rgb := ResolvedNow();
      if lastApplied == Some(rgb) {
        return;
      }
      lastApplied := Some(rgb);
      if hasThemeSink {
        themeCalls := themeCalls + [rgb];
      }
      var hex := new Byte[8];
      FormatHexRgb(rgb, hex);
      assert hex[..7] == HexRgb(rgb);
      bgCalls := bgCalls + [hex[..7]];
      pushed := pushed + [rgb];
    }

    method SetVideoBgTo(rgb: Rgb)
      requires Valid()
      modifies this
      ensures Valid() && Now() == Step(old(Now()), SetVideoBg(rgb))
    {
      videoBg := rgb;
      if videoActive && unlocked {
        Apply();
      }
    }

    method Colored(rgb: Rgb)
      requires Valid()
      modifies this
      ensures Valid() && Now() == Step(old(Now()), OnColor(rgb))
    {
      current := rgb;
      if unlocked {
        Apply();
      }
    }

    method Dismiss()
      requires Valid()
      modifies this
      ensures Valid() && Now() == Step(old(Now()), OverlayDismissed)
    {
      unlocked := true;
      Apply();
    }

    method SetVideoModeTo(active: bool)
      requires Valid()
      modifies this
      ensures Valid() && Now() == Step(old(Now()), SetVideoMode(active))
    {
      if videoActive == active {
        return;
      }
      videoActive := active;
      if unlocked {
        Apply();
      }
    }
  }
}
