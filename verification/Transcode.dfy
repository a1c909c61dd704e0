/** Watching a transcode: is the server keeping up, when to ask again, and when to tell the user. */
module Throughput {
  import opened Prelude

  const SLOW_RATIO := 0.95
  const LEAD_FLOOR_S := 20.0
  const CONSECUTIVE := 2

  /** One answer's numbers; None where the field is missing or not a finite number. */
  datatype Sample = Sample(sourceFps: Option<real>, transcodeFps: Option<real>, lead: Option<real>)

  datatype Tracked = Tracked(slow: nat, shrink: nat, lastLead: Option<real>)

  const NEW_TRACKER := Tracked(0, 0, None)

  function Positive(v: Option<real>): Option<real> {
    if v.Some? && v.value > 0.0 then v else None
  }

  function Next(t: Tracked, s: Sample): Tracked {
    var slow := match (Positive(s.sourceFps), Positive(s.transcodeFps))
      case (Some(src), Some(out)) => if out / src < SLOW_RATIO then t.slow + 1 else 0
      case _ => t.slow;
    match s.lead
    case None => t.(slow := slow)
    case Some(lead) =>
      var shrank := t.lastLead.Some? && lead < t.lastLead.value && lead < LEAD_FLOOR_S;
      Tracked(slow, if shrank then t.shrink + 1 else 0, s.lead)
  }

  predicate Struggling(t: Tracked) {
    t.slow >= CONSECUTIVE || t.shrink >= CONSECUTIVE
  }

  /** The tracker object, stepped once per poll. */
  class Tracker {
    var slow: nat
    var shrink: nat
    var lastLead: Option<real>

    ghost function Now(): Tracked
      reads this
    {
      Tracked(slow, shrink, lastLead)
    }

    constructor ()
      ensures Now() == NEW_TRACKER
    {
      slow, shrink, lastLead := 0, 0, None;
    }

    method TrackThroughput(s: Sample) returns (struggling: bool)
      modifies this
      ensures Now() == Next(old(Now()), s) && struggling == Struggling(Now())
    {
      var srcFps, outFps := Positive(s.sourceFps), Positive(s.transcodeFps);
      if srcFps.Some? && outFps.Some? {
        if outFps.value / srcFps.value < SLOW_RATIO {
          slow := slow + 1;
        } else {
          slow := 0;
        }
      }
      if s.lead.Some? {
        if lastLead.Some? && s.lead.value < lastLead.value && s.lead.value < LEAD_FLOOR_S {
          shrink := shrink + 1;
        } else {
          shrink := 0;
        }
        lastLead := s.lead;
      }
      return slow >= CONSECUTIVE || shrink >= CONSECUTIVE;
    }
  }

  // ----- what the verdict means, over the whole history -----

  function AfterAll(h: seq<Sample>): Tracked {
    if h == [] then NEW_TRACKER else Next(AfterAll(h[..|h| - 1]), h[|h| - 1])
  }

  /** The measured speeds, as fractions of the source rate. */
  function Ratios(h: seq<Sample>): seq<real> {
    if h == [] then []
    else
      var rest, s := Ratios(h[..|h| - 1]), h[|h| - 1];
      match (s.sourceFps, s.transcodeFps)
      case (Some(src), Some(out)) => if src > 0.0 && out > 0.0 then rest + [out / src] else rest
      case _ => rest
  }

  function Leads(h: seq<Sample>): seq<real> {
    if h == [] then []
    else
      var rest, s := Leads(h[..|h| - 1]), h[|h| - 1];
      if s.lead.Some? then rest + [s.lead.value] else rest
  }

  predicate SlowAt(ratios: seq<real>, i: int) {
    0 <= i < |ratios| && ratios[i] < 0.95
  }

  predicate ShrankAt(leads: seq<real>, i: int) {
    0 < i < |leads| && leads[i] < leads[i - 1] && leads[i] < 20.0
  }

  /** How many of the latest speeds, in a row, were slow. */
  function SlowRun(ratios: seq<real>): nat {
    if SlowAt(ratios, |ratios| - 1) then SlowRun(ratios[..|ratios| - 1]) + 1 else 0
  }

  /** How many of the latest leads, in a row, had shrunk below the floor. */
  function ShrinkRun(leads: seq<real>): nat {
    if ShrankAt(leads, |leads| - 1) then ShrinkRun(leads[..|leads| - 1]) + 1 else 0
  }

  lemma Snoc(s: seq<real>, x: real)
    ensures (s + [x])[..|s|] == s
  {
  }

  lemma {:induction false} TrackerCounts(h: seq<Sample>)
    ensures var t := AfterAll(h);
            && t.slow == SlowRun(Ratios(h)) && t.shrink == ShrinkRun(Leads(h))
            && t.lastLead == (if Leads(h) == [] then None else Some(Leads(h)[|Leads(h)| - 1]))
  {
    if h != [] {
      var init, s := h[..|h| - 1], h[|h| - 1];
      TrackerCounts(init);
      if Positive(s.sourceFps).Some? && Positive(s.transcodeFps).Some? {
        Snoc(Ratios(init), s.transcodeFps.value / s.sourceFps.value);
      }
      if s.lead.Some? {
        Snoc(Leads(init), s.lead.value);
      }
    }
  }

  lemma TwoSlow(ratios: seq<real>)
    ensures SlowRun(ratios) >= 2 <==> SlowAt(ratios, |ratios| - 1) && SlowAt(ratios, |ratios| - 2)
  {
  }

  lemma TwoShrunk(leads: seq<real>)
    ensures ShrinkRun(leads) >= 2 <==> ShrankAt(leads, |leads| - 1) && ShrankAt(leads, |leads| - 2)
  {
  }

  /** The last two speeds measured were both slow, or the last two leads read had both just shrunk below the floor. */
  predicate FallsBehind(h: seq<Sample>) {
    var r, l := Ratios(h), Leads(h);
    (SlowAt(r, |r| - 1) && SlowAt(r, |r| - 2)) || (ShrankAt(l, |l| - 1) && ShrankAt(l, |l| - 2))
  }

  /** Over any history the two counters give exactly that verdict. */
  lemma StrugglingIff(h: seq<Sample>)
    ensures Struggling(AfterAll(h)) <==> FallsBehind(h)
  {
    TrackerCounts(h);
    TwoSlow(Ratios(h));
    TwoShrunk(Leads(h));
  }
}
