/** The decisions a surface takes from its window target and its swapchain settings. */
module Swapchain {
  import opened Prelude

  datatype WindowTarget = Xcb | Wayland | CompositionVisual | CoreAnimationLayer

  datatype SizePolicy = FollowFrame | FollowTarget

  datatype ConfigureSite = Painter | Owner

  datatype Extent = Extent(w: nat, h: nat)

  /** The swapchain's extent, the stored target size, and whether its content binding was severed. */
  datatype Chain = Chain(extent: Extent, pending: Extent, needsConfigure: bool)

  function PolicyFor(target: WindowTarget): SizePolicy {
    match target
    case Xcb => FollowTarget
    case Wayland => FollowFrame
    case CompositionVisual => FollowFrame
    case CoreAnimationLayer => FollowTarget
  }

  function SiteFor(target: WindowTarget): ConfigureSite {
    if target == CoreAnimationLayer then Owner else Painter
  }

  /** A physical size as texels, or nothing when it is not a positive extent. */
  function Texels(w: int, h: int): Option<Extent> {
    if w <= 0 || h <= 0 then None else Some(Extent(w, h))
  }

  function ClampExtent(e: Extent, maxDim: nat): Extent {
    var max := Max(maxDim, 1);
    Extent(Max(1, Min(e.w, max)), Max(1, Min(e.h, max)))
  }

  /** The extent a present asks for before it may draw. */
  function WantedExtent(c: Chain, policy: SizePolicy, frame: Extent, maxDim: nat): Extent {
    if policy == FollowFrame then frame else ClampExtent(c.pending, maxDim)
  }

  predicate ConfigureNeeded(c: Chain, want: Extent) {
    c.extent != want || c.needsConfigure
  }

  /** The settings after the surface was asked to sit at `want`. */
  function Reconfigured(c: Chain, policy: SizePolicy, want: Extent): Chain {
    if !ConfigureNeeded(c, want) then c
    else Chain(want, if c.extent != want && policy == FollowFrame then want else c.pending, false)
  }

  function Distance(a: int, b: int): nat {
    if a < b then b - a else a - b
  }

  /** Clamping takes the nearest extent the device can hold. */
  lemma ClampIsNearest(e: Extent, maxDim: nat, other: Extent)
    requires 1 <= other.w <= Max(maxDim, 1) && 1 <= other.h <= Max(maxDim, 1)
    ensures var c := ClampExtent(e, maxDim);
            && 1 <= c.w <= Max(maxDim, 1) && 1 <= c.h <= Max(maxDim, 1)
            && Distance(c.w, e.w) <= Distance(other.w, e.w) && Distance(c.h, e.h) <= Distance(other.h, e.h)
  {
  }

  /** The settings once room was made for a frame: a painter moves, an owner's surface stays as it is. */
  function Sized(site: ConfigureSite, policy: SizePolicy, maxDim: nat, c: Chain, frame: Extent): Chain {
    if site == Owner then c else Reconfigured(c, policy, WantedExtent(c, policy, frame, maxDim))
  }

  /**
   * Where a present of a frame leaves each kind of window: sub-surfaces and
   * composition visuals at the frame's size, an X11 window at the size it was
   * last given, a layer of another thread's where that thread left it. Wherever
   * the painter configures, nothing is owed afterwards.
   */
  lemma WindowKeepsItsRule(target: WindowTarget, maxDim: nat, c: Chain, frame: Extent)
    ensures var after := Sized(SiteFor(target), PolicyFor(target), maxDim, c, frame);
            && after.extent == (match target
                                case Xcb => ClampExtent(c.pending, maxDim)
                                case Wayland => frame
                                case CompositionVisual => frame
                                case CoreAnimationLayer => c.extent)
            && after.needsConfigure == (target == CoreAnimationLayer && c.needsConfigure)
  {
  }

  /** The configures that costs. */
  function SizingConfigures(site: ConfigureSite, policy: SizePolicy, maxDim: nat, c: Chain, frame: Extent): nat {
    if site == Painter && ConfigureNeeded(c, WantedExtent(c, policy, frame, maxDim)) then 1 else 0
  }
}

/**
 * One window's surface on a single thread: the persistent upload texture, the
 * lazily reconfigured swapchain, and the bounded acquire loop.
 */
module Surface {
  import opened Prelude
  import opened Frames
  import opened Swapchain

  datatype PaintMode = SharedMode | CopiedMode

  /** A shared frame carries no pixels here; its import either works or does not. */
  datatype Frame = Copied(px: Pixels) | Shared(w: int, h: int, imports: bool)

  /** What the window system answers when asked for the next swapchain frame. */
  datatype Acquired = Fresh | Suboptimal | Lost | Outdated | Timeout | Occluded | Validation

  datatype Presented = Yes | Skipped

  datatype SurfaceError = BadDimensions | BadPixelBuffer | AcquireFailed

  type Outcome = Result<Presented, SurfaceError>

  predicate Stale(a: Acquired) {
    a == Lost || a == Outdated
  }

  /** The answer that decides a draw: a painter asks again, once, after a stale one. */
  function LastAnswer(site: ConfigureSite, answers: nat -> Acquired): Acquired {
    if site == Painter && Stale(answers(0)) then answers(1) else answers(0)
  }

  /** An owner's surface is never configured on the way, so it skips where a painter would draw and rebuild. */
  function DrawnOn(site: ConfigureSite, a: Acquired): Outcome {
    match a
    case Fresh => Success(Yes)
    case Suboptimal => Success(if site == Owner then Skipped else Yes)
    case Validation => Failure(AcquireFailed)
    case _ => Success(Skipped)
  }

  /** Configures a draw costs: one before asking again, one after showing a suboptimal frame. */
  function DrawConfigures(site: ConfigureSite, answers: nat -> Acquired): nat {
    if site == Owner then 0
    else (if Stale(answers(0)) then 1 else 0) + if LastAnswer(site, answers) == Suboptimal then 1 else 0
  }

  /**
   * The outcomes of a draw, answer by answer: a frame is shown on a fresh
   * answer, to a painter also on a suboptimal one or on the second answer after
   * a stale first; a validation fault that decides is the only error. A painter
   * configures once per stale first answer and once per suboptimal frame shown.
   */
  lemma DrawByAnswers(site: ConfigureSite, answers: nat -> Acquired)
    ensures var r := DrawnOn(site, LastAnswer(site, answers));
            var again := site == Painter && (answers(0) == Lost || answers(0) == Outdated);
            && (r == Success(Yes) <==>
                  || answers(0) == Fresh || (site == Painter && answers(0) == Suboptimal)
                  || (again && (answers(1) == Fresh || answers(1) == Suboptimal)))
            && (r == Failure(AcquireFailed) <==> answers(0) == Validation || (again && answers(1) == Validation))
            && (r.Failure? ==> r == Failure(AcquireFailed))
            && DrawConfigures(site, answers)
               == (if again then 1 else 0)
                  + (if site == Painter && (answers(0) == Suboptimal || (again && answers(1) == Suboptimal))
                     then 1 else 0)
  {
  }

  function Kind(frame: Frame): PaintMode {
    if frame.Copied? then CopiedMode else SharedMode
  }

  function Width(frame: Frame): int {
    if frame.Copied? then frame.px.w else frame.w
  }

  function Height(frame: Frame): int {
    if frame.Copied? then frame.px.h else frame.h
  }

  predicate Holdable(w: int, h: int, maxDim: nat) {
    0 < w <= maxDim && 0 < h <= maxDim
  }

  /** What passes the size check is exactly what clamping would leave alone. */
  lemma HoldableIsUnclamped(w: int, h: int, maxDim: nat)
    requires maxDim > 0
    ensures Holdable(w, h, maxDim)
            <==> w > 0 && h > 0 && ClampExtent(Extent(w, h), maxDim) == Extent(w, h)
  {
  }

  lemma RowsNest(stride: nat, j: int, last: int)
    requires 0 <= j <= last
    ensures 0 <= j * stride <= last * stride
  {
    assert j * stride + (last - j) * stride == last * stride;
  }

  function SliceTexel(slice: seq<Byte>, bytesPerRow: nat, w: nat, h: nat, i: int, j: int): Texel
    requires InRect(0, 0, w, h, i, j) && |slice| >= (h - 1) * bytesPerRow + w * 4
  {
    RowsNest(bytesPerRow, j, h - 1);
    TexelOf(slice, j * bytesPerRow + i * 4)
  }

  lemma TexelOfSlice(bytes: seq<Byte>, start: nat, end: nat, at: nat)
    requires start <= end <= |bytes| && start + at + 4 <= end
    ensures TexelOf(bytes[start..end], at) == TexelOf(bytes, start + at)
  {
  }

  lemma SliceTexelIsSample(f: Pixels, x: int, y: int, w: int, h: int, i: int, j: int)
    requires Sound(f) && 0 <= x && 0 <= y && w > 0 && h > 0 && x + w <= f.w && y + h <= f.h
    requires InRect(x, y, w, h, i, j)
    ensures var start := y * f.stride + x * 4;
            var end := start + (h - 1) * f.stride + w * 4;
            0 <= start <= end <= |f.bgra|
            && SliceTexel(f.bgra[start..end], f.stride, w, h, i - x, j - y) == Sample(f, i, j)
  {
    var s := f.stride;
    SliceInRange(f, x, y, w, h);
    SliceInRange(f, i, j, 1, 1);
    SliceOffset(f, x, y, i, j);
    RowsNest(s, j - y, h - 1);
    var start := y * s + x * 4;
    TexelOfSlice(f.bgra, start, start + (h - 1) * s + w * 4, (j - y) * s + (i - x) * 4);
  }

  lemma IncrementalSnoc(history: seq<Pixels>, f: Pixels, w: nat, h: nat, i: int, j: int)
    requires AllSound(history) && Sound(f)
    ensures AllSound(history + [f])
    ensures Incremental(history + [f], w, h, i, j)
            == if Touches(f, history == [], w, h, i, j) then Sample(f, i, j) else Incremental(history, w, h, i, j)
  {
    assert (history + [f])[..|history|] == history;
  }

  lemma CoveredSnoc(dirty: seq<DamageRect>, k: nat, i: int, j: int)
    requires k < |dirty|
    ensures Covered(dirty[..k + 1], i, j)
            <==> Covered(dirty[..k], i, j) || InRect(dirty[k].x, dirty[k].y, dirty[k].w, dirty[k].h, i, j)
  {
    assert dirty[..k + 1][k] == dirty[k];
    assert forall n | 0 <= n < k :: dirty[..k + 1][n] == dirty[..k][n];
  }

  class UploadTexture {
    const w: nat
    const h: nat
    const tex: array2<Texel>
    var needsBase: bool

    predicate Valid() reads this {
      0 < w == tex.Length0 && 0 < h == tex.Length1
    }

    constructor (w: nat, h: nat)
      requires 0 < w && 0 < h
      ensures Valid() && this.w == w && this.h == h && needsBase && fresh(tex)
      ensures forall i, j | InRect(0, 0, w, h, i, j) :: tex[i, j] == TRANSPARENT
    {
      this.w, this.h, needsBase := w, h, true;
      tex := new Texel[w, h]((_, _) => TRANSPARENT);
    }

    /** The queue's strided copy into one rectangle of the texture. */
    method WriteTexture(slice: seq<Byte>, bytesPerRow: nat, x: nat, y: nat, w: nat, h: nat)
      requires Valid() && w > 0 && h > 0 && x + w <= this.w && y + h <= this.h
      requires bytesPerRow >= w * 4 && |slice| >= (h - 1) * bytesPerRow + w * 4
      modifies tex
      ensures forall i, j | InRect(0, 0, this.w, this.h, i, j) ::
                tex[i, j] == if InRect(x, y, w, h, i, j)
                             then SliceTexel(slice, bytesPerRow, w, h, i - x, j - y)
                             else old(tex[i, j])
    {
      forall i, j | x <= i < x + w && y <= j < y + h {
        tex[i, j] := SliceTexel(slice, bytesPerRow, w, h, i - x, j - y);
      }
    }

    method WriteRect(f: Pixels, x: int, y: int, w: int, h: int)
      requires Valid() && Sound(f) && 0 <= x && 0 <= y && w > 0 && h > 0
      requires x + w <= Min(f.w, this.w) && y + h <= Min(f.h, this.h)
      modifies tex
      ensures forall i, j | InRect(0, 0, this.w, this.h, i, j) ::
                tex[i, j] == if InRect(x, y, w, h, i, j) then Sample(f, i, j) else old(tex[i, j])
    {
      SliceInRange(f, x, y, w, h);
      var start := y * f.stride + x * 4;
      var end := start + (h - 1) * f.stride + w * 4;
      var slice := f.bgra[start..end];
      WriteTexture(slice, f.stride, x, y, w, h);
      forall i, j | InRect(x, y, w, h, i, j)
        ensures SliceTexel(slice, f.stride, w, h, i - x, j - y) == Sample(f, i, j)
      {
        SliceTexelIsSample(f, x, y, w, h, i, j);
      }
    }

    method Write(f: Pixels)
      requires Valid() && Sound(f)
      modifies this`needsBase, tex
      ensures !needsBase
      ensures forall i, j | InRect(0, 0, w, h, i, j) ::
                tex[i, j] == if Touches(f, old(needsBase), w, h, i, j) then Sample(f, i, j) else old(tex[i, j])
    {
      var boundW, boundH := Min(f.w, w), Min(f.h, h);
      if needsBase || f.dirty == [] {
        WriteRect(f, 0, 0, boundW, boundH);
        needsBase := false;
      } else {
        for k := 0 to |f.dirty|
          invariant !needsBase
          invariant forall i, j | InRect(0, 0, w, h, i, j) ::
                      tex[i, j] == if InArea(f, w, h, i, j) && Covered(f.dirty[..k], i, j)
                                   then Sample(f, i, j) else old(tex[i, j])
        {
          var r := f.dirty[k];
          var x, y, rw, rh := ClipRect(r.x, r.y, r.w, r.h, boundW, boundH);
          forall i, j ensures Covered(f.dirty[..k + 1], i, j)
                              <==> Covered(f.dirty[..k], i, j) || InRect(r.x, r.y, r.w, r.h, i, j)
          {
            CoveredSnoc(f.dirty, k, i, j);
          }
          if rw <= 0 || rh <= 0 {
            assert forall i, j :: !InRect(x, y, rw, rh, i, j);
            continue;
          }
          WriteRect(f, x, y, rw, rh);
        }
        assert f.dirty[..|f.dirty|] == f.dirty;
      }
    }
  }

  class Surface {
    const maxDim: nat
    const policy: SizePolicy
    const site: ConfigureSite
    var chain: Chain
    var upload: UploadTexture?
    var visible: bool
    var mode: Option<PaintMode>
    var configured: bool
    // Configures run so far, and the frames written to `upload` since it was created.
    ghost var configures: nat
    ghost var history: seq<Pixels>

    ghost predicate Valid()
      reads this, upload, if upload == null then {} else {upload.tex}
    {
      && (site == Owner ==> policy == FollowTarget)
      && 0 < chain.extent.w && 0 < chain.extent.h
      && AllSound(history)
      && (upload == null <==> history == [])
      && (upload != null ==>
            && upload.Valid() && !upload.needsBase
            && upload.w == chain.extent.w && upload.h == chain.extent.h
            && (policy == FollowFrame ==>
                  forall k | 0 <= k < |history| :: history[k].w == upload.w && history[k].h == upload.h)
            && forall i, j | InRect(0, 0, upload.w, upload.h, i, j) ::
                 upload.tex[i, j] == Incremental(history, upload.w, upload.h, i, j))
    }

    constructor (target: WindowTarget, w: int, h: int, maxDim: nat)
      requires Holdable(w, h, maxDim)
      ensures Valid() && history == [] && configures == 1 && configured && visible && mode == None
      ensures chain == Chain(Extent(w, h), Extent(w, h), false)
      ensures this.maxDim == maxDim && policy == PolicyFor(target) && site == SiteFor(target)
    {
      this.maxDim, policy, site := maxDim, PolicyFor(target), SiteFor(target);
      chain := Chain(Extent(w, h), Extent(w, h), false);
      upload, visible, mode := null, true, None;
      history := [];
      configured, configures := true, 1;
    }

    method ConfigureNow()
      modifies this`configured, this`configures
      ensures configured && configures == old(configures) + 1
    {
      configured := true;
      configures := configures + 1;
    }

    method TakeConfigured() returns (was: bool)
      modifies this`configured
      ensures was == old(configured) && !configured
    {
      was := configured;
      configured := false;
    }

    /** Only an extent change drops the upload texture; a severed binding alone reconfigures in place. */
    method ReconfigureTo(want: Extent)
      requires Valid() && 0 < want.w && 0 < want.h
      modifies this`chain, this`upload, this`configured, this`configures, this`history
      ensures Valid() && chain == Reconfigured(old(chain), policy, want)
      ensures chain.extent == want && !chain.needsConfigure
      ensures chain.pending == if policy == FollowFrame && old(chain).extent != want then want else old(chain).pending
      ensures configures == old(configures) + if ConfigureNeeded(old(chain), want) then 1 else 0
      ensures configured == (old(configured) || ConfigureNeeded(old(chain), want))
      ensures old(chain).extent == want ==> upload == old(upload) && history == old(history)
      ensures old(chain).extent != want ==> upload == null
    {
      var resized := chain.extent != want;
      if !(resized || chain.needsConfigure) {
        return;
      }
      chain := chain.(extent := want, needsConfigure := false);
      ConfigureNow();
      if resized {
        upload, history := null, [];
        if policy == FollowFrame {
          chain := chain.(pending := want);
        }
      }
    }

    method Resize(w: int, h: int)
      requires Valid()
      modifies this`chain, this`upload, this`configured, this`configures, this`history
      ensures Valid()
      ensures Texels(w, h) == None ==> chain == old(chain) && configures == old(configures)
      ensures Texels(w, h) != None ==>
                var stored := old(chain).(pending := Extent(w, h));
                var want := ClampExtent(Extent(w, h), maxDim);
                && chain == (if site == Owner then Reconfigured(stored, policy, want) else stored)
                && configures == old(configures) + if site == Owner && ConfigureNeeded(stored, want) then 1 else 0
      ensures configured == (old(configured) || configures > old(configures))
      ensures chain.extent == old(chain).extent ==> upload == old(upload) && history == old(history)
      ensures chain.extent != old(chain).extent ==> upload == null
    {
      var size := Texels(w, h);
      if size == None {
        return;
      }
      chain := chain.(pending := size.value);
      if site == Owner {
        ReconfigureTo(ClampExtent(size.value, maxDim));
      }
    }

    method ContentDetached()
      requires Valid()
      modifies this`chain
      ensures Valid() && chain == old(chain).(needsConfigure := true)
    {
      chain := chain.(needsConfigure := true);
    }

    method SetVisible(v: bool)
      requires Valid()
      modifies this`visible
      ensures Valid() && visible == v
    {
      visible := v;
    }

    method ExtentFor(frame: Extent) returns (e: Extent)
      requires Valid() && 0 < frame.w && 0 < frame.h
      modifies this`chain, this`upload, this`configured, this`configures, this`history
      ensures Valid() && e == chain.extent
      ensures chain == Sized(site, policy, maxDim, old(chain), frame)
      ensures configures == old(configures) + SizingConfigures(site, policy, maxDim, old(chain), frame)
      ensures configured == (old(configured) || configures > old(configures))
      ensures chain.extent == old(chain).extent ==> upload == old(upload) && history == old(history)
      ensures chain.extent != old(chain).extent ==> upload == null
      ensures policy == FollowFrame ==> e == frame
    {
      if site == Painter {
        ReconfigureTo(WantedExtent(chain, policy, frame, maxDim));
      }
      e := chain.extent;
    }

    method TakeUpload(w: nat, h: nat) returns (u: UploadTexture)
      requires Valid() && w == chain.extent.w && h == chain.extent.h
      modifies this`upload
      ensures upload == null && u.Valid() && u.w == w && u.h == h
      ensures old(upload) != null ==> u == old(upload)
      ensures old(upload) == null ==> fresh(u) && fresh(u.tex) && u.needsBase
      ensures old(upload) == null ==> forall i, j | InRect(0, 0, w, h, i, j) :: u.tex[i, j] == TRANSPARENT
    {
      var held := upload;
      upload := null;
      if held != null && held.w == w && held.h == h {
        u := held;
      } else {
        u := new UploadTexture(w, h);
      }
    }

    /**
     * Acquire the next swapchain frame, reconfiguring at most once. `answers`
     * is what the window system says to the first and the second request.
     */
    method AcquireFrame(answers: nat -> Acquired) returns (r: Result<Option<bool>, SurfaceError>, asked: nat)
      modifies this`configured, this`configures
      ensures 1 <= asked <= 2
      ensures asked == 2 <==> site == Painter && Stale(answers(0))
      ensures configures == old(configures) + (asked - 1)
      ensures configured == (old(configured) || asked == 2)
      ensures var last := answers(asked - 1);
              r == match last
                   case Fresh => Success(Some(false))
                   case Suboptimal => Success(if site == Owner then None else Some(true))
                   case Validation => Failure(AcquireFailed)
                   case _ => Success(None)
    {
      var reconfigured := false;
      asked := 0;
      while true
        invariant asked == if reconfigured then 1 else 0
        invariant configures == old(configures) + asked && configured == (old(configured) || reconfigured)
        invariant reconfigured ==> site == Painter && Stale(answers(0))
        decreases 2 - asked
      {
        var answer := answers(asked);
        asked := asked + 1;
        match answer {
          case Fresh =>
            return Success(Some(false)), asked;
          case Suboptimal =>
            return Success(if site == Owner then None else Some(true)), asked;
          case Lost | Outdated =>
            if site == Owner || reconfigured {
              return Success(None), asked;
            }
            reconfigured := true;
            ConfigureNow();
          case Timeout | Occluded =>
            return Success(None), asked;
          case Validation =>
            return Failure(AcquireFailed), asked;
        }
      }
    }

    /** `latched` says whether the caller's on-present hook ran. */
    method DrawAndPresent(answers: nat -> Acquired) returns (r: Outcome, latched: bool)
      modifies this`configured, this`configures
      ensures latched <==> r == Success(Yes)
      ensures r == DrawnOn(site, LastAnswer(site, answers))
      ensures configures == old(configures) + DrawConfigures(site, answers)
      ensures configured == (old(configured) || configures > old(configures))
    {
      var acquired, _ := AcquireFrame(answers);
      match acquired {
        case Failure(e) =>
          return Failure(e), false;
        case Success(None) =>
          return Success(Skipped), false;
        case Success(Some(suboptimal)) =>
          if suboptimal {
            ConfigureNow();
          }
          return Success(Yes), true;
      }
    }

    /** A copied frame that reaches the texture. */
    predicate Accepts(f: Pixels)
      reads this`visible
    {
      Holdable(f.w, f.h, maxDim) && CheckBuffer(f) && visible
    }

    /** Size the swapchain for a frame and write the frame into the texture that goes with it. */
    method UploadFrame(f: Pixels)
      requires Valid() && Sound(f)
      modifies this`chain, this`upload, this`configured, this`configures, this`history
      modifies upload, if upload == null then {} else {upload.tex}
      ensures Valid() && chain == Sized(site, policy, maxDim, old(chain), Extent(f.w, f.h))
      ensures history == (if chain.extent == old(chain).extent then old(history) else []) + [f]
      ensures upload == null || upload == old(upload) || (fresh(upload) && fresh(upload.tex))
      ensures configures == old(configures) + SizingConfigures(site, policy, maxDim, old(chain), Extent(f.w, f.h))
      ensures configured == (old(configured) || configures > old(configures))
    {
      var extent := ExtentFor(Extent(f.w, f.h));
      var u := TakeUpload(extent.w, extent.h);
      u.Write(f);
      ghost var before := history;
      history := history + [f];
      upload := u;
      forall i, j | InRect(0, 0, u.w, u.h, i, j)
        ensures u.tex[i, j] == Incremental(history, u.w, u.h, i, j)
      {
        IncrementalSnoc(before, f, u.w, u.h, i, j);
      }
    }

    /**
     * An accepted frame is written before the swapchain is asked for anything,
     * so the texture holds it whether or not the draw then happens.
     */
    method PresentPixels(f: Pixels, answers: nat -> Acquired) returns (r: Outcome, latched: bool)
      requires Valid()
      modifies this`chain, this`upload, this`configured, this`configures, this`history
      modifies upload, if upload == null then {} else {upload.tex}
      ensures Valid() && (latched <==> r == Success(Yes))
      ensures !Holdable(f.w, f.h, maxDim) ==> r == Failure(BadDimensions)
      ensures Holdable(f.w, f.h, maxDim) && !CheckBuffer(f) ==> r == Failure(BadPixelBuffer)
      ensures Holdable(f.w, f.h, maxDim) && CheckBuffer(f) && !visible ==> r == Success(Skipped)
      ensures !Accepts(f) ==>
                && chain == old(chain) && configures == old(configures)
                && upload == old(upload) && history == old(history)
      ensures Accepts(f) ==>
                && history == (if chain.extent == old(chain).extent then old(history) else []) + [f]
                && r == DrawnOn(site, LastAnswer(site, answers))
                && chain == Sized(site, policy, maxDim, old(chain), Extent(f.w, f.h))
                && configures == old(configures) + DrawConfigures(site, answers)
                                 + SizingConfigures(site, policy, maxDim, old(chain), Extent(f.w, f.h))
      ensures configured == (old(configured) || configures > old(configures))
      ensures upload == null || upload == old(upload) || (fresh(upload) && fresh(upload.tex))
    {
      if !Holdable(f.w, f.h, maxDim) {
        return Failure(BadDimensions), false;
      }
      if !CheckBuffer(f) {
        return Failure(BadPixelBuffer), false;
      }
      if !visible {
        return Success(Skipped), false;
      }
      UploadFrame(f);
      r, latched := DrawAndPresent(answers);
    }

    method PresentShared(w: int, h: int, imports: bool, answers: nat -> Acquired)
      returns (r: Outcome, latched: bool)
      requires Valid()
      modifies this`chain, this`upload, this`configured, this`configures, this`history
      ensures Valid() && (latched <==> r == Success(Yes))
      ensures !Holdable(w, h, maxDim) ==> r == Failure(BadDimensions)
      ensures Holdable(w, h, maxDim) && (!visible || !imports) ==> r == Success(Skipped)
      ensures Holdable(w, h, maxDim) && visible && imports ==> r == DrawnOn(site, LastAnswer(site, answers))
      ensures !(Holdable(w, h, maxDim) && visible) ==> chain == old(chain) && configures == old(configures)
      ensures Holdable(w, h, maxDim) && visible ==>
                && chain == Sized(site, policy, maxDim, old(chain), Extent(w, h))
                && configures == old(configures) + SizingConfigures(site, policy, maxDim, old(chain), Extent(w, h))
                                 + if imports then DrawConfigures(site, answers) else 0
      ensures chain.extent == old(chain).extent ==> upload == old(upload) && history == old(history)
      ensures configured == (old(configured) || configures > old(configures))
      ensures chain.extent != old(chain).extent ==> upload == null
    {
      if !Holdable(w, h, maxDim) {
        return Failure(BadDimensions), false;
      }
      if !visible {
        return Success(Skipped), false;
      }
      var _ := ExtentFor(Extent(w, h));
      if !imports {
        return Success(Skipped), false;
      }
      r, latched := DrawAndPresent(answers);
    }

    /** A frame that gets as far as making room for it. */
    predicate Reaches(frame: Frame)
      reads this`visible
    {
      match frame
      case Copied(px) => Accepts(px)
      case Shared(w, h, _) => Holdable(w, h, maxDim) && visible
    }

    /** What a present of the right kind reports. */
    function Reported(frame: Frame, answers: nat -> Acquired): Outcome
      reads this`visible
    {
      if !Reaches(frame) then
        if !Holdable(Width(frame), Height(frame), maxDim) then Failure(BadDimensions)
        else if frame.Copied? && !CheckBuffer(frame.px) then Failure(BadPixelBuffer)
        else Success(Skipped)
      else if frame.Shared? && !frame.imports then Success(Skipped)
      else DrawnOn(site, LastAnswer(site, answers))
    }

    /** The first frame fixes the kind; a frame of the other kind is dropped without touching anything. */
    method Present(frame: Frame, answers: nat -> Acquired) returns (r: Outcome, latched: bool)
      requires Valid()
      modifies this`chain, this`upload, this`configured, this`configures, this`history, this`mode
      modifies upload, if upload == null then {} else {upload.tex}
      ensures Valid() && (latched <==> r == Success(Yes))
      ensures mode == if old(mode) != None then old(mode)
                      else if frame.Copied? then Some(CopiedMode) else Some(SharedMode)
      ensures r == if mode != Some(Kind(frame)) then Success(Skipped) else Reported(frame, answers)
      ensures mode != Some(Kind(frame)) || !Reaches(frame) ==>
                && chain == old(chain) && configures == old(configures)
                && upload == old(upload) && history == old(history)
      ensures mode == Some(Kind(frame)) && Reaches(frame) ==>
                chain == Sized(site, policy, maxDim, old(chain), Extent(Width(frame), Height(frame)))
      ensures mode == Some(Kind(frame)) && Reaches(frame) && frame.Copied? ==>
                history == (if chain.extent == old(chain).extent then old(history) else []) + [frame.px]
      ensures frame.Shared? ==> upload == null || upload == old(upload)
      ensures configured == (old(configured) || configures > old(configures))
      ensures upload == null || upload == old(upload) || (fresh(upload) && fresh(upload.tex))
    {
      if mode == None {
        mode := Some(Kind(frame));
      } else if mode.value != Kind(frame) {
        return Success(Skipped), false;
      }
      match frame {
        case Copied(px) =>
          r, latched := PresentPixels(px, answers);
        case Shared(w, h, imports) =>
          r, latched := PresentShared(w, h, imports, answers);
      }
    }

    /**
     * What the texture shows: it equals the full upload of the last accepted
     * frame whenever the run so far was honest and left no residue.
     */
    lemma TextureShowsLastFrame()
      requires Valid() && upload != null && HonestRun(history, upload.w, upload.h)
      requires CleanThrough(history, |history|, upload.w, upload.h)
      ensures forall i, j | 0 <= i < upload.w && 0 <= j < upload.h ::
                upload.tex[i, j] == Shown(history[|history| - 1], upload.w, upload.h, i, j)
    {
      RunAgreesIff(history, |history|, upload.w, upload.h);
      assert history[..|history|] == history;
    }

    /** A surface that follows the frame never has residue to worry about. */
    lemma FollowFrameIsClean()
      requires Valid() && upload != null && policy == FollowFrame
      ensures CleanThrough(history, |history|, upload.w, upload.h)
    {
      forall k | 0 < k < |history|
        ensures NoResidue(history[k - 1], history[k], upload.w, upload.h)
      {
        GrowingFramesLeaveNoResidue(history[k - 1], history[k], upload.w, upload.h);
      }
    }
  }

  // ----- whole runs through a surface -----

  /** The producer's promise between two frames that go into one texture. */
  ghost predicate HonestPair(prev: Pixels, f: Pixels)
    requires Sound(prev) && Sound(f)
  {
    prev.w == f.w && prev.h == f.h ==> Honest(prev, f, f.w, f.h)
  }

  lemma HonestSnoc(history: seq<Pixels>, f: Pixels, w: nat, h: nat)
    requires AllSound(history) && Sound(f) && history != []
    requires HonestRun(history, w, h) && Honest(history[|history| - 1], f, w, h)
    ensures AllSound(history + [f]) && HonestRun(history + [f], w, h)
  {
    forall k | 0 < k < |history + [f]| ensures Honest((history + [f])[k - 1], (history + [f])[k], w, h) {
      if k < |history| {
        assert Honest(history[k - 1], history[k], w, h);
      }
    }
  }

  /**
   * Any run of copied frames on a visible surface that follows the frame,
   * whatever their sizes and whatever the window system answers: at the end the
   * texture is exactly the last frame.
   */
  method PresentAll(s: Surface, frames: seq<Pixels>, answers: nat -> nat -> Acquired)
    requires s.Valid() && s.upload == null && s.policy == FollowFrame && s.visible
    requires frames != [] && AllSound(frames)
    requires forall k | 0 <= k < |frames| :: Holdable(frames[k].w, frames[k].h, s.maxDim)
    requires forall k | 0 < k < |frames| :: HonestPair(frames[k - 1], frames[k])
    modifies s`chain, s`upload, s`configured, s`configures, s`history
    ensures s.Valid() && s.upload != null
    ensures var f := frames[|frames| - 1];
            && s.upload.w == f.w && s.upload.h == f.h
            && forall i, j | 0 <= i < f.w && 0 <= j < f.h :: s.upload.tex[i, j] == Sample(f, i, j)
  {
    for k := 0 to |frames|
      invariant s.Valid() && (s.upload == null || (fresh(s.upload) && fresh(s.upload.tex)))
      invariant k == 0 ==> s.upload == null
      invariant k > 0 ==>
                  && s.upload != null && s.upload.w == frames[k - 1].w && s.upload.h == frames[k - 1].h
                  && s.history[|s.history| - 1] == frames[k - 1]
                  && HonestRun(s.history, s.upload.w, s.upload.h)
    {
      ghost var before := s.history;
      var r, latched := s.PresentPixels(frames[k], answers(k));
      if |s.history| > 1 {
        assert HonestPair(frames[k - 1], frames[k]);
        HonestSnoc(before, frames[k], s.upload.w, s.upload.h);
      }
    }
    s.FollowFrameIsClean();
    s.TextureShowsLastFrame();
  }

  /**
   * A surface that follows its window keeps stale texels: two frames, the
   * second narrower than the first, both uploaded in full, on a window that
   * keeps its size.
   */
  method StaleTexelOnWindow(answers: nat -> nat -> Acquired) returns (s: Surface)
    ensures fresh(s) && s.Valid() && s.policy == FollowTarget && s.history == [WIDE, NARROW]
    ensures HonestRun(s.history, 2, 1) && s.upload != null && s.upload.w == 2 && s.upload.h == 1
    ensures s.upload.tex[1, 0] != Shown(NARROW, 2, 1, 1, 0)
  {
    s := new Surface(Xcb, 2, 1, 2);
    ShrinkingFrameLeavesResidue();
    var r, latched := s.PresentPixels(WIDE, answers(0));
    assert s.history == [WIDE];
    r, latched := s.PresentPixels(NARROW, answers(1));
    assert s.history == [WIDE, NARROW];
    assert InRect(0, 0, 2, 1, 1, 0);
  }
}
