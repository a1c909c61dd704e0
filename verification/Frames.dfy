/**
 * CPU frames: a strided BGRA buffer plus the rectangles that changed, and the
 * picture a texture holds after a run of dirty-rect uploads.
 */
module Frames {
  import opened Prelude

  datatype Texel = Texel(b: Byte, g: Byte, r: Byte, a: Byte)

  const TRANSPARENT := Texel(0, 0, 0, 0)

  datatype DamageRect = DamageRect(x: int, y: int, w: int, h: int)

  datatype Pixels = Pixels(w: int, h: int, stride: nat, bgra: seq<Byte>, dirty: seq<DamageRect>)

  // ----- reading the buffer -----

  /** The buffer covers the declared extent: the condition the paint path checks once per frame. */
  predicate CheckBuffer(f: Pixels)
    requires f.w > 0 && f.h > 0
  {
    f.stride >= f.w * 4 && |f.bgra| >= (f.h - 1) * f.stride + f.w * 4
  }

  predicate Sound(f: Pixels) {
    f.w > 0 && f.h > 0 && CheckBuffer(f)
  }

  lemma Distribute(a: int, b: int, s: int)
    ensures a * s + b * s == (a + b) * s
  {
  }

  lemma RowsFit(y: int, h: int, rows: int, s: nat)
    requires 0 <= y && h > 0 && y + h <= rows
    ensures 0 <= y * s && 0 <= (h - 1) * s && y * s + (h - 1) * s <= (rows - 1) * s
  {
    Distribute(y, h - 1, s);
    Distribute(y + h - 1, rows - y - h, s);
  }

  predicate TexelFits(f: Pixels, i: nat, j: nat) {
    j * f.stride + i * 4 + 4 <= |f.bgra|
  }

  /** Exactly the frames whose rows do not overlap and whose every texel lies in the buffer pass the check. */
  lemma CheckBufferIff(f: Pixels)
    requires f.w > 0 && f.h > 0
    ensures CheckBuffer(f) <==>
              f.stride >= f.w * 4
              && forall i, j | 0 <= i < f.w && 0 <= j < f.h :: TexelFits(f, i, j)
  {
    if CheckBuffer(f) {
      forall i, j | 0 <= i < f.w && 0 <= j < f.h ensures TexelFits(f, i, j) {
        RowsFit(0, j + 1, f.h, f.stride);
      }
    } else if f.stride >= f.w * 4 {
      assert !TexelFits(f, f.w - 1, f.h - 1);
    }
  }

  function TexelOf(bytes: seq<Byte>, at: nat): Texel
    requires at + 4 <= |bytes|
  {
    Texel(bytes[at], bytes[at + 1], bytes[at + 2], bytes[at + 3])
  }

  /** Blue, green, red and alpha, in the order of the bytes. */
  lemma TexelIsBytes(before: seq<Byte>, b: Byte, g: Byte, r: Byte, a: Byte, after: seq<Byte>)
    ensures TexelOf(before + [b, g, r, a] + after, |before|) == Texel(b, g, r, a)
  {
  }

  /** A rectangle inside the frame selects a byte range inside the buffer, row by row. */
  lemma SliceInRange(f: Pixels, x: int, y: int, w: int, h: int)
    requires Sound(f) && 0 <= x && 0 <= y && w > 0 && h > 0 && x + w <= f.w && y + h <= f.h
    ensures var start := y * f.stride + x * 4;
            0 <= start <= start + (h - 1) * f.stride + w * 4 <= |f.bgra|
  {
    RowsFit(y, h, f.h, f.stride);
  }

  /** Row `j` of a slice that starts at (x, y) is row `y + j` of the frame. */
  lemma SliceOffset(f: Pixels, x: int, y: int, i: int, j: int)
    ensures (y * f.stride + x * 4) + ((j - y) * f.stride + (i - x) * 4) == j * f.stride + i * 4
  {
    assert y * f.stride + (j - y) * f.stride == j * f.stride;
  }

  function Sample(f: Pixels, i: int, j: int): Texel
    requires Sound(f) && 0 <= i < f.w && 0 <= j < f.h
  {
    SliceInRange(f, i, j, 1, 1);
    TexelOf(f.bgra, j * f.stride + i * 4)
  }

  // ----- rectangles -----

  predicate InRect(x: int, y: int, w: int, h: int, i: int, j: int) {
    x <= i < x + w && y <= j < y + h
  }

  /**
   * Clip a rectangle to the bounds `fw` by `fh`. What survives is exactly the
   * intersection, for every rectangle whatever its origin or extent.
   */
  method ClipRect(x: int, y: int, w: int, h: int, fw: int, fh: int)
    returns (nx: int, ny: int, nw: int, nh: int)
    ensures nw >= 0 && nh >= 0
    ensures forall i, j :: InRect(nx, ny, nw, nh, i, j) <==> InRect(x, y, w, h, i, j) && InRect(0, 0, fw, fh, i, j)
    ensures nw > 0 && nh > 0 ==> 0 <= nx && 0 <= ny && nx + nw <= fw && ny + nh <= fh
  {
    nx, ny := Max(x, 0), Max(y, 0);
    nw, nh := w + Min(x, 0), h + Min(y, 0);
    if nx + nw > fw {
      nw := fw - nx;
    }
    if ny + nh > fh {
      nh := fh - ny;
    }
    if nw < 0 {
      nw := 0;
    }
    if nh < 0 {
      nh := 0;
    }
    if nx >= fw {
      nx, nw := fw - 1, 0;
    }
    if ny >= fh {
      ny, nh := fh - 1, 0;
    }
  }

  predicate Covered(dirty: seq<DamageRect>, i: int, j: int) {
    exists k :: 0 <= k < |dirty| && InRect(dirty[k].x, dirty[k].y, dirty[k].w, dirty[k].h, i, j)
  }

  // ----- what a w-by-h texture holds -----

  predicate InArea(f: Pixels, w: nat, h: nat, i: int, j: int) {
    InRect(0, 0, Min(f.w, w), Min(f.h, h), i, j)
  }

  /** Uploading the whole frame to a blank texture: the frame 1:1 at the top left, transparent elsewhere. */
  function Shown(f: Pixels, w: nat, h: nat, i: int, j: int): Texel
    requires Sound(f)
  {
    if InArea(f, w, h, i, j) then Sample(f, i, j) else TRANSPARENT
  }

  /** Whether uploading `f` incrementally touches texel (i, j); `full` when there is no base to patch. */
  predicate Touches(f: Pixels, full: bool, w: nat, h: nat, i: int, j: int) {
    InArea(f, w, h, i, j) && (full || f.dirty == [] || Covered(f.dirty, i, j))
  }

  predicate AllSound(frames: seq<Pixels>) {
    forall k | 0 <= k < |frames| :: Sound(frames[k])
  }

  /** Texel (i, j) of a texture that started blank and had `frames` uploaded incrementally. */
  function Incremental(frames: seq<Pixels>, w: nat, h: nat, i: int, j: int): Texel
    requires AllSound(frames)
  {
    if frames == [] then TRANSPARENT
    else
      var n := |frames| - 1;
      if Touches(frames[n], n == 0, w, h, i, j) then Sample(frames[n], i, j)
      else Incremental(frames[..n], w, h, i, j)
  }

  /** The incremental texture agrees with uploading its last frame in full. */
  ghost predicate Agrees(frames: seq<Pixels>, w: nat, h: nat)
    requires AllSound(frames) && frames != []
  {
    forall i, j | 0 <= i < w && 0 <= j < h ::
      Incremental(frames, w, h, i, j) == Shown(frames[|frames| - 1], w, h, i, j)
  }

  /** Some damage rectangle holds texel (i, j). */
  predicate Damaged(dirty: seq<DamageRect>, i: int, j: int) {
    exists r | r in dirty :: r.x <= i < r.x + r.w && r.y <= j < r.y + r.h
  }

  /** An upload onto a base with a damage list touches the damage that lies on both frame and texture, and no more. */
  lemma OnlyDamageIsTouched(f: Pixels, w: nat, h: nat, i: int, j: int)
    requires f.dirty != []
    ensures Touches(f, false, w, h, i, j)
            <==> 0 <= i < f.w && 0 <= j < f.h && i < w && j < h && Damaged(f.dirty, i, j)
  {
  }

  /** The producer's promise: a non-empty damage list holds every texel of the frame that changed. */
  ghost predicate Honest(prev: Pixels, f: Pixels, w: nat, h: nat)
    requires Sound(prev) && Sound(f)
  {
    f.dirty != [] ==>
      forall i, j | InArea(f, w, h, i, j) ::
        Shown(f, w, h, i, j) != Shown(prev, w, h, i, j) ==> Damaged(f.dirty, i, j)
  }

  ghost predicate HonestRun(frames: seq<Pixels>, w: nat, h: nat)
    requires AllSound(frames)
  {
    forall k | 0 < k < |frames| :: Honest(frames[k - 1], frames[k], w, h)
  }

  /** Nothing visible of `prev` sticks out beyond the area `f` occupies. */
  ghost predicate NoResidue(prev: Pixels, f: Pixels, w: nat, h: nat)
    requires Sound(prev) && Sound(f)
  {
    forall i, j | 0 <= i < w && 0 <= j < h && (i >= f.w || j >= f.h) :: Shown(prev, w, h, i, j) == TRANSPARENT
  }

  /** One more honest frame keeps the agreement exactly when the previous one leaves no residue. */
  lemma StepAgreesIff(frames: seq<Pixels>, w: nat, h: nat)
    requires |frames| > 1 && AllSound(frames)
    requires Agrees(frames[..|frames| - 1], w, h)
    requires Honest(frames[|frames| - 2], frames[|frames| - 1], w, h)
    ensures Agrees(frames, w, h) <==> NoResidue(frames[|frames| - 2], frames[|frames| - 1], w, h)
  {
    var n := |frames| - 1;
    var prev, f := frames[n - 1], frames[n];
    assert frames[..n][n - 1] == prev;
    assert forall i, j | InRect(0, 0, w, h, i, j) && !InArea(f, w, h, i, j) ::
        Incremental(frames, w, h, i, j) == Shown(prev, w, h, i, j);
    assert forall i, j | InArea(f, w, h, i, j) :: Incremental(frames, w, h, i, j) == Shown(f, w, h, i, j);
  }

  /** The texture equals the full upload after each of the first `n` frames. */
  ghost predicate AgreesThrough(frames: seq<Pixels>, n: nat, w: nat, h: nat)
    requires AllSound(frames) && n <= |frames|
  {
    forall k | 0 < k <= n :: Agrees(frames[..k], w, h)
  }

  /** None of the first `n` frames leaves residue of its predecessor. */
  ghost predicate CleanThrough(frames: seq<Pixels>, n: nat, w: nat, h: nat)
    requires AllSound(frames) && n <= |frames|
  {
    forall k | 0 < k < n :: NoResidue(frames[k - 1], frames[k], w, h)
  }

  lemma FirstFrameAgrees(frames: seq<Pixels>, w: nat, h: nat)
    requires |frames| == 1 && AllSound(frames)
    ensures Agrees(frames, w, h)
  {
  }

  lemma ThroughOneMore(frames: seq<Pixels>, n: nat, w: nat, h: nat)
    requires AllSound(frames) && 1 < n <= |frames|
    ensures AgreesThrough(frames, n, w, h) <==> AgreesThrough(frames, n - 1, w, h) && Agrees(frames[..n], w, h)
    ensures CleanThrough(frames, n, w, h)
            <==> CleanThrough(frames, n - 1, w, h) && NoResidue(frames[n - 2], frames[n - 1], w, h)
  {
  }

  lemma NextAgreesIff(frames: seq<Pixels>, n: nat, w: nat, h: nat)
    requires 1 < n <= |frames| && AllSound(frames) && HonestRun(frames, w, h)
    requires Agrees(frames[..n - 1], w, h)
    ensures Agrees(frames[..n], w, h) <==> NoResidue(frames[n - 2], frames[n - 1], w, h)
  {
    assert frames[..n][..n - 1] == frames[..n - 1];
    assert Honest(frames[n - 2], frames[n - 1], w, h);
    StepAgreesIff(frames[..n], w, h);
  }

  /**
   * Dirty-rect upload refines full upload: over any honest run the texture
   * equals the full upload after every frame if and only if no frame leaves
   * residue of its predecessor.
   */
  lemma {:induction false} RunAgreesIff(frames: seq<Pixels>, n: nat, w: nat, h: nat)
    requires n <= |frames| && AllSound(frames) && HonestRun(frames, w, h)
    ensures AgreesThrough(frames, n, w, h) <==> CleanThrough(frames, n, w, h)
  {
    if n == 1 {
      FirstFrameAgrees(frames[..1], w, h);
    } else if n > 1 {
      RunAgreesIff(frames, n - 1, w, h);
      ThroughOneMore(frames, n, w, h);
      if AgreesThrough(frames, n - 1, w, h) {
        assert Agrees(frames[..n - 1], w, h);
        NextAgreesIff(frames, n, w, h);
      }
    }
  }

  /** A frame at least as large as its predecessor, on the texture, leaves no residue. */
  lemma GrowingFramesLeaveNoResidue(prev: Pixels, f: Pixels, w: nat, h: nat)
    requires Sound(prev) && Sound(f)
    requires Min(prev.w, w) <= Min(f.w, w) && Min(prev.h, h) <= Min(f.h, h)
    ensures NoResidue(prev, f, w, h)
  {
    forall i, j | 0 <= i < w && 0 <= j < h && (i >= f.w || j >= f.h)
      ensures Shown(prev, w, h, i, j) == TRANSPARENT
    {
      assert !InArea(prev, w, h, i, j);
    }
  }

  const WIDE := Pixels(2, 1, 8, [9, 9, 9, 9, 9, 9, 9, 9], [])

  const NARROW := Pixels(1, 1, 4, [9, 9, 9, 9], [])

  /** On a target that keeps its size, a narrower frame leaves a stale texel behind, even without dirty rects. */
  lemma ShrinkingFrameLeavesResidue()
    ensures Sound(WIDE) && Sound(NARROW) && HonestRun([WIDE, NARROW], 2, 1)
    ensures Incremental([WIDE, NARROW], 2, 1, 1, 0) == Texel(9, 9, 9, 9) && Shown(NARROW, 2, 1, 1, 0) == TRANSPARENT
    ensures !Agrees([WIDE, NARROW], 2, 1)
  {
    var frames := [WIDE, NARROW];
    assert frames[..1] == [WIDE];
    assert InRect(0, 0, 2, 1, 1, 0) && !InArea(NARROW, 2, 1, 1, 0) && InArea(WIDE, 2, 1, 1, 0);
    assert Incremental(frames, 2, 1, 1, 0) == Sample(WIDE, 1, 0) == Texel(9, 9, 9, 9);
  }
}
