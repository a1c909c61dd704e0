/** Line-delimited frames read from a stream that arrives in arbitrary chunks. */
module Framing {
  import opened Prelude

  const MAX_FRAME_BYTES: nat := 65536
  const NEWLINE: Byte := 10

  type Bytes = seq<Byte>

  datatype Read = Frame(bytes: Bytes) | End | TooLong

  /** Index of the first newline, or the length when there is none. */
  function LineEnd(s: Bytes): (n: nat)
    ensures n <= |s| && NEWLINE !in s[..n] && (n < |s| ==> s[n] == NEWLINE)
  {
    if s == [] || s[0] == NEWLINE then 0
    else
      var n := 1 + LineEnd(s[1..]);
      assert s[..n] == [s[0]] + s[1..][..n - 1];
      n
  }

  lemma LineEndIs(s: Bytes, n: nat)
    requires n <= |s| && NEWLINE !in s[..n] && (n < |s| ==> s[n] == NEWLINE)
    ensures LineEnd(s) == n
  {
    var m := LineEnd(s);
    if m < n {
      assert false;
    } else if n < m {
      assert false;
    }
  }

  // ----- the stream as the reader is meant to see it -----

  /** What reading one frame from `s` yields, whatever its chunks. */
  function NextFrame(s: Bytes): Read {
    var n := LineEnd(s);
    if n > MAX_FRAME_BYTES then TooLong
    else if s == [] then End
    else Frame(s[..n])
  }

  function AfterFrame(s: Bytes): Bytes
    requires s != []
  {
    var n := LineEnd(s);
    if n < |s| then s[n + 1..] else []
  }

  /** All frames up to the end of the stream or the first frame that is too long. */
  function Frames(s: Bytes): seq<Bytes>
    decreases |s|
  {
    match NextFrame(s)
    case Frame(bytes) => [bytes] + Frames(AfterFrame(s))
    case _ => []
  }

  /** The stream ends cleanly rather than in an error. */
  predicate EndsCleanly(s: Bytes)
    decreases |s|
  {
    match NextFrame(s)
    case Frame(_) => EndsCleanly(AfterFrame(s))
    case End => true
    case TooLong => false
  }

  // ----- one line -----

  predicate Line(s: Bytes) {
    NEWLINE !in s
  }

  predicate Fits(s: Bytes) {
    |s| <= MAX_FRAME_BYTES
  }

  lemma Reassociate<T>(a: seq<T>, b: seq<T>, c: seq<T>)
    ensures a + b + c == a + (b + c)
  {
  }

  lemma HeadAndTail<T>(s: seq<T>)
    requires s != []
    ensures s == [s[0]] + s[1..]
  {
  }

  lemma SplitAround<T>(s: seq<T>, n: nat)
    requires n < |s|
    ensures s == s[..n] + [s[n]] + s[n + 1..]
  {
  }

  lemma SplitAtNewline(s: Bytes)
    requires LineEnd(s) < |s|
    ensures s == s[..LineEnd(s)] + [NEWLINE] + s[LineEnd(s) + 1..]
  {
    SplitAround(s, LineEnd(s));
  }

  /** Reading one terminated line off the front of a stream. */
  lemma FirstLine(line: Bytes, rest: Bytes)
    requires Line(line)
    ensures var s := line + [NEWLINE] + rest;
            && LineEnd(s) == |line| && s[..|line|] == line && AfterFrame(s) == rest
            && NextFrame(s) == if Fits(line) then Frame(line) else TooLong
  {
    var s := line + [NEWLINE] + rest;
    assert s[..|line|] == line;
    LineEndIs(s, |line|);
    assert s[|line| + 1..] == rest;
  }

  /** The last piece, not terminated by a newline: a frame if it fits, an error if it does not. */
  lemma TailIsRead(tail: Bytes)
    requires Line(tail)
    ensures Frames(tail) == if tail == [] || |tail| > MAX_FRAME_BYTES then [] else [tail]
    ensures EndsCleanly(tail) <==> |tail| <= MAX_FRAME_BYTES
  {
    assert tail[..|tail|] == tail;
    LineEndIs(tail, |tail|);
  }

  /** Bytes without a newline only push the end of the line further out. */
  lemma {:induction false} LineContinues(p: Bytes, t: Bytes)
    requires Line(p)
    ensures LineEnd(p + t) == |p| + LineEnd(t)
  {
    if p == [] {
      assert p + t == t;
    } else {
      assert (p + t)[1..] == p[1..] + t;
      LineContinues(p[1..], t);
    }
  }

  /** A chunk that contains a newline completes the line being read. */
  lemma LineCompletes(frame: Bytes, available: Bytes, more: Bytes)
    requires LineEnd(available) < |available|
    ensures var idx := LineEnd(available);
            frame + (available + more) == frame + available[..idx] + [NEWLINE] + (available[idx + 1..] + more)
            && (available + more)[idx + 1..] == available[idx + 1..] + more
  {
    var idx := LineEnd(available);
    SplitAtNewline(available);
    Reassociate(available[..idx] + [NEWLINE], available[idx + 1..], more);
    Reassociate(frame, available[..idx] + [NEWLINE], available[idx + 1..] + more);
    Reassociate(frame, available[..idx], [NEWLINE]);
  }

  lemma ChunkCompletes(frame: Bytes, available: Bytes, more: Bytes)
    requires Line(frame) && LineEnd(available) < |available|
    ensures var line, s := frame + available[..LineEnd(available)], frame + (available + more);
            && Line(line) && NextFrame(s) == (if Fits(line) then Frame(line) else TooLong)
            && s != [] && AfterFrame(s) == (available + more)[LineEnd(available) + 1..]
  {
    var idx := LineEnd(available);
    LineCompletes(frame, available, more);
    FirstLine(frame + available[..idx], available[idx + 1..] + more);
  }

  lemma ChunkContinues(frame: Bytes, available: Bytes, more: Bytes)
    requires Line(frame) && LineEnd(available) == |available|
    ensures available[..|available|] == available && (available + more)[|available|..] == more
    ensures var line, s := frame + available, frame + (available + more);
            Line(line) && s == line + more && (!Fits(line) ==> NextFrame(s) == TooLong)
  {
    assert available[..|available|] == available;
    Reassociate(frame, available, more);
    LineContinues(frame + available, more);
  }

  /** One turn of the reader's loop, over the bytes it has, the chunk it sees and whatever comes after. */
  lemma ChunkStep(frame: Bytes, available: Bytes, more: Bytes)
    requires Line(frame)
    ensures var idx := LineEnd(available);
            var line, s := frame + available[..idx], frame + (available + more);
            && Line(line) && (!Fits(line) ==> NextFrame(s) == TooLong)
            && (Fits(line) && idx < |available| ==>
                  NextFrame(s) == Frame(line) && AfterFrame(s) == (available + more)[idx + 1..])
            && (idx == |available| ==> s == line + (available + more)[idx..])
  {
    if LineEnd(available) < |available| {
      ChunkCompletes(frame, available, more);
    } else {
      ChunkContinues(frame, available, more);
    }
  }

  // ----- what was sent -----

  /** One message as it is sent: its bytes and a newline. */
  function Sent(messages: seq<Bytes>): Bytes {
    if messages == [] then [] else messages[0] + [NEWLINE] + Sent(messages[1..])
  }

  predicate Sendable(messages: seq<Bytes>) {
    forall k | 0 <= k < |messages| :: Line(messages[k]) && Fits(messages[k])
  }

  lemma OneLineIsReceived(line: Bytes, rest: Bytes)
    requires Line(line) && Fits(line)
    ensures Frames(line + [NEWLINE] + rest) == [line] + Frames(rest)
    ensures EndsCleanly(line + [NEWLINE] + rest) == EndsCleanly(rest)
  {
    FirstLine(line, rest);
  }

  /** Whatever was sent comes back frame by frame, followed by whatever the rest of the stream yields. */
  lemma {:induction false} SentIsReceived(messages: seq<Bytes>, rest: Bytes)
    requires Sendable(messages)
    ensures Frames(Sent(messages) + rest) == messages + Frames(rest)
    ensures EndsCleanly(Sent(messages) + rest) == EndsCleanly(rest)
  {
    if messages == [] {
      Reassociate([], rest, []);
      assert Sent(messages) + rest == rest;
    } else {
      var line, later := messages[0], messages[1..];
      var tail := Sent(later) + rest;
      SentIsReceived(later, rest);
      OneLineIsReceived(line, tail);
      Reassociate(line + [NEWLINE], Sent(later), rest);
      HeadAndTail(messages);
      Reassociate([line], later, Frames(rest));
    }
  }

  function Lines(s: Bytes): seq<Bytes>
    decreases |s|
  {
    var n := LineEnd(s);
    if n == |s| then [] else [s[..n]] + Lines(s[n + 1..])
  }

  function Tail(s: Bytes): Bytes
    decreases |s|
  {
    var n := LineEnd(s);
    if n == |s| then s else Tail(s[n + 1..])
  }

  lemma {:induction false} LinesAreLines(s: Bytes)
    ensures Line(Tail(s)) && forall k | 0 <= k < |Lines(s)| :: Line(Lines(s)[k])
    decreases |s|
  {
    var n := LineEnd(s);
    if n < |s| {
      LinesAreLines(s[n + 1..]);
    } else {
      assert s[..n] == s;
    }
  }

  lemma SentCons(line: Bytes, lines: seq<Bytes>)
    ensures Sent([line] + lines) == line + [NEWLINE] + Sent(lines)
  {
    assert ([line] + lines)[1..] == lines;
  }

  lemma {:induction false} LinesAndTailMakeStream(s: Bytes)
    ensures s == Sent(Lines(s)) + Tail(s)
    decreases |s|
  {
    var n := LineEnd(s);
    if n == |s| {
      assert [] + s == s;
    } else {
      var line, rest := s[..n], s[n + 1..];
      LinesAndTailMakeStream(rest);
      SentCons(line, Lines(rest));
      Reassociate(line + [NEWLINE], Sent(Lines(rest)), Tail(rest));
      SplitAtNewline(s);
    }
  }

  /** Every stream is a sequence of terminated lines and one unterminated tail. */
  lemma StreamIsLinesAndTail(s: Bytes)
    ensures s == Sent(Lines(s)) + Tail(s) && Line(Tail(s))
    ensures forall k | 0 <= k < |Lines(s)| :: Line(Lines(s)[k])
  {
    LinesAreLines(s);
    LinesAndTailMakeStream(s);
  }

  /**
   * Reading is splitting: if the first `k` lines fit, they are the first `k`
   * frames. With every line fitting, the frames are exactly the lines and a
   * non-empty tail that fits; the stream errors exactly when some piece does not.
   */
  lemma FramesAreLines(s: Bytes)
    requires forall k | 0 <= k < |Lines(s)| :: Fits(Lines(s)[k])
    ensures Frames(s) == Lines(s) + if Tail(s) == [] || !Fits(Tail(s)) then [] else [Tail(s)]
    ensures EndsCleanly(s) <==> Fits(Tail(s))
  {
    StreamIsLinesAndTail(s);
    SentIsReceived(Lines(s), Tail(s));
    TailIsRead(Tail(s));
  }

  lemma {:induction false} SentSplits(messages: seq<Bytes>, k: nat)
    requires k <= |messages|
    ensures Sent(messages) == Sent(messages[..k]) + Sent(messages[k..])
  {
    if k > 0 {
      SentSplits(messages[1..], k - 1);
      assert messages[..k][1..] == messages[1..][..k - 1];
      assert messages[1..][k - 1..] == messages[k..];
    }
  }

  /** A line that does not fit ends the stream in an error right after the lines before it. */
  lemma ErrorAtFirstLongLine(s: Bytes, k: nat)
    requires k < |Lines(s)| && !Fits(Lines(s)[k])
    requires forall j | 0 <= j < k :: Fits(Lines(s)[j])
    ensures Frames(s) == Lines(s)[..k] && !EndsCleanly(s)
  {
    StreamIsLinesAndTail(s);
    var lines := Lines(s);
    var later := Sent(lines[k + 1..]) + Tail(s);
    var rest := lines[k] + [NEWLINE] + later;
    SentSplits(lines, k);
    Reassociate(Sent(lines[..k]), Sent(lines[k..]), Tail(s));
    HeadAndTail(lines[k..]);
    SentCons(lines[k], lines[k + 1..]);
    Reassociate(lines[k] + [NEWLINE], Sent(lines[k + 1..]), Tail(s));
    assert s == Sent(lines[..k]) + rest;
    SentIsReceived(lines[..k], rest);
    FirstLine(lines[k], later);
  }

  lemma FirstLong(lines: seq<Bytes>, long: nat) returns (k: nat)
    requires long < |lines| && !Fits(lines[long])
    ensures k <= long && !Fits(lines[k]) && forall j | 0 <= j < k :: Fits(lines[j])
  {
    k := 0;
    while Fits(lines[k])
      invariant k <= long && forall j | 0 <= j < k :: Fits(lines[j])
      decreases long - k
    {
      k := k + 1;
    }
  }

  /** A stream is read without an error exactly when no line and no tail is longer than 64 KiB. */
  lemma EndsCleanlyIff(s: Bytes)
    ensures EndsCleanly(s) <==> |Tail(s)| <= 65536 && forall k | 0 <= k < |Lines(s)| :: |Lines(s)[k]| <= 65536
  {
    if long :| 0 <= long < |Lines(s)| && !Fits(Lines(s)[long]) {
      var k := FirstLong(Lines(s), long);
      ErrorAtFirstLongLine(s, k);
    } else {
      FramesAreLines(s);
    }
  }

  // ----- decoding a frame -----

  predicate IsAsciiWhitespace(b: Byte) {
    b == 9 || b == 10 || b == 12 || b == 13 || b == 32
  }

  /** The part of a frame handed to the decoder. */
  function TrimEnd(s: Bytes): Bytes {
    if s != [] && IsAsciiWhitespace(s[|s| - 1]) then TrimEnd(s[..|s| - 1]) else s
  }

  /** Only trailing whitespace goes, and all of it. */
  lemma {:induction false} TrimEndIs(s: Bytes, kept: Bytes, space: Bytes)
    requires s == kept + space && (kept == [] || kept[|kept| - 1] !in {9, 10, 12, 13, 32})
    requires forall k | 0 <= k < |space| :: space[k] in {9, 10, 12, 13, 32}
    ensures TrimEnd(s) == kept
  {
    if space == [] {
      assert s == kept;
    } else {
      TrimEndIs(s[..|s| - 1], kept, space[..|space| - 1]);
    }
  }

  // ----- serving a connection -----

  /** Around one frame: the loop is stopped or idle before it, the reply to it fails, or neither. */
  datatype Turn = GoesOn | GivesUp | ReplyFails

  /** What one turn of the serving loop hands to the decoder with success. */
  function Request(s: Bytes, decodes: Bytes -> bool, turn: Turn): (r: Option<Bytes>)
    ensures r.Some? ==> s != [] && |AfterFrame(s)| < |s|
  {
    match NextFrame(s)
    case Frame(bytes) => if turn != GivesUp && decodes(TrimEnd(bytes)) then Some(TrimEnd(bytes)) else None
    case _ => None
  }

  /** The requests handled from the k-th turn on. */
  function Served(s: Bytes, decodes: Bytes -> bool, turns: nat -> Turn, k: nat): seq<Bytes>
    decreases |s|
  {
    match Request(s, decodes, turns(k))
    case None => []
    case Some(r) => [r] + if turns(k) == ReplyFails then [] else Served(AfterFrame(s), decodes, turns, k + 1)
  }

  lemma ServedStep(received: seq<Bytes>, s: Bytes, decodes: Bytes -> bool, turns: nat -> Turn, k: nat)
    ensures var r := Request(s, decodes, turns(k));
            received + Served(s, decodes, turns, k)
            == if r == None then received
               else if turns(k) == ReplyFails then received + [r.value]
               else received + [r.value] + Served(AfterFrame(s), decodes, turns, k + 1)
  {
    var r := Request(s, decodes, turns(k));
    if r == None {
      assert received + [] == received;
    } else if turns(k) != ReplyFails {
      Reassociate(received, [r.value], Served(AfterFrame(s), decodes, turns, k + 1));
    }
  }

  /** The frames, each without its trailing whitespace. */
  function Requests(frames: seq<Bytes>): (r: seq<Bytes>)
    ensures |r| == |frames|
  {
    seq(|frames|, k requires 0 <= k < |frames| => TrimEnd(frames[k]))
  }

  /** Frame number k is handled once it is reached: nothing gives up before it, and it decodes. */
  predicate Handled(frame: Bytes, decodes: Bytes -> bool, turn: Turn) {
    turn != GivesUp && decodes(TrimEnd(frame))
  }

  /** What is served goes on past frame k. */
  predicate Passed(frame: Bytes, decodes: Bytes -> bool, turn: Turn) {
    Handled(frame, decodes, turn) && turn != ReplyFails
  }

  predicate AllPassed(frames: seq<Bytes>, n: nat, decodes: Bytes -> bool, turns: nat -> Turn, k: nat)
    requires n <= |frames|
  {
    forall i | 0 <= i < n :: Passed(frames[i], decodes, turns(k + i))
  }

  lemma AllPassedTail(frames: seq<Bytes>, n: nat, decodes: Bytes -> bool, turns: nat -> Turn, k: nat)
    requires 0 < n <= |frames|
    ensures AllPassed(frames, n, decodes, turns, k)
            <==> Passed(frames[0], decodes, turns(k)) && AllPassed(frames[1..], n - 1, decodes, turns, k + 1)
  {
    var rest := frames[1..];
    if AllPassed(frames, n, decodes, turns, k) {
      forall i | 0 <= i < n - 1 ensures Passed(rest[i], decodes, turns(k + 1 + i)) {
        assert Passed(frames[i + 1], decodes, turns(k + (i + 1)));
      }
      assert Passed(frames[0], decodes, turns(k + 0));
    }
    if Passed(frames[0], decodes, turns(k)) && AllPassed(rest, n - 1, decodes, turns, k + 1) {
      forall i | 0 <= i < n ensures Passed(frames[i], decodes, turns(k + i)) {
        if i > 0 {
          assert Passed(rest[i - 1], decodes, turns(k + 1 + (i - 1)));
        }
      }
    }
  }

  /** The loop gets past all frames before the n-th and handles that one. */
  predicate Reached(frames: seq<Bytes>, n: nat, decodes: Bytes -> bool, turns: nat -> Turn, k: nat)
    requires n < |frames|
  {
    AllPassed(frames, n, decodes, turns, k) && Handled(frames[n], decodes, turns(k + n))
  }

  lemma ReachedTail(frames: seq<Bytes>, n: nat, decodes: Bytes -> bool, turns: nat -> Turn, k: nat)
    requires 0 < n < |frames|
    ensures Reached(frames, n, decodes, turns, k)
            <==> Passed(frames[0], decodes, turns(k)) && Reached(frames[1..], n - 1, decodes, turns, k + 1)
  {
    AllPassedTail(frames, n, decodes, turns, k);
    assert k + n == k + 1 + (n - 1) && frames[1..][n - 1] == frames[n];
  }

  lemma RequestsCons(frames: seq<Bytes>)
    requires frames != []
    ensures Requests(frames) == [TrimEnd(frames[0])] + Requests(frames[1..])
  {
  }

  lemma PrefixCons<T>(a: T, x: seq<T>, y: seq<T>)
    requires x <= y
    ensures [a] + x <= [a] + y
  {
  }

  /** What is served is a prefix of the stream's requests. */
  lemma {:induction false} ServedIsPrefix(s: Bytes, decodes: Bytes -> bool, turns: nat -> Turn, k: nat)
    ensures Served(s, decodes, turns, k) <= Requests(Frames(s))
    decreases |s|
  {
    if NextFrame(s).Frame? {
      RequestsCons(Frames(s));
      assert Frames(s)[1..] == Frames(AfterFrame(s));
      if Passed(NextFrame(s).bytes, decodes, turns(k)) {
        ServedIsPrefix(AfterFrame(s), decodes, turns, k + 1);
        var rest := AfterFrame(s);
        PrefixCons(TrimEnd(NextFrame(s).bytes), Served(rest, decodes, turns, k + 1), Requests(Frames(rest)));
      }
    }
  }

  lemma FramesCons(s: Bytes)
    requires Frames(s) != []
    ensures NextFrame(s).Frame? && Frames(s)[0] == NextFrame(s).bytes && Frames(s)[1..] == Frames(AfterFrame(s))
    ensures |AfterFrame(s)| < |s|
  {
  }

  lemma ServedCount(s: Bytes, decodes: Bytes -> bool, turns: nat -> Turn, k: nat)
    requires NextFrame(s).Frame?
    ensures var frame := NextFrame(s).bytes;
            |Served(s, decodes, turns, k)|
            == (if Handled(frame, decodes, turns(k)) then 1 else 0)
               + if Passed(frame, decodes, turns(k)) then |Served(AfterFrame(s), decodes, turns, k + 1)| else 0
  {
  }

  /** Request n is served exactly when the loop gets past all frames before it and handles it. */
  lemma {:induction false} ServedIff(s: Bytes, decodes: Bytes -> bool, turns: nat -> Turn, k: nat, n: nat)
    requires n < |Frames(s)|
    ensures n < |Served(s, decodes, turns, k)|
            <==> Reached(Frames(s), n, decodes, turns, k)
    decreases |s|
  {
    FramesCons(s);
    ServedCount(s, decodes, turns, k);
    if n == 0 {
      assert Reached(Frames(s), 0, decodes, turns, k) <==> Handled(Frames(s)[0], decodes, turns(k));
    } else {
      ReachedTail(Frames(s), n, decodes, turns, k);
      ServedIff(AfterFrame(s), decodes, turns, k + 1, n - 1);
    }
  }

  // ----- the reader -----

  function Flatten(chunks: seq<Bytes>): Bytes {
    if chunks == [] then [] else chunks[0] + Flatten(chunks[1..])
  }

  /** A buffered reader: what it holds, and the chunks later fills will bring. */
  class Reader {
    var buffered: Bytes
    var chunks: seq<Bytes>

    predicate Valid() reads this {
      forall k | 0 <= k < |chunks| :: chunks[k] != []
    }

    function Remaining(): Bytes reads this {
      buffered + Flatten(chunks)
    }

    constructor (chunks: seq<Bytes>)
      requires forall k | 0 <= k < |chunks| :: chunks[k] != []
      ensures Valid() && Remaining() == Flatten(chunks)
    {
      buffered, this.chunks := [], chunks;
    }

    method FillBuf() returns (available: Bytes)
      requires Valid()
      modifies this
      ensures Valid() && Remaining() == old(Remaining()) && available == buffered
      ensures available == [] <==> Remaining() == []
    {
      if buffered == [] && chunks != [] {
        buffered, chunks := chunks[0], chunks[1..];
      }
      available := buffered;
    }

    method Consume(n: nat)
      requires Valid() && n <= |buffered|
      modifies this
      ensures Valid() && Remaining() == old(Remaining())[n..]
    {
      buffered := buffered[n..];
    }

    /** `held` is the most bytes of the frame that were ever held at once. */
    method ReadFrame() returns (r: Read, ghost held: nat)
      requires Valid()
      modifies this
      ensures Valid() && r == NextFrame(old(Remaining())) && held <= MAX_FRAME_BYTES
      ensures r.Frame? ==> Remaining() == AfterFrame(old(Remaining())) && |r.bytes| <= held
      ensures r.End? ==> Remaining() == []
    {
      var frame: Bytes := [];
      held := 0;
      ghost var s := Remaining();
      assert s == frame + Remaining();
      while true
        invariant Valid() && s == frame + Remaining()
        invariant Line(frame) && |frame| <= held <= MAX_FRAME_BYTES
        decreases |Remaining()|
      {
        var available := FillBuf();
        if available == [] {
          assert s == frame;
          TailIsRead(frame);
          return if frame == [] then End else Frame(frame), held;
        }
        var idx := LineEnd(available);
        var complete := idx < |available|;
        ghost var more := Flatten(chunks);
        assert s == frame + (available + more);
        ChunkStep(frame, available, more);
        if |frame| + idx > MAX_FRAME_BYTES {
          return TooLong, held;
        }
        frame := frame + available[..idx];
        held := Max(held, |frame|);
        Consume(idx + if complete then 1 else 0);
        assert Remaining() == (available + more)[idx + if complete then 1 else 0..];
        if complete {
          return Frame(frame), held;
        }
      }
    }

    /** Repeated reads: every frame of the stream, then whether it ended without an error. */
    method ReadAll() returns (frames: seq<Bytes>, clean: bool)
      requires Valid()
      modifies this
      ensures frames == Frames(old(Remaining())) && clean == EndsCleanly(old(Remaining()))
    {
      frames := [];
      ghost var s := Remaining();
      while true
        invariant Valid() && frames + Frames(Remaining()) == Frames(s)
        invariant EndsCleanly(Remaining()) == EndsCleanly(s)
        decreases |Remaining()|
      {
        var r, _ := ReadFrame();
        match r {
          case Frame(bytes) =>
            Reassociate(frames, [bytes], Frames(Remaining()));
            frames := frames + [bytes];
          case End =>
            return frames, true;
          case TooLong =>
            return frames, false;
        }
      }
    }

    /** One turn of the serving loop; `goesOn` says whether there is another. */
    method ServeOne(decodes: Bytes -> bool, turn: Turn) returns (request: Option<Bytes>, goesOn: bool)
      requires Valid()
      modifies this
      ensures Valid() && request == Request(old(Remaining()), decodes, turn)
      ensures goesOn <==> request.Some? && turn != ReplyFails
      ensures goesOn ==> Remaining() == AfterFrame(old(Remaining()))
    {
      if turn == GivesUp {
        return None, false;
      }
      var r, _ := ReadFrame();
      if !r.Frame? || !decodes(TrimEnd(r.bytes)) {
        return None, false;
      }
      return Some(TrimEnd(r.bytes)), turn != ReplyFails;
    }

    /**
     * The serving loop: every request of the connection until the stream ends
     * or errors, a frame does not decode, or the loop gives up. `turns` says
     * what else happens around each frame.
     */
    method ServeFrames(decodes: Bytes -> bool, turns: nat -> Turn) returns (received: seq<Bytes>)
      requires Valid()
      modifies this
      ensures received == Served(old(Remaining()), decodes, turns, 0)
    {
      received := [];
      var k, goesOn := 0, true;
      ghost var s := Remaining();
      while goesOn
        invariant Valid()
        invariant received + (if goesOn then Served(Remaining(), decodes, turns, k) else [])
                  == Served(s, decodes, turns, 0)
        decreases goesOn, |Remaining()|
      {
        ServedStep(received, Remaining(), decodes, turns, k);
        var request;
        request, goesOn := ServeOne(decodes, turns(k));
        received := received + if request.Some? then [request.value] else [];
        k := k + 1;
      }
    }
  }
}
