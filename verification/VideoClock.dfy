/** The frame clock of the video recorder: how many frames a snapshot encodes, with which numbers,
    how long the caller waits, and when an image is prepared. */
module VideoClock {
  import opened DrawingTracker

  // nanoseconds
  const SECOND: int := 1_000_000_000
  const END_OF_VIDEO: int := 400_000_000
  const MAX_FRAME_INTERVAL: int := 2_000_000_000

  /** Frame rates go from one image a second to one a microsecond. */
  predicate FrameInterval(f: int) { 1000 <= f <= 1_000_000_000 }

  /** The number of whole frames in a duration, and the time they take. */
  function Frames(d: int, f: int): (k: int)
    requires f > 0
  {
    d / f
  }

  lemma Multiples(a: int, b: int, f: int)
    requires f > 0
    ensures a <= b ==> a * f <= b * f
  {
  }

  lemma FramesBound(d: int, f: int)
    requires f > 0
    ensures Frames(d, f) * f <= d < Frames(d, f) * f + f
    ensures d >= 0 ==> Frames(d, f) >= 0
    ensures d >= f ==> Frames(d, f) >= 1
  {
    Multiples(Frames(d, f), 0, f);
  }

  lemma FramesUnique(d: int, f: int, k: int)
    requires f > 0 && k * f <= d < k * f + f
    ensures Frames(d, f) == k
  {
    FramesBound(d, f);
    var q := Frames(d, f);
    Multiples(q + 1, k, f);
    Multiples(k + 1, q, f);
  }

  lemma MoreFrames(a: int, b: int, f: int)
    requires f > 0 && a <= b
    ensures Frames(a, f) <= Frames(b, f)
  {
    FramesBound(a, f);
    FramesBound(b, f);
    Multiples(Frames(b, f) + 1, Frames(a, f), f);
  }

  /** Taking j whole frames first does not change where the clock ends. */
  lemma FramesAfter(d: int, f: int, j: int)
    requires f > 0
    ensures Frames(d, f) == j + Frames(d - j * f, f)
  {
    FramesBound(d - j * f, f);
    var k := j + Frames(d - j * f, f);
    assert k * f == j * f + Frames(d - j * f, f) * f;
    FramesUnique(d, f, k);
  }

  predicate Increasing(s: seq<int>) {
    forall i, j :: 0 <= i < j < |s| ==> s[i] < s[j]
  }

  /** The numbers a snapshot encodes: increasing, above the previous ones, ending at the new index. */
  predicate Continues(before: seq<int>, after: seq<int>, from: int, to: int) {
    && |before| < |after| && after[..|before|] == before
    && (forall i :: |before| <= i < |after| ==> from < after[i] <= to)
    && after[|after| - 1] == to
    && Increasing(after[|before|..])
  }

  predicate Extends(before: seq<int>, after: seq<int>, from: int) {
    |after| > 0 && Continues(before, after, from, after[|after| - 1])
  }

  /** How far apart the new numbers are, at most. */
  predicate Spaced(before: seq<int>, after: seq<int>, from: int, limit: int) {
    forall i :: |before| <= i < |after| ==> Gap(|before|, after, from, i) <= limit
  }

  function Gap(n: nat, after: seq<int>, from: int, i: nat): int
    requires n <= i < |after|
  {
    after[i] - if i == n then from else after[i - 1]
  }

  /** Zero or more encoded images. */
  predicate Advanced(before: seq<int>, after: seq<int>, from: int, to: int) {
    (after == before && from == to) || Continues(before, after, from, to)
  }

  lemma Extend(before: seq<int>, after: seq<int>, from: int, at: int, to: int)
    requires Advanced(before, after, from, at) && at < to
    ensures Continues(before, after + [to], from, to)
  {
    var s := (after + [to])[|before|..];
    assert s == after[|before|..] + [to];
    if |after| > |before| {
      assert after[|after| - 1] == s[|s| - 2];
      assert forall i, j :: 0 <= i < j < |s| - 1 ==> s[i] < s[j] by {
        assert forall i :: 0 <= i < |s| - 1 ==> s[i] == after[|before|..][i];
      }
      assert forall i :: 0 <= i < |s| - 1 ==> s[i] <= s[|s| - 2];
    }
  }

  lemma AddProduct(a: int, b: int, f: int)
    ensures (a + b) * f == a * f + b * f
  {
  }

  lemma ExtendSpaced(before: seq<int>, after: seq<int>, from: int, at: int, to: int, limit: int)
    requires Advanced(before, after, from, at) && Spaced(before, after, from, limit) && to - at <= limit
    ensures Spaced(before, after + [to], from, limit)
  {
    var more := after + [to];
    forall i | |before| <= i < |more| ensures Gap(|before|, more, from, i) <= limit {
      if i < |after| {
        assert Gap(|before|, more, from, i) == Gap(|before|, after, from, i);
      }
    }
  }

  /** With timestamps, the next second to print is neither reached long ago nor far away. */
  predicate OnTrace(last: int, next: int, f: int) { next - SECOND <= last < next + f }

  lemma StaysOnTrace(last: int, next: int, f: int, next': int, elapsed: int)
    requires FrameInterval(f) && OnTrace(last, next, f) && 0 <= elapsed
    requires next' == if last >= next then next + SECOND else next
    requires elapsed <= f || elapsed <= next' - last
    ensures OnTrace(last + elapsed, next', f)
  {
  }

  /** The clock after a snapshot at now. */
  function Tick(last: int, now: int, f: int): int
    requires f > 0
  {
    if now - last >= f then last + Frames(now - last, f) * f else last
  }

  /** The next second to print, once the one that is reached is printed. */
  function Printed(last: int, next: int): int { if last >= next then next + SECOND else next }

  /** How much of the time that is due goes to the encoder at once: no more than up to the next second. */
  function Elapsed(last: int, next: int, now: int, f: int): int {
    var d := if next - last > f then next - last else f;
    if now - last < d then now - last else d
  }

  /** The next second to print after a snapshot at now. */
  function NextTrace(last: int, next: int, now: int, f: int): int
    requires f > 0
    decreases now - last
  {
    if now - last < f then next
    else
      var n := Printed(last, next);
      var e := Elapsed(last, n, now, f);
      FramesBound(e, f);
      Multiples(1, Frames(e, f), f);
      NextTrace(last + Frames(e, f) * f, n, now, f)
  }

  /** One round of the loop: the second to print and the frames taken do not change where it ends. */
  lemma TraceStep(last: int, next: int, now: int, f: int, taken: int)
    requires f > 0 && now - last >= f && taken == Frames(Elapsed(last, Printed(last, next), now, f), f) * f
    ensures NextTrace(last + taken, Printed(last, next), now, f) == NextTrace(last, next, now, f)
  {
  }

  /** Nothing is printed before the next second. */
  lemma {:induction false} NothingPrinted(last: int, next: int, now: int, f: int)
    requires f > 0 && now < next
    ensures NextTrace(last, next, now, f) == next
    decreases now - last
  {
    if now - last >= f {
      var e := Elapsed(last, next, now, f);
      FramesBound(e, f);
      Multiples(1, Frames(e, f), f);
      NothingPrinted(last + Frames(e, f) * f, next, now, f);
    }
  }

  /** Printing before the loop or in it makes no difference. */
  lemma PrintedOnce(last: int, next: int, now: int, f: int)
    requires FrameInterval(f) && OnTrace(last, next, f) && now - last >= f
    ensures NextTrace(last, Printed(last, next), now, f) == NextTrace(last, next, now, f)
  {
    assert Printed(last, Printed(last, next)) == Printed(last, next);
  }

  /** The clock after snapshots at each of the times. */
  function Ticks(last: int, times: seq<int>, f: int): int
    requires f > 0
    decreases |times|
  {
    if times == [] then last else Ticks(Tick(last, times[0], f), times[1..], f)
  }

  /** A snapshot in between does not change where the clock is after the next one. */
  lemma TickTwice(last: int, mid: int, end: int, f: int)
    requires f > 0 && last <= mid <= end
    ensures last <= Tick(last, mid, f) <= mid
    ensures Tick(Tick(last, mid, f), end, f) == Tick(last, end, f)
  {
    var k := Frames(mid - last, f);
    TickIsFrames(last, mid, f);
    TickIsFrames(last, end, f);
    TickIsFrames(last + k * f, end, f);
    FramesAfter(end - last, f, k);
    AddProduct(k, Frames(end - last - k * f, f), f);
  }

  lemma TickIsFrames(last: int, now: int, f: int)
    requires f > 0 && last <= now
    ensures Tick(last, now, f) == last + Frames(now - last, f) * f
    ensures last <= Tick(last, now, f) <= now
  {
    FramesBound(now - last, f);
    if now - last < f {
      FramesUnique(now - last, f, 0);
    } else {
      Multiples(0, Frames(now - last, f), f);
    }
  }

  /** However often snapshots are taken, the clock only depends on the time of the last one. */
  lemma {:induction false} TicksDependOnLast(last: int, times: seq<int>, f: int)
    requires f > 0 && times != [] && last <= times[0]
    requires forall i, j :: 0 <= i < j < |times| ==> times[i] <= times[j]
    ensures Ticks(last, times, f) == Tick(last, times[|times| - 1], f)
    decreases |times|
  {
    if |times| == 1 {
      assert times[1..] == [];
    } else {
      TickTwice(last, times[0], times[|times| - 1], f);
      TickTwice(last, times[0], times[1], f);
      TicksDependOnLast(Tick(last, times[0], f), times[1..], f);
    }
  }

  class VideoCaptureCtx {
    const frameInterval: int
    const hasTimestamp: bool
    var last: int
    var nextTraceTime: int
    var frameIndex: int
    var hasFrameMarker: bool
    const canvas: Canvas
    // the lowest rows of the drawings, of the tracked rectangle and of the previous image, and what the
    // frame of the video holds
    var bottoms: seq<Rows>
    var tracked: nat
    var previousHeight: nat
    var held: set<nat>
    var cursorX: nat
    var cursorY: nat
    // the frame numbers given to the recorder of the current file, and of the finished files
    var pts: seq<int>
    var files: seq<seq<int>>

    ghost predicate Valid()
      reads this
    {
      && FrameInterval(frameInterval)
      && (hasTimestamp ==> OnTrace(last, nextTraceTime, frameInterval))
      && 0 <= frameIndex
      && Increasing(pts) && (forall i :: 0 <= i < |pts| ==> 0 < pts[i] <= frameIndex)
      && (forall k :: 0 <= k < |files| ==> Increasing(files[k]))
    }

    function State(): Tracker
      reads this
    {
      Tracker(bottoms, tracked, previousHeight, held, hasFrameMarker)
    }

    predicate HasDrawingEvent()
      reads this
    {
      tracked != 0
    }

    predicate Moved(x: nat, y: nat)
      reads this
    {
      cursorX != x || cursorY != y
    }

    predicate Due(now: int)
      reads this
    {
      now - last >= frameInterval
    }

    predicate Traced(now: int)
      reads this
    {
      hasTimestamp && now >= nextTraceTime
    }

    /** The next second to print after a snapshot at now. */
    function TraceAfter(now: int): int
      requires frameInterval > 0
      reads this
    {
      if hasTimestamp then NextTrace(last, nextTraceTime, now, frameInterval) else nextTraceTime
    }

    /** Whether a second is printed between the frames of a snapshot at now. */
    predicate Stamped(now: int)
      requires frameInterval > 0
      reads this
    {
      hasTimestamp && TraceAfter(now) > Printed(last, nextTraceTime)
    }

    constructor (now: int, frameRate: int, noTimestamp: bool, canvas: Canvas)
      requires 1 <= frameRate <= 1_000_000
      ensures Valid() && last == nextTraceTime == now && frameIndex == 0 && pts == [] && files == []
      ensures State() == Initial(canvas) && this.canvas == canvas && cursorX == 0 && cursorY == 0
      ensures frameInterval == 1_000_000 / frameRate * 1000 && hasTimestamp == !noTimestamp
    {
      frameInterval := 1_000_000 / frameRate * 1000;
      hasTimestamp := !noTimestamp;
      last, nextTraceTime, frameIndex := now, now, 0;
      hasFrameMarker, cursorX, cursorY := false, 0, 0;
      this.canvas, bottoms, tracked, previousHeight, held := canvas, [canvas.height], canvas.height, canvas.height, {};
      pts, files := [], [];
      assert 1 <= 1_000_000 / frameRate <= 1_000_000 by { RateBound(frameRate); }
    }

    method Encode()
      modifies this`pts
      ensures pts == old(pts) + [frameIndex]
    {
      pts := pts + [frameIndex];
    }

    /** Encodes one image for the whole frames in elapsed. */
    method EncodeElapsed(elapsed: int) returns (taken: int)
      requires FrameInterval(frameInterval) && elapsed >= frameInterval
      modifies this`last, this`frameIndex, this`pts
      ensures var k := Frames(elapsed, frameInterval);
              && k >= 1 && taken == k * frameInterval && 0 < taken <= elapsed
              && last == old(last) + taken && frameIndex == old(frameIndex) + k
      ensures pts == old(pts) + [frameIndex]
    {
      FramesBound(elapsed, frameInterval);
      var count := elapsed / frameInterval;
      taken := count * frameInterval;
      Multiples(1, count, frameInterval);
      frameIndex := frameIndex + count;
      Encode();
      last := last + taken;
    }

    /** What an image of the rows of a printed time covers. */
    function Stamp(): set<nat>
      reads this
    {
      Covered(canvas, State(), STAMP_ROWS)
    }

    /** The loop body: a second is printed when it is reached, and frames up to the next one are encoded. */
    method AdvanceToSecond(now: int, tick0: int) returns (tick: int)
      requires FrameInterval(frameInterval) && OnTrace(last, nextTraceTime, frameInterval)
      requires tick0 == now - last >= frameInterval
      modifies this`last, this`nextTraceTime, this`frameIndex, this`pts, this`held
      ensures var k := frameIndex - old(frameIndex);
              k >= 1 && last == old(last) + k * frameInterval && tick == tick0 - k * frameInterval >= 0
      ensures pts == old(pts) + [frameIndex] && frameIndex - old(frameIndex) <= Frames(SECOND, frameInterval)
      ensures OnTrace(last, nextTraceTime, frameInterval) && nextTraceTime >= old(nextTraceTime)
      ensures NextTrace(last, nextTraceTime, now, frameInterval) == old(NextTrace(last, nextTraceTime, now, frameInterval))
      ensures held == old(held) + if nextTraceTime > old(nextTraceTime) then old(Stamp()) else {}
    {
      if last >= nextTraceTime {
        held := held + Stamp();
        nextTraceTime := nextTraceTime + SECOND;
      }
      var target := if last + frameInterval > nextTraceTime then last + frameInterval else nextTraceTime;
      var updateTimerAt := target - last;
      var due := if tick0 < updateTimerAt then tick0 else updateTimerAt;
      var elapsed := EncodeElapsed(due);
      MoreFrames(due, SECOND, frameInterval);
      StaysOnTrace(old(last), old(nextTraceTime), frameInterval, nextTraceTime, elapsed);
      TraceStep(old(last), old(nextTraceTime), now, frameInterval, elapsed);
      tick := tick0 - elapsed;
    }

    /** The loop that keeps the printed time in step with the seconds. */
    method AdvanceWithTimestamp(now: int, tick0: int) returns (tick: int)
      requires Valid() && hasTimestamp && tick0 == now - last >= frameInterval
      modifies this`last, this`nextTraceTime, this`frameIndex, this`pts, this`held
      ensures OnTrace(last, nextTraceTime, frameInterval)
      ensures nextTraceTime >= old(nextTraceTime)
      ensures held == old(held) + if nextTraceTime > old(nextTraceTime) then old(Stamp()) else {}
      ensures nextTraceTime == old(NextTrace(last, nextTraceTime, now, frameInterval))
      ensures var k := Frames(tick0, frameInterval);
              && last == old(last) + k * frameInterval && frameIndex == old(frameIndex) + k
              && tick == tick0 - k * frameInterval
      ensures Continues(old(pts), pts, old(frameIndex), frameIndex)
      ensures Spaced(old(pts), pts, old(frameIndex), Frames(SECOND, frameInterval))
    {
      tick := tick0;
      ghost var (done, limit) := (0, Frames(SECOND, frameInterval));
      var first := true;
      while first || last + frameInterval <= now
        invariant Advanced(old(pts), pts, old(frameIndex), frameIndex) && (!first ==> pts != old(pts))
        invariant Spaced(old(pts), pts, old(frameIndex), limit)
        invariant last == old(last) + done * frameInterval && frameIndex == old(frameIndex) + done
        invariant tick == now - last >= 0 && (first ==> tick >= frameInterval)
        invariant OnTrace(last, nextTraceTime, frameInterval)
        invariant nextTraceTime >= old(nextTraceTime)
        invariant held == old(held) + if nextTraceTime > old(nextTraceTime) then old(Stamp()) else {}
        invariant NextTrace(last, nextTraceTime, now, frameInterval) == old(NextTrace(last, nextTraceTime, now, frameInterval))
        decreases tick
      {
        first := false;
        ghost var (p, i) := (pts, frameIndex);
        tick := AdvanceToSecond(now, tick);
        Extend(old(pts), p, old(frameIndex), i, frameIndex);
        ExtendSpaced(old(pts), p, old(frameIndex), i, frameIndex, limit);
        AddProduct(done, frameIndex - i, frameInterval);
        done := done + (frameIndex - i);
      }
      FramesUnique(tick0, frameInterval, done);
    }

    method AdvanceWithoutTimestamp(now: int, tick0: int) returns (tick: int)
      requires Valid() && tick0 == now - last >= frameInterval
      modifies this`last, this`frameIndex, this`pts
      ensures var k := Frames(tick0, frameInterval);
              && last == old(last) + k * frameInterval && frameIndex == old(frameIndex) + k
              && tick == tick0 - k * frameInterval
      ensures Continues(old(pts), pts, old(frameIndex), frameIndex)
      ensures Spaced(old(pts), pts, old(frameIndex), Frames(MAX_FRAME_INTERVAL, frameInterval))
    {
      tick := tick0;
      ghost var (done, limit) := (0, Frames(MAX_FRAME_INTERVAL, frameInterval));
      var first := true;
      while first || last + frameInterval <= now
        invariant Advanced(old(pts), pts, old(frameIndex), frameIndex) && (!first ==> pts != old(pts))
        invariant Spaced(old(pts), pts, old(frameIndex), limit)
        invariant last == old(last) + done * frameInterval && frameIndex == old(frameIndex) + done
        invariant tick == now - last >= 0 && (first ==> tick >= frameInterval)
        decreases tick
      {
        first := false;
        ghost var (p, i) := (pts, frameIndex);
        var due := if tick < MAX_FRAME_INTERVAL then tick else MAX_FRAME_INTERVAL;
        var elapsed := EncodeElapsed(due);
        MoreFrames(due, MAX_FRAME_INTERVAL, frameInterval);
        Extend(old(pts), p, old(frameIndex), i, frameIndex);
        ExtendSpaced(old(pts), p, old(frameIndex), i, frameIndex, limit);
        AddProduct(done, frameIndex - i, frameInterval);
        tick := tick - elapsed;
        done := done + (frameIndex - i);
      }
      FramesUnique(tick0, frameInterval, done);
    }

    /** The most frames between two numbers: a second of them, or two where the time is not printed. */
    function Longest(): int
      requires frameInterval > 0
    {
      Frames(if hasTimestamp then 1_000_000_000 else 2_000_000_000, frameInterval)
    }

    /** Runs the loop of the configured kind. */
    method Advance(now: int, tick0: int) returns (tick: int)
      requires Valid() && tick0 == now - last >= frameInterval
      modifies this`last, this`nextTraceTime, this`frameIndex, this`pts, this`held
      ensures Valid()
      ensures nextTraceTime == old(TraceAfter(now))
      ensures State() == if nextTraceTime > old(nextTraceTime) then Cover(canvas, old(State()), STAMP_ROWS) else old(State())
      ensures var k := Frames(tick0, frameInterval);
              && k >= 1 && last == old(last) + k * frameInterval && frameIndex == old(frameIndex) + k
              && tick == tick0 - k * frameInterval && 0 <= tick < frameInterval
      ensures Continues(old(pts), pts, old(frameIndex), frameIndex)
      ensures Spaced(old(pts), pts, old(frameIndex), Longest())
    {
      FramesBound(tick0, frameInterval);
      if hasTimestamp {
        tick := AdvanceWithTimestamp(now, tick0);
      } else {
        tick := AdvanceWithoutTimestamp(now, tick0);
      }
      ContinuesIncreasing(old(pts), pts, old(frameIndex), frameIndex);
    }

    /** Any drawing order: the tracked rectangle grows. */
    method Draw(bottom: Rows)
      modifies this`bottoms, this`tracked
      ensures State() == Step(canvas, old(State()), Seen.Draw(bottom))
    {
      bottoms := bottoms + [bottom];
      tracked := Max(tracked, bottom);
    }

    /** video_recorder::preparing_video_frame: an image of the upper rows, or of all of them. */
    method PrepareImage(cursor: nat)
      modifies this`held, this`previousHeight
      ensures State() == Prepare(canvas, old(State()), cursor)
    {
      if canvas.cropped {
        held := held + Covered(canvas, State(), canvas.height);
      } else {
        var bottom := Max(tracked, cursor);
        var height := Max(bottom, previousHeight);
        previousHeight := bottom;
        held := held + Covered(canvas, State(), height);
      }
    }

    /** Encodes the frames that are due at now, and tells how long to wait for the next one. */
    method Snapshot(now: int, x: nat, y: nat, cursor: nat) returns (wait: int)
      requires Valid()
      modifies this`last, this`nextTraceTime, this`frameIndex, this`pts, this`cursorX, this`cursorY,
               this`tracked, this`held, this`previousHeight
      ensures Valid()
      ensures var k := if now - old(last) >= frameInterval then Frames(now - old(last), frameInterval) else 0;
              && last == old(last) + k * frameInterval && frameIndex == old(frameIndex) + k
              && wait == frameInterval - (now - last)
              && (if k > 0 then Continues(old(pts), pts, old(frameIndex), frameIndex) else pts == old(pts))
      ensures old(Due(now)) ==> frameIndex > old(frameIndex)
      ensures Spaced(old(pts), pts, old(frameIndex), Longest())
      ensures now >= old(last) ==> 0 < wait <= frameInterval
      ensures State() == Snap(canvas, old(State()), old(Moved(x, y)), old(Due(now)), old(Traced(now)), old(Stamped(now)), cursor)
      ensures (cursorX, cursorY) == if old(Due(now)) then (x, y) else (old(cursorX), old(cursorY))
      ensures nextTraceTime == old(TraceAfter(now))
    {
      var tick := now - last;
      if tick >= frameInterval {
        UpdateImage(now, x, y, cursor);
        tick := Advance(now, tick);
        tracked := 0;
      } else {
        assert 0 * frameInterval == 0;
      }
      wait := frameInterval - tick;
    }

    /** The part of a due snapshot before the frames are encoded. */
    method UpdateImage(now: int, x: nat, y: nat, cursor: nat)
      requires FrameInterval(frameInterval) && (hasTimestamp ==> OnTrace(last, nextTraceTime, frameInterval)) && Due(now)
      modifies this`nextTraceTime, this`cursorX, this`cursorY, this`held, this`previousHeight
      ensures TraceAfter(now) == old(TraceAfter(now))
      ensures hasTimestamp ==> OnTrace(last, nextTraceTime, frameInterval)
      ensures nextTraceTime == if hasTimestamp then old(Printed(last, nextTraceTime)) else old(nextTraceTime)
      ensures State() == if Updates(old(State()), old(Moved(x, y)), old(Traced(now))) then Prepare(canvas, old(State()), cursor)
                         else old(State())
      ensures !Updates(old(State()), old(Moved(x, y)), old(Traced(now))) ==> !old(Stamped(now))
      ensures cursorX == x && cursorY == y
    {
      var updateTimestamp := hasTimestamp && now >= nextTraceTime;
      var updateImage := (!hasFrameMarker && HasDrawingEvent()) || cursorX != x || cursorY != y;
      var updatePointer := updateImage || updateTimestamp;
      var isImageDrawable := updatePointer || (updateImage && (!hasTimestamp || last < nextTraceTime));
      if isImageDrawable {
        if hasTimestamp && last >= nextTraceTime {
          PrintedOnce(last, nextTraceTime, now, frameInterval);
          nextTraceTime := nextTraceTime + SECOND;
        }
        PrepareImage(cursor);
      } else if hasTimestamp {
        NothingPrinted(last, nextTraceTime, now, frameInterval);
      }
      cursorX, cursorY := x, y;
    }

    /** A frame marker; updatable is the decision of the first pass for this marker. */
    method FrameMarkerEvent(now: int, x: nat, y: nat, updatable: bool, cursor: nat)
      requires Valid()
      modifies this
      ensures Valid() && files == old(files)
      ensures last == Tick(old(last), now, frameInterval) && cursorX == x && cursorY == y
      ensures nextTraceTime == old(TraceAfter(now))
      ensures State() == Step(canvas, old(State()),
                              Marker(updatable, old(Moved(x, y)), old(Due(now)), old(Traced(now)), old(Stamped(now)), cursor))
    {
      RedrawAtMarker(x, y, updatable, cursor);
      assert !Moved(x, y);
      var wait := Snapshot(now, x, y, cursor);
    }

    method RedrawAtMarker(x: nat, y: nat, updatable: bool, cursor: nat)
      modifies this`held, this`previousHeight, this`tracked, this`cursorX, this`cursorY, this`hasFrameMarker
      ensures State() == Mark(canvas, old(State()), updatable, old(Moved(x, y)), cursor)
      ensures cursorX == x && cursorY == y
    {
      if (updatable && HasDrawingEvent()) || cursorX != x || cursorY != y {
        PrepareImage(cursor);
        tracked := 0;
        cursorX, cursorY := x, y;
      }
      hasFrameMarker := true;
    }

    /** As many frames as there are in 400 milliseconds, and one at least. */
    predicate LastFrames(k: int) {
      var m := if frameInterval > 400_000_000 then frameInterval else 400_000_000;
      k >= 1 && k * frameInterval <= m < (k + 1) * frameInterval
    }

    /** One more snapshot at the end of a file; the clock is then put back. */
    method EncodingEndFrame(cursor: nat)
      requires Valid()
      modifies this`last, this`nextTraceTime, this`frameIndex, this`pts, this`cursorX, this`cursorY,
               this`tracked, this`held, this`previousHeight
      ensures Valid() && last == old(last) && nextTraceTime == old(nextTraceTime)
      ensures frameIndex > old(frameIndex) && Continues(old(pts), pts, old(frameIndex), frameIndex)
      ensures LastFrames(frameIndex - old(frameIndex)) && Spaced(old(pts), pts, old(frameIndex), Longest())
    {
      var dur := if frameInterval > END_OF_VIDEO then frameInterval else END_OF_VIDEO;
      var savedLast, savedTrace := last, nextTraceTime;
      FramesBound(dur, frameInterval);
      var wait := Snapshot(last + dur, cursorX, cursorY, cursor);
      last := savedLast;
      nextTraceTime := savedTrace;
    }

    /** A new recorder for the video holds nothing yet. */
    method InitRecorder()
      modifies this`held, this`previousHeight
      ensures State() == old(State()).(held := {}, previous := canvas.height)
    {
      held, previousHeight := {}, canvas.height;
    }

    /** The first frame of a new file: it holds everything, and the whole screen is tracked. */
    method NextVideo(cursor: nat)
      requires Valid() && pts == [] && held == {} && previousHeight == canvas.height
      modifies this`frameIndex, this`pts, this`held, this`previousHeight, this`tracked
      ensures Valid() && frameIndex == 1 && pts == [1]
      ensures held == All(State()) && tracked == canvas.height && bottoms == old(bottoms)
    {
      frameIndex := 0;
      PrepareImage(cursor);
      frameIndex := frameIndex + 1;
      Encode();
      TrackScreen();
    }

    /** RectTracker::set_area: the whole screen is tracked, whatever was before. */
    method TrackScreen()
      modifies this`tracked
      ensures tracked == canvas.height
    {
      tracked := canvas.height;
    }

    /** SequencedVideoCaptureImpl::next_video_impl: ends a file and starts the next one. */
    method NextVideoImpl(cursor: nat)
      requires Valid()
      modifies this
      ensures Valid() && last == old(last) && nextTraceTime == old(nextTraceTime)
      ensures pts == [1] && frameIndex == 1 && held == All(State()) && tracked == canvas.height
      ensures |files| == |old(files)| + 1 && files[..|old(files)|] == old(files)
      ensures Extends(old(pts), files[|files| - 1], old(frameIndex))
      ensures var file := files[|files| - 1];
              file != [] && LastFrames(file[|file| - 1] - old(frameIndex)) && Spaced(old(pts), file, old(frameIndex), Longest())
    {
      EncodingEndFrame(cursor);
      assert Continues(old(pts), pts, old(frameIndex), frameIndex);
      files := files + [pts];
      pts := [];
      InitRecorder();
      NextVideo(cursor);
    }
  }

  lemma RateBound(rate: int)
    requires 1 <= rate <= 1_000_000
    ensures 1 <= 1_000_000 / rate <= 1_000_000
  {
    FramesBound(1_000_000, rate);
    var q := Frames(1_000_000, rate);
    assert q * 1 <= q * rate;
  }

  lemma ContinuesIncreasing(before: seq<int>, after: seq<int>, from: int, to: int)
    requires Increasing(before) && (forall i :: 0 <= i < |before| ==> 0 < before[i] <= from)
    requires Continues(before, after, from, to) && 0 <= from
    ensures Increasing(after) && (forall i :: 0 <= i < |after| ==> 0 < after[i] <= to)
  {
    forall i, j | 0 <= i < j < |after| ensures after[i] < after[j] {
      if i < |before| {
        assert after[i] == before[i];
        if j < |before| {
          assert after[j] == before[j];
        }
      } else {
        assert after[i] == after[|before|..][i - |before|];
        assert after[j] == after[|before|..][j - |before|];
      }
    }
    forall i | 0 <= i < |after| ensures 0 < after[i] <= to {
      if i < |before| {
        assert after[i] == before[i];
        assert after[|before|] <= to;
      }
    }
  }
}
