/** The second pass over a recording: what becomes of the drawings that the first pass has flagged. */
module FrameRedraw {
  import T = DrawingTracker
  import opened FrameDecimation
  import V = VideoClock

  /** The decisions at the markers. */
  function Flags(seen: seq<T.Seen>): seq<bool> {
    if seen == [] then []
    else
      var e := seen[|seen| - 1];
      Flags(seen[..|seen| - 1]) + if e.Marker? then [e.flag] else []
  }

  /** For each marker whether something was drawn since the one before, and then whether something was
      drawn after the last one. */
  function Drawn(seen: seq<T.Seen>): (r: seq<bool>)
    ensures |r| == |Flags(seen)| + 1
  {
    if seen == [] then [false]
    else
      var (r, e) := (Drawn(seen[..|seen| - 1]), seen[|seen| - 1]);
      match e
      case Draw(_) => r[|r| - 1 := true]
      case Marker(_, _, _, _, _, _) => r + [false]
      case Snapshot(_, _, _, _, _) => r
  }

  /** Something was drawn before marker k, and no marker from there on was decided to be drawn. */
  predicate Unanswered(seen: seq<T.Seen>, k: nat) {
    && k <= |Flags(seen)| && (k == 0 || Drawn(seen)[k])
    && forall j :: k <= j < |Flags(seen)| ==> !Flags(seen)[j]
  }

  /** What is tracked was never answered. */
  lemma {:induction false} TrackedIsUnanswered(c: T.Canvas, seen: seq<T.Seen>) returns (k: nat)
    ensures T.Run(c, seen).tracked != 0 ==> Unanswered(seen, k)
    decreases |seen|
  {
    k := 0;
    if seen != [] {
      var (front, e) := (seen[..|seen| - 1], seen[|seen| - 1]);
      var before := T.Run(c, front);
      k := TrackedIsUnanswered(c, front);
      if T.Run(c, seen).tracked != 0 {
        if before.tracked == 0 {
          assert e.Draw?;
          k := |Flags(seen)|;
        } else if e.Marker? {
          assert !e.flag;
        }
      }
    }
  }

  /** The markers are those of the first pass, with its decisions, and everything else that was seen came
      before the last of them. */
  predicate SecondPass(seen: seq<T.Seen>, frames: seq<Frame>, bits: seq<bool>) {
    && |Flags(seen)| == |frames| && seen != [] && seen[|seen| - 1].Marker?
    && (forall k :: 0 <= k < |frames| ==> frames[k].drawn == Drawn(seen)[k])
    && (forall k :: 0 <= k < |frames| ==> Flags(seen)[k] == Decision(bits, k))
  }

  lemma NothingIsLeft(c: T.Canvas, start: int, frames: seq<Frame>, interval: int, room: nat, seen: seq<T.Seen>)
    requires interval > 0
    requires SecondPass(seen, frames, WithLastFrame(After(start, frames, interval, room), room))
    ensures T.Run(c, seen).tracked == 0
  {
    var bits := WithLastFrame(After(start, frames, interval, room), room);
    var k := TrackedIsUnanswered(c, seen);
    EveryDrawingHasADecision(start, frames, interval, room);
    assert !Drawn(seen)[|frames|];
    assert Unanswered(seen, k) ==> ToShow(frames, k);
    if ToShow(frames, k) {
      Answered(seen, frames, bits, k);
    }
  }

  lemma Answered(seen: seq<T.Seen>, frames: seq<Frame>, bits: seq<bool>, k: nat)
    requires SecondPass(seen, frames, bits) && k < |frames|
    requires exists j :: k <= j < |frames| && Decision(bits, j)
    ensures !Unanswered(seen, k)
  {
    var j :| k <= j < |frames| && Decision(bits, j);
    assert Flags(seen)[j];
  }

  /** Decimation delays drawings and loses none, and yet a drawing may be missing: after the last marker the
      frame holds every drawing, if and only if whatever a due snapshot has dropped from the tracker without
      an image was covered by a later one. */
  lemma HeldUnlessMissing(c: T.Canvas, start: int, frames: seq<Frame>, interval: int, room: nat, seen: seq<T.Seen>)
    requires interval > 0
    requires SecondPass(seen, frames, WithLastFrame(After(start, frames, interval, room), room))
    ensures var t := T.Run(c, seen);
            t.held == T.All(t) <==> T.NothingMissing(c, seen)
  {
    NothingIsLeft(c, start, frames, interval, room, seen);
    T.FrameHoldsAll(c, seen);
  }

  // ---- the recording of a video ----

  /** What reaches the recorder from a replay: a drawing down to some row, the end of a frame at a replayed
      time with the time and place of the cursor that the recorder was told last, and a periodic snapshot,
      both with the lowest row of the cursor. */
  datatype Call =
    | Order(bottom: T.Rows)
    | FrameEnd(time: int, now: int, x: nat, y: nat, cursor: nat)
    | Periodic(now: int, x: nat, y: nat, cursor: nat)

  function DrawnSince(calls: seq<Call>): bool {
    if calls == [] then false
    else
      match calls[|calls| - 1]
      case Order(_) => true
      case FrameEnd(_, _, _, _, _) => false
      case Periodic(_, _, _, _) => DrawnSince(calls[..|calls| - 1])
  }

  /** What the first pass sees of them. */
  function Frames(calls: seq<Call>): seq<Frame> {
    if calls == [] then []
    else
      var (front, c) := (calls[..|calls| - 1], calls[|calls| - 1]);
      Frames(front) + if c.FrameEnd? then [Frame(c.time, DrawnSince(front))] else []
  }

  /** When a video starts, how long a frame is, whether the time is printed in it, and of what it is. */
  datatype Video = Video(begin: int, f: int, timestamps: bool, canvas: T.Canvas)

  /** The clock, the next second to print and the cursor of the recorder. */
  datatype Look = Look(last: int, trace: int, x: nat, y: nat)

  function LookAfter(v: Video, calls: seq<Call>): Look
    requires v.f > 0
  {
    if calls == [] then Look(v.begin, v.begin, 0, 0)
    else LookNext(v, LookAfter(v, calls[..|calls| - 1]), calls[|calls| - 1])
  }

  function LookNext(v: Video, l: Look, c: Call): Look
    requires v.f > 0
  {
    match c
    case Order(_) => l
    case FrameEnd(_, now, x, y, _) => Look(V.Tick(l.last, now, v.f), TraceNext(v, l, now), x, y)
    case Periodic(now, x, y, _) =>
      if now - l.last >= v.f then Look(V.Tick(l.last, now, v.f), TraceNext(v, l, now), x, y) else l
  }

  function TraceNext(v: Video, l: Look, now: int): int
    requires v.f > 0
  {
    if v.timestamps then V.NextTrace(l.last, l.trace, now, v.f) else l.trace
  }

  /** What the recorder sees of a call. */
  function SeenOf(v: Video, l: Look, c: Call, flag: bool): T.Seen
    requires v.f > 0
  {
    match c
    case Order(bottom) => T.Draw(bottom)
    case FrameEnd(_, now, x, y, cursor) =>
      T.Marker(flag, (l.x, l.y) != (x, y), now - l.last >= v.f, Traced(v, l, now), Stamped(v, l, now), cursor)
    case Periodic(now, x, y, cursor) =>
      T.Snapshot((l.x, l.y) != (x, y), now - l.last >= v.f, Traced(v, l, now), Stamped(v, l, now), cursor)
  }

  predicate Traced(v: Video, l: Look, now: int) { v.timestamps && now >= l.trace }

  predicate Stamped(v: Video, l: Look, now: int)
    requires v.f > 0
  {
    v.timestamps && TraceNext(v, l, now) > V.Printed(l.last, l.trace)
  }

  /** A call sees the cursor elsewhere if either coordinate has changed, a frame due when its length has passed, and
      the time to print when its second is reached; the recorder then knows the new position. */
  lemma WhatIsSeen(v: Video, l: Look, now: int, x: nat, y: nat, cursor: nat, time: int, flag: bool)
    requires v.f > 0
    ensures var marker := SeenOf(v, l, FrameEnd(time, now, x, y, cursor), flag);
            var snapshot := SeenOf(v, l, Periodic(now, x, y, cursor), flag);
            && marker.flag == flag && marker.cursor == cursor && snapshot.cursor == cursor
            && (marker.moved <==> x != l.x || y != l.y) && (snapshot.moved <==> x != l.x || y != l.y)
            && (marker.due <==> now >= l.last + v.f) && (snapshot.due <==> now >= l.last + v.f)
            && (marker.traced <==> v.timestamps && now >= l.trace) && (snapshot.traced <==> v.timestamps && now >= l.trace)
    ensures var known := LookNext(v, l, FrameEnd(time, now, x, y, cursor)); known.x == x && known.y == y
    ensures var known := LookNext(v, l, Periodic(now, x, y, cursor));
            if now >= l.last + v.f then known.x == x && known.y == y else known == l
  {
  }

  /** What the recorder sees of all calls, with the decisions of the first pass. */
  function Watch(v: Video, calls: seq<Call>, bits: seq<bool>): (seen: seq<T.Seen>)
    requires v.f > 0
    ensures |seen| == |calls|
  {
    if calls == [] then []
    else
      var (front, c) := (calls[..|calls| - 1], calls[|calls| - 1]);
      Watch(v, front, bits) + [SeenOf(v, LookAfter(v, front), c, Decision(bits, |Frames(front)|))]
  }

  /** The two passes see the same frames. */
  lemma {:induction false} SameCounts(v: Video, calls: seq<Call>, bits: seq<bool>)
    requires v.f > 0
    ensures var seen := Watch(v, calls, bits);
            |Flags(seen)| == |Frames(calls)| && Drawn(seen)[|Flags(seen)|] == DrawnSince(calls)
    decreases |calls|
  {
    if calls != [] {
      var (front, c) := (calls[..|calls| - 1], calls[|calls| - 1]);
      SameCounts(v, front, bits);
      assert Watch(v, calls, bits)[..|front|] == Watch(v, front, bits);
    }
  }

  lemma {:induction false} SameFrames(v: Video, calls: seq<Call>, bits: seq<bool>, k: nat)
    requires v.f > 0 && k < |Frames(calls)|
    ensures var seen := Watch(v, calls, bits);
            && |Flags(seen)| == |Frames(calls)|
            && Frames(calls)[k].drawn == Drawn(seen)[k] && Flags(seen)[k] == Decision(bits, k)
    decreases |calls|
  {
    var front := calls[..|calls| - 1];
    SameCounts(v, calls, bits);
    SameCounts(v, front, bits);
    assert Watch(v, calls, bits)[..|front|] == Watch(v, front, bits);
    if k < |Frames(front)| {
      SameFrames(v, front, bits, k);
    }
  }

  /** One call to the recorder, with the next decision if it is a marker. */
  method Perform(ctx: V.VideoCaptureCtx, stream: BitsetInStream, c: Call, ghost v: Video, ghost bits: seq<bool>,
                 ghost n: nat, ghost k: nat, ghost l: Look)
    requires ctx.Valid() && stream.Valid() && Holds(stream.words, stream.end, bits, n) && (c.FrameEnd? ==> k < n)
    requires 64 * stream.p + stream.d == if k < 64 * stream.end then k else 64 * stream.end
    requires l == LookOf(ctx) && Records(ctx, v)
    modifies ctx, stream
    ensures ctx.Valid() && stream.Valid()
    ensures ctx.State() == T.Step(v.canvas, old(ctx.State()), SeenOf(v, l, c, Decision(bits, k)))
    ensures LookOf(ctx) == LookNext(v, l, c)
    ensures var k' := if c.FrameEnd? then k + 1 else k;
            64 * stream.p + stream.d == if k' < 64 * stream.end then k' else 64 * stream.end
  {
    match c
    case Order(bottom) =>
      ctx.Draw(bottom);
    case FrameEnd(_, now, x, y, cursor) =>
      var updatable := NextDecision(stream, bits, n, k);
      ctx.FrameMarkerEvent(now, x, y, updatable, cursor);
    case Periodic(now, x, y, cursor) =>
      var wait := ctx.Snapshot(now, x, y, cursor);
  }

  predicate Records(ctx: V.VideoCaptureCtx, v: Video) {
    v.f == ctx.frameInterval && v.timestamps == ctx.hasTimestamp && v.canvas == ctx.canvas
  }

  function LookOf(ctx: V.VideoCaptureCtx): Look
    reads ctx
  {
    Look(ctx.last, ctx.nextTraceTime, ctx.cursorX, ctx.cursorY)
  }

  /** What the recorder sees of a recording: the calls, with the flags of the first pass that fit. */
  function Watched(start: int, interval: int, v: Video, calls: seq<Call>, size: nat): seq<T.Seen>
    requires interval > 0 && v.f > 0
  {
    Watch(v, calls, WithLastFrame(After(start, Frames(calls), interval, 64 * size), 64 * size))
  }

  /** Both passes over a recording. If it ends with a frame, the frame of the video holds every drawing unless
      one is missing; decimation itself loses none. */
  method Record(start: int, interval: int, begin: int, rate: int, noTimestamp: bool, canvas: T.Canvas, calls: seq<Call>,
                size: nat)
    returns (drawings: nat, held: set<nat>)
    requires interval > 0 && 1 <= rate <= 1_000_000
    ensures var v := Video(begin, 1_000_000 / rate * 1000, !noTimestamp, canvas);
            && v.f > 0
            && var seen := Watched(start, interval, v, calls, size);
               var t := T.Run(canvas, seen);
               && drawings == |t.bottoms| && held == t.held
               && (calls != [] && calls[|calls| - 1].FrameEnd? ==> (held == T.All(t) <==> T.NothingMissing(canvas, seen)))
  {
    var frames := Frames(calls);
    ghost var bits := WithLastFrame(After(start, frames, interval, 64 * size), 64 * size);
    var words, len := ComputeRegions(start, interval, frames, size);
    EnoughBits(start, frames, interval, size);
    var ctx := new V.VideoCaptureCtx(begin, rate, noTimestamp, canvas);
    var stream := new BitsetInStream(words, len);
    ghost var v := Video(begin, ctx.frameInterval, !noTimestamp, canvas);
    for i := 0 to |calls|
      invariant fresh(ctx) && fresh(stream) && stream.words == words
      invariant Follows(ctx, stream, v, calls[..i], bits, |frames|)
    {
      NextCall(calls, i);
      Follow(ctx, stream, v, calls[..i], calls[i], bits, |frames|);
    }
    assert calls[..|calls|] == calls;
    drawings, held := |ctx.bottoms|, ctx.held;
    if calls != [] && calls[|calls| - 1].FrameEnd? {
      AfterAll(start, interval, v, calls, size);
    }
  }

  lemma NextCall(calls: seq<Call>, i: nat)
    requires i < |calls|
    ensures calls[..i + 1] == calls[..i] + [calls[i]]
    ensures calls[i].FrameEnd? ==> |Frames(calls[..i])| < |Frames(calls)|
  {
    FramesGrow(calls, i + 1);
    assert calls[..i + 1][..i] == calls[..i];
  }

  /** The recorder and its stream of decisions after some of the calls. */
  ghost predicate Follows(ctx: V.VideoCaptureCtx, stream: BitsetInStream, v: Video, calls: seq<Call>, bits: seq<bool>,
                          n: nat)
    reads ctx, stream, stream.words
  {
    && ctx.Valid() && stream.Valid() && Holds(stream.words, stream.end, bits, n)
    && 64 * stream.p + stream.d == (if |Frames(calls)| < 64 * stream.end then |Frames(calls)| else 64 * stream.end)
    && Records(ctx, v)
    && LookAfter(v, calls) == LookOf(ctx) && ctx.State() == T.Run(v.canvas, Watch(v, calls, bits))
  }

  method Follow(ctx: V.VideoCaptureCtx, stream: BitsetInStream, ghost v: Video, ghost calls: seq<Call>, c: Call,
                ghost bits: seq<bool>, ghost n: nat)
    requires Follows(ctx, stream, v, calls, bits, n) && (c.FrameEnd? ==> |Frames(calls)| < n)
    modifies ctx, stream
    ensures Follows(ctx, stream, v, calls + [c], bits, n)
  {
    ghost var (l, k) := (LookAfter(v, calls), |Frames(calls)|);
    assert (calls + [c])[..|calls|] == calls;
    Perform(ctx, stream, c, v, bits, n, k, l);
    T.RunOneMore(v.canvas, Watch(v, calls, bits), SeenOf(v, l, c, Decision(bits, k)));
  }

  lemma AfterAll(start: int, interval: int, v: Video, calls: seq<Call>, size: nat)
    requires interval > 0 && v.f > 0
    requires calls != [] && calls[|calls| - 1].FrameEnd?
    ensures var seen := Watched(start, interval, v, calls, size);
            var t := T.Run(v.canvas, seen);
            t.held == T.All(t) <==> T.NothingMissing(v.canvas, seen)
  {
    var bits := WithLastFrame(After(start, Frames(calls), interval, 64 * size), 64 * size);
    SameCounts(v, calls, bits);
    forall k | 0 <= k < |Frames(calls)|
      ensures var seen := Watch(v, calls, bits);
              Frames(calls)[k].drawn == Drawn(seen)[k] && Flags(seen)[k] == Decision(bits, k)
    {
      SameFrames(v, calls, bits, k);
    }
    HeldUnlessMissing(v.canvas, start, Frames(calls), interval, 64 * size, Watch(v, calls, bits));
  }

  lemma {:induction false} FramesGrow(calls: seq<Call>, i: nat)
    requires i <= |calls|
    ensures |Frames(calls[..i])| <= |Frames(calls)|
    ensures i > 0 && calls[i - 1].FrameEnd? ==> |Frames(calls[..i - 1])| < |Frames(calls)|
    decreases |calls| - i
  {
    if i < |calls| {
      assert calls[..i + 1][..i] == calls[..i];
      FramesGrow(calls, i + 1);
    } else {
      assert calls[..i] == calls;
    }
    if i > 0 {
      assert calls[..i][..i - 1] == calls[..i - 1];
    }
  }

  /** The flags do not run out before the words they are in. */
  lemma EnoughBits(start: int, frames: seq<Frame>, interval: int, size: nat)
    requires interval > 0
    ensures var bits := WithLastFrame(After(start, frames, interval, 64 * size), 64 * size);
            |bits| <= 64 * size && (|bits| < |frames| ==> |bits| == 64 * size)
  {
    if frames != [] {
      AfterKeepsInv(start, frames, interval, 64 * size);
    }
  }

  /** A marker, a drawing, a due snapshot before its own marker: the frame does not hold the drawing, although
      the first pass, however it was run, says yes at both markers. */
  lemma DrawingIsLost(start: int, interval: int, size: nat, canvas: T.Canvas, bottom: T.Rows)
    requires interval > 0
    ensures var calls := [FrameEnd(0, 0, 0, 0, 0), Order(bottom), Periodic(1_000_000_000, 0, 0, 0),
                          FrameEnd(1_000_000_000, 1_000_000_000, 0, 0, 0)];
            var seen := Watched(start, interval, Video(0, 1_000_000_000, false, canvas), calls, size);
            var t := T.Run(canvas, seen);
            Flags(seen) == [true, true] && t.bottoms == [canvas.height, bottom] && t.held == {0}
  {
    var (c1, c2, c3, c4) := (FrameEnd(0, 0, 0, 0, 0), Order(bottom), Periodic(1_000_000_000, 0, 0, 0),
                             FrameEnd(1_000_000_000, 1_000_000_000, 0, 0, 0));
    var calls := [c1, c2, c3, c4];
    var v := Video(0, 1_000_000_000, false, canvas);
    var bits := WithLastFrame(After(start, Frames(calls), interval, 64 * size), 64 * size);
    FramesBound(calls);
    FewFlags(start, Frames(calls), interval, 64 * size);
    assert |bits| < 64;
    assert calls[..3] == [c1, c2, c3] && [c1, c2, c3][..2] == [c1, c2] && [c1, c2][..1] == [c1] && [c1][..0] == [];
    var (a, b, c) := (T.Marker(true, false, false, false, false, 0), T.Draw(bottom), T.Snapshot(false, true, false, false, 0));
    assert V.Tick(0, 1_000_000_000, v.f) == 1_000_000_000;
    assert Watch(v, [], bits) == [] && SeenOf(v, LookAfter(v, []), c1, true) == a;
    assert Watch(v, [c1], bits) == [a];
    assert Watch(v, [c1, c2], bits) == [a, b];
    assert Watch(v, [c1, c2, c3], bits) == [a, b, c];
    assert Watch(v, calls, bits) == [a, b, c, a];
    LostBetween(canvas, bottom, a, c);
  }

  lemma {:induction false} FramesBound(calls: seq<Call>)
    ensures |Frames(calls)| <= |calls|
    decreases |calls|
  {
    if calls != [] {
      FramesBound(calls[..|calls| - 1]);
    }
  }

  lemma LostBetween(canvas: T.Canvas, bottom: T.Rows, a: T.Seen, c: T.Seen)
    requires a == T.Marker(true, false, false, false, false, 0) && c == T.Snapshot(false, true, false, false, 0)
    ensures var seen := [a, T.Draw(bottom), c, a];
            var t := T.Run(canvas, seen);
            Flags(seen) == [true, true] && t.bottoms == [canvas.height, bottom] && t.held == {0}
  {
    var b := T.Draw(bottom);
    var (s1, s2, s3, s4) := ([a], [a, b], [a, b, c], [a, b, c, a]);
    assert s1[..0] == [] && s2[..1] == s1 && s3[..2] == s2 && s4[..3] == s3;
    assert Flags(s1) == [true] && Flags(s2) == [true] && Flags(s3) == [true];
    var t := T.Run(canvas, s1);
    T.RunOneMore(canvas, [], a);
    assert [] + s1 == s1;
    assert t.bottoms == [canvas.height] && t.held == {0} && t.tracked == 0 && t.marked;
    assert T.Run(canvas, s2) == t.(bottoms := [canvas.height, bottom], tracked := bottom);
    assert T.Run(canvas, s3) == t.(bottoms := [canvas.height, bottom]);
  }

  lemma {:induction false} FewFlags(start: int, frames: seq<Frame>, interval: int, room: nat)
    requires interval > 0
    ensures var m := After(start, frames, interval, room);
            |m.bits| <= |frames| && |WithLastFrame(m, room)| <= |frames| + 1
    decreases |frames|
  {
    if frames != [] {
      FewFlags(start, frames[..|frames| - 1], interval, room);
    }
  }
}
