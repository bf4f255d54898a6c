/** The first pass over a recording: one bit a frame, telling the video recorder which frames are
    worth drawing. */
module FrameDecimation {

  /** An unsigned long long, bit by bit, least significant first. */
  type Word = w: seq<bool> | |w| == 64 witness seq(64, _ => false)

  ghost function Flatten(words: seq<Word>): (r: seq<bool>)
    ensures |r| == 64 * |words|
  {
    seq(64 * |words|, k requires 0 <= k < 64 * |words| => words[k / 64][k % 64])
  }

  class BitsetOutStream {
    const words: array<Word>
    var p: nat
    var d: nat

    ghost predicate Valid()
      reads this
    {
      d < 64 && p <= words.Length && (d > 0 ==> p < words.Length)
    }

    ghost function Written(): (r: seq<bool>)
      requires Valid()
      reads this, words
      ensures |r| == 64 * p + d
    {
      Flatten(words[..])[..64 * p + d]
    }

    constructor (size: nat)
      ensures Valid() && p == 0 && d == 0 && words.Length == size && fresh(words)
    {
      words := new Word[size](_ => seq(64, _ => false));
      p, d := 0, 0;
    }

    method Write(x: bool)
      requires Valid() && p < words.Length
      modifies this, words
      ensures Valid() && Written() == old(Written()) + [x]
    {
      words[p] := words[p][d := x];
      d := d + 1;
      if d == 64 {
        d := 0;
        p := p + 1;
      }
    }
  }

  class BitsetInStream {
    const words: array<Word>
    const end: nat
    var p: nat
    var d: nat

    ghost predicate Valid()
      reads this
    {
      d < 64 && p <= end <= words.Length && (d > 0 ==> p < end)
    }

    constructor (words: array<Word>, end: nat)
      requires end <= words.Length
      ensures Valid() && p == 0 && d == 0 && this.words == words && this.end == end
    {
      this.words, this.end := words, end;
      p, d := 0, 0;
    }

    /** The decision of the video recorder for its next frame: draw when no bit is left. */
    method Updatable() returns (r: bool)
      requires Valid()
      modifies this
      ensures Valid()
      ensures var k := old(64 * p + d);
              if k < 64 * end then r == Flatten(words[..])[k] && 64 * p + d == k + 1
              else r && 64 * p + d == k
    {
      if p == end {
        return true;
      }
      r := words[p][d];
      d := d + 1;
      if d == 64 {
        d := 0;
        p := p + 1;
      }
    }
  }

  /** The end of a frame: the replayed time, and whether anything was drawn since the last one. */
  datatype Frame = Frame(time: int, drawn: bool)

  datatype Marks = Marks(next: int, pending: bool, first: bool, bits: seq<bool>)

  /** Where the next interval that starts after now begins. */
  function NextTime(next: int, now: int, interval: int): int
    requires interval > 0 && next <= now
  {
    next + (now - next) / interval * interval + interval
  }

  /** The flag of a frame, if there is one. */
  function Decide(m: Marks, now: int, interval: int, room: nat): Marks
    requires interval > 0
  {
    if m.first || |m.bits| >= room then m
    else if m.next <= now then
      m.(bits := m.bits + [m.pending], pending := false, next := NextTime(m.next, now, interval))
    else m.(bits := m.bits + [false])
  }

  function Step(m: Marks, f: Frame, interval: int, room: nat): Marks
    requires interval > 0
  {
    var m' := Decide(m, f.time, interval, room);
    m'.(first := false, pending := m'.pending || f.drawn)
  }

  function After(start: int, frames: seq<Frame>, interval: int, room: nat): Marks
    requires interval > 0
    decreases |frames|
  {
    if frames == [] then Marks(start, true, true, [])
    else Step(After(start, frames[..|frames| - 1], interval, room), frames[|frames| - 1], interval, room)
  }

  function WithLastFrame(m: Marks, room: nat): seq<bool> {
    if m.first || |m.bits| >= room then m.bits else m.bits + [m.pending]
  }

  /** Something is to be shown from frame k on: the frame drew, or it is the very first. */
  predicate ToShow(frames: seq<Frame>, k: int) {
    0 <= k < |frames| && (k == 0 || frames[k].drawn)
  }

  predicate NoneFrom(bits: seq<bool>, k: int, n: int)
    requires 0 <= k && n <= |bits|
  {
    forall j :: k <= j < n ==> !bits[j]
  }

  /** What has not been shown yet before bit n is decided. */
  ghost predicate Waiting(frames: seq<Frame>, bits: seq<bool>, n: int)
    requires 0 <= n <= |bits|
  {
    exists k :: 0 <= k <= n && ToShow(frames, k) && NoneFrom(bits, k, n)
  }

  /** The interval that frame j + 1, which decides bit j, ends in. */
  function Slot(start: int, frames: seq<Frame>, interval: int, j: int): int
    requires interval > 0 && 0 <= j < |frames| - 1
  {
    (frames[j + 1].time - start) / interval
  }

  // a true bit always has something new to show
  ghost predicate NoVainBit(frames: seq<Frame>, bits: seq<bool>)
    requires |bits| <= |frames|
  {
    forall j :: 0 <= j < |bits| && bits[j] ==> Waiting(frames, bits, j)
  }

  // at most one true bit an interval
  ghost predicate OneAnInterval(start: int, frames: seq<Frame>, interval: int, bits: seq<bool>)
    requires interval > 0
  {
    forall i, j :: 0 <= i < j < |bits| && j < |frames| - 1 && bits[i] && bits[j] ==>
      Slot(start, frames, interval, i) < Slot(start, frames, interval, j)
  }

  // something new is put off only when its interval was already looked at
  ghost predicate LookedAt(start: int, frames: seq<Frame>, interval: int, j: int)
    requires interval > 0 && 0 <= j < |frames| - 1
  {
    exists i :: 0 <= i < j && Slot(start, frames, interval, i) >= Slot(start, frames, interval, j)
  }

  ghost predicate NoIdleInterval(start: int, frames: seq<Frame>, interval: int, bits: seq<bool>)
    requires interval > 0 && |bits| <= |frames|
  {
    forall j :: 0 <= j < |bits| && j < |frames| - 1 && !bits[j] && Waiting(frames, bits, j) ==>
      start <= frames[j + 1].time ==> LookedAt(start, frames, interval, j)
  }

  ghost predicate Decimated(start: int, frames: seq<Frame>, interval: int, bits: seq<bool>)
    requires interval > 0 && |bits| <= |frames|
  {
    NoVainBit(frames, bits) && OneAnInterval(start, frames, interval, bits)
    && NoIdleInterval(start, frames, interval, bits)
  }

  function NextSlot(start: int, next: int, interval: int): int
    requires interval > 0
  {
    (next - start) / interval
  }

  /** The clock of the decimation stands at the start of the interval after the last one looked at. */
  ghost predicate ClockInv(start: int, frames: seq<Frame>, interval: int, m: Marks)
    requires interval > 0 && |m.bits| < |frames|
  {
    ClockAt(start, frames, interval, m.bits, m.next, NextSlot(start, m.next, interval))
  }

  ghost predicate ClockAt(start: int, frames: seq<Frame>, interval: int, bits: seq<bool>, next: int, s: int)
    requires interval > 0 && |bits| < |frames|
  {
    && next == start + s * interval && s >= 0
    && (forall i :: 0 <= i < |bits| && bits[i] ==> Slot(start, frames, interval, i) < s)
    && (s == 0 || exists i :: 0 <= i < |bits| && Slot(start, frames, interval, i) == s - 1)
  }

  ghost predicate Inv(start: int, frames: seq<Frame>, interval: int, room: nat, m: Marks)
    requires interval > 0
  {
    && |frames| > 0 && !m.first
    && |m.bits| == (if |frames| - 1 < room then |frames| - 1 else room)
    && ClockInv(start, frames, interval, m)
    && Decimated(start, frames, interval, m.bits)
    && (|m.bits| == |frames| - 1 ==> (m.pending <==> Waiting(frames, m.bits, |m.bits|)))
  }

  lemma DivBound(a: int, f: int)
    requires f > 0
    ensures a / f * f <= a < a / f * f + f
  {
  }

  lemma DivUnique(a: int, f: int, k: int)
    requires f > 0 && k * f <= a < k * f + f
    ensures a / f == k
  {
    DivBound(a, f);
    var q := a / f;
    assert q < k ==> (q + 1) * f <= k * f;
    assert k < q ==> (k + 1) * f <= q * f;
  }

  lemma SlotReached(start: int, t: int, next: int, k: int, interval: int)
    requires interval > 0 && next == start + k * interval
    ensures next <= t <==> k <= (t - start) / interval
  {
    DivBound(t - start, interval);
    var q := (t - start) / interval;
    assert k <= q ==> k * interval <= q * interval;
    assert q + 1 <= k ==> (q + 1) * interval <= k * interval;
  }

  lemma NextTimeIsSlot(start: int, k: int, next: int, now: int, interval: int)
    requires interval > 0 && next == start + k * interval && next <= now
    ensures var q := (now - start) / interval;
            && NextTime(next, now, interval) == start + (q + 1) * interval
            && NextSlot(start, NextTime(next, now, interval), interval) == q + 1
  {
    DivBound(now - next, interval);
    var q := (now - next) / interval;
    assert (k + q) * interval == k * interval + q * interval;
    DivUnique(now - start, interval, k + q);
    assert (k + q + 1) * interval == (k + q) * interval + interval;
    DivUnique((k + q + 1) * interval, interval, k + q + 1);
  }

  /** A new bit and a new frame change nothing of what was waiting before. */
  lemma WaitingKept(frames: seq<Frame>, bits: seq<bool>, f: Frame, more: seq<bool>, j: int)
    requires 0 <= j <= |bits| && j < |frames|
    ensures Waiting(frames + [f], bits + more, j) <==> Waiting(frames, bits, j)
  {
    forall k | 0 <= k <= j
      ensures ToShow(frames + [f], k) <==> ToShow(frames, k)
      ensures NoneFrom(bits + more, k, j) <==> NoneFrom(bits, k, j)
    {
      assert forall i :: k <= i < j ==> (bits + more)[i] == bits[i];
    }
  }

  lemma WaitingStep(frames: seq<Frame>, bits: seq<bool>, f: Frame, b: bool)
    requires |frames| == |bits| + 1
    ensures Waiting(frames + [f], bits + [b], |bits| + 1) <==> (f.drawn || (!b && Waiting(frames, bits, |bits|)))
  {
    var n := |bits|;
    var (fs, bs) := (frames + [f], bits + [b]);
    forall k | 0 <= k <= n
      ensures ToShow(fs, k) <==> ToShow(frames, k)
      ensures NoneFrom(bs, k, n + 1) <==> (!b && NoneFrom(bits, k, n))
    {
      assert bs[n] == b;
      assert forall i :: k <= i < n ==> bs[i] == bits[i];
    }
    assert ToShow(fs, n + 1) <==> f.drawn;
    assert NoneFrom(bs, n + 1, n + 1);
  }

  lemma Same(start: int, frames: seq<Frame>, interval: int, f: Frame)
    requires interval > 0
    ensures forall i :: 0 <= i < |frames| - 1 ==>
                          Slot(start, frames + [f], interval, i) == Slot(start, frames, interval, i)
    ensures forall i :: 0 <= i < |frames| - 1 && LookedAt(start, frames, interval, i) ==>
                          LookedAt(start, frames + [f], interval, i)
  {
    forall i | 0 <= i < |frames| - 1
      ensures Slot(start, frames + [f], interval, i) == Slot(start, frames, interval, i)
    {
      assert (frames + [f])[i + 1] == frames[i + 1];
    }
    forall i | 0 <= i < |frames| - 1 && LookedAt(start, frames, interval, i)
      ensures LookedAt(start, frames + [f], interval, i)
    {
      var k :| 0 <= k < i && Slot(start, frames, interval, k) >= Slot(start, frames, interval, i);
      assert Slot(start, frames + [f], interval, k) >= Slot(start, frames + [f], interval, i);
    }
  }

  /** Frames past the end of the buffer leave the bits alone. */
  lemma FullStep(start: int, frames: seq<Frame>, interval: int, room: nat, m: Marks, f: Frame)
    requires interval > 0 && Inv(start, frames, interval, room, m) && |m.bits| >= room
    ensures Inv(start, frames + [f], interval, room, Step(m, f, interval, room))
  {
    Same(start, frames, interval, f);
    var fs := frames + [f];
    assert m.bits + [] == m.bits;
    forall j | 0 <= j < |m.bits| ensures Waiting(fs, m.bits, j) <==> Waiting(frames, m.bits, j) {
      WaitingKept(frames, m.bits, f, [], j);
    }
  }

  lemma ClockStep(start: int, frames: seq<Frame>, interval: int, room: nat, m: Marks, f: Frame)
    requires interval > 0 && |m.bits| == |frames| - 1 && |m.bits| < room && !m.first
    requires ClockInv(start, frames, interval, m)
    ensures ClockInv(start, frames + [f], interval, Step(m, f, interval, room))
  {
    var (n, s, fs) := (|m.bits|, NextSlot(start, m.next, interval), frames + [f]);
    Same(start, frames, interval, f);
    if m.next <= f.time {
      NextTimeIsSlot(start, s, m.next, f.time, interval);
      SlotReached(start, f.time, m.next, s, interval);
      ClockMoves(start, frames, interval, m.bits, s, fs, m.pending, NextTime(m.next, f.time, interval));
    } else {
      ClockWaits(start, frames, interval, m.bits, m.next, s, fs);
    }
  }

  /** A flag that starts a new interval. */
  lemma ClockMoves(start: int, frames: seq<Frame>, interval: int, bits: seq<bool>, s: int, fs: seq<Frame>, b: bool, next: int)
    requires interval > 0 && |bits| == |frames| - 1 && |fs| == |frames| + 1
    requires forall i :: 0 <= i < |bits| ==> Slot(start, fs, interval, i) == Slot(start, frames, interval, i)
    requires forall i :: 0 <= i < |bits| && bits[i] ==> Slot(start, frames, interval, i) < s
    requires var q := Slot(start, fs, interval, |bits|); s <= q && s >= 0 && next == start + (q + 1) * interval
    ensures ClockAt(start, fs, interval, bits + [b], next, Slot(start, fs, interval, |bits|) + 1)
  {
    var (n, q) := (|bits|, Slot(start, fs, interval, |bits|));
    assert Slot(start, fs, interval, n) == (q + 1) - 1;
    assert forall i :: 0 <= i < n ==> (bits + [b])[i] == bits[i];
  }

  lemma ClockWaits(start: int, frames: seq<Frame>, interval: int, bits: seq<bool>, next: int, s: int, fs: seq<Frame>)
    requires interval > 0 && |bits| == |frames| - 1 && |fs| == |frames| + 1
    requires forall i :: 0 <= i < |bits| ==> Slot(start, fs, interval, i) == Slot(start, frames, interval, i)
    requires ClockAt(start, frames, interval, bits, next, s)
    ensures ClockAt(start, fs, interval, bits + [false], next, s)
  {
    var n := |bits|;
    assert forall i :: 0 <= i < n ==> (bits + [false])[i] == bits[i];
    if s != 0 {
      var i :| 0 <= i < n && Slot(start, frames, interval, i) == s - 1;
      assert Slot(start, fs, interval, i) == s - 1;
    }
  }

  /** Before the clock's next interval, the current one was looked at. */
  lemma IntervalSeen(start: int, frames: seq<Frame>, interval: int, m: Marks, f: Frame)
    requires interval > 0 && |m.bits| == |frames| - 1 && ClockInv(start, frames, interval, m)
    requires start <= f.time < m.next
    ensures LookedAt(start, frames + [f], interval, |m.bits|)
  {
    var (n, s, fs) := (|m.bits|, NextSlot(start, m.next, interval), frames + [f]);
    Same(start, frames, interval, f);
    SlotReached(start, f.time, m.next, s, interval);
    DivBound(f.time - start, interval);
    SlotReached(start, f.time, start, 0, interval);
    var i :| 0 <= i < n && Slot(start, frames, interval, i) == s - 1;
    assert Slot(start, fs, interval, i) >= Slot(start, fs, interval, n);
  }

  lemma BitsStep(start: int, frames: seq<Frame>, interval: int, room: nat, m: Marks, f: Frame)
    requires interval > 0 && Inv(start, frames, interval, room, m) && |m.bits| < room
    ensures Decimated(start, frames + [f], interval, Step(m, f, interval, room).bits)
  {
    var (n, s, fs) := (|m.bits|, NextSlot(start, m.next, interval), frames + [f]);
    Same(start, frames, interval, f);
    assert Slot(start, fs, interval, n) == (f.time - start) / interval;
    SlotReached(start, f.time, m.next, s, interval);
    if start <= f.time < m.next {
      IntervalSeen(start, frames, interval, m, f);
    }
    var b := m.next <= f.time && m.pending;
    var bs := m.bits + [b];
    assert Step(m, f, interval, room).bits == bs;
    forall j | 0 <= j <= n
      ensures Waiting(fs, bs, j) <==> Waiting(frames, m.bits, j)
    {
      WaitingKept(frames, m.bits, f, [b], j);
    }
    assert forall j :: 0 <= j < n ==> bs[j] == m.bits[j];
    forall j | 0 <= j <= n && !bs[j] && Waiting(fs, bs, j) && start <= fs[j + 1].time
      ensures LookedAt(start, fs, interval, j)
    {
      if j == n {
        assert f.time < m.next;
      } else {
        assert fs[j + 1] == frames[j + 1];
      }
    }
  }

  lemma StepKeepsInv(start: int, frames: seq<Frame>, interval: int, room: nat, m: Marks, f: Frame)
    requires interval > 0 && Inv(start, frames, interval, room, m)
    ensures Inv(start, frames + [f], interval, room, Step(m, f, interval, room))
  {
    if |m.bits| >= room {
      FullStep(start, frames, interval, room, m, f);
    } else {
      ClockStep(start, frames, interval, room, m, f);
      BitsStep(start, frames, interval, room, m, f);
      WaitingStep(frames, m.bits, f, m.next <= f.time && m.pending);
    }
  }

  lemma {:induction false} AfterKeepsInv(start: int, frames: seq<Frame>, interval: int, room: nat)
    requires interval > 0 && frames != []
    ensures Inv(start, frames, interval, room, After(start, frames, interval, room))
    decreases |frames|
  {
    var (before, f) := (frames[..|frames| - 1], frames[|frames| - 1]);
    assert frames == before + [f];
    if before == [] {
      assert After(start, before, interval, room) == Marks(start, true, true, []);
      assert NextSlot(start, start, interval) == 0;
      assert ToShow(frames, 0) && NoneFrom([], 0, 0);
    } else {
      AfterKeepsInv(start, before, interval, room);
      StepKeepsInv(start, before, interval, room, After(start, before, interval, room), f);
    }
  }

  /** With room for them, n frames give n bits: every drawing is flagged at its own frame or later,
      nothing is flagged in vain, and never twice in one interval. */
  lemma EveryDrawingIsFlagged(start: int, frames: seq<Frame>, interval: int, room: nat)
    requires interval > 0 && 0 < |frames| <= room
    ensures var bits := WithLastFrame(After(start, frames, interval, room), room);
            && |bits| == |frames| && Decimated(start, frames, interval, bits)
            && forall k :: ToShow(frames, k) ==> exists j :: k <= j < |bits| && bits[j]
  {
    AfterKeepsInv(start, frames, interval, room);
    var m := After(start, frames, interval, room);
    var (n, bits) := (|m.bits|, WithLastFrame(m, room));
    assert bits == m.bits + [m.pending];
    forall j | 0 <= j <= n ensures Waiting(frames, bits, j) <==> Waiting(frames, m.bits, j) {
      forall k | 0 <= k <= j ensures NoneFrom(bits, k, j) <==> NoneFrom(m.bits, k, j) {
        assert forall i :: k <= i < j ==> bits[i] == m.bits[i];
      }
    }
    assert forall j :: 0 <= j < n ==> bits[j] == m.bits[j];
    forall k | ToShow(frames, k) ensures exists j :: k <= j < |bits| && bits[j] {
      if NoneFrom(m.bits, k, n) {
        assert bits[n];
      } else {
        var j :| k <= j < n && m.bits[j];
        assert bits[j];
      }
    }
  }

  class UpdatableFrameMarkerEnd {
    const interval: int
    const stream: BitsetOutStream
    var nextTime: int
    var previousDrawingEvent: bool
    var firstFrame: bool
    var hasDrawingEvent: bool

    ghost predicate Valid()
      reads this, stream
    {
      interval > 0 && stream.Valid()
    }

    ghost function Room(): nat { 64 * stream.words.Length }

    ghost function State(): Marks
      requires Valid()
      reads this, stream, stream.words
    {
      Marks(nextTime, previousDrawingEvent, firstFrame, stream.Written())
    }

    constructor (start: int, interval: int, size: nat)
      requires interval > 0
      ensures Valid() && this.interval == interval && Room() == 64 * size
      ensures State() == After(start, [], interval, 64 * size) && !hasDrawingEvent
      ensures fresh(stream) && fresh(stream.words)
    {
      this.interval := interval;
      nextTime, previousDrawingEvent, firstFrame, hasDrawingEvent := start, true, true, false;
      stream := new BitsetOutStream(size);
    }

    method IsUpdatableFrame() returns (r: bool)
      requires Valid()
      ensures r <==> !firstFrame && |stream.Written()| < Room()
    {
      r := !firstFrame && stream.p != stream.words.Length;
    }

    /** A FrameEnd marker at the replayed time now. */
    method FrameEnd(now: int)
      requires Valid()
      modifies this, stream, stream.words
      ensures Valid() && !hasDrawingEvent
      ensures State() == Step(old(State()), Frame(now, old(hasDrawingEvent)), interval, Room())
    {
      WriteFlag(now);
      firstFrame := false;
      previousDrawingEvent := previousDrawingEvent || hasDrawingEvent;
      hasDrawingEvent := false;
    }

    method WriteFlag(now: int)
      requires Valid()
      modifies this`nextTime, this`previousDrawingEvent, stream, stream.words
      ensures Valid() && State() == Decide(old(State()), now, interval, Room())
    {
      var updatable := IsUpdatableFrame();
      if updatable {
        if nextTime <= now {
          stream.Write(previousDrawingEvent);
          previousDrawingEvent := false;
          var elapsed := now - nextTime;
          nextTime := nextTime + elapsed / interval * interval + interval;
        } else {
          stream.Write(false);
        }
      }
    }

    method LastFrame()
      requires Valid()
      modifies this, stream, stream.words
      ensures Valid()
      ensures stream.Written() == WithLastFrame(old(State()), Room())
    {
      var updatable := IsUpdatableFrame();
      if updatable {
        stream.Write(previousDrawingEvent);
      }
    }
  }

  /** The first pass: the words it keeps and how many of them the second pass gets. A partial first
      word is thrown away. */
  method ComputeRegions(start: int, interval: int, frames: seq<Frame>, size: nat)
    returns (words: array<Word>, len: nat)
    requires interval > 0
    ensures var bits := WithLastFrame(After(start, frames, interval, 64 * size), 64 * size);
            && len <= words.Length == size
            && (|bits| < 64 <==> len == 0)
            && (len > 0 ==> 64 * len - 64 < |bits| <= 64 * len && Flatten(words[..])[..|bits|] == bits)
  {
    var marker := new UpdatableFrameMarkerEnd(start, interval, size);
    for i := 0 to |frames|
      invariant marker.Valid() && !marker.hasDrawingEvent && fresh(marker) && fresh(marker.stream)
      invariant marker.interval == interval && marker.Room() == 64 * size && fresh(marker.stream.words)
      invariant marker.State() == After(start, frames[..i], interval, 64 * size)
    {
      marker.hasDrawingEvent := frames[i].drawn;
      marker.FrameEnd(frames[i].time);
      assert frames[..i + 1][..i] == frames[..i];
    }
    assert frames[..|frames|] == frames;
    marker.LastFrame();
    words := marker.stream.words;
    if marker.stream.p != 0 {
      len := marker.stream.p + (if marker.stream.d != 0 then 1 else 0);
    } else {
      len := 0;
    }
  }

  /** The decision that the second pass finds for its k-th frame marker: yes when there is no flag. */
  function Decision(bits: seq<bool>, k: nat): bool {
    |bits| < 64 || k >= |bits| || bits[k]
  }

  /** What the second pass gets from the first one. */
  ghost predicate Holds(words: array<Word>, len: nat, bits: seq<bool>, n: nat)
    reads words
  {
    && len <= words.Length && (|bits| < 64 <==> len == 0)
    && (len > 0 ==> |bits| <= 64 * len && Flatten(words[..])[..|bits|] == bits)
    && (|bits| < n ==> |bits| == 64 * len || len == 0)
  }

  /** Asking once more. */
  method NextDecision(stream: BitsetInStream, ghost bits: seq<bool>, ghost n: nat, ghost k: nat) returns (r: bool)
    requires stream.Valid() && Holds(stream.words, stream.end, bits, n) && k < n
    requires 64 * stream.p + stream.d == if k < 64 * stream.end then k else 64 * stream.end
    modifies stream
    ensures stream.Valid() && r == Decision(bits, k)
    ensures 64 * stream.p + stream.d == if k + 1 < 64 * stream.end then k + 1 else 64 * stream.end
  {
    r := stream.Updatable();
    assert stream.end > 0 && k < |bits| ==> Flatten(stream.words[..])[..|bits|][k] == bits[k];
  }

  /** Every drawing has a decision to draw at its own marker or later, however many flags were kept or
      thrown away, and also when they run out. */
  lemma EveryDrawingHasADecision(start: int, frames: seq<Frame>, interval: int, room: nat)
    requires interval > 0
    ensures var bits := WithLastFrame(After(start, frames, interval, room), room);
            forall k :: ToShow(frames, k) ==> exists j :: k <= j < |frames| && Decision(bits, j)
  {
    var bits := WithLastFrame(After(start, frames, interval, room), room);
    if frames != [] {
      AfterKeepsInv(start, frames, interval, room);
      if |frames| <= room {
        EveryDrawingIsFlagged(start, frames, interval, room);
        forall k | ToShow(frames, k) ensures exists j :: k <= j < |frames| && Decision(bits, j) {
          var j :| k <= j < |bits| && bits[j];
          assert Decision(bits, j);
        }
      } else {
        assert Decision(bits, |frames| - 1);
      }
    }
  }
}
