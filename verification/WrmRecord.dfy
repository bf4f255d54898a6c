/** What each operation of the recorder writes and remembers: the specification of GraphicToFile
    and of the keyboard path of WrmCaptureImpl, chunk by chunk. */
module WrmRecord {
  import opened Bytes
  import opened WrmFormat
  import opened WrmImage
  import P = WrmPlayer

  const KEYBUF_SIZE: nat := 128
  const MAX_IMAGE_PART: nat := 65528
  // RDPSerializer batches
  const MAX_BATCH: nat := 4096
  const MAX_PACKET_SIZE: nat := 16384
  const SERIALIZER_HEADER_SIZE: nat := 106
  const SAVE_STATE_SIZE: nat := 4096
  const META_SIZE: nat := 40

  const STAR: nat := 42

  datatype Rec = Rec(
    start: int, timer: int, monoReal: int, lastReal: int,
    mouseX: nat, mouseY: nat,
    keys: seq<nat>, masked: bool,
    // slots already written to the current file, and the cursors the source holds
    cached: set<nat>, source: map<nat, Cursor>,
    // pending batches
    orders: seq<seq<byte>>, bitmaps: seq<seq<byte>>,
    // finished files, and the current one
    files: seq<seq<Chunk>>, out: seq<Chunk>)

  /** The real time the recorder assigns to the instant t. */
  function RealAt(r: Rec, t: int): int { r.lastReal + (t - r.monoReal) }

  /** Durations are cut to whole microseconds, toward zero, when they are written. */
  function Micros(ns: int): int {
    if ns >= 0 then ns / 1000 else -((-ns) / 1000)
  }

  /** What is left of a duration once it has been through the file. */
  function Cut(ns: int): int { Micros(ns) * 1000 }

  function Le64(us: int): (r: seq<byte>)
    requires us >= 0
    ensures |r| == 8
  {
    U64Le(us)
  }

  function TimesChunk(r: Rec): Chunk
    requires r.timer >= r.start && r.lastReal >= 0
  {
    Chunk(TIMES, 1, Le64(Micros(r.timer - r.start)) + Le64(Micros(r.lastReal)))
  }

  function Mouse(r: Rec): (s: seq<byte>)
    ensures |s| == 4
  {
    U16Le(r.mouseX) + U16Le(r.mouseY)
  }

  function TimestampChunk(r: Rec): Chunk
    requires r.timer >= r.start
  {
    Chunk(TIMESTAMP, 1,
          Le64(Micros(r.timer - r.start)) + (Mouse(r) + ([0] + EncodeKeys(r.keys))))
  }

  function OrderChunks(r: Rec): seq<Chunk> {
    if r.orders == [] then [] else [Chunk(RDP_UPDATE_ORDERS, |r.orders|, Concat(r.orders))]
  }

  function BitmapChunks(r: Rec): seq<Chunk> {
    if r.bitmaps == [] then [] else [Chunk(RDP_UPDATE_BITMAP2, |r.bitmaps|, Concat(r.bitmaps))]
  }

  function FlushChunks(r: Rec): seq<Chunk> { OrderChunks(r) + BitmapChunks(r) }

  /** Whether a batch must be sent before asked more bytes are added to it. */
  predicate Full(batch: seq<seq<byte>>, asked: nat) {
    |batch| >= MAX_BATCH || |Concat(batch)| + asked + SERIALIZER_HEADER_SIZE > MAX_PACKET_SIZE
  }

  datatype Op =
    | DrawOrder(order: seq<byte>, asked: nat)
    | DrawBitmap(bitmap: seq<byte>)
    | KbdInput(code: nat)
    | KbdMask(enable: bool)
    | MouseMove(x: nat, y: nat)
    | Timestamp(now: int)
    | SendTimestamp
    | UpdateTimes(now: int, realNow: int)
    | SessionUpdate(now: int, id: nat, kvs: seq<Kv>)
    | WindowChange
    | NewPointer(idx: nat, cursor: Cursor)
    | CachedPointer(idx: nat)
    | PredefinedPointer(pointer: nat)
    | Breakpoint(saveState: seq<byte>, png: seq<byte>, meta: seq<byte>)

  function SetTimer(r: Rec, now: int): Rec {
    r.(timer := if r.timer < now then now else r.timer)
  }

  function UpdateMessage(id: nat, kvs: seq<Kv>): seq<byte>
  {
    var kept := KeptKvs(kvs, UPDATE_BUFFER - UPDATE_FIXED);
    U32Le(id) + (Le(|kept|, 1) + EncodeKvs(kept))
  }

  function UpdateChunk(r: Rec, now: int, id: nat, kvs: seq<Kv>): Chunk
    requires -TWO_63 <= Micros(now - r.start) < TWO_63
  {
    var m := UpdateMessage(id, kvs);
    Chunk(SESSION_UPDATE, 1, I64Le(Micros(now - r.start)) + (U16Le(|m|) + m))
  }

  function PendingInput(r: Rec): seq<Chunk>
    requires r.timer >= r.start
  {
    if r.keys == [] then [] else [TimestampChunk(r)]
  }

  function NativeChunk(idx: nat, c: Cursor): Chunk {
    Chunk(POINTER_NATIVE, 0, EncodeCursor(idx, c))
  }

  /** len finds the end of o whatever comes after it. */
  ghost predicate Delimits(o: seq<byte>, len: seq<byte> -> nat) {
    forall s :: len(o + s) == |o|
  }

  /** What the caller of each operation guarantees: clocks that do not go back, cursors that exist,
      drawings that fit a chunk. */
  predicate Fits(r: Rec, op: Op) {
    match op
    case DrawOrder(o, asked) => 0 < |o| <= asked <= MAX_IMAGE_PART
    case DrawBitmap(b) => 0 < |b| <= MAX_IMAGE_PART
    case KbdInput(code) => code < TWO_32
    case KbdMask(_) => true
    case MouseMove(x, y) => x < TWO_16 && y < TWO_16
    case Timestamp(now) => now >= r.timer && InRange(r, now)
    case SendTimestamp => true
    case UpdateTimes(now, realNow) => now >= r.timer && now - r.start < TWO_63 && 0 <= realNow < TWO_63
    case SessionUpdate(now, id, kvs) =>
      -TWO_63 <= now - r.start && InRange(r, now) && id < TWO_32 && ValidKvs(kvs)
    case WindowChange => true
    case NewPointer(idx, c) => idx < P.MAX_POINTER_COUNT && ValidCursor(c)
    case CachedPointer(idx) => idx in r.source
    case PredefinedPointer(i) => i < P.PREDEFINED_POINTER_COUNT
    case Breakpoint(state, png, meta) => |state| <= SAVE_STATE_SIZE && |meta| <= META_SIZE && png != []
  }

  /** The same, with drawings that delimit themselves. */
  ghost predicate Legal(r: Rec, op: Op, codec: P.Codec) {
    && Fits(r, op)
    && (op.DrawOrder? ==> Delimits(op.order, codec.orderLen))
    && (op.DrawBitmap? ==> Delimits(op.bitmap, codec.bitmapLen))
  }

  /** The instant fits the clocks, on both the monotonic and the real axis. */
  predicate InRange(r: Rec, now: int) {
    now - r.start < TWO_63 && RealAt(r, now) < TWO_63
  }

  /** The chunks the operation adds to the current file; for a breakpoint, before closing it. */
  function Emitted(r: Rec, op: Op): seq<Chunk>
    requires Valid(r)
    requires op.SessionUpdate? ==> -TWO_63 <= op.now - r.start < TWO_63
    requires op.UpdateTimes? ==> op.now >= r.start && op.realNow >= 0
    requires op.CachedPointer? ==> op.idx in r.source
  {
    match op
    case DrawOrder(o, asked) => BitmapChunks(r) + (if Full(r.orders, asked) then OrderChunks(r) else [])
    case DrawBitmap(b) => OrderChunks(r) + (if Full(r.bitmaps, |b|) then BitmapChunks(r) else [])
    case KbdInput(_) => []
    case KbdMask(enable) => [Chunk(KBD_INPUT_MASK, 1, [if enable then 1 else 0])]
    case MouseMove(_, _) => []
    case Timestamp(_) => FlushChunks(r)
    case SendTimestamp => [TimestampChunk(r)]
    case UpdateTimes(now, realNow) => FlushChunks(r) + [TimesChunk(r.(timer := now, lastReal := realNow))]
    case SessionUpdate(now, id, kvs) => PendingInput(SetTimer(r, now)) + [UpdateChunk(r, now, id, kvs)]
    case WindowChange => PendingInput(r) + [Chunk(POSSIBLE_ACTIVE_WINDOW_CHANGE, 0, [])]
    case NewPointer(idx, c) => [NativeChunk(idx, c)]
    case CachedPointer(idx) =>
      if idx in r.cached then [Chunk(CACHED_POINTER, 0, Mouse(r) + Le(idx, 1))]
      else [NativeChunk(idx, r.source[idx])]
    case PredefinedPointer(i) => [Chunk(INTERNAL_POINTER, 0, Mouse(r) + Le(i, 1))]
    case Breakpoint(_, _, _) => FlushChunks(r) + [TimestampChunk(r)]
  }

  /** The clock after a breakpoint: the real-time mapping is rebased on the current instant. */
  function Rebase(r: Rec): Rec {
    r.(lastReal := r.lastReal + (r.timer - r.monoReal), monoReal := r.timer)
  }

  /** The first chunks of a file. */
  function Opening(r: Rec, state: seq<byte>, png: seq<byte>, meta: seq<byte>): seq<Chunk>
    requires r.timer >= r.start && r.lastReal >= 0
  {
    [Chunk(META_FILE, 1, meta), TimesChunk(r), TimestampChunk(r), Chunk(SAVE_STATE, 1, state)]
    + ImageChunks(png, MAX_IMAGE_PART)
  }

  /** The recorder's state once the operation has written to the current file. */
  function After(r: Rec, op: Op): Rec {
    match op
    case DrawOrder(o, asked) =>
      r.(bitmaps := [], orders := (if Full(r.orders, asked) then [] else r.orders) + [o])
    case DrawBitmap(b) =>
      r.(orders := [], bitmaps := (if Full(r.bitmaps, |b|) then [] else r.bitmaps) + [b])
    case KbdInput(code) => r.(keys := r.keys + Typed(r, op))
    case KbdMask(enable) => r.(masked := enable)
    case MouseMove(x, y) => r.(mouseX := x, mouseY := y)
    case Timestamp(now) => r.(orders := [], bitmaps := [], timer := now)
    case SendTimestamp => r.(keys := [])
    case UpdateTimes(now, realNow) =>
      r.(orders := [], bitmaps := [], timer := now, monoReal := now, lastReal := realNow)
    case SessionUpdate(now, _, _) => SetTimer(r, now).(keys := [])
    case WindowChange => r.(keys := [])
    case NewPointer(idx, c) => r.(cached := r.cached + {idx}, source := r.source[idx := c])
    case CachedPointer(idx) => r.(cached := r.cached + {idx})
    case PredefinedPointer(_) => r
    case Breakpoint(_, _, _) => r.(orders := [], bitmaps := [], keys := [], cached := {})
  }

  function Step(r: Rec, op: Op): Rec
    requires Valid(r)
    requires op.SessionUpdate? ==> -TWO_63 <= op.now - r.start < TWO_63
    requires op.UpdateTimes? ==> op.now >= r.start && op.realNow >= 0
    requires op.CachedPointer? ==> op.idx in r.source
  {
    var out := r.out + Emitted(r, op);
    if op.Breakpoint? then
      var q := Rebase(After(r, op));
      q.(files := r.files + [out], out := Opening(q, op.saveState, op.png, op.meta))
    else
      After(r, op).(out := out)
  }

  /** The first file of a session. */
  function Open(now: int, realNow: int, source: map<nat, Cursor>, png: seq<byte>, meta: seq<byte>): Rec
    requires realNow >= 0
  {
    var r := Rec(now, now, now, realNow, 0, 0, [], false, {}, source, [], [], [], []);
    r.(out := [Chunk(META_FILE, 1, meta)] + ImageChunks(png, MAX_IMAGE_PART) + [TimesChunk(r)])
  }

  // ----- What the operations are for -----

  /** The cursor an operation shows. */
  function Shown(r: Rec, op: Op): seq<P.Display>
    requires op.CachedPointer? ==> op.idx in r.source
  {
    match op
    case NewPointer(_, c) => [P.Custom(c)]
    case CachedPointer(idx) => [P.Custom(r.source[idx])]
    case PredefinedPointer(i) => [P.Predefined(i)]
    case _ => []
  }

  /** The keys an operation records: a masked key is a star, and a full buffer drops the key. */
  function Typed(r: Rec, op: Op): seq<nat> {
    if op.KbdInput? && |r.keys| < KEYBUF_SIZE then [if r.masked then STAR else op.code] else []
  }

  function Drawn(op: Op): seq<P.Drawing> {
    match op
    case DrawOrder(o, _) => [P.Order(o)]
    case DrawBitmap(b) => [P.Bitmap(b)]
    case _ => []
  }

  function AsDrawing(s: seq<byte>, bitmap: bool): P.Drawing {
    if bitmap then P.Bitmap(s) else P.Order(s)
  }

  function AsDrawings(ss: seq<seq<byte>>, bitmap: bool): (r: seq<P.Drawing>)
    ensures |r| == |ss|
  {
    if ss == [] then [] else [AsDrawing(ss[0], bitmap)] + AsDrawings(ss[1..], bitmap)
  }

  /** Drawings still waiting in the recorder. */
  function Pending(r: Rec): seq<P.Drawing> {
    AsDrawings(r.orders, false) + AsDrawings(r.bitmaps, true)
  }

  // ----- What single operations change -----

  /** Keys are buffered as they are, or as a star under the mask, up to 128 of them. */
  lemma KeyIsBuffered(r: Rec, code: nat)
    ensures var keys := After(r, KbdInput(code)).keys;
            keys == if |r.keys| >= 128 then r.keys else r.keys + [if r.masked then 42 else code]
  {
    assert r.keys + [] == r.keys;
  }

  /** After update_times an instant has the given real time, and the others follow. */
  lemma TimesAreUpdated(r: Rec, now: int, realNow: int, t: int)
    ensures RealAt(After(r, UpdateTimes(now, realNow)), t) == realNow + (t - now)
  {
  }

  /** A drawing writes nothing while the batch of its kind has room and the other one is empty. */
  lemma DrawingWaits(r: Rec, op: Op)
    requires Valid(r) && (op.DrawOrder? || op.DrawBitmap?)
    ensures var (own, other, asked) := if op.DrawOrder? then (r.orders, r.bitmaps, op.asked)
                                       else (r.bitmaps, r.orders, |op.bitmap|);
            Emitted(r, op) == [] <==>
              other == [] && (own == [] || (|own| < 4096 && |Concat(own)| + asked + 106 <= 16384))
  {
  }

  /** A cursor that this file has is sent by its index alone, in five bytes; one that it does not have in
      full, and only once. */
  lemma CursorIsSentOnce(r: Rec, idx: nat)
    requires Valid(r) && idx in r.source
    ensures idx in After(r, CachedPointer(idx)).cached
    ensures Emitted(r, CachedPointer(idx)) == [if idx in r.cached then Chunk(CACHED_POINTER, 0, Mouse(r) + Le(idx, 1))
                                               else NativeChunk(idx, r.source[idx])]
    ensures |Mouse(r) + Le(idx, 1)| == 5
  {
  }

  /** A new file starts with the contents and the state that it was given. */
  lemma FileIsOpened(r: Rec, op: Op)
    requires Valid(r) && op.Breakpoint?
    ensures var out := Step(r, op).out;
            && |out| >= 4 && out[0] == Chunk(0x3EE, 1, op.meta) && out[3] == Chunk(0x1002, 1, op.saveState)
            && out[4..] == ImageChunks(op.png, 65528)
  {
  }

  // ----- Invariant -----

  ghost predicate Delimited(batch: seq<seq<byte>>, len: seq<byte> -> nat) {
    forall o | o in batch :: 0 < |o| && Delimits(o, len)
  }

  predicate BatchFits(batch: seq<seq<byte>>) {
    |batch| <= MAX_BATCH && |Concat(batch)| <= MAX_IMAGE_PART
  }

  predicate Valid(r: Rec) {
    && r.start <= r.monoReal <= r.timer && r.timer - r.start < TWO_63
    && 0 <= r.lastReal && RealAt(r, r.timer) < TWO_63
    && r.mouseX < TWO_16 && r.mouseY < TWO_16
    && |r.keys| <= KEYBUF_SIZE && (forall k | k in r.keys :: k < TWO_32)
    && r.cached <= r.source.Keys
    && (forall i | i in r.source :: i < P.MAX_POINTER_COUNT && ValidCursor(r.source[i]))
    && BatchFits(r.orders) && BatchFits(r.bitmaps)
    && (r.orders == [] || r.bitmaps == [])
  }

  ghost predicate ValidFor(r: Rec, codec: P.Codec) {
    && Valid(r)
    && Delimited(r.orders, codec.orderLen)
    && Delimited(r.bitmaps, codec.bitmapLen)
  }

  lemma BatchGrows(batch: seq<seq<byte>>, o: seq<byte>, asked: nat)
    requires BatchFits(batch) && |o| <= asked <= MAX_IMAGE_PART
    ensures BatchFits((if Full(batch, asked) then [] else batch) + [o])
  {
    var kept := if Full(batch, asked) then [] else batch;
    ConcatAppend(kept, [o]);
    assert Concat([o]) == o + Concat([o][1..]);
  }

  lemma MicrosRange(ns: int)
    ensures ns >= 0 ==> 0 <= Micros(ns) <= ns && 0 <= ns - Cut(ns) < 1000
    ensures ns < 0 ==> ns <= Micros(ns) <= 0 && Cut(ns) <= 0
    ensures -TWO_63 <= ns < TWO_63 ==> -TWO_63 <= Micros(ns) < TWO_63
  {
  }

  lemma MicrosMonotone(a: int, b: int)
    requires a <= b
    ensures Cut(a) <= Cut(b)
  {
  }

  lemma DrawStaysValid(r: Rec, op: Op)
    requires Valid(r) && Fits(r, op) && (op.DrawOrder? || op.DrawBitmap?)
    ensures Valid(After(r, op))
  {
    if op.DrawOrder? {
      BatchGrows(r.orders, op.order, op.asked);
    } else {
      BatchGrows(r.bitmaps, op.bitmap, |op.bitmap|);
    }
  }

  lemma AfterStaysValid(r: Rec, op: Op)
    requires Valid(r) && Fits(r, op)
    ensures Valid(After(r, op))
  {
    if op.DrawOrder? || op.DrawBitmap? {
      DrawStaysValid(r, op);
    }
  }

  lemma StepStaysValid(r: Rec, op: Op)
    requires Valid(r) && Fits(r, op)
    ensures Valid(Step(r, op))
  {
    AfterStaysValid(r, op);
  }

  lemma AfterKeepsValid(r: Rec, op: Op, codec: P.Codec)
    requires ValidFor(r, codec) && Legal(r, op, codec)
    ensures ValidFor(After(r, op), codec)
  {
    AfterStaysValid(r, op);
  }

  lemma StepKeepsValid(r: Rec, op: Op, codec: P.Codec)
    requires ValidFor(r, codec) && Legal(r, op, codec)
    ensures ValidFor(Step(r, op), codec)
  {
    AfterKeepsValid(r, op, codec);
  }

  /** Every operation but update_times keeps the real time of every instant; a breakpoint too,
      although it rebases the mapping on the current instant. */
  lemma StepKeepsMapping(r: Rec, op: Op, t: int)
    requires !op.UpdateTimes?
    ensures var s := if op.Breakpoint? then Rebase(After(r, op)) else After(r, op);
            RealAt(s, t) == RealAt(r, t)
  {
  }
}
