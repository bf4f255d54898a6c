/** The player reproduces the recording: what it rebuilds from the chunks of every run of the
    recorder is what the recorder was given, file by file and over the whole session. */
module WrmSimulation {
  import opened Bytes
  import opened WrmFormat
  import opened WrmImage
  import opened WrmRecord
  import P = WrmPlayer

  /** The player knows the cursor of every slot the recorder may refer to. */
  ghost predicate Cursors(r: Rec, p: P.Player) {
    forall i | i in r.cached :: i in p.cache && i in r.source && p.cache[i] == r.source[i]
  }

  /** The player can draw, and maps instants to real time from the same point. */
  predicate Mapping(r: Rec, p: P.Player) {
    && p.metaOk && p.timestampOk && p.image.None?
    && p.lastReal == Cut(r.lastReal)
    && p.monoReal == Cut(r.monoReal - r.start)
  }

  predicate OnTime(r: Rec, p: P.Player) { p.recordNow <= Cut(r.timer - r.start) }

  /** The player is in step with the recorder, except for what is still buffered. */
  ghost predicate Core(r: Rec, p: P.Player) {
    Mapping(r, p) && Cursors(r, p) && OnTime(r, p)
  }

  function Codes(keys: seq<P.Key>): (r: seq<nat>)
    ensures |r| == |keys|
  {
    if keys == [] then [] else [keys[0].code] + Codes(keys[1..])
  }

  lemma {:induction false} CodesAppend(xs: seq<P.Key>, ys: seq<P.Key>)
    ensures Codes(xs + ys) == Codes(xs) + Codes(ys)
  {
    if xs == [] {
      assert xs + ys == ys;
    } else {
      assert (xs + ys)[1..] == xs[1..] + ys;
      CodesAppend(xs[1..], ys);
    }
  }

  lemma {:induction false} CodesOfStamp(now: int, codes: seq<nat>)
    ensures Codes(P.Stamp(now, codes)) == codes
  {
    if codes != [] {
      var s := P.Stamp(now, codes);
      assert s[1..] == P.Stamp(now, codes[1..]);
      CodesOfStamp(now, codes[1..]);
      assert [codes[0]] + codes[1..] == codes;
    }
  }

  // ----- One chunk -----

  function Count(p: P.Player, n: nat): P.Player { p.(interpreted := p.interpreted + n) }

  function AfterTimes(r: Rec, p: P.Player): P.Player {
    Count(p, 1).(recordNow := Cut(r.timer - r.start), monoReal := Cut(r.timer - r.start),
                 lastReal := Cut(r.lastReal), timestampOk := true)
  }

  lemma Read64(us: int, rest: seq<byte>)
    requires 0 <= us < TWO_63
    ensures FromLe((Le64(us) + rest)[..8]) == us && (Le64(us) + rest)[8..] == rest
  {
    LeWidths(us);
    assert (Le64(us) + rest)[..8] == U64Le(us);
  }

  /** A chunk that announces no order, or one, is interpreted once. */
  lemma RecordOnce(p: P.Player, c: Chunk, q: P.Player, rest: seq<byte>, codec: P.Codec)
    requires !IsImage(c.kind) && !P.IsDrawing(c.kind) && c.count <= 1 && p.image.None?
    requires P.PlayRecord(Count(p, 1), c.kind, WRM_HEADER_SIZE + |c.payload|, c.payload) == Some((q, rest))
    ensures P.PlayChunk(p, c, codec) == Some(q)
  {
  }

  lemma TwoTimes(p: P.Player, a: int, b: int)
    requires 0 <= a < TWO_63 && 0 <= b < TWO_63
    ensures P.PlayTimes(p, Le64(a) + Le64(b))
            == Some((p.(recordNow := a * 1000, lastReal := b * 1000, monoReal := a * 1000, timestampOk := true), []))
  {
    var s := Le64(a) + Le64(b);
    Read64(a, Le64(b));
    Read64(b, []);
    assert Le64(b) + [] == Le64(b);
    assert s[8..16] == Le64(b) && s[16..] == [];
    assert Le64(b)[..8] == Le64(b);
  }

  lemma TimesPlays(r: Rec, p: P.Player, codec: P.Codec)
    requires 0 <= r.timer - r.start < TWO_63 && 0 <= r.lastReal < TWO_63 && p.image.None?
    ensures P.PlayChunk(p, TimesChunk(r), codec) == Some(AfterTimes(r, p))
  {
    MicrosRange(r.timer - r.start);
    MicrosRange(r.lastReal);
    TwoTimes(Count(p, 1), Micros(r.timer - r.start), Micros(r.lastReal));
    RecordOnce(p, TimesChunk(r), AfterTimes(r, p), [], codec);
  }

  function AfterTimestamp(r: Rec, p: P.Player): P.Player {
    var now := Cut(r.timer - r.start);
    Count(p, 1).(recordNow := now, timestampOk := true, mouseX := r.mouseX, mouseY := r.mouseY,
                 keys := p.keys + P.Stamp(now, r.keys))
  }

  lemma MouseReads(x: nat, y: nat, rest: seq<byte>)
    requires x < TWO_16 && y < TWO_16
    ensures var s := U16Le(x) + U16Le(y) + rest;
            FromLe(s[..2]) == x && FromLe(s[2..4]) == y && s[4..] == rest
  {
    LeWidths(x);
    LeWidths(y);
    var s := U16Le(x) + U16Le(y) + rest;
    assert s[..2] == U16Le(x) && s[2..4] == U16Le(y);
  }

  lemma InputPlays(r: Rec, p: P.Player)
    requires Valid(r)
    ensures P.PlayInput(p, Mouse(r) + ([0] + EncodeKeys(r.keys)))
            == Some((p.(mouseX := r.mouseX, mouseY := r.mouseY,
                        keys := p.keys + P.Stamp(p.recordNow, r.keys)), []))
  {
    var tail := [0] + EncodeKeys(r.keys);
    var input := Mouse(r) + tail;
    MouseReads(r.mouseX, r.mouseY, tail);
    KeysRoundTrip(r.keys);
    assert input[5..] == tail[1..] == EncodeKeys(r.keys);
  }

  lemma TimestampPlays(r: Rec, p: P.Player, codec: P.Codec)
    requires Valid(r) && p.image.None?
    ensures P.PlayChunk(p, TimestampChunk(r), codec) == Some(AfterTimestamp(r, p))
  {
    var us := Micros(r.timer - r.start);
    var q := Count(p, 1).(recordNow := us * 1000, timestampOk := true);
    MicrosRange(r.timer - r.start);
    TimestampReads(r, Count(p, 1), us);
    InputPlays(r, q);
    assert AfterTimestamp(r, p)
           == q.(mouseX := r.mouseX, mouseY := r.mouseY, keys := q.keys + P.Stamp(q.recordNow, r.keys));
    RecordOnce(p, TimestampChunk(r), AfterTimestamp(r, p), [], codec);
  }

  lemma TimestampReads(r: Rec, p: P.Player, us: int)
    requires r.timer >= r.start && us == Micros(r.timer - r.start) && 0 <= us < TWO_63
    ensures P.PlayTimestamp(p, TimestampChunk(r).payload)
            == P.PlayInput(p.(recordNow := us * 1000, timestampOk := true), Mouse(r) + ([0] + EncodeKeys(r.keys)))
  {
    var input := Mouse(r) + ([0] + EncodeKeys(r.keys));
    Read64(us, input);
    assert TimestampChunk(r).payload == Le64(us) + input;
  }

  lemma NativePlays(idx: nat, c: Cursor, p: P.Player, codec: P.Codec)
    requires idx < P.MAX_POINTER_COUNT && ValidCursor(c) && p.image.None?
    ensures P.PlayChunk(p, NativeChunk(idx, c), codec)
            == Some(Count(p, 1).(cache := p.cache[idx := c], shown := p.shown + [P.Custom(c)]))
  {
    CursorRoundTrip(idx, c);
    assert P.PlayNative(Count(p, 1), EncodeCursor(idx, c)).Some?;
  }

  lemma PointerPlays(r: Rec, idx: nat, p: P.Player, codec: P.Codec)
    requires Valid(r) && idx < P.MAX_POINTER_COUNT && p.image.None?
    ensures P.PlayChunk(p, Chunk(CACHED_POINTER, 0, Mouse(r) + Le(idx, 1)), codec)
            == Some(Count(p, 1).(mouseX := r.mouseX, mouseY := r.mouseY,
                                 shown := p.shown + [P.Resolve(p.cache, idx)]))
  {
    var s := Mouse(r) + Le(idx, 1);
    MouseReads(r.mouseX, r.mouseY, Le(idx, 1));
    assert s[4] == idx;
    assert P.PlayPointer(Count(p, 1), WRM_HEADER_SIZE + |s|, s).Some?;
  }

  lemma InternalPlays(r: Rec, i: nat, p: P.Player, codec: P.Codec)
    requires Valid(r) && i < P.PREDEFINED_POINTER_COUNT && p.image.None?
    ensures P.PlayChunk(p, Chunk(INTERNAL_POINTER, 0, Mouse(r) + Le(i, 1)), codec)
            == Some(Count(p, 1).(mouseX := r.mouseX, mouseY := r.mouseY,
                                 shown := p.shown + [P.Predefined(i)]))
  {
    var s := Mouse(r) + Le(i, 1);
    MouseReads(r.mouseX, r.mouseY, Le(i, 1));
    assert s[4] == i;
    assert P.PlayInternal(Count(p, 1), s).Some?;
  }

  function Updates(r: Rec, op: Op, relevant: set<nat>): seq<P.Update> {
    if op.SessionUpdate? && op.id in relevant then
      [P.Update(Cut(op.now - r.start), op.id, KeptKvs(op.kvs, UPDATE_BUFFER - UPDATE_FIXED))]
    else []
  }

  lemma {:induction false} KeptKvsValid(kvs: seq<Kv>, room: int)
    requires ValidKvs(kvs)
    ensures ValidKvs(KeptKvs(kvs, room))
  {
    var kept := KeptKvs(kvs, room);
    assert forall kv | kv in kept :: kv in kvs;
  }

  lemma MessageReads(id: nat, kvs: seq<Kv>)
    requires id < TWO_32 && ValidKvs(kvs)
    ensures var m := UpdateMessage(id, kvs);
            var kept := KeptKvs(kvs, UPDATE_BUFFER - UPDATE_FIXED);
            && 5 <= |m| < TWO_16 && FromLe(m[..4]) == id
            && DecodeKvs(m[5..], m[4]) == Some(kept)
  {
    var kept := KeptKvs(kvs, UPDATE_BUFFER - UPDATE_FIXED);
    KeptKvsFit(kvs, UPDATE_BUFFER - UPDATE_FIXED);
    KeptKvsValid(kvs, UPDATE_BUFFER - UPDATE_FIXED);
    KvsRoundTrip(kept);
    MessageParts(id, |kept|, EncodeKvs(kept));
    assert UpdateMessage(id, kvs) == U32Le(id) + Le(|kept|, 1) + EncodeKvs(kept);
  }

  lemma MessageParts(id: nat, n: nat, tail: seq<byte>)
    requires id < TWO_32 && n < 256
    ensures var m := U32Le(id) + Le(n, 1) + tail;
            FromLe(m[..4]) == id && m[4] == n && m[5..] == tail
  {
    LeWidths(id);
    LeWidths(n);
    var m := U32Le(id) + Le(n, 1) + tail;
    assert m[..4] == U32Le(id);
    assert m[4] == Le(n, 1)[0] == n;
  }

  lemma UpdatePayloadReads(us: int, m: seq<byte>)
    requires -TWO_63 <= us < TWO_63 && |m| < TWO_16
    ensures var s := I64Le(us) + (U16Le(|m|) + m);
            && |s| == 10 + |m| && FromI64Le(s[..8]) == us && FromLe(s[8..10]) == |m| && s[10..10 + |m|] == m
  {
    I64RoundTrip(us);
    LeWidths(|m|);
    var s := I64Le(us) + (U16Le(|m|) + m);
    assert s[..8] == I64Le(us);
    assert s[8..10] == U16Le(|m|);
  }

  function AfterUpdate(r: Rec, op: Op, p: P.Player): P.Player
    requires op.SessionUpdate?
  {
    var at := Cut(op.now - r.start);
    Count(p, 1).(recordNow := if at > p.recordNow then at else p.recordNow, timestampOk := true,
                 updates := p.updates + Updates(r, op, p.relevant))
  }

  lemma UpdatePayloadPlays(p: P.Player, us: int, id: nat, m: seq<byte>, kept: seq<Kv>)
    requires -TWO_63 <= us < TWO_63 && 5 <= |m| < TWO_16
    requires FromLe(m[..4]) == id && DecodeKvs(m[5..], m[4]) == Some(kept)
    ensures var at := us * 1000;
            var s := I64Le(us) + (U16Le(|m|) + m);
            var q := p.(recordNow := if at > p.recordNow then at else p.recordNow, timestampOk := true);
            P.PlayUpdate(p, s)
            == Some((q.(updates := p.updates + if id in p.relevant then [P.Update(at, id, kept)] else []), []))
  {
    UpdatePayloadReads(us, m);
    assert (I64Le(us) + (U16Le(|m|) + m))[10 + |m|..] == [];
    assert p.updates + [] == p.updates;
  }

  lemma UpdatePlays(r: Rec, op: Op, p: P.Player, codec: P.Codec)
    requires op.SessionUpdate? && Valid(r) && Legal(r, op, codec) && p.image.None?
    ensures P.PlayChunk(p, UpdateChunk(r, op.now, op.id, op.kvs), codec) == Some(AfterUpdate(r, op, p))
  {
    var us := Micros(op.now - r.start);
    var m := UpdateMessage(op.id, op.kvs);
    var kept := KeptKvs(op.kvs, UPDATE_BUFFER - UPDATE_FIXED);
    MicrosRange(op.now - r.start);
    MessageReads(op.id, op.kvs);
    UpdateChunkIs(r, op);
    UpdateBytesPlay(p, us, op.id, m, kept, codec);
    UpdateResult(r, op, p, us, kept);
  }

  lemma UpdateChunkIs(r: Rec, op: Op)
    requires op.SessionUpdate? && -TWO_63 <= Micros(op.now - r.start) < TWO_63
    ensures var (us, m) := (Micros(op.now - r.start), UpdateMessage(op.id, op.kvs));
            UpdateChunk(r, op.now, op.id, op.kvs) == Chunk(SESSION_UPDATE, 1, I64Le(us) + (U16Le(|m|) + m))
  {
  }

  lemma UpdateResult(r: Rec, op: Op, p: P.Player, us: int, kept: seq<Kv>)
    requires op.SessionUpdate? && us == Micros(op.now - r.start)
    requires kept == KeptKvs(op.kvs, UPDATE_BUFFER - UPDATE_FIXED)
    ensures var at := us * 1000;
            AfterUpdate(r, op, p)
            == Count(p, 1).(recordNow := if at > p.recordNow then at else p.recordNow, timestampOk := true,
                            updates := p.updates + if op.id in p.relevant then [P.Update(at, op.id, kept)] else [])
  {
  }

  /** A session update chunk, whatever wrote it. */
  lemma UpdateBytesPlay(p: P.Player, us: int, id: nat, m: seq<byte>, kept: seq<Kv>, codec: P.Codec)
    requires -TWO_63 <= us < TWO_63 && 5 <= |m| < TWO_16 && p.image.None?
    requires FromLe(m[..4]) == id && DecodeKvs(m[5..], m[4]) == Some(kept)
    ensures var at := us * 1000;
            P.PlayChunk(p, Chunk(SESSION_UPDATE, 1, I64Le(us) + (U16Le(|m|) + m)), codec)
            == Some(Count(p, 1).(recordNow := if at > p.recordNow then at else p.recordNow, timestampOk := true,
                                 updates := p.updates + if id in p.relevant then [P.Update(at, id, kept)] else []))
  {
    var s := I64Le(us) + (U16Le(|m|) + m);
    UpdatePayloadPlays(Count(p, 1), us, id, m, kept);
    assert P.Interpret(p, SESSION_UPDATE, WRM_HEADER_SIZE + |s|, s, codec).Some?;
  }

  lemma DrawingPlays(p: P.Player, o: seq<byte>, rest: seq<byte>, codec: P.Codec, bitmap: bool)
    requires p.metaOk && p.timestampOk && 0 < |o|
    requires Delimits(o, if bitmap then codec.bitmapLen else codec.orderLen)
    ensures P.PlayDrawing(p, o + rest, codec, bitmap)
            == Some((p.(drawn := p.drawn + [AsDrawing(o, bitmap)]), rest))
  {
    var s := o + rest;
    if bitmap {
      assert codec.bitmapLen(s) == |o|;
    } else {
      assert codec.orderLen(s) == |o|;
    }
    assert s[..|o|] == o && s[|o|..] == rest;
  }

  lemma BatchOnce(p: P.Player, s: seq<byte>, q: P.Player, rest: seq<byte>, n: nat, codec: P.Codec, bitmap: bool)
    requires n > 0 && P.PlayDrawing(Count(p, 1), s, codec, bitmap) == Some((q, rest))
    requires n > 1 ==> rest != []
    ensures P.PlayBatch(p, s, n, codec, bitmap)
            == if n == 1 then Some(q) else P.PlayBatch(q, rest, n - 1, codec, bitmap)
  {
    assert P.Counted(p) == Count(p, 1);
  }

  function AfterBatch(p: P.Player, batch: seq<seq<byte>>, bitmap: bool): P.Player {
    Count(p, |batch|).(drawn := p.drawn + AsDrawings(batch, bitmap))
  }

  lemma AfterBatchStep(p: P.Player, batch: seq<seq<byte>>, bitmap: bool)
    requires batch != []
    ensures var q := Count(p, 1).(drawn := p.drawn + [AsDrawing(batch[0], bitmap)]);
            AfterBatch(q, batch[1..], bitmap) == AfterBatch(p, batch, bitmap)
  {
    var q := Count(p, 1).(drawn := p.drawn + [AsDrawing(batch[0], bitmap)]);
    assert q.drawn + AsDrawings(batch[1..], bitmap) == p.drawn + AsDrawings(batch, bitmap);
  }

  lemma {:induction false} BatchDraws(p: P.Player, batch: seq<seq<byte>>, codec: P.Codec, bitmap: bool)
    requires batch != [] && p.metaOk && p.timestampOk
    requires Delimited(batch, if bitmap then codec.bitmapLen else codec.orderLen)
    ensures P.PlayBatch(p, Concat(batch), |batch|, codec, bitmap) == Some(AfterBatch(p, batch, bitmap))
    decreases |batch|
  {
    var o := batch[0];
    var tail := batch[1..];
    assert o in batch;
    var rest := Concat(tail);
    DrawingPlays(Count(p, 1), o, rest, codec, bitmap);
    var q := Count(p, 1).(drawn := p.drawn + [AsDrawing(o, bitmap)]);
    AfterBatchStep(p, batch, bitmap);
    if tail != [] {
      assert tail[0] in batch;
      assert |rest| >= |tail[0]| > 0;
      assert forall x | x in tail :: x in batch;
      BatchDraws(q, tail, codec, bitmap);
    } else {
      assert q.drawn + [] == q.drawn;
      assert AfterBatch(q, [], bitmap) == q;
    }
    BatchOnce(p, Concat(batch), q, rest, |batch|, codec, bitmap);
  }

  /** Sending one pending batch. */
  lemma BatchPlays(p: P.Player, r: Rec, bitmap: bool, codec: P.Codec)
    requires ValidFor(r, codec) && p.metaOk && p.timestampOk && p.image.None?
    ensures var batch := if bitmap then r.bitmaps else r.orders;
            P.Play(p, if bitmap then BitmapChunks(r) else OrderChunks(r), codec)
            == Some(AfterBatch(p, batch, bitmap))
  {
    var batch := if bitmap then r.bitmaps else r.orders;
    if batch == [] {
      assert p.drawn + [] == p.drawn;
    } else {
      var kind := if bitmap then RDP_UPDATE_BITMAP2 else RDP_UPDATE_ORDERS;
      var c := Chunk(kind, |batch|, Concat(batch));
      P.PlayOne(p, c, codec);
      BatchDraws(p, batch, codec, bitmap);
    }
  }

  lemma Then(p: P.Player, xs: seq<Chunk>, q: P.Player, ys: seq<Chunk>, end: P.Player, codec: P.Codec)
    requires P.Play(p, xs, codec) == Some(q) && P.Play(q, ys, codec) == Some(end)
    ensures P.Play(p, xs + ys, codec) == Some(end)
  {
    P.PlayAppend(p, xs, ys, codec);
  }

  lemma ThenOne(p: P.Player, xs: seq<Chunk>, q: P.Player, c: Chunk, end: P.Player, codec: P.Codec)
    requires P.Play(p, xs, codec) == Some(q) && P.PlayChunk(q, c, codec) == Some(end)
    ensures P.Play(p, xs + [c], codec) == Some(end)
  {
    P.PlayOne(q, c, codec);
    P.PlayAppend(p, xs, [c], codec);
  }

  lemma Join(p: P.Player, drawn: seq<P.Drawing>, r: Rec)
    requires drawn == p.drawn + AsDrawings(r.orders, false)
    ensures drawn + AsDrawings(r.bitmaps, true) == p.drawn + Pending(r)
  {
  }

  lemma FlushPlays(p: P.Player, r: Rec, codec: P.Codec)
    requires ValidFor(r, codec) && p.metaOk && p.timestampOk && p.image.None?
    ensures P.Play(p, FlushChunks(r), codec)
            == Some(Count(p, |r.orders| + |r.bitmaps|).(drawn := p.drawn + Pending(r)))
  {
    var os, bs := OrderChunks(r), BitmapChunks(r);
    BatchPlays(p, r, false, codec);
    var q := Count(p, |r.orders|).(drawn := p.drawn + AsDrawings(r.orders, false));
    assert P.Play(p, os, codec) == Some(q);
    BatchPlays(q, r, true, codec);
    Join(p, q.drawn, r);
    Then(p, os, q, bs, Count(q, |r.bitmaps|).(drawn := q.drawn + AsDrawings(r.bitmaps, true)), codec);
  }

  /** An image is delivered whole, and leaves the rest of the player alone. */
  lemma {:induction false} ImagePlays(p: P.Player, data: seq<byte>, codec: P.Codec)
    requires data != []
    ensures var acc := if p.image.Some? then p.image.value else [];
            P.Play(p, ImageChunks(data, MAX_IMAGE_PART), codec)
            == Some(Count(p, 1).(image := None, images := p.images + [acc + data]))
    decreases |data|
  {
    var acc := if p.image.Some? then p.image.value else [];
    if |data| <= MAX_IMAGE_PART {
      P.PlayOne(p, Chunk(LAST_IMAGE_CHUNK, 1, data), codec);
    } else {
      var head, tail := data[..MAX_IMAGE_PART], data[MAX_IMAGE_PART..];
      var q := p.(image := Some(acc + head));
      ImagePlays(q, tail, codec);
      assert acc + head + tail == acc + data;
      assert ImageChunks(data, MAX_IMAGE_PART)[1..] == ImageChunks(tail, MAX_IMAGE_PART);
      assert ImageChunks(data, MAX_IMAGE_PART)[0] == Chunk(PARTIAL_IMAGE_CHUNK, 1, head);
    }
  }

  // ----- One operation -----

  function Flushed(r: Rec, p: P.Player): P.Player {
    Count(p, |r.orders| + |r.bitmaps|).(drawn := p.drawn + Pending(r))
  }

  function WithInput(r: Rec, p: P.Player): P.Player {
    if r.keys == [] then p else AfterTimestamp(r, p)
  }

  function Located(r: Rec, p: P.Player, d: P.Display): P.Player {
    Count(p, 1).(mouseX := r.mouseX, mouseY := r.mouseY, shown := p.shown + [d])
  }

  function WithCursor(p: P.Player, idx: nat, c: Cursor): P.Player {
    Count(p, 1).(cache := p.cache[idx := c], shown := p.shown + [P.Custom(c)])
  }

  /** The player after the chunks of an operation. */
  function Next(r: Rec, op: Op, p: P.Player): P.Player
    requires op.CachedPointer? ==> op.idx in r.source
  {
    match op
    case DrawOrder(_, asked) =>
      var q := AfterBatch(p, r.bitmaps, true);
      if Full(r.orders, asked) then AfterBatch(q, r.orders, false) else q
    case DrawBitmap(b) =>
      var q := AfterBatch(p, r.orders, false);
      if Full(r.bitmaps, |b|) then AfterBatch(q, r.bitmaps, true) else q
    case KbdInput(_) => p
    case KbdMask(enable) => Count(p, 1).(masks := p.masks + [enable])
    case MouseMove(_, _) => p
    case Timestamp(_) => Flushed(r, p)
    case SendTimestamp => AfterTimestamp(r, p)
    case UpdateTimes(now, realNow) => AfterTimes(r.(timer := now, lastReal := realNow), Flushed(r, p))
    case SessionUpdate(now, _, _) =>
      var s := SetTimer(r, now);
      AfterUpdate(s, op, WithInput(s, p))
    case WindowChange => Count(WithInput(r, p), 1).(windowChanges := p.windowChanges + 1)
    case NewPointer(idx, c) => WithCursor(p, idx, c)
    case CachedPointer(idx) =>
      if idx in r.cached then Located(r, p, P.Resolve(p.cache, idx)) else WithCursor(p, idx, r.source[idx])
    case PredefinedPointer(i) => Located(r, p, P.Predefined(i))
    case Breakpoint(_, _, _) => AfterTimestamp(r, Flushed(r, p))
  }

  ghost predicate InStep(r: Rec, op: Op, p: P.Player, codec: P.Codec) {
    ValidFor(r, codec) && Legal(r, op, codec) && Core(r, p)
  }

  /** The chunks of the operation play, with the stated effect. */
  ghost predicate Plays(r: Rec, op: Op, p: P.Player, codec: P.Codec)
    requires InStep(r, op, p, codec)
  {
    P.Play(p, Emitted(r, op), codec) == Some(Next(r, op, p))
  }

  lemma DrawPlays(r: Rec, op: Op, p: P.Player, codec: P.Codec)
    requires InStep(r, op, p, codec) && (op.DrawOrder? || op.DrawBitmap?)
    ensures Plays(r, op, p, codec)
  {
    var bitmap := op.DrawBitmap?;
    BatchPlays(p, r, !bitmap, codec);
    if bitmap {
      var q := AfterBatch(p, r.orders, false);
      if Full(r.bitmaps, |op.bitmap|) {
        BatchPlays(q, r, true, codec);
        Then(p, OrderChunks(r), q, BitmapChunks(r), AfterBatch(q, r.bitmaps, true), codec);
      } else {
        assert OrderChunks(r) + [] == OrderChunks(r);
      }
    } else {
      var q := AfterBatch(p, r.bitmaps, true);
      if Full(r.orders, op.asked) {
        BatchPlays(q, r, false, codec);
        Then(p, BitmapChunks(r), q, OrderChunks(r), AfterBatch(q, r.orders, false), codec);
      } else {
        assert BitmapChunks(r) + [] == BitmapChunks(r);
      }
    }
  }

  lemma UpdateTimesPlays(r: Rec, op: Op, p: P.Player, codec: P.Codec)
    requires InStep(r, op, p, codec) && op.UpdateTimes?
    ensures Plays(r, op, p, codec)
  {
    FlushPlays(p, r, codec);
    var q := Flushed(r, p);
    var s := r.(timer := op.now, lastReal := op.realNow);
    TimesPlays(s, q, codec);
    ThenOne(p, FlushChunks(r), q, TimesChunk(s), AfterTimes(s, q), codec);
  }

  /** The keys waiting in the recorder, stamped with the current instant. */
  lemma PendingInputPlays(r: Rec, p: P.Player, codec: P.Codec)
    requires Valid(r) && p.image.None?
    ensures P.Play(p, PendingInput(r), codec) == Some(WithInput(r, p))
  {
    if r.keys != [] {
      P.PlayOne(p, TimestampChunk(r), codec);
      TimestampPlays(r, p, codec);
    }
  }

  lemma ReportChunks(r: Rec, op: Op, p: P.Player)
    requires Valid(r) && op.SessionUpdate? && -TWO_63 <= op.now - r.start < TWO_63
    ensures var s := SetTimer(r, op.now);
            && Emitted(r, op) == PendingInput(s) + [UpdateChunk(s, op.now, op.id, op.kvs)]
            && Next(r, op, p) == AfterUpdate(s, op, WithInput(s, p))
  {
  }

  lemma ReportSteps(s: Rec, op: Op, p: P.Player, codec: P.Codec)
    requires Valid(s) && p.image.None? && op.SessionUpdate? && Legal(s, op, codec)
    ensures P.Play(p, PendingInput(s) + [UpdateChunk(s, op.now, op.id, op.kvs)], codec)
            == Some(AfterUpdate(s, op, WithInput(s, p)))
  {
    PendingInputPlays(s, p, codec);
    var q := WithInput(s, p);
    UpdatePlays(s, op, q, codec);
    ThenOne(p, PendingInput(s), q, UpdateChunk(s, op.now, op.id, op.kvs), AfterUpdate(s, op, q), codec);
  }

  lemma ReportPlays(r: Rec, op: Op, p: P.Player, codec: P.Codec)
    requires InStep(r, op, p, codec) && op.SessionUpdate?
    ensures Plays(r, op, p, codec)
  {
    ReportChunks(r, op, p);
    AfterKeepsValid(r, op, codec);
    ReportSteps(SetTimer(r, op.now), op, p, codec);
  }

  lemma ChangePlays(p: P.Player, codec: P.Codec)
    requires p.image.None?
    ensures P.PlayChunk(p, Chunk(POSSIBLE_ACTIVE_WINDOW_CHANGE, 0, []), codec)
            == Some(Count(p, 1).(windowChanges := p.windowChanges + 1))
  {
  }

  lemma WindowChangePlays(r: Rec, p: P.Player, codec: P.Codec)
    requires Valid(r) && p.image.None?
    ensures P.Play(p, PendingInput(r) + [Chunk(POSSIBLE_ACTIVE_WINDOW_CHANGE, 0, [])], codec)
            == Some(Count(WithInput(r, p), 1).(windowChanges := p.windowChanges + 1))
  {
    PendingInputPlays(r, p, codec);
    var q := WithInput(r, p);
    var c := Chunk(POSSIBLE_ACTIVE_WINDOW_CHANGE, 0, []);
    ChangePlays(q, codec);
    ThenOne(p, PendingInput(r), q, c, Count(q, 1).(windowChanges := q.windowChanges + 1), codec);
  }

  lemma ChangeChunks(r: Rec, op: Op, p: P.Player)
    requires Valid(r) && op.WindowChange?
    ensures Emitted(r, op) == PendingInput(r) + [Chunk(POSSIBLE_ACTIVE_WINDOW_CHANGE, 0, [])]
    ensures Next(r, op, p) == Count(WithInput(r, p), 1).(windowChanges := p.windowChanges + 1)
  {
  }

  lemma ChangeOpPlays(r: Rec, op: Op, p: P.Player, codec: P.Codec)
    requires InStep(r, op, p, codec) && op.WindowChange?
    ensures Plays(r, op, p, codec)
  {
    ChangeChunks(r, op, p);
    WindowChangePlays(r, p, codec);
  }

  lemma PointerOpPlays(r: Rec, op: Op, p: P.Player, codec: P.Codec)
    requires InStep(r, op, p, codec) && (op.NewPointer? || op.CachedPointer? || op.PredefinedPointer?)
    ensures Plays(r, op, p, codec)
  {
    match op {
      case NewPointer(idx, c) =>
        P.PlayOne(p, NativeChunk(idx, c), codec);
        NativePlays(idx, c, p, codec);
      case CachedPointer(idx) =>
        if idx in r.cached {
          P.PlayOne(p, Chunk(CACHED_POINTER, 0, Mouse(r) + Le(idx, 1)), codec);
          PointerPlays(r, idx, p, codec);
        } else {
          P.PlayOne(p, NativeChunk(idx, r.source[idx]), codec);
          NativePlays(idx, r.source[idx], p, codec);
        }
      case PredefinedPointer(i) =>
        P.PlayOne(p, Chunk(INTERNAL_POINTER, 0, Mouse(r) + Le(i, 1)), codec);
        InternalPlays(r, i, p, codec);
    }
  }

  lemma ClosingPlays(r: Rec, p: P.Player, codec: P.Codec)
    requires ValidFor(r, codec) && Mapping(r, p)
    ensures P.Play(p, FlushChunks(r) + [TimestampChunk(r)], codec) == Some(AfterTimestamp(r, Flushed(r, p)))
  {
    FlushPlays(p, r, codec);
    TimestampThen(p, FlushChunks(r), Flushed(r, p), r, codec);
  }

  lemma TimestampThen(p: P.Player, chunks: seq<Chunk>, q: P.Player, r: Rec, codec: P.Codec)
    requires P.Play(p, chunks, codec) == Some(q) && Valid(r) && q.image.None?
    ensures P.Play(p, chunks + [TimestampChunk(r)], codec) == Some(AfterTimestamp(r, q))
  {
    SendTimestampPlays(r, q, codec);
    Then(p, chunks, q, [TimestampChunk(r)], AfterTimestamp(r, q), codec);
  }

  lemma MaskPlays(r: Rec, op: Op, p: P.Player, codec: P.Codec)
    requires InStep(r, op, p, codec) && op.KbdMask?
    ensures Plays(r, op, p, codec)
  {
    var c := Chunk(KBD_INPUT_MASK, 1, [if op.enable then 1 else 0]);
    P.PlayOne(p, c, codec);
    assert P.PlayChunk(p, c, codec) == Some(Next(r, op, p));
  }

  lemma SendTimestampPlays(r: Rec, p: P.Player, codec: P.Codec)
    requires Valid(r) && p.image.None?
    ensures P.Play(p, [TimestampChunk(r)], codec) == Some(AfterTimestamp(r, p))
  {
    P.PlayOne(p, TimestampChunk(r), codec);
    TimestampPlays(r, p, codec);
  }

  lemma QuietPlays(r: Rec, op: Op, p: P.Player, codec: P.Codec)
    requires InStep(r, op, p, codec) && (op.KbdInput? || op.MouseMove?)
    ensures Plays(r, op, p, codec)
  {
  }

  lemma ClockPlays(r: Rec, op: Op, p: P.Player, codec: P.Codec)
    requires InStep(r, op, p, codec) && op.Timestamp?
    ensures Plays(r, op, p, codec)
  {
    FlushPlays(p, r, codec);
  }

  lemma InstantPlays(r: Rec, op: Op, p: P.Player, codec: P.Codec)
    requires InStep(r, op, p, codec) && op.SendTimestamp?
    ensures Plays(r, op, p, codec)
  {
    SendTimestampPlays(r, p, codec);
  }

  lemma BreakPlays(r: Rec, op: Op, p: P.Player, codec: P.Codec)
    requires InStep(r, op, p, codec) && op.Breakpoint?
    ensures Plays(r, op, p, codec)
  {
    ClosingPlays(r, p, codec);
  }

  lemma OperationPlays(r: Rec, op: Op, p: P.Player, codec: P.Codec)
    requires InStep(r, op, p, codec)
    ensures Plays(r, op, p, codec)
  {
    match op {
      case DrawOrder(_, _) => DrawPlays(r, op, p, codec);
      case DrawBitmap(_) => DrawPlays(r, op, p, codec);
      case KbdInput(_) => QuietPlays(r, op, p, codec);
      case KbdMask(_) => MaskPlays(r, op, p, codec);
      case MouseMove(_, _) => QuietPlays(r, op, p, codec);
      case Timestamp(_) => ClockPlays(r, op, p, codec);
      case SendTimestamp => InstantPlays(r, op, p, codec);
      case UpdateTimes(_, _) => UpdateTimesPlays(r, op, p, codec);
      case SessionUpdate(_, _, _) => ReportPlays(r, op, p, codec);
      case WindowChange => ChangeOpPlays(r, op, p, codec);
      case Breakpoint(_, _, _) => BreakPlays(r, op, p, codec);
      case _ => PointerOpPlays(r, op, p, codec);
    }
  }

  // ----- What an operation adds -----

  ghost predicate ReportsKept(r: Rec, op: Op, p: P.Player, q: P.Player) {
    && q.updates == p.updates + Updates(r, op, p.relevant)
    && q.masks == p.masks + (if op.KbdMask? then [op.enable] else [])
    && q.windowChanges == p.windowChanges + (if op.WindowChange? then 1 else 0)
    && q.images == p.images && q.relevant == p.relevant
  }

  /** What the player has gained from an operation; the recorder holds the rest. */
  ghost predicate Advances(r: Rec, op: Op, p: P.Player, q: P.Player)
    requires op.CachedPointer? ==> op.idx in r.source
  {
    && q.shown == p.shown + Shown(r, op)
    && q.drawn + Pending(After(r, op)) == p.drawn + Pending(r) + Drawn(op)
    && Codes(q.keys) + After(r, op).keys == Codes(p.keys) + r.keys + Typed(r, op)
    && q.keys == p.keys + Sent(r, op)
    && MouseFollows(r, op, p, q)
    && ReportsKept(r, op, p, q)
    && p.recordNow <= q.recordNow
  }

  lemma StampCodes(r: Rec, p: P.Player)
    ensures Codes(AfterTimestamp(r, p).keys) == Codes(p.keys) + r.keys
  {
    var now := Cut(r.timer - r.start);
    CodesOfStamp(now, r.keys);
    CodesAppend(p.keys, P.Stamp(now, r.keys));
  }

  lemma InputCodes(r: Rec, p: P.Player)
    ensures Codes(WithInput(r, p).keys) == Codes(p.keys) + r.keys
  {
    StampCodes(r, p);
    assert Codes(p.keys) + [] == Codes(p.keys);
  }

  lemma KeysAdvance(r: Rec, op: Op, p: P.Player)
    requires op.CachedPointer? ==> op.idx in r.source
    ensures Codes(Next(r, op, p).keys) + After(r, op).keys == Codes(p.keys) + r.keys + Typed(r, op)
  {
    if op.KbdInput? {
      assert Codes(p.keys) + (r.keys + Typed(r, op)) == Codes(p.keys) + r.keys + Typed(r, op);
    } else if op.SendTimestamp? {
      StampCodes(r, p);
    } else if op.Breakpoint? {
      StampCodes(r, Flushed(r, p));
    } else if op.SessionUpdate? {
      InputCodes(SetTimer(r, op.now), p);
    } else if op.WindowChange? {
      InputCodes(r, p);
    }
  }

  /** The operations that hand over the keys that are buffered. */
  predicate SendsKeys(op: Op) { op.SendTimestamp? || op.SessionUpdate? || op.WindowChange? || op.Breakpoint? }

  /** The keys that an operation hands over, all with the instant of the recording clock by then. */
  function Sent(r: Rec, op: Op): seq<P.Key> {
    if !SendsKeys(op) then []
    else
      var s := if op.SessionUpdate? then SetTimer(r, op.now) else r;
      P.Stamp(Cut(s.timer - s.start), r.keys)
  }

  lemma InputSent(r: Rec, p: P.Player)
    ensures WithInput(r, p).keys == p.keys + P.Stamp(Cut(r.timer - r.start), r.keys)
  {
    assert p.keys + [] == p.keys;
  }

  lemma KeysSent(r: Rec, op: Op, p: P.Player)
    requires op.CachedPointer? ==> op.idx in r.source
    ensures Next(r, op, p).keys == p.keys + Sent(r, op)
  {
    if op.SessionUpdate? {
      UpdateSends(r, op, p);
    } else if SendsKeys(op) {
      OperationSends(r, op, p);
    } else {
      OthersSendNothing(r, op, p);
    }
  }

  lemma UpdateSends(r: Rec, op: Op, p: P.Player)
    requires op.SessionUpdate?
    ensures Next(r, op, p).keys == p.keys + Sent(r, op)
  {
    var s := SetTimer(r, op.now);
    InputSent(s, p);
    assert Next(r, op, p).keys == WithInput(s, p).keys;
  }

  lemma OperationSends(r: Rec, op: Op, p: P.Player)
    requires SendsKeys(op) && !op.SessionUpdate?
    ensures Next(r, op, p).keys == p.keys + Sent(r, op)
  {
    InputSent(r, p);
  }

  lemma OthersSendNothing(r: Rec, op: Op, p: P.Player)
    requires !SendsKeys(op) && (op.CachedPointer? ==> op.idx in r.source)
    ensures Next(r, op, p).keys == p.keys + Sent(r, op)
  {
    assert p.keys + [] == p.keys;
  }

  /** The operations that tell where the mouse is: those that write an instant, and cursors by index. */
  predicate Locates(r: Rec, op: Op) {
    match op
    case SendTimestamp => true
    case Breakpoint(_, _, _) => true
    case SessionUpdate(_, _, _) => r.keys != []
    case WindowChange => r.keys != []
    case CachedPointer(idx) => idx in r.cached
    case PredefinedPointer(_) => true
    case _ => false
  }

  predicate MouseFollows(r: Rec, op: Op, p: P.Player, q: P.Player) {
    (q.mouseX, q.mouseY) == if Locates(r, op) then (r.mouseX, r.mouseY) else (p.mouseX, p.mouseY)
  }

  lemma MouseAdvances(r: Rec, op: Op, p: P.Player)
    requires op.CachedPointer? ==> op.idx in r.source
    ensures MouseFollows(r, op, p, Next(r, op, p))
  {
    if op.SessionUpdate? {
      UpdateLocates(r, op, p);
    }
  }

  lemma UpdateLocates(r: Rec, op: Op, p: P.Player)
    requires op.SessionUpdate?
    ensures MouseFollows(r, op, p, Next(r, op, p))
  {
    var q := WithInput(SetTimer(r, op.now), p);
    assert (q.mouseX, q.mouseY) == if r.keys == [] then (p.mouseX, p.mouseY) else (r.mouseX, r.mouseY);
  }

  /** Keys have instants that do not go back, up to a given one. */
  predicate KeysInOrder(keys: seq<P.Key>, now: int) {
    && (forall i, j :: 0 <= i < j < |keys| ==> keys[i].at <= keys[j].at)
    && (forall i :: 0 <= i < |keys| ==> keys[i].at <= now)
  }

  lemma SentInOrder(r: Rec, op: Op, now: int)
    requires now <= Cut(r.timer - r.start) && SendsKeys(op)
    ensures forall k | k in Sent(r, op) :: now <= k.at <= ClockAfter(r, op, now)
  {
    if op.SessionUpdate? {
      MicrosMonotone(r.timer - r.start, SetTimer(r, op.now).timer - r.start);
    }
  }

  lemma OrderKept(r: Rec, op: Op, p: P.Player)
    requires op.CachedPointer? ==> op.idx in r.source
    requires OnTime(r, p) && ClockForward(r, op) && KeysInOrder(p.keys, p.recordNow)
    ensures KeysInOrder(Next(r, op, p).keys, Next(r, op, p).recordNow)
  {
    KeysSent(r, op, p);
    NextClock(r, op, p);
    ClockBounds(r, op, p.recordNow);
    if SendsKeys(op) {
      SentInOrder(r, op, p.recordNow);
      SameInstant(r, op);
    }
  }

  lemma SameInstant(r: Rec, op: Op)
    ensures forall k, l | k in Sent(r, op) && l in Sent(r, op) :: k.at == l.at
  {
  }

  /** When the player receives a session update or a window change, it has received all keys typed before
      it. A change of the keyboard mask does not wait for them: it overtakes the keys that are buffered. */
  lemma KeysComeFirst(r: Rec, op: Op, p: P.Player)
    requires op.SessionUpdate? || op.WindowChange? || op.KbdMask?
    ensures Codes(Next(r, op, p).keys) == Codes(p.keys) + r.keys <==> (op.KbdMask? ==> r.keys == [])
  {
    var s := if op.SessionUpdate? then SetTimer(r, op.now) else r;
    InputCodes(s, p);
    assert Codes(p.keys) + [] == Codes(p.keys);
    assert |Codes(p.keys) + r.keys| == |Codes(p.keys)| + |r.keys|;
  }

  lemma {:induction false} DrawingsAppend(ss: seq<seq<byte>>, s: seq<byte>, bitmap: bool)
    ensures AsDrawings(ss + [s], bitmap) == AsDrawings(ss, bitmap) + [AsDrawing(s, bitmap)]
  {
    if ss == [] {
      assert ss + [s] == [s];
      assert [s][1..] == [];
    } else {
      assert (ss + [s])[1..] == ss[1..] + [s];
      DrawingsAppend(ss[1..], s, bitmap);
    }
  }

  lemma NoDrawings()
    ensures AsDrawings([], false) == [] && AsDrawings([], true) == []
  {
  }

  /** Of the two batches one is empty, so sending one before starting the other keeps the order. */
  lemma DrawAdvances(r: Rec, op: Op, p: P.Player)
    requires (r.orders == [] || r.bitmaps == []) && (op.DrawOrder? || op.DrawBitmap?)
    ensures Next(r, op, p).drawn + Pending(After(r, op)) == p.drawn + Pending(r) + Drawn(op)
  {
    if op.DrawOrder? {
      OrderAdvances(r, op, p);
    } else {
      BitmapAdvances(r, op, p);
    }
  }

  lemma OrderAdvances(r: Rec, op: Op, p: P.Player)
    requires (r.orders == [] || r.bitmaps == []) && op.DrawOrder?
    ensures Next(r, op, p).drawn + Pending(After(r, op)) == p.drawn + Pending(r) + Drawn(op)
  {
    NoDrawings();
    DrawingsAppend(if Full(r.orders, op.asked) then [] else r.orders, op.order, false);
  }

  lemma BitmapAdvances(r: Rec, op: Op, p: P.Player)
    requires (r.orders == [] || r.bitmaps == []) && op.DrawBitmap?
    ensures Next(r, op, p).drawn + Pending(After(r, op)) == p.drawn + Pending(r) + Drawn(op)
  {
    NoDrawings();
    DrawingsAppend(if Full(r.bitmaps, |op.bitmap|) then [] else r.bitmaps, op.bitmap, true);
  }

  predicate Flushes(op: Op) { op.Timestamp? || op.UpdateTimes? || op.Breakpoint? }

  lemma DrawingsAdvance(r: Rec, op: Op, p: P.Player)
    requires Valid(r) && (op.CachedPointer? ==> op.idx in r.source)
    ensures Next(r, op, p).drawn + Pending(After(r, op)) == p.drawn + Pending(r) + Drawn(op)
  {
    if op.DrawOrder? || op.DrawBitmap? {
      DrawAdvances(r, op, p);
    } else if Flushes(op) {
      FlushAdvances(r, op, p);
    } else {
      OtherDrawsNothing(r, op, p);
    }
  }

  lemma FlushAdvances(r: Rec, op: Op, p: P.Player)
    requires Flushes(op)
    ensures Next(r, op, p).drawn + Pending(After(r, op)) == p.drawn + Pending(r) + Drawn(op)
  {
    NoDrawings();
    assert Pending(After(r, op)) == [];
    assert Next(r, op, p).drawn == p.drawn + Pending(r);
  }

  lemma OtherDrawsNothing(r: Rec, op: Op, p: P.Player)
    requires !op.DrawOrder? && !op.DrawBitmap? && !Flushes(op) && (op.CachedPointer? ==> op.idx in r.source)
    ensures Next(r, op, p).drawn + Pending(After(r, op)) == p.drawn + Pending(r) + Drawn(op)
  {
    assert Next(r, op, p).drawn == p.drawn;
    assert Pending(After(r, op)) == Pending(r);
  }

  lemma ShownAdvances(r: Rec, op: Op, p: P.Player)
    requires Cursors(r, p) && (op.CachedPointer? ==> op.idx in r.source)
    ensures Next(r, op, p).shown == p.shown + Shown(r, op)
  {
    if !op.NewPointer? && !op.CachedPointer? && !op.PredefinedPointer? {
      OthersShowNothing(r, op, p);
    }
  }

  lemma OthersShowNothing(r: Rec, op: Op, p: P.Player)
    requires !op.NewPointer? && !op.CachedPointer? && !op.PredefinedPointer?
    ensures Next(r, op, p).shown == p.shown + Shown(r, op)
  {
    assert p.shown + [] == p.shown;
  }

  lemma SessionUpdateReports(r: Rec, op: Op, p: P.Player)
    requires op.SessionUpdate?
    ensures ReportsKept(r, op, p, Next(r, op, p))
  {
  }

  lemma WindowChangeReports(r: Rec, op: Op, p: P.Player)
    requires op.WindowChange?
    ensures ReportsKept(r, op, p, Next(r, op, p))
  {
  }

  lemma ReportsAdvance(r: Rec, op: Op, p: P.Player)
    requires op.CachedPointer? ==> op.idx in r.source
    ensures ReportsKept(r, op, p, Next(r, op, p))
  {
    if op.SessionUpdate? {
      SessionUpdateReports(r, op, p);
    } else if op.WindowChange? {
      WindowChangeReports(r, op, p);
    } else if IsPointer(op) {
      PointerReports(r, op, p);
    } else {
      OtherReports(r, op, p);
    }
  }

  predicate IsPointer(op: Op) { op.NewPointer? || op.CachedPointer? || op.PredefinedPointer? }

  lemma PointerReports(r: Rec, op: Op, p: P.Player)
    requires IsPointer(op) && (op.CachedPointer? ==> op.idx in r.source)
    ensures ReportsKept(r, op, p, Next(r, op, p))
  {
    assert p.updates + [] == p.updates && p.masks + [] == p.masks;
  }

  lemma OtherReports(r: Rec, op: Op, p: P.Player)
    requires !IsPointer(op) && !op.SessionUpdate? && !op.WindowChange?
    ensures ReportsKept(r, op, p, Next(r, op, p))
  {
    assert p.updates + [] == p.updates && p.masks + [] == p.masks;
  }

  /** The instant each operation leaves the replay clock at. */
  function ClockAfter(r: Rec, op: Op, now: int): int {
    match op
    case SendTimestamp => Cut(r.timer - r.start)
    case Breakpoint(_, _, _) => Cut(r.timer - r.start)
    case UpdateTimes(t, _) => Cut(t - r.start)
    case WindowChange => if r.keys == [] then now else Cut(r.timer - r.start)
    case SessionUpdate(t, _, _) =>
      var timer := if r.timer < t then t else r.timer;
      var before := if r.keys == [] then now else Cut(timer - r.start);
      if Cut(t - r.start) > before then Cut(t - r.start) else before
    case _ => now
  }

  lemma UpdateClock(r: Rec, op: Op, p: P.Player)
    requires op.SessionUpdate?
    ensures Next(r, op, p).recordNow == ClockAfter(r, op, p.recordNow)
  {
    var s := SetTimer(r, op.now);
    var q := WithInput(s, p);
    assert q.recordNow == if r.keys == [] then p.recordNow else Cut(s.timer - r.start);
  }

  lemma NextClock(r: Rec, op: Op, p: P.Player)
    requires op.CachedPointer? ==> op.idx in r.source
    ensures Next(r, op, p).recordNow == ClockAfter(r, op, p.recordNow)
  {
    if op.SessionUpdate? {
      UpdateClock(r, op, p);
    }
  }

  function TimerAfter(r: Rec, op: Op): int {
    match op
    case Timestamp(t) => t
    case UpdateTimes(t, _) => t
    case SessionUpdate(t, _, _) => if r.timer < t then t else r.timer
    case _ => r.timer
  }

  lemma AfterTimer(r: Rec, op: Op)
    ensures After(r, op).timer == TimerAfter(r, op)
    ensures After(r, op).start == r.start
  {
  }

  /** The replay clock does not go back, and does not pass the recording clock. */
  lemma ClockBounds(r: Rec, op: Op, now: int)
    requires now <= Cut(r.timer - r.start)
    requires op.Timestamp? || op.UpdateTimes? ==> op.now >= r.timer
    ensures now <= ClockAfter(r, op, now) <= Cut(TimerAfter(r, op) - r.start)
  {
    var t := TimerAfter(r, op);
    MicrosMonotone(r.timer - r.start, t - r.start);
    if op.SessionUpdate? {
      MicrosMonotone(op.now - r.start, t - r.start);
    }
  }

  predicate ClockForward(r: Rec, op: Op) { op.Timestamp? || op.UpdateTimes? ==> op.now >= r.timer }

  lemma ClockAdvances(r: Rec, op: Op, p: P.Player)
    requires op.CachedPointer? ==> op.idx in r.source
    requires OnTime(r, p) && ClockForward(r, op)
    ensures p.recordNow <= Next(r, op, p).recordNow && OnTime(After(r, op), Next(r, op, p))
  {
    NextClock(r, op, p);
    AfterTimer(r, op);
    ClockBounds(r, op, p.recordNow);
  }

  lemma NextAdvances(r: Rec, op: Op, p: P.Player)
    requires Valid(r) && Core(r, p) && ClockForward(r, op) && (op.CachedPointer? ==> op.idx in r.source)
    ensures Advances(r, op, p, Next(r, op, p))
  {
    KeysAdvance(r, op, p);
    KeysSent(r, op, p);
    MouseAdvances(r, op, p);
    DrawingsAdvance(r, op, p);
    ShownAdvances(r, op, p);
    ReportsAdvance(r, op, p);
    ClockAdvances(r, op, p);
  }

  lemma CacheAdvances(r: Rec, op: Op, p: P.Player)
    requires Cursors(r, p) && (op.CachedPointer? ==> op.idx in r.source)
    ensures Cursors(After(r, op), Next(r, op, p))
  {
  }

  lemma MappingAdvances(r: Rec, op: Op, p: P.Player)
    requires Mapping(r, p) && (op.CachedPointer? ==> op.idx in r.source)
    ensures Mapping(After(r, op), Next(r, op, p))
  {
  }

  /** The clock and the cursors of the player follow. */
  lemma NextCore(r: Rec, op: Op, p: P.Player)
    requires Core(r, p) && ClockForward(r, op) && (op.CachedPointer? ==> op.idx in r.source)
    ensures Core(After(r, op), Next(r, op, p))
  {
    CacheAdvances(r, op, p);
    MappingAdvances(r, op, p);
    ClockAdvances(r, op, p);
  }

  // ----- What is recorded and what is received -----

  datatype Log = Log(
    shown: seq<P.Display>, drawn: seq<P.Drawing>, typed: seq<nat>, keys: seq<P.Key>, masks: seq<bool>,
    updates: seq<P.Update>, windowChanges: nat, images: seq<seq<byte>>, mouse: Option<(nat, nat)>)

  function NoLog(): Log { Log([], [], [], [], [], [], 0, [], None) }

  function Plus(a: Log, b: Log): Log {
    Log(a.shown + b.shown, a.drawn + b.drawn, a.typed + b.typed, a.keys + b.keys, a.masks + b.masks,
        a.updates + b.updates, a.windowChanges + b.windowChanges, a.images + b.images,
        if b.mouse.Some? then b.mouse else a.mouse)
  }

  lemma PlusPlus(a: Log, b: Log, c: Log)
    ensures Plus(a, Plus(b, c)) == Plus(Plus(a, b), c)
  {
    Regroup(a.shown, b.shown, c.shown);
    Regroup(a.drawn, b.drawn, c.drawn);
    Regroup(a.typed, b.typed, c.typed);
    Regroup(a.keys, b.keys, c.keys);
    Regroup(a.masks, b.masks, c.masks);
    Regroup(a.updates, b.updates, c.updates);
    Regroup(a.images, b.images, c.images);
  }

  lemma PlusNothing(a: Log)
    ensures Plus(a, NoLog()) == a == Plus(NoLog(), a)
  {
  }

  /** What an operation asks for: the cursor to show, the drawing, the key, the keys that are due with their
      instant, the mask, the update that the probes listen to, the change of window, the image, and the place
      of the mouse if it goes along. */
  function Recorded(r: Rec, op: Op, relevant: set<nat>): Log
    requires op.CachedPointer? ==> op.idx in r.source
  {
    Log(Shown(r, op), Drawn(op), Typed(r, op), Sent(r, op), if op.KbdMask? then [op.enable] else [],
        Updates(r, op, relevant), if op.WindowChange? then 1 else 0, if op.Breakpoint? then [op.png] else [],
        if Locates(r, op) then Some((r.mouseX, r.mouseY)) else None)
  }

  /** What the consumers have received, with the drawings and keys that the recorder still buffers. */
  function Received(r: Rec, p: P.Player): Log {
    Log(p.shown, p.drawn + Pending(r), Codes(p.keys) + r.keys, p.keys, p.masks, p.updates, p.windowChanges, p.images,
        Some((p.mouseX, p.mouseY)))
  }

  // ----- Opening a file -----

  lemma MetaPlays(p: P.Player, meta: seq<byte>, codec: P.Codec)
    requires p.image.None?
    ensures P.PlayChunk(p, Chunk(META_FILE, 1, meta), codec) == Some(Count(p, 1).(metaOk := true))
  {
  }

  lemma StatePlays(p: P.Player, state: seq<byte>, codec: P.Codec)
    requires p.image.None?
    ensures P.PlayChunk(p, Chunk(SAVE_STATE, 1, state), codec) == Some(Count(p, 1))
  {
  }

  function WithImage(p: P.Player, png: seq<byte>): P.Player {
    Count(p, 1).(image := None, images := p.images + [png])
  }

  /** The player after the first chunks of a file opened by a breakpoint. */
  function Reopened(r: Rec, p: P.Player, png: seq<byte>): P.Player {
    WithImage(Count(AfterTimestamp(r, AfterTimes(r, Count(p, 1).(metaOk := true))), 1), png)
  }

  /** What a breakpoint writes after size and time. */
  lemma RestOfOpeningPlays(r: Rec, p: P.Player, state: seq<byte>, png: seq<byte>, codec: P.Codec)
    requires Valid(r) && p.image.None? && png != []
    ensures P.Play(p, [TimestampChunk(r), Chunk(SAVE_STATE, 1, state)] + ImageChunks(png, MAX_IMAGE_PART), codec)
            == Some(WithImage(Count(AfterTimestamp(r, p), 1), png))
  {
    var (t, s) := (TimestampChunk(r), Chunk(SAVE_STATE, 1, state));
    var q := AfterTimestamp(r, p);
    TimestampPlays(r, p, codec);
    StatePlays(q, state, codec);
    ThenOne(p, [], p, t, q, codec);
    ThenOne(p, [] + [t], q, s, Count(q, 1), codec);
    ImagePlays(Count(q, 1), png, codec);
    assert [] + png == png;
    Then(p, [] + [t] + [s], Count(q, 1), ImageChunks(png, MAX_IMAGE_PART), WithImage(Count(q, 1), png), codec);
    assert [] + [t] + [s] == [t, s];
  }

  lemma OpeningPlays(r: Rec, p: P.Player, state: seq<byte>, png: seq<byte>, meta: seq<byte>, codec: P.Codec)
    requires Valid(r) && p.image.None? && png != []
    ensures P.Play(p, Opening(r, state, png, meta), codec) == Some(Reopened(r, p, png))
  {
    var m := Chunk(META_FILE, 1, meta);
    var p1 := Count(p, 1).(metaOk := true);
    var p2 := AfterTimes(r, p1);
    MetaPlays(p, meta, codec);
    TimesPlays(r, p1, codec);
    ThenOne(p, [], p, m, p1, codec);
    ThenOne(p, [] + [m], p1, TimesChunk(r), p2, codec);
    assert [] + [m] + [TimesChunk(r)] == [m, TimesChunk(r)];
    RestOfOpeningPlays(r, p2, state, png, codec);
    var rest := [TimestampChunk(r), Chunk(SAVE_STATE, 1, state)] + ImageChunks(png, MAX_IMAGE_PART);
    Then(p, [m, TimesChunk(r)], p2, rest, Reopened(r, p, png), codec);
    assert [m, TimesChunk(r)] + rest == Opening(r, state, png, meta);
  }

  /** A player that starts at a file which a breakpoint opened: it has consumers after size and time. */
  function Restarted(r: Rec, relevant: set<nat>, png: seq<byte>): P.Player {
    WithImage(Count(AfterTimestamp(r, P.Attach(AfterTimes(r, Count(P.Fresh(), 1).(metaOk := true)), relevant)), 1), png)
  }

  lemma RestartBegins(r: Rec, meta: seq<byte>, rest: seq<Chunk>, codec: P.Codec) returns (end: P.Place)
    requires Valid(r)
    ensures P.Begin(P.Start([Chunk(META_FILE, 1, meta), TimesChunk(r)] + rest), codec) == Some(end)
    ensures end.player == AfterTimes(r, Count(P.Fresh(), 1).(metaOk := true)) && end.orders == 0 && end.rest == rest
  {
    var p1 := Count(P.Fresh(), 1).(metaOk := true);
    MetaPlays(P.Fresh(), meta, codec);
    TimesPlays(r, p1, codec);
    var at := P.Start([Chunk(META_FILE, 1, meta), TimesChunk(r)] + rest);
    assert at.rest[1..] == [TimesChunk(r)] + rest;
    var one := P.BeginOnce(at, p1, codec);
    end := P.BeginOnce(one, AfterTimes(r, p1), codec);
  }

  lemma RestartPlays(r: Rec, relevant: set<nat>, state: seq<byte>, png: seq<byte>, meta: seq<byte>, codec: P.Codec)
    requires Valid(r) && png != []
    ensures P.Listen(relevant, Opening(r, state, png, meta), codec) == Some(Restarted(r, relevant, png))
  {
    var rest := [TimestampChunk(r), Chunk(SAVE_STATE, 1, state)] + ImageChunks(png, MAX_IMAGE_PART);
    var end := RestartBegins(r, meta, rest, codec);
    assert [Chunk(META_FILE, 1, meta), TimesChunk(r)] + rest == Opening(r, state, png, meta);
    RestOfOpeningPlays(r, P.Attach(end.player, relevant), state, png, codec);
    P.ListenOn(relevant, Opening(r, state, png, meta), end, Restarted(r, relevant, png), codec);
  }

  /** A player that has read the first chunks of the first file: they give it size and time, and then it
      has consumers. The image comes too early for them. */
  function Opened(r: Rec, relevant: set<nat>, images: nat): P.Player {
    P.Attach(AfterTimes(r, Count(P.Fresh(), images + 1).(metaOk := true)), relevant)
  }

  lemma OpenBegins(r: Rec, images: seq<Chunk>, meta: seq<byte>, codec: P.Codec) returns (end: P.Place)
    requires 0 <= r.timer - r.start < TWO_63 && 0 <= r.lastReal < TWO_63
    requires forall c | c in images :: IsImage(c.kind)
    ensures P.Begin(P.Start([Chunk(META_FILE, 1, meta)] + (images + [TimesChunk(r)])), codec) == Some(end)
    ensures end.player == AfterTimes(r, Count(P.Fresh(), |images| + 1).(metaOk := true))
    ensures end.orders == 0 && end.rest == []
  {
    var m := Chunk(META_FILE, 1, meta);
    var at := P.Start([m] + (images + [TimesChunk(r)]));
    var p1 := Count(P.Fresh(), 1).(metaOk := true);
    MetaPlays(P.Fresh(), meta, codec);
    var one := P.BeginOnce(at, p1, codec);
    var two := P.ImagesSkipped(one, images, [TimesChunk(r)], codec);
    end := BeginTimes(r, two, codec);
  }

  lemma BeginTimes(r: Rec, at: P.Place, codec: P.Codec) returns (end: P.Place)
    requires 0 <= r.timer - r.start < TWO_63 && 0 <= r.lastReal < TWO_63
    requires at.orders == 0 && at.rest == [TimesChunk(r)] && at.player.metaOk && at.player.image.None?
    ensures P.Begin(at, codec) == Some(end) && end.player == AfterTimes(r, at.player) && end.orders == 0 && end.rest == []
  {
    TimesPlays(r, at.player, codec);
    end := P.BeginOnce(at, AfterTimes(r, at.player), codec);
    assert at.rest[1..] == [];
  }

  lemma OpenWrites(now: int, realNow: int, source: map<nat, Cursor>, png: seq<byte>, meta: seq<byte>)
    requires 0 <= realNow < TWO_63
    ensures var r := Open(now, realNow, source, png, meta);
            && 0 <= r.timer - r.start < TWO_63 && 0 <= r.lastReal < TWO_63
            && r.out == [Chunk(META_FILE, 1, meta)] + (ImageChunks(png, MAX_IMAGE_PART) + [TimesChunk(r)])
  {
    var r := Open(now, realNow, source, png, meta);
    Regroup([Chunk(META_FILE, 1, meta)], ImageChunks(png, MAX_IMAGE_PART), [TimesChunk(r)]);
  }

  /** To a player that has consumers, the same chunks give the image. */
  lemma OpenHoldsImage(r: Rec, now: int, realNow: int, source: map<nat, Cursor>, png: seq<byte>, meta: seq<byte>,
                       p: P.Player, codec: P.Codec)
    requires 0 <= realNow < TWO_63 && r == Open(now, realNow, source, png, meta) && p.image.None? && png != []
    ensures P.Play(p, r.out, codec) == Some(AfterTimes(r, WithImage(Count(p, 1).(metaOk := true), png)))
  {
    var (m, images) := (Chunk(META_FILE, 1, meta), ImageChunks(png, MAX_IMAGE_PART));
    var p1 := Count(p, 1).(metaOk := true);
    var p2 := WithImage(p1, png);
    OpenWrites(now, realNow, source, png, meta);
    MetaPlays(p, meta, codec);
    P.PlayOne(p, m, codec);
    ImagePlays(p1, png, codec);
    assert [] + png == png;
    TimesPlays(r, p2, codec);
    ThenOne(p1, images, p2, TimesChunk(r), AfterTimes(r, p2), codec);
    Then(p, [m], p1, images + [TimesChunk(r)], AfterTimes(r, p2), codec);
  }

  lemma OpenPlays(r: Rec, now: int, realNow: int, source: map<nat, Cursor>, png: seq<byte>, meta: seq<byte>,
                  relevant: set<nat>, codec: P.Codec)
    requires 0 <= realNow < TWO_63 && r == Open(now, realNow, source, png, meta)
    ensures P.Listen(relevant, r.out, codec) == Some(Opened(r, relevant, |ImageChunks(png, MAX_IMAGE_PART)|))
  {
    var images := ImageChunks(png, MAX_IMAGE_PART);
    OpenWrites(now, realNow, source, png, meta);
    ImageChunksShape(png, MAX_IMAGE_PART);
    var end := OpenBegins(r, images, meta, codec);
    P.ListenOn(relevant, r.out, end, Opened(r, relevant, |images|), codec);
  }
}
