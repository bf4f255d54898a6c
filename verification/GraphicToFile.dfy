/** The recorder: an object that buffers drawings and keys and writes WRM bytes file by file. */
module GraphicToFile {
  import opened Bytes
  import opened WrmFormat
  import opened WrmImage
  import opened WrmRecord
  import P = WrmPlayer

  const POINTER_SLOTS: nat := P.MAX_POINTER_COUNT + P.PREDEFINED_POINTER_COUNT

  lemma EncodeOneMore(cs: seq<Chunk>, c: Chunk)
    ensures EncodeAll(cs + [c]) == EncodeAll(cs) + Encode(c)
  {
    EncodeAllAppend(cs, [c]);
    assert [c][1..] == [];
    assert EncodeAll([c]) == Encode(c) + [];
  }

  function EncodeFiles(files: seq<seq<Chunk>>): (r: seq<seq<byte>>)
    ensures |r| == |files|
  {
    if files == [] then [] else [EncodeAll(files[0])] + EncodeFiles(files[1..])
  }

  lemma {:induction false} EncodeFilesAppend(files: seq<seq<Chunk>>, f: seq<Chunk>)
    ensures EncodeFiles(files + [f]) == EncodeFiles(files) + [EncodeAll(f)]
  {
    if files == [] {
      assert files + [f] == [f];
      assert [f][1..] == [];
    } else {
      assert (files + [f])[1..] == files[1..] + [f];
      EncodeFilesAppend(files[1..], f);
    }
  }

  /** The state once there is room for one more order (or bitmap). */
  function Reserved(r: Rec, asked: nat, bitmap: bool): Rec {
    if bitmap then
      var full := Full(r.bitmaps, asked);
      r.(orders := [], bitmaps := if full then [] else r.bitmaps,
         out := r.out + (OrderChunks(r) + if full then BitmapChunks(r) else []))
    else
      var full := Full(r.orders, asked);
      r.(bitmaps := [], orders := if full then [] else r.orders,
         out := r.out + (BitmapChunks(r) + if full then OrderChunks(r) else []))
  }

  lemma StepOfDraw(r: Rec, op: Op)
    requires WrmRecord.Valid(r) && (op.DrawOrder? || op.DrawBitmap?)
    ensures op.DrawOrder? ==>
              var q := Reserved(r, op.asked, false);
              Step(r, op) == q.(orders := q.orders + [op.order])
    ensures op.DrawBitmap? ==>
              var q := Reserved(r, |op.bitmap|, true);
              Step(r, op) == q.(bitmaps := q.bitmaps + [op.bitmap])
  {
  }

  lemma StepOfUpdateTimes(r: Rec, now: int, realNow: int)
    requires WrmRecord.Valid(r) && Fits(r, Op.UpdateTimes(now, realNow))
    ensures var q := r.(orders := [], bitmaps := [], out := r.out + FlushChunks(r),
                        timer := now, monoReal := now, lastReal := realNow);
            Step(r, Op.UpdateTimes(now, realNow)) == q.(out := q.out + [TimesChunk(q)])
  {
    assert r.out + (FlushChunks(r) + [TimesChunk(r.(timer := now, lastReal := realNow))])
        == r.out + FlushChunks(r) + [TimesChunk(r.(timer := now, lastReal := realNow))];
  }

  lemma StepOfSessionUpdate(r: Rec, now: int, id: nat, kvs: seq<Kv>)
    requires WrmRecord.Valid(r) && Fits(r, Op.SessionUpdate(now, id, kvs))
    ensures var s := SetTimer(r, now);
            && -TWO_63 <= Micros(now - r.start) < TWO_63 && s.timer >= s.start
            && Step(r, Op.SessionUpdate(now, id, kvs))
               == s.(keys := [], out := r.out + PendingInput(s) + [UpdateChunk(r, now, id, kvs)])
  {
    MicrosRange(now - r.start);
    var s := SetTimer(r, now);
    assert r.out + (PendingInput(s) + [UpdateChunk(r, now, id, kvs)])
        == r.out + PendingInput(s) + [UpdateChunk(r, now, id, kvs)];
  }

  lemma StepOfBreakpoint(r: Rec, op: Op)
    requires WrmRecord.Valid(r) && Fits(r, op) && op.Breakpoint?
    ensures var a := Rebase(r.(orders := [], bitmaps := [], keys := [], cached := {},
                               files := r.files + [r.out + FlushChunks(r) + [TimestampChunk(r)]]));
            Step(r, op) == a.(out := [Chunk(META_FILE, 1, op.meta), TimesChunk(a), TimestampChunk(a),
                                      Chunk(SAVE_STATE, 1, op.saveState)]
                                     + ImageChunks(op.png, MAX_IMAGE_PART))
  {
    var closing := FlushChunks(r) + [TimestampChunk(r)];
    assert Emitted(r, op) == closing;
    Regroup(r.out, FlushChunks(r), [TimestampChunk(r)]);
    assert r.out + closing == r.out + FlushChunks(r) + [TimestampChunk(r)];
  }

  lemma ClosedThenOpened(r: Rec, op: Op, closed: Rec, next: Rec)
    requires WrmRecord.Valid(r) && Fits(r, op) && op.Breakpoint?
    requires closed == Rebase(r.(orders := [], bitmaps := [], keys := [], out := [],
                                 files := r.files + [r.out + FlushChunks(r) + [TimestampChunk(r)]]))
    requires closed.timer >= closed.start && closed.lastReal >= 0
    requires var a := closed.(cached := {});
             next == a.(out := [Chunk(META_FILE, 1, op.meta), TimesChunk(a), TimestampChunk(a),
                                  Chunk(SAVE_STATE, 1, op.saveState)]
                                 + ImageChunks(op.png, MAX_IMAGE_PART))
    ensures next == Step(r, op)
  {
    StepOfBreakpoint(r, op);
  }

  class GraphicToFile {
    const startTimer: int
    var timer: int
    var monotonicRealTime: int
    var lastRealTime: int
    var mouseX: nat
    var mouseY: nat
    // StaticOutStream of KEYBUF_SIZE codes
    var keyboardBuffer: seq<byte>
    var kbdInputMaskEnabled: bool
    const ptrCached: array<bool>
    // the view on the cursors of the source
    var ptrCache: map<nat, Cursor>
    var streamOrders: seq<byte>
    var orderCount: nat
    var streamBitmaps: seq<byte>
    var bitmapCount: nat
    // the sequenced transport: finished files and the current one
    var files: seq<seq<byte>>
    var trans: seq<byte>
    // the specification state
    ghost var rec: Rec

    ghost predicate Matches(r: Rec)
      reads this, ptrCached
    {
      && r.start == startTimer && r.timer == timer
      && r.monoReal == monotonicRealTime && r.lastReal == lastRealTime
      && r.mouseX == mouseX && r.mouseY == mouseY && r.masked == kbdInputMaskEnabled
      && keyboardBuffer == EncodeKeys(r.keys)
      && r.source == ptrCache
      && ptrCached.Length == POINTER_SLOTS
      && (forall i :: 0 <= i < POINTER_SLOTS ==> (ptrCached[i] <==> i in r.cached))
      && streamOrders == Concat(r.orders) && orderCount == |r.orders|
      && streamBitmaps == Concat(r.bitmaps) && bitmapCount == |r.bitmaps|
      && trans == EncodeAll(r.out) && files == EncodeFiles(r.files)
    }

    ghost predicate Valid()
      reads this, ptrCached
    {
      WrmRecord.Valid(rec) && Matches(rec)
    }

    /** The chunk header and its payload; the size and the count have 16 bits in the code. */
    method SendChunk(kind: nat, payload: seq<byte>, count: nat)
      requires Matches(rec)
      requires kind < TWO_16 && |payload| < TWO_16 && count < TWO_16
      modifies this`trans, this`rec
      ensures rec == old(rec).(out := old(rec).out + [Chunk(kind, count, payload)])
      ensures Matches(rec)
    {
      EncodeOneMore(rec.out, Chunk(kind, count, payload));
      trans := trans + Header(kind, |payload|, count);
      trans := trans + payload;
      rec := rec.(out := rec.out + [Chunk(kind, count, payload)]);
      assert trans == EncodeAll(rec.out);
    }

    method FlushOrders()
      requires Matches(rec) && BatchFits(rec.orders)
      modifies this`trans, this`rec, this`orderCount, this`streamOrders
      ensures rec == old(rec).(orders := [], out := old(rec).out + OrderChunks(old(rec)))
      ensures Matches(rec)
    {
      if orderCount > 0 {
        SendChunk(RDP_UPDATE_ORDERS, streamOrders, orderCount);
        orderCount := 0;
        streamOrders := [];
        rec := rec.(orders := []);
      } else {
        assert rec.orders == [];
        assert rec.out + [] == rec.out;
      }
    }

    method FlushBitmaps()
      requires Matches(rec) && BatchFits(rec.bitmaps)
      modifies this`trans, this`rec, this`bitmapCount, this`streamBitmaps
      ensures rec == old(rec).(bitmaps := [], out := old(rec).out + BitmapChunks(old(rec)))
      ensures Matches(rec)
    {
      if bitmapCount > 0 {
        SendChunk(RDP_UPDATE_BITMAP2, streamBitmaps, bitmapCount);
        bitmapCount := 0;
        streamBitmaps := [];
        rec := rec.(bitmaps := []);
      } else {
        assert rec.bitmaps == [];
        assert rec.out + [] == rec.out;
      }
    }

    method ReserveOrder(asked: nat)
      requires Matches(rec) && BatchFits(rec.orders) && BatchFits(rec.bitmaps)
      modifies this`trans, this`rec, this`orderCount, this`streamOrders, this`bitmapCount, this`streamBitmaps
      ensures rec == Reserved(old(rec), asked, false) && Matches(rec)
    {
      ghost var was := rec;
      var usedSize := |streamOrders|;
      if bitmapCount > 0 {
        FlushBitmaps();
      }
      assert rec == was.(bitmaps := [], out := was.out + BitmapChunks(was)) by { assert was.out + [] == was.out; }
      if orderCount >= MAX_BATCH || usedSize + asked + SERIALIZER_HEADER_SIZE > MAX_PACKET_SIZE {
        FlushOrders();
      }
      assert rec.out == was.out + (BitmapChunks(was) + if Full(was.orders, asked) then OrderChunks(was) else []);
    }

    method ReserveBitmap(asked: nat)
      requires Matches(rec) && BatchFits(rec.orders) && BatchFits(rec.bitmaps)
      modifies this`trans, this`rec, this`orderCount, this`streamOrders, this`bitmapCount, this`streamBitmaps
      ensures rec == Reserved(old(rec), asked, true) && Matches(rec)
    {
      ghost var was := rec;
      var usedSize := |streamBitmaps|;
      if orderCount > 0 {
        FlushOrders();
      }
      assert rec == was.(orders := [], out := was.out + OrderChunks(was)) by { assert was.out + [] == was.out; }
      if bitmapCount >= MAX_BATCH || usedSize + asked + SERIALIZER_HEADER_SIZE > MAX_PACKET_SIZE {
        FlushBitmaps();
      }
      assert rec.out == was.out + (OrderChunks(was) + if Full(was.bitmaps, asked) then BitmapChunks(was) else []);
    }

    method DrawOrder(order: seq<byte>, asked: nat)
      requires Valid() && Fits(rec, Op.DrawOrder(order, asked))
      modifies this
      ensures Valid() && rec == Step(old(rec), Op.DrawOrder(order, asked))
    {
      ghost var op := Op.DrawOrder(order, asked);
      StepOfDraw(rec, op);
      StepStaysValid(rec, op);
      ReserveOrder(asked);
      AddOrder(order);
    }

    method AddOrder(order: seq<byte>)
      requires Matches(rec)
      modifies this`rec, this`orderCount, this`streamOrders
      ensures rec == old(rec).(orders := old(rec).orders + [order]) && Matches(rec)
    {
      orderCount := orderCount + 1;
      streamOrders := streamOrders + order;
      ConcatOne(rec.orders, order);
      rec := rec.(orders := rec.orders + [order]);
    }

    method DrawBitmap(bitmap: seq<byte>)
      requires Valid() && Fits(rec, Op.DrawBitmap(bitmap))
      modifies this
      ensures Valid() && rec == Step(old(rec), Op.DrawBitmap(bitmap))
    {
      ghost var op := Op.DrawBitmap(bitmap);
      StepOfDraw(rec, op);
      StepStaysValid(rec, op);
      ReserveBitmap(|bitmap|);
      AddBitmap(bitmap);
    }

    method AddBitmap(bitmap: seq<byte>)
      requires Matches(rec)
      modifies this`rec, this`bitmapCount, this`streamBitmaps
      ensures rec == old(rec).(bitmaps := old(rec).bitmaps + [bitmap]) && Matches(rec)
    {
      bitmapCount := bitmapCount + 1;
      streamBitmaps := streamBitmaps + bitmap;
      ConcatOne(rec.bitmaps, bitmap);
      rec := rec.(bitmaps := rec.bitmaps + [bitmap]);
    }

    // ----- Clock, mouse and keys -----

    method SendTimePoints()
      requires Matches(rec) && 0 <= timer - startTimer && 0 <= lastRealTime
      modifies this`trans, this`rec
      ensures rec == old(rec).(out := old(rec).out + [TimesChunk(old(rec))]) && Matches(rec)
    {
      SendChunk(TIMES, Le64(Micros(timer - startTimer)) + Le64(Micros(lastRealTime)), 1);
    }

    method MouseMove(x: nat, y: nat)
      requires Valid() && Fits(rec, Op.MouseMove(x, y))
      modifies this
      ensures Valid() && rec == Step(old(rec), Op.MouseMove(x, y))
    {
      mouseX, mouseY := x, y;
      assert rec.out + [] == rec.out;
      rec := rec.(mouseX := x, mouseY := y);
    }

    /** WrmCaptureImpl::kbd_input: a full buffer drops the key. */
    method KbdInput(code: nat)
      requires Valid() && Fits(rec, Op.KbdInput(code))
      modifies this
      ensures Valid() && rec == Step(old(rec), Op.KbdInput(code))
    {
      var c := if kbdInputMaskEnabled then STAR else code;
      assert rec.out + [] == rec.out;
      if |keyboardBuffer| + 4 <= 4 * KEYBUF_SIZE {
        AddKey(c);
      } else {
        assert rec.keys + [] == rec.keys;
      }
    }

    method AddKey(c: nat)
      requires Matches(rec)
      modifies this`rec, this`keyboardBuffer
      ensures rec == old(rec).(keys := old(rec).keys + [c]) && Matches(rec)
    {
      EncodeKeysAppend(rec.keys, c);
      keyboardBuffer := keyboardBuffer + U32Le(c);
      rec := rec.(keys := rec.keys + [c]);
    }

    method EnableKbdInputMask(enable: bool)
      requires Valid()
      modifies this
      ensures Valid() && rec == Step(old(rec), Op.KbdMask(enable))
    {
      kbdInputMaskEnabled := enable;
      rec := rec.(masked := enable);
      SendChunk(KBD_INPUT_MASK, [if enable then 1 else 0], 1);
    }

    method FlushAll()
      requires Matches(rec) && BatchFits(rec.orders) && BatchFits(rec.bitmaps)
      modifies this`trans, this`rec, this`orderCount, this`streamOrders, this`bitmapCount, this`streamBitmaps
      ensures rec == old(rec).(orders := [], bitmaps := [], out := old(rec).out + FlushChunks(old(rec)))
      ensures Matches(rec)
    {
      ghost var was := rec;
      FlushOrders();
      FlushBitmaps();
      assert was.out + OrderChunks(was) + BitmapChunks(was) == was.out + FlushChunks(was);
    }

    method Timestamp(now: int)
      requires Valid() && Fits(rec, Op.Timestamp(now))
      modifies this
      ensures Valid() && rec == Step(old(rec), Op.Timestamp(now))
    {
      StepStaysValid(rec, Op.Timestamp(now));
      FlushAll();
      timer := now;
      rec := rec.(timer := now);
    }

    method UpdateTimes(now: int, realNow: int)
      requires Valid() && Fits(rec, Op.UpdateTimes(now, realNow))
      modifies this
      ensures Valid() && rec == Step(old(rec), Op.UpdateTimes(now, realNow))
    {
      StepStaysValid(rec, Op.UpdateTimes(now, realNow));
      StepOfUpdateTimes(rec, now, realNow);
      FlushAll();
      SetTimes(now, realNow);
      SendTimePoints();
    }

    method SetTimes(now: int, realNow: int)
      requires Matches(rec)
      modifies this`rec, this`timer, this`monotonicRealTime, this`lastRealTime
      ensures rec == old(rec).(timer := now, monoReal := now, lastReal := realNow) && Matches(rec)
    {
      timer := now;
      monotonicRealTime := now;
      lastRealTime := realNow;
      rec := rec.(timer := now, monoReal := now, lastReal := realNow);
    }

    /** The chunk carries the pending keys and empties their buffer. */
    method SendTimestampChunk()
      requires Matches(rec) && 0 <= timer - startTimer && |rec.keys| <= KEYBUF_SIZE
      modifies this`trans, this`rec, this`keyboardBuffer
      ensures rec == old(rec).(keys := [], out := old(rec).out + [TimestampChunk(old(rec))])
      ensures Matches(rec)
    {
      ghost var was := rec;
      var payload := Le64(Micros(timer - startTimer));
      payload := payload + (U16Le(mouseX) + U16Le(mouseY) + ([0] + keyboardBuffer));
      assert payload == TimestampChunk(was).payload;
      keyboardBuffer := [];
      rec := rec.(keys := []);
      SendChunk(TIMESTAMP, payload, 1);
    }

    method SendTimestamp()
      requires Valid()
      modifies this
      ensures Valid() && rec == Step(old(rec), Op.SendTimestamp)
    {
      SendTimestampChunk();
    }

    /** Pending keys are written before an event that may depend on them. */
    method SendPendingInput()
      requires Matches(rec) && 0 <= timer - startTimer && |rec.keys| <= KEYBUF_SIZE
      modifies this`trans, this`rec, this`keyboardBuffer
      ensures 0 <= old(rec).timer - old(rec).start
      ensures rec == old(rec).(keys := [], out := old(rec).out + PendingInput(old(rec))) && Matches(rec)
    {
      ghost var was := rec;
      if |keyboardBuffer| != 0 {
        SendTimestampChunk();
      } else {
        assert was.keys == [];
        assert was.out + [] == was.out;
      }
    }

    method PossibleActiveWindowChange()
      requires Valid()
      modifies this
      ensures Valid() && rec == Step(old(rec), Op.WindowChange)
    {
      ghost var was := rec;
      SendPendingInput();
      SendChunk(POSSIBLE_ACTIVE_WINDOW_CHANGE, [], 0);
      assert rec.out == was.out + Emitted(was, Op.WindowChange);
    }

    // ----- Session updates -----

    /** The pairs of an update, cut at the first one that does not fit the buffer. */
    method WriteKvs(kvs: seq<Kv>) returns (out: seq<byte>, kvLen: nat)
      requires ValidKvs(kvs)
      ensures var kept := KeptKvs(kvs, UPDATE_BUFFER - UPDATE_FIXED);
              out == EncodeKvs(kept) && kvLen == |kept| && kvLen < 256
    {
      out, kvLen := [], 0;
      var room := UPDATE_BUFFER - UPDATE_FIXED;
      assert kvs[0..] == kvs;
      while kvLen < |kvs|
        invariant kvLen <= |kvs| && room == UPDATE_BUFFER - UPDATE_FIXED - |out|
        invariant out + EncodeKvs(KeptKvs(kvs[kvLen..], room))
                  == EncodeKvs(KeptKvs(kvs, UPDATE_BUFFER - UPDATE_FIXED))
        invariant kvLen + |KeptKvs(kvs[kvLen..], room)| == |KeptKvs(kvs, UPDATE_BUFFER - UPDATE_FIXED)|
      {
        var kv := kvs[kvLen];
        ghost var rest := kvs[kvLen..];
        assert rest[0] == kv && rest[1..] == kvs[kvLen + 1..];
        if KvSize(kv) > room {
          assert KeptKvs(rest, room) == [];
          assert out + [] == out;
          return;
        }
        NextKv(rest, room, out);
        out := out + EncodeKv(kv);
        room := room - KvSize(kv);
        kvLen := kvLen + 1;
      }
      assert KeptKvs(kvs[kvLen..], room) == [];
      assert out + [] == out;
    }

    method AdvanceTimer(now: int)
      requires Matches(rec)
      modifies this`timer, this`rec
      ensures rec == SetTimer(old(rec), now) && Matches(rec)
    {
      if timer < now {
        timer := now;
      }
      rec := SetTimer(rec, now);
    }

    method SessionUpdate(now: int, id: nat, kvs: seq<Kv>)
      requires Valid() && Fits(rec, Op.SessionUpdate(now, id, kvs))
      modifies this
      ensures Valid() && rec == Step(old(rec), Op.SessionUpdate(now, id, kvs))
    {
      ghost var was := rec;
      StepStaysValid(rec, Op.SessionUpdate(now, id, kvs));
      StepOfSessionUpdate(rec, now, id, kvs);
      AdvanceTimer(now);
      SendPendingInput();
      var pairs, kvLen := WriteKvs(kvs);
      KeptKvsFit(kvs, UPDATE_BUFFER - UPDATE_FIXED);
      var message := U32Le(id) + (Le(kvLen, 1) + pairs);
      var payload := I64Le(Micros(now - startTimer)) + (U16Le(|message|) + message);
      assert payload == UpdateChunk(was, now, id, kvs).payload;
      SendChunk(SESSION_UPDATE, payload, 1);
    }

    // ----- Pointers -----

    method SendPointer(idx: nat, cursor: Cursor)
      requires Matches(rec) && idx < P.MAX_POINTER_COUNT && ValidCursor(cursor)
      modifies this`trans, this`rec
      ensures rec == old(rec).(out := old(rec).out + [NativeChunk(idx, cursor)]) && Matches(rec)
    {
      SendChunk(POINTER_NATIVE, EncodeCursor(idx, cursor), 0);
    }

    method SetCached(idx: nat)
      requires Matches(rec) && idx < P.MAX_POINTER_COUNT
      modifies ptrCached, this`rec
      ensures rec == old(rec).(cached := old(rec).cached + {idx}) && Matches(rec)
    {
      ptrCached[idx] := true;
      rec := rec.(cached := rec.cached + {idx});
    }

    method CachedPointer(idx: nat)
      requires Valid() && Fits(rec, Op.CachedPointer(idx))
      modifies this, ptrCached
      ensures Valid() && rec == Step(old(rec), Op.CachedPointer(idx))
    {
      StepStaysValid(rec, Op.CachedPointer(idx));
      if ptrCached[idx] {
        SendChunk(CACHED_POINTER, U16Le(mouseX) + U16Le(mouseY) + Le(idx, 1), 0);
        assert rec.cached + {idx} == rec.cached;
      } else {
        SendPointer(idx, ptrCache[idx]);
        SetCached(idx);
      }
    }

    method CachedPredefinedPointer(i: nat)
      requires Valid() && Fits(rec, Op.PredefinedPointer(i))
      modifies this
      ensures Valid() && rec == Step(old(rec), Op.PredefinedPointer(i))
    {
      SendChunk(INTERNAL_POINTER, U16Le(mouseX) + U16Le(mouseY) + Le(i, 1), 0);
    }

    /** The source stores the cursor before it announces it. */
    method NewPointer(idx: nat, cursor: Cursor)
      requires Valid() && Fits(rec, Op.NewPointer(idx, cursor))
      modifies this, ptrCached
      ensures Valid() && rec == Step(old(rec), Op.NewPointer(idx, cursor))
    {
      StepStaysValid(rec, Op.NewPointer(idx, cursor));
      ptrCache := ptrCache[idx := cursor];
      rec := rec.(source := rec.source[idx := cursor]);
      SendPointer(idx, cursor);
      SetCached(idx);
    }

    // ----- Files -----

    method SendImage(png: seq<byte>)
      requires Matches(rec)
      modifies this`trans, this`rec
      ensures rec == old(rec).(out := old(rec).out + ImageChunks(png, MAX_IMAGE_PART)) && Matches(rec)
    {
      var t := new ImageTransport(MAX_CHUNK_SIZE, trans);
      t.Send(png);
      assert [] + png == png;
      t.Flush();
      EncodeAllAppend(rec.out, ImageChunks(png, MAX_IMAGE_PART));
      trans := t.out;
      rec := rec.(out := rec.out + ImageChunks(png, MAX_IMAGE_PART));
    }

    method ForgetCursors()
      requires Matches(rec)
      modifies ptrCached, this`rec
      ensures rec == old(rec).(cached := {}) && Matches(rec)
    {
      forall i | 0 <= i < ptrCached.Length {
        ptrCached[i] := false;
      }
      rec := rec.(cached := {});
    }

    /** SequencedTransport::next. */
    method NextFile()
      requires Matches(rec)
      modifies this`files, this`trans, this`rec
      ensures rec == old(rec).(files := old(rec).files + [old(rec).out], out := []) && Matches(rec)
    {
      EncodeFilesAppend(rec.files, rec.out);
      files := files + [trans];
      trans := [];
      rec := rec.(files := rec.files + [rec.out], out := []);
    }

    method SendMetaChunk(meta: seq<byte>)
      requires Matches(rec) && |meta| <= META_SIZE
      modifies this`trans, this`rec
      ensures rec == old(rec).(out := old(rec).out + [Chunk(META_FILE, 1, meta)]) && Matches(rec)
    {
      SendChunk(META_FILE, meta, 1);
    }

    method RebaseClock()
      requires Matches(rec)
      modifies this`lastRealTime, this`monotonicRealTime, this`rec
      ensures rec == Rebase(old(rec)) && Matches(rec)
    {
      lastRealTime := lastRealTime + (timer - monotonicRealTime);
      monotonicRealTime := timer;
      rec := Rebase(rec);
    }

    /** Closes the current file and starts the next one with all that a player needs. */
    method Breakpoint(saveState: seq<byte>, png: seq<byte>, meta: seq<byte>)
      requires Valid() && Fits(rec, Op.Breakpoint(saveState, png, meta))
      modifies this, ptrCached
      ensures Valid() && rec == Step(old(rec), Op.Breakpoint(saveState, png, meta))
    {
      ghost var (op, was) := (Op.Breakpoint(saveState, png, meta), rec);
      StepStaysValid(rec, op);
      CloseFile();
      ghost var closed := rec;
      OpenFile(saveState, png, meta);
      ClosedThenOpened(was, op, closed, rec);
    }

    /** Everything that a breakpoint does before it writes in the new file. */
    method CloseFile()
      requires Valid()
      modifies this
      ensures Matches(rec)
      ensures var r := old(rec);
              && 0 <= r.timer - r.start
              && rec == Rebase(r.(orders := [], bitmaps := [], keys := [], out := [],
                                  files := r.files + [r.out + FlushChunks(r) + [TimestampChunk(r)]]))
    {
      FlushAll();
      SendTimestampChunk();
      NextFile();
      RebaseClock();
    }

    /** Everything that a breakpoint writes in the new file. */
    method OpenFile(saveState: seq<byte>, png: seq<byte>, meta: seq<byte>)
      requires Matches(rec) && rec.out == [] && rec.keys == [] && rec.orders == []
      requires 0 <= timer - startTimer && 0 <= lastRealTime
      requires |meta| <= META_SIZE && |saveState| <= SAVE_STATE_SIZE
      modifies this, ptrCached
      ensures Matches(rec)
      ensures var a := old(rec).(cached := {});
              rec == a.(out := [Chunk(META_FILE, 1, meta), TimesChunk(a), TimestampChunk(a),
                                Chunk(SAVE_STATE, 1, saveState)]
                               + ImageChunks(png, MAX_IMAGE_PART))
    {
      SendHead(saveState, meta);
      SendImage(png);
      ForgetCursors();
      FlushOrders();
      assert OrderChunks(rec) == [];
    }

    method SendHead(saveState: seq<byte>, meta: seq<byte>)
      requires Matches(rec) && rec.out == [] && rec.keys == []
      requires 0 <= timer - startTimer && 0 <= lastRealTime
      requires |meta| <= META_SIZE && |saveState| <= SAVE_STATE_SIZE
      modifies this`trans, this`rec, this`keyboardBuffer
      ensures Matches(rec)
      ensures var a := old(rec);
              rec == a.(out := [Chunk(META_FILE, 1, meta), TimesChunk(a), TimestampChunk(a),
                                Chunk(SAVE_STATE, 1, saveState)])
    {
      SendMetaChunk(meta);
      SendTimePoints();
      SendTimestampChunk();
      SendChunk(SAVE_STATE, saveState, 1);
    }

    constructor (now: int, realNow: int, source: map<nat, Cursor>, png: seq<byte>, meta: seq<byte>)
      requires 0 <= realNow < TWO_63 && |meta| <= META_SIZE
      requires forall i | i in source :: i < P.MAX_POINTER_COUNT && ValidCursor(source[i])
      ensures Valid() && fresh(ptrCached)
      ensures rec == Open(now, realNow, source, png, meta)
    {
      startTimer := now;
      timer := now;
      monotonicRealTime := now;
      lastRealTime := realNow;
      mouseX, mouseY := 0, 0;
      keyboardBuffer := [];
      kbdInputMaskEnabled := false;
      ptrCached := new bool[POINTER_SLOTS](_ => false);
      ptrCache := source;
      streamOrders, orderCount := [], 0;
      streamBitmaps, bitmapCount := [], 0;
      files, trans := [], [];
      rec := Rec(now, now, now, realNow, 0, 0, [], false, {}, source, [], [], [], []);
      new;
      WriteOpening(png, meta);
      OpenValid(now, realNow, source, png, meta);
    }

    /** What the constructor writes. */
    method WriteOpening(png: seq<byte>, meta: seq<byte>)
      requires Matches(rec) && rec.out == [] && |meta| <= META_SIZE && 0 <= timer - startTimer && 0 <= lastRealTime
      modifies this`trans, this`rec
      ensures Matches(rec)
      ensures rec == old(rec).(out := [Chunk(META_FILE, 1, meta)] + ImageChunks(png, MAX_IMAGE_PART) + [TimesChunk(old(rec))])
    {
      SendMetaChunk(meta);
      SendImage(png);
      SendTimePoints();
      assert [] + [Chunk(META_FILE, 1, meta)] == [Chunk(META_FILE, 1, meta)];
    }
  }

  lemma OpenValid(now: int, realNow: int, source: map<nat, Cursor>, png: seq<byte>, meta: seq<byte>)
    requires 0 <= realNow < TWO_63
    requires forall i | i in source :: i < P.MAX_POINTER_COUNT && ValidCursor(source[i])
    ensures WrmRecord.Valid(Open(now, realNow, source, png, meta))
  {
  }

  /** The first pair that fits is written, and the others after it. */
  lemma NextKv(rest: seq<Kv>, room: int, out: seq<byte>)
    requires rest != [] && KvSize(rest[0]) <= room
    ensures var tail := KeptKvs(rest[1..], room - KvSize(rest[0]));
            && |KeptKvs(rest, room)| == 1 + |tail|
            && out + EncodeKvs(KeptKvs(rest, room)) == out + EncodeKv(rest[0]) + EncodeKvs(tail)
  {
    var (kv, tail) := (rest[0], KeptKvs(rest[1..], room - KvSize(rest[0])));
    assert KeptKvs(rest, room) == [kv] + tail && ([kv] + tail)[1..] == tail;
    Regroup(out, EncodeKv(kv), EncodeKvs(tail));
  }
}
