/** The player: an object that reads WRM bytes, chunk header by chunk header, and interprets the
    orders of each chunk one at a time. */
module FileToGraphic {
  import opened Bytes
  import opened WrmFormat
  import opened WrmPlayer

  datatype Status = Ready | Eof | Failed

  /** A PARTIAL image chunk is followed by another chunk of the image. */
  predicate ImagesClosed(cs: seq<Chunk>) {
    forall i :: 0 <= i < |cs| && cs[i].kind == PARTIAL_IMAGE_CHUNK ==> i + 1 < |cs| && IsImage(cs[i + 1].kind)
  }

  /** Chunks a file can hold. */
  predicate Readable(cs: seq<Chunk>) {
    ImagesClosed(cs) && forall i :: 0 <= i < |cs| ==> WellFormed(cs[i])
  }

  lemma ReadableTail(cs: seq<Chunk>)
    requires cs != [] && Readable(cs)
    ensures Readable(cs[1..])
    ensures cs[0].kind == PARTIAL_IMAGE_CHUNK ==> |cs| > 1 && IsImage(cs[1].kind)
  {
    var t := cs[1..];
    forall i | 0 <= i < |t| && t[i].kind == PARTIAL_IMAGE_CHUNK ensures i + 1 < |t| && IsImage(t[i + 1].kind) {
      assert cs[i + 1] == t[i];
      assert cs[i + 2] == t[i + 1];
    }
  }

  /** An image that has been read up to here: still open after a PARTIAL chunk, delivered after the
      last one. */
  function Imaged(p: Player, kind: nat, data: seq<byte>): Player {
    if kind == PARTIAL_IMAGE_CHUNK then p.(image := Some(data))
    else p.(image := None, images := p.images + [data], interpreted := p.interpreted + 1)
  }

  lemma ImagedStep(p: Player, data: seq<byte>, c: Chunk, rest: seq<Chunk>, codec: Codec)
    requires IsImage(c.kind)
    ensures Play(Imaged(p, PARTIAL_IMAGE_CHUNK, data), [c] + rest, codec)
            == Play(Imaged(p, c.kind, data + c.payload), rest, codec)
    ensures p.image.None? ==>
              Play(p, [c] + rest, codec) == Play(Imaged(p, c.kind, c.payload), rest, codec)
  {
    assert ([c] + rest)[1..] == rest;
    assert [] + c.payload == c.payload;
  }

  /** An interpretation that may throw: ok with the new state, or not ok. */
  ghost predicate Same(o: Outcome, ok: bool, p: Player, s: seq<byte>) {
    match o
    case None => !ok
    case Some((q, rest)) => ok && p == q && s == rest
  }

  class FileToGraphic {
    // the transport
    var input: seq<byte>
    // the current chunk
    var stream: seq<byte>
    var chunkType: nat
    var chunkSize: nat
    var chunkCount: nat
    var remainingOrderCount: nat
    // what the chunks have set, and what the consumers have received
    var player: Player
    const codec: Codec

    /** Without the loop of Open. */
    constructor (input: seq<byte>, codec: Codec)
      ensures this.input == input && this.codec == codec && remainingOrderCount == 0
      ensures player == Fresh() && chunkType == INVALID_CHUNK && chunkSize == 0 && stream == []
    {
      this.input := input;
      stream := [];
      chunkType, chunkSize, chunkCount, remainingOrderCount := INVALID_CHUNK, 0, 0, 0;
      player := Fresh();
      this.codec := codec;
    }

    /** The next n bytes of the transport. */
    method Receive(n: nat) returns (data: seq<byte>, ok: bool)
      modifies this`input
      ensures ok == (n <= |old(input)|)
      ensures ok ==> data == old(input)[..n] && input == old(input)[n..]
      ensures !ok ==> input == old(input)
    {
      ok := n <= |input|;
      if ok {
        data, input := input[..n], input[n..];
      } else {
        data := [];
      }
    }

    /** Moves to the next order: inside the current chunk, or at the start of the next one. */
    method NextOrder() returns (r: Status)
      modifies this`input, this`stream, this`chunkType, this`chunkSize, this`chunkCount, this`remainingOrderCount
      ensures old(remainingOrderCount) > 0 && (IsImage(old(chunkType)) || old(stream) != []) ==>
                && r == Ready && remainingOrderCount == old(remainingOrderCount) - 1
                && input == old(input) && stream == old(stream)
                && chunkType == old(chunkType) && chunkSize == old(chunkSize)
      ensures old(remainingOrderCount) > 0 && !IsImage(old(chunkType)) && old(stream) == [] ==> r == Failed
      ensures old(remainingOrderCount) == 0 && old(input) == [] ==> r == Eof && input == []
      ensures old(remainingOrderCount) == 0 && r == Ready ==>
                && |old(input)| >= WRM_HEADER_SIZE
                && var h := DecodeHeader(old(input)[..WRM_HEADER_SIZE]);
                   var data := old(input)[WRM_HEADER_SIZE..];
                   && chunkType == h.kind && chunkSize == h.size
                   && remainingOrderCount == Interpretations(h.count) - 1
                   && (if IsImage(h.kind) then input == data
                       else WRM_HEADER_SIZE <= h.size <= WRM_HEADER_SIZE + |data| && h.size <= MAX_CHUNK_SIZE
                            && stream == data[..h.size - WRM_HEADER_SIZE]
                            && input == data[h.size - WRM_HEADER_SIZE..])
      ensures old(remainingOrderCount) == 0 && r == Failed && |old(input)| >= WRM_HEADER_SIZE ==>
                var h := DecodeHeader(old(input)[..WRM_HEADER_SIZE]);
                !IsImage(h.kind)
                && (h.size < WRM_HEADER_SIZE || h.size > MAX_CHUNK_SIZE || h.size > |old(input)|)
      ensures r == Ready && input == old(input) ==> remainingOrderCount < old(remainingOrderCount)
      ensures r == Ready && input != old(input) ==> |input| < |old(input)|
      ensures r == Eof ==> old(input) == [] && old(remainingOrderCount) == 0 && unchanged(this)
    {
      if !IsImage(chunkType) {
        if |stream| == 0 && remainingOrderCount > 0 {
          return Failed;
        }
      }
      if remainingOrderCount == 0 {
        if |input| == 0 {
          return Eof;
        }
        var buf, ok := Receive(WRM_HEADER_SIZE);
        if !ok {
          return Failed;
        }
        var h := DecodeHeader(buf);
        chunkType, chunkSize := h.kind, h.size;
        chunkCount := h.count;
        remainingOrderCount := chunkCount;
        if !IsImage(chunkType) {
          if chunkSize > MAX_CHUNK_SIZE || chunkSize < WRM_HEADER_SIZE {
            return Failed;
          }
          stream, ok := Receive(chunkSize - WRM_HEADER_SIZE);
          if !ok {
            return Failed;
          }
        }
      }
      if remainingOrderCount > 0 {
        remainingOrderCount := remainingOrderCount - 1;
      }
      r := Ready;
    }

    /** in_uint8 to in_uint64_le: the next n bytes of the current chunk as an integer. */
    method InLe(n: nat) returns (v: nat)
      requires n <= |stream|
      modifies this`stream
      ensures v == FromLe(old(stream)[..n]) && stream == old(stream)[n..]
    {
      v := FromLe(stream[..n]);
      stream := stream[n..];
    }

    method InSkipBytes(n: nat) returns (data: seq<byte>)
      requires n <= |stream|
      modifies this`stream
      ensures data == old(stream)[..n] && stream == old(stream)[n..]
    {
      data, stream := stream[..n], stream[n..];
    }

    method InterpretTimes() returns (ok: bool)
      modifies this`player, this`stream
      ensures Same(PlayTimes(old(player), old(stream)), ok, player, stream)
    {
      if |stream| < 16 { return false; }
      ghost var s := stream;
      var us := InLe(8);
      assert stream[..8] == s[8..16];
      player := player.(recordNow := us * 1000);
      us := InLe(8);
      assert stream == s[16..];
      player := player.(lastReal := us * 1000, monoReal := player.recordNow, timestampOk := true);
      ok := true;
    }

    method InMouse()
      requires |stream| >= 4
      modifies this`player, this`stream
      ensures player == old(player).(mouseX := FromLe(old(stream)[..2]), mouseY := FromLe(old(stream)[2..4]))
      ensures stream == old(stream)[4..]
    {
      ghost var s := stream;
      var x := InLe(2);
      assert stream[..2] == s[2..4];
      var y := InLe(2);
      assert stream == s[4..];
      player := player.(mouseX := x, mouseY := y);
    }

    method InterpretTimestamp() returns (ok: bool)
      modifies this`player, this`stream
      ensures Same(PlayTimestamp(old(player), old(stream)), ok, player, stream)
    {
      if |stream| < 8 { return false; }
      var us := InLe(8);
      player := player.(recordNow := us * 1000, timestampOk := true);
      if |stream| == 0 { return true; }
      if |stream| < 5 { return false; }
      ghost var (p, s) := (player, stream);
      InMouse();
      var flag := InLe(1);
      assert stream == s[5..];
      ok := InterpretKeys();
      assert ok ==> player == p.(mouseX := FromLe(s[..2]), mouseY := FromLe(s[2..4]), keys := player.keys);
    }

    /** The pending keys go to the consumers one by one, with the current instant. */
    method InterpretKeys() returns (ok: bool)
      modifies this`player, this`stream
      ensures match DecodeKeys(old(stream))
              case None => !ok
              case Some(codes) =>
                ok && stream == []
                && player == old(player).(keys := old(player).keys + Stamp(old(player).recordNow, codes))
    {
      var now := player.recordNow;
      ghost var p, s, done: seq<nat> := player, stream, [];
      assert p.keys + Stamp(now, []) == p.keys;
      assert DecodeKeys(s).Some? ==> [] + DecodeKeys(s).value == DecodeKeys(s).value;
      while |stream| != 0
        invariant player == p.(keys := p.keys + Stamp(now, done))
        invariant DecodeKeys(s).Some? == DecodeKeys(stream).Some?
        invariant DecodeKeys(s).Some? ==> DecodeKeys(s).value == done + DecodeKeys(stream).value
        decreases |stream|
      {
        if |stream| < 4 { return false; }
        ghost var left := DecodeKeys(stream);
        var code := InLe(4);
        player := player.(keys := player.keys + [Key(now, code)]);
        StampAppend(now, done, code);
        assert p.keys + Stamp(now, done) + [Key(now, code)] == p.keys + Stamp(now, done + [code]);
        if left.Some? {
          assert left.value == [code] + DecodeKeys(stream).value;
          assert done + ([code] + DecodeKeys(stream).value) == done + [code] + DecodeKeys(stream).value;
        }
        done := done + [code];
      }
      assert done + [] == done;
      ok := true;
    }

    method InterpretPointer() returns (ok: bool)
      modifies this`player, this`stream
      ensures Same(PlayPointer(old(player), chunkSize, old(stream)), ok, player, stream)
    {
      if |stream| < 5 { return false; }
      ghost var s := stream;
      InMouse();
      var idx := InLe(1);
      assert s[4..5] == [s[4]] && FromLe([s[4]]) == s[4] + 256 * FromLe([]);
      assert stream == s[5..];
      if chunkSize - WRM_HEADER_SIZE > 5 {
        if |stream| < 2 + OLD_CURSOR_DATA + OLD_CURSOR_MASK { return false; }
        var x, y := stream[0], stream[1];
        var skipped := InSkipBytes(2);
        var xorMask := InSkipBytes(OLD_CURSOR_DATA);
        var andMask := InSkipBytes(OLD_CURSOR_MASK);
        assert xorMask == s[7..7 + OLD_CURSOR_DATA];
        assert andMask == s[7 + OLD_CURSOR_DATA..7 + OLD_CURSOR_DATA + OLD_CURSOR_MASK];
        assert stream == s[7 + OLD_CURSOR_DATA + OLD_CURSOR_MASK..];
        ok := Insert(idx, Cursor(24, x, y, 32, 32, xorMask, andMask));
      } else {
        if idx >= MAX_POINTER_COUNT { return false; }
        player := player.(shown := player.shown + [Resolve(player.cache, idx)]);
        ok := true;
      }
    }

    /** PointerCache::insert, then new_pointer of the consumers. */
    method Insert(idx: nat, cursor: Cursor) returns (ok: bool)
      modifies this`player
      ensures Same(StoreCursor(old(player), idx, cursor, stream), ok, player, stream)
    {
      if idx >= MAX_POINTER_COUNT { return false; }
      player := player.(cache := player.cache[idx := cursor]);
      player := player.(shown := player.shown + [Custom(cursor)]);
      ok := true;
    }

    method InterpretNative() returns (ok: bool)
      modifies this`player, this`stream
      ensures Same(PlayNative(old(player), old(stream)), ok, player, stream)
    {
      match DecodeCursor(stream)
      case None =>
        ok := false;
      case Some((idx, cursor)) =>
        stream := stream[16 + |cursor.xorMask| + |cursor.andMask|..];
        ok := Insert(idx, cursor);
    }

    method InterpretInternal() returns (ok: bool)
      modifies this`player, this`stream
      ensures Same(PlayInternal(old(player), old(stream)), ok, player, stream)
    {
      if |stream| < 5 || stream[4] >= PREDEFINED_POINTER_COUNT { return false; }
      ghost var s := stream;
      InMouse();
      var idx := stream[0];
      stream := stream[1..];
      assert stream == s[5..];
      player := player.(shown := player.shown + [Predefined(idx)]);
      ok := true;
    }

    /** The pairs of a session update. */
    method ReadKvs(data: seq<byte>, n: nat) returns (kvs: seq<Kv>, ok: bool)
      ensures DecodeKvs(data, n) == if ok then Some(kvs) else None
    {
      var s := data;
      kvs := [];
      var i := 0;
      assert DecodeKvs(data, n).Some? ==> [] + DecodeKvs(data, n).value == DecodeKvs(data, n).value;
      while i < n
        invariant i <= n
        invariant match DecodeKvs(s, n - i)
                  case None => DecodeKvs(data, n).None?
                  case Some(tail) => DecodeKvs(data, n) == Some(kvs + tail)
      {
        match TakeKv(s)
        case None =>
          return [], false;
        case Some((kv, rest)) =>
          if DecodeKvs(rest, n - i - 1).Some? {
            ghost var tail := DecodeKvs(rest, n - i - 1).value;
            assert kvs + ([kv] + tail) == kvs + [kv] + tail;
          }
          kvs := kvs + [kv];
          s := rest;
          i := i + 1;
      }
      assert kvs + [] == kvs;
      ok := true;
    }

    method InterpretSessionUpdate() returns (ok: bool)
      modifies this`player, this`stream
      ensures Same(PlayUpdate(old(player), old(stream)), ok, player, stream)
    {
      if |stream| < 10 { return false; }
      ghost var s := stream;
      var eventTime := FromI64Le(stream[..8]) * 1000;
      var skipped := InSkipBytes(8);
      assert stream[..2] == s[8..10];
      var len := InLe(2);
      if |stream| < len { return false; }
      var message := InSkipBytes(len);
      assert message == s[10..10 + len] && stream == s[10 + len..];
      if eventTime > player.recordNow {
        player := player.(recordNow := eventTime);
      }
      if len < 4 {
        if player.attached { return false; }
        player := player.(timestampOk := true);
        return true;
      }
      var id := FromLe(message[..4]);
      if id in player.relevant {
        if len < 5 { return false; }
        var kvs;
        kvs, ok := ReadKvs(message[5..], message[4]);
        if !ok { return false; }
        player := player.(updates := player.updates + [Update(eventTime, id, kvs)]);
      }
      player := player.(timestampOk := true);
      ok := true;
    }

    method InterpretDrawing(bitmap: bool) returns (ok: bool)
      modifies this`player, this`stream
      ensures Same(PlayDrawing(old(player), old(stream), codec, bitmap), ok, player, stream)
    {
      if !player.metaOk || !player.timestampOk { return false; }
      var n := if bitmap then codec.bitmapLen(stream) else codec.orderLen(stream);
      if n == 0 || n > |stream| { return false; }
      var bytes := InSkipBytes(n);
      player := player.(drawn := player.drawn + [if bitmap then Bitmap(bytes) else Order(bytes)]);
      ok := true;
    }

    method InterpretRecord() returns (ok: bool)
      requires !IsDrawing(chunkType)
      modifies this`player, this`stream
      ensures Same(PlayRecord(old(player), chunkType, chunkSize, old(stream)), ok, player, stream)
    {
      if chunkType == META_FILE {
        player := player.(metaOk := true);
        stream := [];
        ok := true;
      } else if chunkType == TIMES {
        ok := InterpretTimes();
      } else if chunkType == TIMESTAMP {
        ok := InterpretTimestamp();
      } else if chunkType == CACHED_POINTER {
        ok := InterpretPointer();
      } else if chunkType == POINTER_NATIVE {
        ok := InterpretNative();
      } else if chunkType == INTERNAL_POINTER {
        ok := InterpretInternal();
      } else if chunkType == SAVE_STATE {
        stream := [];
        ok := true;
      } else if chunkType == SESSION_UPDATE {
        ok := InterpretSessionUpdate();
      } else if chunkType == POSSIBLE_ACTIVE_WINDOW_CHANGE {
        player := player.(windowChanges := player.windowChanges + 1);
        ok := true;
      } else if chunkType == KBD_INPUT_MASK {
        if |stream| < 1 { return false; }
        player := player.(masks := player.masks + [stream[0] != 0]);
        stream := stream[1..];
        ok := true;
      } else {
        ok := false;
      }
    }

    method NextImageChunk(ghost cs: seq<Chunk>) returns (kind: nat, part: seq<byte>)
      requires cs != [] && Readable(cs) && input == EncodeAll(cs)
      modifies this`input
      ensures kind == cs[0].kind && part == cs[0].payload && input == EncodeAll(cs[1..])
      ensures |input| <= |old(input)|
    {
      HeaderRoundTrip(cs[0], EncodeAll(cs[1..]));
      var buf, more := Receive(WRM_HEADER_SIZE);
      var h := DecodeHeader(buf);
      kind := h.kind;
      part, more := Receive(h.size - WRM_HEADER_SIZE);
      assert part == cs[0].payload;
    }

    /** set_rows_from_image_chunk: the rest of an image, up to its last chunk. The ghost arguments
        say which chunks the transport holds. */
    method InterpretImage(ghost c: Chunk, ghost cs: seq<Chunk>) returns (ok: bool, ghost rest: seq<Chunk>)
      requires IsImage(c.kind) && chunkType == c.kind && chunkSize == WRM_HEADER_SIZE + |c.payload|
      requires Readable([c] + cs) && input == c.payload + EncodeAll(cs) && player.image.None?
      modifies this`player, this`input, this`remainingOrderCount
      ensures ok && remainingOrderCount == 0 && input == EncodeAll(rest) && Readable(rest) && player.image.None?
      ensures Play(old(player), [c] + cs, codec) == Play(player, rest, codec)
      ensures |input| <= |old(input)|
    {
      ghost var goal := Play(player, [c] + cs, codec);
      ReadableTail([c] + cs);
      assert ([c] + cs)[1..] == cs && ([c] + cs)[0] == c && (cs != [] ==> ([c] + cs)[1] == cs[0]);
      ImagedStep(player, [], c, cs, codec);
      var data;
      data, rest := ReadImage(goal, c, cs);
      player := player.(images := player.images + [data], interpreted := player.interpreted + 1);
      remainingOrderCount := 0;
      ok := true;
    }

    /** The bytes of an image, from its current chunk on. */
    method ReadImage(ghost goal: Option<Player>, ghost c: Chunk, ghost cs: seq<Chunk>)
      returns (data: seq<byte>, ghost rest: seq<Chunk>)
      requires IsImage(c.kind) && chunkType == c.kind && chunkSize == WRM_HEADER_SIZE + |c.payload|
      requires c.kind == PARTIAL_IMAGE_CHUNK ==> cs != [] && IsImage(cs[0].kind)
      requires Readable(cs) && input == c.payload + EncodeAll(cs)
      requires goal == Play(Imaged(player, c.kind, c.payload), cs, codec)
      modifies this`input
      ensures input == EncodeAll(rest) && Readable(rest) && |input| <= |old(input)|
      ensures goal == Play(Imaged(player, LAST_IMAGE_CHUNK, data), rest, codec)
    {
      var kind := chunkType;
      var more;
      data, more := Receive(chunkSize - WRM_HEADER_SIZE);
      assert data == c.payload && input == EncodeAll(cs);
      rest := cs;
      while kind == PARTIAL_IMAGE_CHUNK
        invariant IsImage(kind) && Readable(rest) && input == EncodeAll(rest)
        invariant kind == PARTIAL_IMAGE_CHUNK ==> rest != [] && IsImage(rest[0].kind)
        invariant goal == Play(Imaged(player, kind, data), rest, codec)
        invariant |input| <= |old(input)|
        decreases |rest|
      {
        ghost var d, tail := rest[0], rest[1..];
        assert rest == [d] + tail;
        ReadableTail(rest);
        ImagedStep(player, data, d, tail, codec);
        var part;
        kind, part := NextImageChunk(rest);
        data := data + part;
        rest := tail;
      }
    }

    method InterpretOrder() returns (ok: bool)
      requires !IsImage(chunkType)
      modifies this`player, this`stream
      ensures Same(Interpret(old(player), chunkType, chunkSize, old(stream), codec), ok, player, stream)
    {
      ghost var o := Interpret(player, chunkType, chunkSize, stream, codec);
      player := Counted(player);
      if IsDrawing(chunkType) {
        assert o == PlayDrawing(player, stream, codec, chunkType == RDP_UPDATE_BITMAP2);
        ok := InterpretDrawing(chunkType == RDP_UPDATE_BITMAP2);
      } else {
        assert o == PlayRecord(player, chunkType, chunkSize, stream);
        ok := InterpretRecord();
      }
      assert Same(o, ok, player, stream);
    }

    /** The chunks that are left, and what they lead to. */
    ghost predicate Towards(goal: Option<Player>, rest: seq<Chunk>)
      reads this
    {
      && Readable(rest) && input == EncodeAll(rest) && player.image.None?
      && (remainingOrderCount > 0 ==> !IsImage(chunkType))
      && goal == Remaining(player, chunkType, chunkSize, stream, remainingOrderCount, rest, codec)
    }

    /** NextOrder on a well-formed file. */
    method NextOrderOf(ghost cs: seq<Chunk>) returns (r: Status, ghost rest: seq<Chunk>)
      requires Readable(cs) && input == EncodeAll(cs) && (remainingOrderCount > 0 ==> !IsImage(chunkType))
      modifies this`input, this`stream, this`chunkType, this`chunkSize, this`chunkCount, this`remainingOrderCount
      ensures r == Failed ==> old(remainingOrderCount) > 0 && old(stream) == []
      ensures r == Eof ==> old(remainingOrderCount) == 0 && cs == [] && input == [] && Here(cs) == old(Here(cs))
      ensures r == Ready && old(remainingOrderCount) > 0 ==>
                && rest == cs && input == old(input) && stream == old(stream) && stream != []
                && chunkType == old(chunkType) && chunkSize == old(chunkSize)
                && remainingOrderCount == old(remainingOrderCount) - 1
      ensures r == Ready && old(remainingOrderCount) == 0 ==>
                && cs != [] && rest == cs[1..] && chunkType == cs[0].kind && chunkSize == WRM_HEADER_SIZE + |cs[0].payload|
                && remainingOrderCount == Interpretations(cs[0].count) - 1
                && (if IsImage(chunkType) then input == cs[0].payload + EncodeAll(rest)
                    else input == EncodeAll(rest) && stream == cs[0].payload)
      ensures r == Ready ==> Readable(rest)
      ensures r == Ready && input == old(input) ==> remainingOrderCount < old(remainingOrderCount)
      ensures r == Ready && input != old(input) ==> |input| < |old(input)|
    {
      rest := cs;
      if remainingOrderCount == 0 && cs != [] {
        HeaderRoundTrip(cs[0], EncodeAll(cs[1..]));
        ReadableTail(cs);
        rest := cs[1..];
        assert WellFormed(cs[0]);
      }
      r := NextOrder();
    }

    /** Where the player is, with the chunks that follow. */
    ghost function Here(rest: seq<Chunk>): Place
      reads this
    {
      Place(player, chunkType, chunkSize, stream, remainingOrderCount, rest)
    }

    /** On the way to where the loop of the constructor ends. */
    ghost predicate Opens(goal: Option<Place>, rest: seq<Chunk>)
      reads this
    {
      && Readable(rest) && input == EncodeAll(rest) && player.image.None?
      && (remainingOrderCount > 0 ==> !IsImage(chunkType))
      && goal == if Known(player) then Some(Here(rest)) else Begin(Here(rest), codec)
    }

    /** The loop of the constructor: orders are interpreted until size and time are known. */
    method Open(ghost cs: seq<Chunk>) returns (ok: bool, ghost rest: seq<Chunk>)
      requires Readable(cs) && input == EncodeAll(cs) && Here(cs) == Start(cs)
      modifies this
      ensures match Begin(Start(cs), codec)
              case None => !ok
              case Some(at) => ok && Here(rest) == at && Opens(Some(at), rest)
    {
      ghost var goal := Begin(Start(cs), codec);
      rest := cs;
      while true
        invariant Opens(goal, rest) && !Known(player)
        decreases |input|, remainingOrderCount
      {
        ghost var before := rest;
        var status;
        status, rest := NextOrderOf(before);
        if status == Failed { return false, rest; }
        if status == Eof { return true, before; }
        if IsImage(chunkType) {
          SkipImage(before);
        } else {
          ok := InterpretFirst(goal, rest);
          if !ok { return; }
        }
        if Known(player) { return true, rest; }
      }
    }

    /** Without consumers the bytes of an image chunk are received and forgotten. */
    method SkipImage(ghost cs: seq<Chunk>)
      requires cs != [] && chunkSize == WRM_HEADER_SIZE + |cs[0].payload| && input == cs[0].payload + EncodeAll(cs[1..])
      modifies this`player, this`input, this`stream, this`remainingOrderCount
      ensures player == Counted(old(player)) && stream == [] && remainingOrderCount == 0 && input == EncodeAll(cs[1..])
      ensures |input| <= |old(input)|
    {
      player := Counted(player);
      var data, ok := Receive(chunkSize - WRM_HEADER_SIZE);
      stream := [];
      remainingOrderCount := 0;
    }

    /** InterpretOrder in the loop of the constructor. */
    method InterpretFirst(ghost goal: Option<Place>, ghost rest: seq<Chunk>) returns (ok: bool)
      requires !IsImage(chunkType) && player.image.None? && Readable(rest) && input == EncodeAll(rest)
      requires goal == Interpreted(player, chunkType, chunkSize, stream, remainingOrderCount + 1, rest, codec)
      modifies this`player, this`stream
      ensures ok ==> Opens(goal, rest)
      ensures !ok ==> goal.None?
    {
      InterpretKeepsImage(player, chunkType, chunkSize, stream, codec);
      ok := InterpretOrder();
    }

    /** add_consumer, once for all of them. */
    method AddConsumers(relevant: set<nat>)
      modifies this`player
      ensures player == Attach(old(player), relevant)
    {
      player := Attach(player, relevant);
    }

    /** Plays what is left of a file, order by order: the result is what its chunks mean. */
    method PlayAll(ghost goal: Option<Player>, ghost cs: seq<Chunk>) returns (ok: bool)
      requires Towards(goal, cs)
      modifies this
      ensures match goal
              case None => !ok
              case Some(p) => ok && player == p && input == []
    {
      ghost var rest := cs;
      while true
        invariant Towards(goal, rest)
        decreases |input|, remainingOrderCount
      {
        ghost var before := rest;
        var status;
        status, rest := NextOrderOf(before);
        if status == Failed { return false; }
        if status == Eof { return true; }
        if IsImage(chunkType) {
          assert before == [before[0]] + rest;
          ok, rest := InterpretImage(before[0], rest);
        } else {
          ok := InterpretNext(goal, rest);
          if !ok { return; }
        }
      }
    }

    /** A whole file: the constructor, the consumers, and the rest. */
    method PlayFile(ghost cs: seq<Chunk>, relevant: set<nat>) returns (ok: bool)
      requires Readable(cs) && input == EncodeAll(cs) && Here(cs) == Start(cs)
      modifies this
      ensures match Listen(relevant, cs, codec)
              case None => !ok
              case Some(p) => ok && player == p && input == []
    {
      ghost var rest;
      ok, rest := Open(cs);
      if !ok { return; }
      ghost var at := Here(rest);
      AddConsumers(relevant);
      ok := PlayAll(Resume(at, relevant, codec), rest);
    }

    /** InterpretOrder on a well-formed file. */
    method InterpretNext(ghost goal: Option<Player>, ghost rest: seq<Chunk>) returns (ok: bool)
      requires !IsImage(chunkType) && player.image.None? && Readable(rest) && input == EncodeAll(rest)
      requires goal == After(Repeat(player, chunkType, chunkSize, stream, remainingOrderCount + 1, codec), rest, codec)
      modifies this`player, this`stream
      ensures ok ==> Towards(goal, rest)
      ensures !ok ==> goal.None?
    {
      RepeatStep(player, chunkType, chunkSize, stream, remainingOrderCount + 1, codec);
      InterpretKeepsImage(player, chunkType, chunkSize, stream, codec);
      ok := InterpretOrder();
    }
  }

  lemma InterpretKeepsImage(p: Player, kind: nat, size: nat, s: seq<byte>, codec: Codec)
    ensures var o := Interpret(p, kind, size, s, codec);
            o.Some? ==> o.value.0.image == p.image
  {
  }
}
