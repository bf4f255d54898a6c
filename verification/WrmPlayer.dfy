/** What a WRM chunk list means to the player: the specification of FileToGraphic, one chunk at a
    time. None stands for the exceptions the player throws. */
module WrmPlayer {
  import opened Bytes
  import opened WrmFormat

  /** Times are nanoseconds, the resolution of the two clocks; the file stores microseconds. */

  const INVALID_CHUNK: nat := 0x8000
  const MAX_POINTER_COUNT: nat := 25
  const PREDEFINED_POINTER_COUNT: nat := 11

  datatype Display = Custom(cursor: Cursor) | Predefined(pointer: nat) | Unset(idx: nat)

  datatype Drawing = Order(bytes: seq<byte>) | Bitmap(bytes: seq<byte>)

  datatype Key = Key(at: int, code: nat)

  datatype Update = Update(at: int, id: nat, kvs: seq<Kv>)

  /** Orders and bitmaps delimit themselves: these give the length of the first one in a stream. */
  datatype Codec = Codec(orderLen: seq<byte> -> nat, bitmapLen: seq<byte> -> nat)

  datatype Player = Player(
    recordNow: int, monoReal: int, lastReal: int,
    metaOk: bool, timestampOk: bool,
    mouseX: nat, mouseY: nat,
    cache: map<nat, Cursor>,
    image: Option<seq<byte>>,
    // whether there are consumers, and the identifiers that the session probes listen to
    attached: bool, relevant: set<nat>,
    // what the consumers received
    shown: seq<Display>, drawn: seq<Drawing>, keys: seq<Key>, masks: seq<bool>,
    images: seq<seq<byte>>, updates: seq<Update>, windowChanges: nat,
    // number of calls of interpret_order
    interpreted: nat)

  /** A new player has no consumers yet. */
  function Fresh(): Player {
    Player(0, 0, 0, false, false, 0, 0, map[], None, false, {}, [], [], [], [], [], [], 0, 0)
  }

  /** FileToGraphic::add_consumer: what the player had to hand out before has reached nobody. */
  function Attach(p: Player, relevant: set<nat>): Player {
    p.(attached := true, relevant := relevant,
       shown := [], drawn := [], keys := [], masks := [], images := [], updates := [], windowChanges := 0)
  }

  /** FileToGraphic::get_real_time. */
  function RealTime(p: Player): int { p.lastReal + (p.recordNow - p.monoReal) }

  /** One interpretation: the player's new state and the bytes of the chunk left in its stream. */
  type Outcome = Option<(Player, seq<byte>)>

  function PlayTimes(p: Player, s: seq<byte>): Outcome {
    if |s| < 16 then None
    else
      var t := FromLe(s[..8]) * 1000;
      Some((p.(recordNow := t, lastReal := FromLe(s[8..16]) * 1000, monoReal := t,
               timestampOk := true), s[16..]))
  }

  function Stamp(now: int, codes: seq<nat>): (r: seq<Key>)
    ensures |r| == |codes|
    ensures forall i :: 0 <= i < |r| ==> r[i] == Key(now, codes[i])
  {
    if codes == [] then [] else [Key(now, codes[0])] + Stamp(now, codes[1..])
  }

  lemma {:induction false} StampAppend(now: int, codes: seq<nat>, code: nat)
    ensures Stamp(now, codes + [code]) == Stamp(now, codes) + [Key(now, code)]
  {
    if codes == [] {
      assert codes + [code] == [code];
      assert [code][1..] == [];
    } else {
      assert (codes + [code])[1..] == codes[1..] + [code];
      StampAppend(now, codes[1..], code);
    }
  }

  /** Mouse position, the unused interval flag, then the pending keys. */
  function PlayInput(p: Player, s: seq<byte>): Outcome {
    if |s| == 0 then Some((p, s))
    else if |s| < 5 then None
    else
      match DecodeKeys(s[5..])
      case None => None
      case Some(codes) =>
        Some((p.(mouseX := FromLe(s[..2]), mouseY := FromLe(s[2..4]),
                 keys := p.keys + Stamp(p.recordNow, codes)), []))
  }

  function PlayTimestamp(p: Player, s: seq<byte>): Outcome {
    if |s| < 8 then None
    else
      PlayInput(p.(recordNow := FromLe(s[..8]) * 1000, timestampOk := true), s[8..])
  }

  function Resolve(cache: map<nat, Cursor>, idx: nat): Display {
    if idx in cache then Custom(cache[idx]) else Unset(idx)
  }

  function StoreCursor(p: Player, idx: nat, c: Cursor, rest: seq<byte>): Outcome {
    if idx >= MAX_POINTER_COUNT then None
    else Some((p.(cache := p.cache[idx := c], shown := p.shown + [Custom(c)]), rest))
  }

  const OLD_CURSOR_DATA: nat := 3072
  const OLD_CURSOR_MASK: nat := 128

  /** A CACHED_POINTER chunk of five bytes selects a cache slot; a longer one carries a 32x32 cursor. */
  function PlayPointer(p: Player, size: nat, s: seq<byte>): Outcome {
    if |s| < 5 then None
    else
      var idx := s[4] as nat;
      var q := p.(mouseX := FromLe(s[..2]), mouseY := FromLe(s[2..4]));
      if size - WRM_HEADER_SIZE > 5 then
        var mask := 7 + OLD_CURSOR_DATA;
        var end := mask + OLD_CURSOR_MASK;
        if |s| < end then None
        else StoreCursor(q, idx, Cursor(24, s[5], s[6], 32, 32, s[7..mask], s[mask..end]), s[end..])
      else if idx >= MAX_POINTER_COUNT then None
      else Some((q.(shown := q.shown + [Resolve(q.cache, idx)]), s[5..]))
  }

  /** A 32x32 cursor of an old recording is stored and shown. */
  lemma OldCursorPlays(p: Player, x: nat, y: nat, idx: byte, hotX: byte, hotY: byte, xorMask: seq<byte>, andMask: seq<byte>)
    requires x < TWO_16 && y < TWO_16 && idx < MAX_POINTER_COUNT && |xorMask| == 3072 && |andMask| == 128
    ensures var c := Cursor(24, hotX, hotY, 32, 32, xorMask, andMask);
            PlayPointer(p, WRM_HEADER_SIZE + 3207, U16Le(x) + U16Le(y) + [idx, hotX, hotY] + xorMask + andMask)
            == Some((p.(mouseX := x, mouseY := y, cache := p.cache[idx as nat := c], shown := p.shown + [Custom(c)]), []))
  {
    var s := U16Le(x) + U16Le(y) + [idx, hotX, hotY] + xorMask + andMask;
    LeWidths(x);
    LeWidths(y);
    assert s[..2] == U16Le(x) && s[2..4] == U16Le(y);
    assert s[7..3079] == xorMask && s[3079..3207] == andMask && s[3207..] == [];
  }

  function PlayNative(p: Player, s: seq<byte>): Outcome {
    match DecodeCursor(s)
    case None => None
    case Some((idx, c)) => StoreCursor(p, idx, c, s[16 + |c.xorMask| + |c.andMask|..])
  }

  function PlayInternal(p: Player, s: seq<byte>): Outcome {
    if |s| < 5 || s[4] >= PREDEFINED_POINTER_COUNT then None
    else
      Some((p.(mouseX := FromLe(s[..2]), mouseY := FromLe(s[2..4]),
               shown := p.shown + [Predefined(s[4])]), s[5..]))
  }

  /** An update ahead of the replay clock moves the clock; one behind it is reported as it is. Nobody looks
      into it before there are probes. */
  function PlayUpdate(p: Player, s: seq<byte>): Outcome {
    if |s| < 10 then None
    else
      var at := FromI64Le(s[..8]) * 1000;
      var len := FromLe(s[8..10]);
      var q := p.(recordNow := if at > p.recordNow then at else p.recordNow, timestampOk := true);
      if |s| < 10 + len then None
      else if len < 4 then if p.attached then None else Some((q, s[10 + len..]))
      else
        var message := s[10..10 + len];
        var id := FromLe(message[..4]);
        if id !in p.relevant then Some((q, s[10 + len..]))
        else if len < 5 then None
        else
          match DecodeKvs(message[5..], message[4])
          case None => None
          case Some(kvs) => Some((q.(updates := q.updates + [Update(at, id, kvs)]), s[10 + len..]))
  }

  /** The next drawing of a batch. Drawings need the size and the time of the recording. */
  function PlayDrawing(p: Player, s: seq<byte>, codec: Codec, bitmap: bool): Outcome {
    if !p.metaOk || !p.timestampOk then None
    else
      var n := if bitmap then codec.bitmapLen(s) else codec.orderLen(s);
      if n == 0 || n > |s| then None
      else Some((p.(drawn := p.drawn + [if bitmap then Bitmap(s[..n]) else Order(s[..n])]), s[n..]))
  }

  predicate IsDrawing(kind: nat) { kind == RDP_UPDATE_ORDERS || kind == RDP_UPDATE_BITMAP2 }

  /** Chunks that are neither drawings nor images. */
  function PlayRecord(p: Player, kind: nat, size: nat, s: seq<byte>): Outcome {
    if kind == META_FILE then Some((p.(metaOk := true), []))
    else if kind == TIMES then PlayTimes(p, s)
    else if kind == TIMESTAMP then PlayTimestamp(p, s)
    else if kind == CACHED_POINTER then PlayPointer(p, size, s)
    else if kind == POINTER_NATIVE then PlayNative(p, s)
    else if kind == INTERNAL_POINTER then PlayInternal(p, s)
    else if kind == SAVE_STATE then Some((p, []))
    else if kind == SESSION_UPDATE then PlayUpdate(p, s)
    else if kind == POSSIBLE_ACTIVE_WINDOW_CHANGE then
      Some((p.(windowChanges := p.windowChanges + 1), s))
    else if kind == KBD_INPUT_MASK then
      if |s| < 1 then None else Some((p.(masks := p.masks + [s[0] != 0]), s[1..]))
    else None
  }

  function Counted(p: Player): Player { p.(interpreted := p.interpreted + 1) }

  /** FileToGraphic::interpret_order for every chunk but images. */
  function Interpret(p: Player, kind: nat, size: nat, s: seq<byte>, codec: Codec): Outcome {
    if IsDrawing(kind) then PlayDrawing(Counted(p), s, codec, kind == RDP_UPDATE_BITMAP2)
    else PlayRecord(Counted(p), kind, size, s)
  }

  lemma {:induction false} WholeKeys(s: seq<byte>)
    ensures DecodeKeys(s).Some? <==> |s| % 4 == 0
  {
    if |s| >= 4 {
      var rest := TakeLe(s, 4).1;
      WholeKeys(rest);
      FourLess(|s|);
    }
  }

  lemma FourLess(n: nat)
    requires n >= 4
    ensures (n - 4) % 4 == n % 4
  {
  }

  /** Which chunks the player throws at, by their type and the bytes left in them. */
  lemma Refused(p: Player, kind: nat, size: nat, s: seq<byte>, codec: Codec)
    ensures var refused := Interpret(p, kind, size, s, codec).None?;
            && (kind == 0x3EE || kind == 0x1002 || kind == 0x2000 ==> !refused)
            && (kind == 0x3F0 ==> (refused <==> |s| < 8 || 8 < |s| < 13 || (|s| > 13 && (|s| - 13) % 4 != 0)))
            && (kind == 0x3F4 ==> (refused <==> |s| < 16))
            && (kind == 0x3F1 ==> (refused <==> |s| < 5 || (size > 13 && |s| < 3207) || s[4] >= 25))
            && (kind == 0x3F3 ==> (refused <==> DecodeCursor(s).None? || DecodeCursor(s).value.0 >= 25))
            && (kind == 0x3F5 ==> (refused <==> |s| < 5 || s[4] >= 11))
            && (kind == 0x2002 ==> (refused <==> s == []))
            && (kind == 0x1005 && (|s| < 10 || |s| < 10 + FromLe(s[8..10])) ==> refused)
            && (kind == 0 ==> (refused <==> !p.metaOk || !p.timestampOk || codec.orderLen(s) == 0 || codec.orderLen(s) > |s|))
            && (kind == 0x3ED ==> (refused <==> !p.metaOk || !p.timestampOk || codec.bitmapLen(s) == 0 || codec.bitmapLen(s) > |s|))
            && (kind !in {0, 0x3ED, 0x3EE, 0x3F0, 0x3F1, 0x3F3, 0x3F4, 0x3F5, 0x1002, 0x1005, 0x2000, 0x2002} ==> refused)
  {
    if |s| >= 13 {
      WholeKeys(s[8..][5..]);
    }
  }

  /** Number of interpretations of a chunk: a chunk that announces no order is interpreted once. */
  function Interpretations(count: nat): (r: nat)
    ensures r >= 1
  {
    if count == 0 then 1 else count
  }

  /** A batch of n drawings; running out of bytes before the last one is an error. */
  function PlayBatch(p: Player, s: seq<byte>, n: nat, codec: Codec, bitmap: bool): Option<Player>
    requires n > 0
    decreases n
  {
    match PlayDrawing(Counted(p), s, codec, bitmap)
    case None => None
    case Some((q, rest)) =>
      if n == 1 then Some(q)
      else if rest == [] then None
      else PlayBatch(q, rest, n - 1, codec, bitmap)
  }

  /** The same rule for a record that announces n orders; the recorder writes none with n > 1. */
  function PlayRecords(p: Player, kind: nat, size: nat, s: seq<byte>, n: nat): Option<Player>
    requires n > 0
    decreases n
  {
    match PlayRecord(Counted(p), kind, size, s)
    case None => None
    case Some((q, rest)) =>
      if n == 1 then Some(q)
      else if rest == [] then None
      else PlayRecords(q, kind, size, rest, n - 1)
  }

  /** n interpretations of the bytes left in a chunk. */
  function Repeat(p: Player, kind: nat, size: nat, s: seq<byte>, n: nat, codec: Codec): Option<Player>
    requires n > 0
  {
    if IsDrawing(kind) then PlayBatch(p, s, n, codec, kind == RDP_UPDATE_BITMAP2)
    else PlayRecords(p, kind, size, s, n)
  }

  /** Both rules read: interpret, and go on while orders are left. */
  lemma RepeatStep(p: Player, kind: nat, size: nat, s: seq<byte>, n: nat, codec: Codec)
    requires n > 0
    ensures Repeat(p, kind, size, s, n, codec)
            == match Interpret(p, kind, size, s, codec)
               case None => None
               case Some((q, rest)) =>
                 if n == 1 then Some(q)
                 else if rest == [] then None
                 else Repeat(q, kind, size, rest, n - 1, codec)
  {
    assert IsDrawing(kind) ==>
        PlayBatch(p, s, n, codec, kind == RDP_UPDATE_BITMAP2) == Repeat(p, kind, size, s, n, codec);
  }

  /** One chunk. An image is interpreted once, whatever the number of chunks it takes. */
  function PlayChunk(p: Player, c: Chunk, codec: Codec): Option<Player> {
    if IsImage(c.kind) then
      var data := (if p.image.Some? then p.image.value else []) + c.payload;
      if c.kind == PARTIAL_IMAGE_CHUNK then Some(p.(image := Some(data)))
      else Some(p.(image := None, images := p.images + [data], interpreted := p.interpreted + 1))
    else if p.image.Some? then None
    else Repeat(p, c.kind, WRM_HEADER_SIZE + |c.payload|, c.payload, Interpretations(c.count), codec)
  }

  function Play(p: Player, cs: seq<Chunk>, codec: Codec): Option<Player>
    decreases |cs|
  {
    if cs == [] then Some(p)
    else
      match PlayChunk(p, cs[0], codec)
      case None => None
      case Some(q) => Play(q, cs[1..], codec)
  }

  lemma {:induction false} PlayAppend(p: Player, xs: seq<Chunk>, ys: seq<Chunk>, codec: Codec)
    requires Play(p, xs, codec).Some?
    ensures Play(p, xs + ys, codec) == Play(Play(p, xs, codec).value, ys, codec)
    decreases |xs|
  {
    if xs == [] {
      assert xs + ys == ys;
    } else {
      assert (xs + ys)[1..] == xs[1..] + ys;
      PlayAppend(PlayChunk(p, xs[0], codec).value, xs[1..], ys, codec);
    }
  }

  // ---- from the creation of the player on ----

  function After(p: Option<Player>, rest: seq<Chunk>, codec: Codec): Option<Player> {
    match p
    case None => None
    case Some(q) => Play(q, rest, codec)
  }

  /** What the bytes left in the current chunk, then the chunks after it, lead to. */
  function Remaining(p: Player, kind: nat, size: nat, s: seq<byte>, n: nat, rest: seq<Chunk>, codec: Codec): Option<Player> {
    if n == 0 then Play(p, rest, codec)
    else if s == [] then None
    else After(Repeat(p, kind, size, s, n, codec), rest, codec)
  }

  /** A player in the middle of a file: the current chunk, the bytes and orders left in it, and the next chunks. */
  datatype Place = Place(player: Player, kind: nat, size: nat, left: seq<byte>, orders: nat, rest: seq<Chunk>)

  /** The size and the time of the recording are known. */
  predicate Known(p: Player) { p.metaOk && p.timestampOk }

  /** The loop of the constructor, which interprets orders before there are consumers, until size and time
      are known. An image chunk is skipped. */
  function Begin(at: Place, codec: Codec): Option<Place>
    decreases |at.rest|, at.orders, 1
  {
    if at.orders > 0 then
      if at.left == [] then None
      else Interpreted(at.player, at.kind, at.size, at.left, at.orders, at.rest, codec)
    else if at.rest == [] then Some(at)
    else
      var (c, rest) := (at.rest[0], at.rest[1..]);
      if IsImage(c.kind) then
        var next := Place(Counted(at.player), c.kind, WRM_HEADER_SIZE + |c.payload|, [], 0, rest);
        if Known(next.player) then Some(next) else Begin(next, codec)
      else
        Interpreted(at.player, c.kind, WRM_HEADER_SIZE + |c.payload|, c.payload, Interpretations(c.count), rest, codec)
  }

  /** The next of n orders, and then on. */
  function Interpreted(p: Player, kind: nat, size: nat, s: seq<byte>, n: nat, rest: seq<Chunk>, codec: Codec): Option<Place>
    requires n > 0
    decreases |rest|, n, 0
  {
    match Interpret(p, kind, size, s, codec)
    case None => None
    case Some((q, left)) =>
      var next := Place(q, kind, size, left, n - 1, rest);
      if Known(q) then Some(next) else Begin(next, codec)
  }

  function Start(cs: seq<Chunk>): Place { Place(Fresh(), INVALID_CHUNK, 0, [], 0, cs) }

  function Resume(at: Place, relevant: set<nat>, codec: Codec): Option<Player> {
    Remaining(Attach(at.player, relevant), at.kind, at.size, at.left, at.orders, at.rest, codec)
  }

  /** A whole file: the constructor, then consumers, then the rest. */
  function Listen(relevant: set<nat>, cs: seq<Chunk>, codec: Codec): Option<Player> {
    match Begin(Start(cs), codec)
    case None => None
    case Some(at) => Resume(at, relevant, codec)
  }

  lemma ListenOn(relevant: set<nat>, cs: seq<Chunk>, at: Place, p: Player, codec: Codec)
    requires Begin(Start(cs), codec) == Some(at) && at.orders == 0
    requires Play(Attach(at.player, relevant), at.rest, codec) == Some(p)
    ensures Listen(relevant, cs, codec) == Some(p)
  {
  }

  function Longer(at: Place, more: seq<Chunk>): Place { at.(rest := at.rest + more) }

  /** Once size and time are known, the constructor does not look at what follows. */
  lemma {:induction false} BeginAppend(at: Place, more: seq<Chunk>, codec: Codec)
    requires Begin(at, codec).Some? && Known(Begin(at, codec).value.player) && !Known(at.player)
    ensures Begin(Longer(at, more), codec) == Some(Longer(Begin(at, codec).value, more))
    decreases |at.rest|, at.orders, 1
  {
    if at.orders > 0 {
      InterpretedAppend(at.player, at.kind, at.size, at.left, at.orders, at.rest, more, codec);
    } else if at.rest != [] {
      var (c, rest) := (at.rest[0], at.rest[1..]);
      assert (at.rest + more)[0] == c && (at.rest + more)[1..] == rest + more;
      if IsImage(c.kind) {
        BeginAppend(Place(Counted(at.player), c.kind, WRM_HEADER_SIZE + |c.payload|, [], 0, rest), more, codec);
      } else {
        InterpretedAppend(at.player, c.kind, WRM_HEADER_SIZE + |c.payload|, c.payload, Interpretations(c.count), rest,
                          more, codec);
      }
    }
  }

  lemma {:induction false} InterpretedAppend(p: Player, kind: nat, size: nat, s: seq<byte>, n: nat, rest: seq<Chunk>,
                                             more: seq<Chunk>, codec: Codec)
    requires n > 0
    requires var o := Interpreted(p, kind, size, s, n, rest, codec); o.Some? && Known(o.value.player)
    ensures Interpreted(p, kind, size, s, n, rest + more, codec)
            == Some(Longer(Interpreted(p, kind, size, s, n, rest, codec).value, more))
    decreases |rest|, n, 0
  {
    var (q, left) := Interpret(p, kind, size, s, codec).value;
    if !Known(q) {
      BeginAppend(Place(q, kind, size, left, n - 1, rest), more, codec);
    }
  }

  /** A constructor that does not learn size and time reads the whole file. */
  lemma {:induction false} BeginEnds(at: Place, codec: Codec)
    requires Begin(at, codec).Some? && !Known(at.player)
    ensures var end := Begin(at, codec).value; !Known(end.player) ==> end.rest == [] && end.orders == 0
    decreases |at.rest|, at.orders, 1
  {
    if at.orders > 0 {
      InterpretedEnds(at.player, at.kind, at.size, at.left, at.orders, at.rest, codec);
    } else if at.rest != [] {
      var (c, rest) := (at.rest[0], at.rest[1..]);
      if IsImage(c.kind) {
        BeginEnds(Place(Counted(at.player), c.kind, WRM_HEADER_SIZE + |c.payload|, [], 0, rest), codec);
      } else {
        InterpretedEnds(at.player, c.kind, WRM_HEADER_SIZE + |c.payload|, c.payload, Interpretations(c.count), rest, codec);
      }
    }
  }

  lemma {:induction false} InterpretedEnds(p: Player, kind: nat, size: nat, s: seq<byte>, n: nat, rest: seq<Chunk>,
                                           codec: Codec)
    requires n > 0 && Interpreted(p, kind, size, s, n, rest, codec).Some?
    ensures var end := Interpreted(p, kind, size, s, n, rest, codec).value;
            !Known(end.player) ==> end.rest == [] && end.orders == 0
    decreases |rest|, n, 0
  {
    var (q, left) := Interpret(p, kind, size, s, codec).value;
    if !Known(q) {
      BeginEnds(Place(q, kind, size, left, n - 1, rest), codec);
    }
  }

  lemma AfterAppend(p: Option<Player>, rest: seq<Chunk>, more: seq<Chunk>, codec: Codec)
    requires After(p, rest, codec).Some?
    ensures After(p, rest + more, codec) == Play(After(p, rest, codec).value, more, codec)
  {
    PlayAppend(p.value, rest, more, codec);
  }

  /** Listening to a file that goes on is playing what is new. */
  lemma ListenAppend(relevant: set<nat>, xs: seq<Chunk>, ys: seq<Chunk>, codec: Codec)
    requires Listen(relevant, xs, codec).Some? && Known(Listen(relevant, xs, codec).value)
    ensures Listen(relevant, xs + ys, codec) == Play(Listen(relevant, xs, codec).value, ys, codec)
  {
    var at := Begin(Start(xs), codec).value;
    BeginEnds(Start(xs), codec);
    assert Known(at.player);
    BeginAppend(Start(xs), ys, codec);
    var p := Attach(at.player, relevant);
    if at.orders == 0 {
      PlayAppend(p, at.rest, ys, codec);
    } else {
      AfterAppend(Repeat(p, at.kind, at.size, at.left, at.orders, codec), at.rest, ys, codec);
    }
  }

  /** Nothing can be drawn before the size and the time of a recording are known. */
  lemma DrawingsComeLater(at: Place, codec: Codec)
    requires !Known(at.player) && at.orders == 0 && at.rest != [] && IsDrawing(at.rest[0].kind)
    ensures Begin(at, codec) == None
  {
  }

  /** The constructor on a chunk that is interpreted once. */
  lemma BeginOnce(at: Place, q: Player, codec: Codec) returns (next: Place)
    requires at.orders == 0 && at.rest != [] && !IsImage(at.rest[0].kind) && Interpretations(at.rest[0].count) == 1
    requires at.player.image.None? && PlayChunk(at.player, at.rest[0], codec) == Some(q)
    ensures next.player == q && next.orders == 0 && next.rest == at.rest[1..]
    ensures Begin(at, codec) == if Known(q) then Some(next) else Begin(next, codec)
  {
    var c := at.rest[0];
    RepeatStep(at.player, c.kind, WRM_HEADER_SIZE + |c.payload|, c.payload, 1, codec);
    var left := Interpret(at.player, c.kind, WRM_HEADER_SIZE + |c.payload|, c.payload, codec).value.1;
    next := Place(q, c.kind, WRM_HEADER_SIZE + |c.payload|, left, 0, at.rest[1..]);
  }

  /** Before there are consumers, images reach nobody: their chunks are only counted. */
  lemma {:induction false} ImagesSkipped(at: Place, images: seq<Chunk>, rest: seq<Chunk>, codec: Codec) returns (next: Place)
    requires at.orders == 0 && at.rest == images + rest && !Known(at.player)
    requires forall c | c in images :: IsImage(c.kind)
    ensures next.player == at.player.(interpreted := at.player.interpreted + |images|)
    ensures next.orders == 0 && next.rest == rest && Begin(at, codec) == Begin(next, codec)
    decreases |images|
  {
    if images == [] {
      next := at;
    } else {
      var c := images[0];
      assert at.rest[0] == c && at.rest[1..] == images[1..] + rest;
      var one := Place(Counted(at.player), c.kind, WRM_HEADER_SIZE + |c.payload|, [], 0, images[1..] + rest);
      next := ImagesSkipped(one, images[1..], rest, codec);
    }
  }

  lemma PlayOne(p: Player, c: Chunk, codec: Codec)
    ensures Play(p, [c], codec) == PlayChunk(p, c, codec)
  {
    assert [c][1..] == [];
  }

  /** The whole file is interpreted max(1, count) times per chunk, an image once. */
  function Steps(cs: seq<Chunk>): nat {
    if cs == [] then 0
    else
      (if cs[0].kind == PARTIAL_IMAGE_CHUNK then 0
       else if cs[0].kind == LAST_IMAGE_CHUNK then 1
       else Interpretations(cs[0].count)) + Steps(cs[1..])
  }

  lemma InterpretCounts(p: Player, kind: nat, size: nat, s: seq<byte>, codec: Codec)
    ensures var o := Interpret(p, kind, size, s, codec);
            o.Some? ==> o.value.0.interpreted == p.interpreted + 1
  {
  }

  lemma {:induction false} RepeatCounts(p: Player, kind: nat, size: nat, s: seq<byte>, n: nat, codec: Codec)
    requires n > 0 && Repeat(p, kind, size, s, n, codec).Some?
    ensures Repeat(p, kind, size, s, n, codec).value.interpreted == p.interpreted + n
    decreases n
  {
    RepeatStep(p, kind, size, s, n, codec);
    InterpretCounts(p, kind, size, s, codec);
    var (q, rest) := Interpret(p, kind, size, s, codec).value;
    if n > 1 {
      RepeatCounts(q, kind, size, rest, n - 1, codec);
    }
  }

  lemma {:induction false} PlayCountsSteps(p: Player, cs: seq<Chunk>, codec: Codec)
    requires Play(p, cs, codec).Some?
    ensures Play(p, cs, codec).value.interpreted == p.interpreted + Steps(cs)
    decreases |cs|
  {
    if cs != [] {
      var c := cs[0];
      if !IsImage(c.kind) {
        RepeatCounts(p, c.kind, WRM_HEADER_SIZE + |c.payload|, c.payload, Interpretations(c.count), codec);
      }
      PlayCountsSteps(PlayChunk(p, c, codec).value, cs[1..], codec);
    }
  }
}
