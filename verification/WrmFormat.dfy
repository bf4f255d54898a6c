/** The WRM file format: typed chunks with an eight-byte header, and the payloads whose contents
    the recorder and the player must agree on. */
module WrmFormat {
  import opened Bytes

  const WRM_HEADER_SIZE: nat := 8
  /** The player refuses larger chunks, header included. */
  const MAX_CHUNK_SIZE: nat := 65536

  const RDP_UPDATE_ORDERS: nat := 0
  const RDP_UPDATE_BITMAP2: nat := 0x3ED
  const META_FILE: nat := 0x3EE
  const TIMESTAMP: nat := 0x3F0
  const CACHED_POINTER: nat := 0x3F1
  const POINTER_NATIVE: nat := 0x3F3
  const TIMES: nat := 0x3F4
  const INTERNAL_POINTER: nat := 0x3F5
  const LAST_IMAGE_CHUNK: nat := 0x1000
  const PARTIAL_IMAGE_CHUNK: nat := 0x1001
  const SAVE_STATE: nat := 0x1002
  const SESSION_UPDATE: nat := 0x1005
  const POSSIBLE_ACTIVE_WINDOW_CHANGE: nat := 0x2000
  const KBD_INPUT_MASK: nat := 0x2002

  datatype Chunk = Chunk(kind: nat, count: nat, payload: seq<byte>)

  /** A chunk the player can read back: the size fits the player's buffer and the other header
      fields fit their 16 bits. */
  predicate WellFormed(c: Chunk) {
    c.kind < TWO_16 && c.count < TWO_16 && |c.payload| <= MAX_CHUNK_SIZE - WRM_HEADER_SIZE
  }

  predicate IsImage(kind: nat) {
    kind == LAST_IMAGE_CHUNK || kind == PARTIAL_IMAGE_CHUNK
  }

  function Header(kind: nat, dataSize: nat, count: nat): (r: seq<byte>)
    ensures |r| == WRM_HEADER_SIZE
  {
    U16Le(kind) + U32Le(WRM_HEADER_SIZE + dataSize) + U16Le(count)
  }

  function Encode(c: Chunk): (r: seq<byte>)
    ensures |r| == WRM_HEADER_SIZE + |c.payload|
  {
    Header(c.kind, |c.payload|, c.count) + c.payload
  }

  function EncodeAll(cs: seq<Chunk>): seq<byte> {
    if cs == [] then [] else Encode(cs[0]) + EncodeAll(cs[1..])
  }

  lemma {:induction false} EncodeAllAppend(xs: seq<Chunk>, ys: seq<Chunk>)
    ensures EncodeAll(xs + ys) == EncodeAll(xs) + EncodeAll(ys)
  {
    if xs == [] {
      assert xs + ys == ys;
    } else {
      assert (xs + ys)[1..] == xs[1..] + ys;
      EncodeAllAppend(xs[1..], ys);
    }
  }

  datatype HeaderFields = HeaderFields(kind: nat, size: nat, count: nat)

  function DecodeHeader(s: seq<byte>): HeaderFields
    requires |s| == WRM_HEADER_SIZE
  {
    var (kind, s1) := TakeLe(s, 2);
    var (size, s2) := TakeLe(s1, 4);
    var (count, _) := TakeLe(s2, 2);
    HeaderFields(kind, size, count)
  }

  /** Splitting the bytes of a well-formed chunk list gives back its first chunk. */
  lemma HeaderRoundTrip(c: Chunk, rest: seq<byte>)
    requires WellFormed(c)
    ensures var s := Encode(c) + rest;
            && DecodeHeader(s[..WRM_HEADER_SIZE])
               == HeaderFields(c.kind, WRM_HEADER_SIZE + |c.payload|, c.count)
            && s[WRM_HEADER_SIZE..] == c.payload + rest
  {
    Widths();
    var size := WRM_HEADER_SIZE + |c.payload|;
    var h := Header(c.kind, |c.payload|, c.count);
    var s := Encode(c) + rest;
    assert s == h + (c.payload + rest);
    assert s[..WRM_HEADER_SIZE] == h;
    assert h == Le(c.kind, 2) + (Le(size, 4) + (Le(c.count, 2) + []));
    TakeLeOf(c.kind, 2, Le(size, 4) + (Le(c.count, 2) + []));
    TakeLeOf(size, 4, Le(c.count, 2) + []);
    TakeLeOf(c.count, 2, []);
  }

  // ----- Cursors -----

  datatype Cursor = Cursor(bpp: nat, hotX: nat, hotY: nat, width: nat, height: nat,
                           xorMask: seq<byte>, andMask: seq<byte>)

  const MAX_CURSOR_SIDE: nat := 96
  const CURSOR_DATA_SIZE: nat := 36864
  const CURSOR_MASK_SIZE: nat := 1152

  /** A cursor as the proxy holds one: it has a colour depth and fits the fixed cursor buffers. */
  predicate ValidCursor(c: Cursor) {
    && 0 < c.bpp < TWO_16 && c.hotX < TWO_16 && c.hotY < TWO_16
    && c.width <= MAX_CURSOR_SIDE && c.height <= MAX_CURSOR_SIDE
    && |c.xorMask| <= CURSOR_DATA_SIZE && |c.andMask| <= CURSOR_MASK_SIZE
  }

  function CursorFields(idx: nat, c: Cursor): (r: seq<nat>)
    ensures |r| == 8
  {
    [c.bpp, idx, c.hotX, c.hotY, c.width, c.height, |c.andMask|, |c.xorMask|]
  }

  /** The POINTER_NATIVE payload: eight 16-bit fields, the two masks, and a padding byte to make
      the length even. */
  function EncodeCursor(idx: nat, c: Cursor): (r: seq<byte>)
    ensures |r| <= 17 + |c.xorMask| + |c.andMask|
  {
    var s := U16s(CursorFields(idx, c)) + (c.xorMask + c.andMask);
    if |s| % 2 != 0 then s + [0] else s
  }

  /** What the player reads back from a POINTER_NATIVE payload; None where it throws. */
  function DecodeCursor(s: seq<byte>): Option<(nat, Cursor)> {
    if |s| < 16 then None
    else
      var f := TakeU16s(s, 8);
      var body := s[16..];
      if |body| < f[7] + f[6] || f[4] > MAX_CURSOR_SIDE || f[5] > MAX_CURSOR_SIDE
         || f[7] > CURSOR_DATA_SIZE || f[6] > CURSOR_MASK_SIZE then None
      else Some((f[1], Cursor(f[0], f[2], f[3], f[4], f[5], body[..f[7]], body[f[7]..f[7] + f[6]])))
  }

  lemma CursorRoundTrip(idx: nat, c: Cursor)
    requires ValidCursor(c) && idx < TWO_16
    ensures DecodeCursor(EncodeCursor(idx, c)) == Some((idx, c))
  {
    var pad: seq<byte> := if (16 + |c.xorMask| + |c.andMask|) % 2 != 0 then [0] else [];
    var body := c.xorMask + c.andMask + pad;
    var f := CursorFields(idx, c);
    assert EncodeCursor(idx, c) == U16s(f) + body;
    U16sRoundTrip(f, body);
    assert body[..|c.xorMask|] == c.xorMask;
    assert body[|c.xorMask|..|c.xorMask| + |c.andMask|] == c.andMask;
  }

  // ----- Keys -----

  function EncodeKeys(keys: seq<nat>): (r: seq<byte>)
    ensures |r| == 4 * |keys|
  {
    if keys == [] then [] else U32Le(keys[0]) + EncodeKeys(keys[1..])
  }

  function DecodeKeys(s: seq<byte>): Option<seq<nat>> {
    if s == [] then Some([])
    else if |s| < 4 then None
    else
      var (k, rest) := TakeLe(s, 4);
      match DecodeKeys(rest)
      case None => None
      case Some(ks) => Some([k] + ks)
  }

  lemma {:induction false} KeysRoundTrip(keys: seq<nat>)
    requires forall k | k in keys :: k < TWO_32
    ensures DecodeKeys(EncodeKeys(keys)) == Some(keys)
  {
    if keys != [] {
      Widths();
      assert keys[0] in keys;
      assert forall k | k in keys[1..] :: k in keys;
      KeysRoundTrip(keys[1..]);
      TakeLeOf(keys[0], 4, EncodeKeys(keys[1..]));
      assert [keys[0]] + keys[1..] == keys;
    }
  }

  lemma {:induction false} EncodeKeysAppend(xs: seq<nat>, k: nat)
    ensures EncodeKeys(xs + [k]) == EncodeKeys(xs) + U32Le(k)
  {
    if xs == [] {
      assert EncodeKeys([k]) == U32Le(k) + EncodeKeys([]);
    } else {
      assert (xs + [k])[1..] == xs[1..] + [k];
      EncodeKeysAppend(xs[1..], k);
    }
  }

  // ----- Session updates -----

  datatype Kv = Kv(key: seq<byte>, value: seq<byte>)

  /** Size of the buffer a SESSION_UPDATE is built in, and of the fixed part before the pairs. */
  const UPDATE_BUFFER: nat := 16384
  const UPDATE_FIXED: nat := 15

  function KvSize(kv: Kv): nat { 3 + |kv.key| + |kv.value| }

  /** The pairs that make it into the record: the longest prefix that fits the buffer. */
  function KeptKvs(kvs: seq<Kv>, room: int): (r: seq<Kv>)
    ensures |r| <= |kvs| && r == kvs[..|r|]
  {
    if kvs == [] || KvSize(kvs[0]) > room then []
    else [kvs[0]] + KeptKvs(kvs[1..], room - KvSize(kvs[0]))
  }

  function EncodeKv(kv: Kv): (r: seq<byte>)
    ensures |r| == KvSize(kv)
  {
    Le(|kv.key|, 1) + (U16Le(|kv.value|) + (kv.key + kv.value))
  }

  function EncodeKvs(kvs: seq<Kv>): seq<byte> {
    if kvs == [] then [] else EncodeKv(kvs[0]) + EncodeKvs(kvs[1..])
  }

  predicate ValidKvs(kvs: seq<Kv>) {
    |kvs| < 256 && forall kv | kv in kvs :: |kv.key| < 256 && |kv.value| < TWO_16
  }

  lemma {:induction false} KeptKvsFit(kvs: seq<Kv>, room: int)
    requires room >= 0
    ensures |EncodeKvs(KeptKvs(kvs, room))| <= room
    ensures var n := |KeptKvs(kvs, room)|;
            n < |kvs| ==> |EncodeKvs(KeptKvs(kvs, room))| + KvSize(kvs[n]) > room
  {
    if kvs != [] && KvSize(kvs[0]) <= room {
      KeptKvsFit(kvs[1..], room - KvSize(kvs[0]));
      assert KeptKvs(kvs, room)[1..] == KeptKvs(kvs[1..], room - KvSize(kvs[0]));
    }
  }

  /** One pair read from the front of s, with the bytes that follow it. */
  function TakeKv(s: seq<byte>): (r: Option<(Kv, seq<byte>)>)
    ensures r.Some? ==> |r.value.1| < |s|
  {
    if |s| < 3 then None
    else
      var kl := TakeLe(s, 1).0;
      var vl := TakeLe(s[1..], 2).0;
      if |s| - 3 < kl + vl then None
      else Some((Kv(s[3..3 + kl], s[3 + kl..3 + kl + vl]), s[3 + kl + vl..]))
  }

  lemma KvRoundTrip(kv: Kv, rest: seq<byte>)
    requires |kv.key| < 256 && |kv.value| < TWO_16
    ensures TakeKv(EncodeKv(kv) + rest) == Some((kv, rest))
  {
    var s := EncodeKv(kv) + rest;
    var body := kv.key + kv.value + rest;
    var k1 := Le(|kv.key|, 1);
    var v2 := Le(|kv.value|, 2);
    assert s == k1 + (v2 + body);
    assert s[1..] == v2 + body;
    Widths();
    TakeLeOf(|kv.key|, 1, v2 + body);
    TakeLeOf(|kv.value|, 2, body);
    assert s[3..] == body;
    var kl, vl := |kv.key|, |kv.value|;
    assert s[3..3 + kl] == body[..kl] == kv.key;
    assert s[3 + kl..3 + kl + vl] == body[kl..kl + vl] == kv.value;
    assert s[3 + kl + vl..] == body[kl + vl..] == rest;
  }

  function DecodeKvs(s: seq<byte>, n: nat): Option<seq<Kv>> {
    if n == 0 then Some([])
    else
      match TakeKv(s)
      case None => None
      case Some((kv, rest)) =>
        match DecodeKvs(rest, n - 1)
        case None => None
        case Some(kvs) => Some([kv] + kvs)
  }

  lemma {:induction false} KvsRoundTrip(kvs: seq<Kv>)
    requires ValidKvs(kvs)
    ensures DecodeKvs(EncodeKvs(kvs), |kvs|) == Some(kvs)
    decreases |kvs|
  {
    if kvs != [] {
      ValidKvParts(kvs);
      KvRoundTrip(kvs[0], EncodeKvs(kvs[1..]));
      KvsRoundTrip(kvs[1..]);
      OneKvDecodes(EncodeKvs(kvs), |kvs|, kvs[0], EncodeKvs(kvs[1..]), kvs[1..]);
      assert [kvs[0]] + kvs[1..] == kvs;
    }
  }

  lemma ValidKvParts(kvs: seq<Kv>)
    requires ValidKvs(kvs) && kvs != []
    ensures |kvs[0].key| < 256 && |kvs[0].value| < TWO_16 && ValidKvs(kvs[1..])
  {
    assert kvs[0] in kvs;
    assert forall kv | kv in kvs[1..] :: kv in kvs;
  }

  lemma OneKvDecodes(s: seq<byte>, n: nat, kv: Kv, rest: seq<byte>, kvs: seq<Kv>)
    requires n > 0 && TakeKv(s) == Some((kv, rest)) && DecodeKvs(rest, n - 1) == Some(kvs)
    ensures DecodeKvs(s, n) == Some([kv] + kvs)
  {
  }
}
