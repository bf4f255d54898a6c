/** The bytes of every format, field by field: what a round trip cannot tell, such as the order of two
    fields, which byte of an integer comes first, and the number of a type. */
module WireLayout {
  import opened Bytes
  import opened WrmFormat
  import opened WrmRecord
  import P = WrmPlayer
  import A = AclProtocol
  import M = Mwrm3
  import F = FontFormat

  // ---- integers ----

  lemma TwoBytes(v: nat)
    ensures U16Le(v) == [v % 256, v / 256 % 256] && Be(v, 2) == [v / 256 % 256, v % 256]
  {
    assert Le(v / 256, 1) == [v / 256 % 256] + Le(v / 256 / 256, 0);
    assert Be(v / 256, 1) == Be(v / 256 / 256, 0) + [v / 256 % 256];
  }

  lemma FourBytes(v: nat)
    ensures U32Le(v) == [v % 256, v / 256 % 256, v / 256 / 256 % 256, v / 256 / 256 / 256 % 256]
    ensures Be(v, 4) == [v / 256 / 256 / 256 % 256, v / 256 / 256 % 256, v / 256 % 256, v % 256]
  {
    TwoBytes(v / 256 / 256);
    assert Le(v / 256, 3) == [v / 256 % 256] + Le(v / 256 / 256, 2);
    assert Be(v / 256, 3) == Be(v / 256 / 256, 2) + [v / 256 % 256];
  }

  lemma EightBytes(v: nat)
    ensures U64Le(v) == U32Le(v) + U32Le(v / 256 / 256 / 256 / 256)
  {
    var w := v / 256 / 256 / 256;
    FourBytes(v);
    assert Le(v, 8) == [v % 256] + Le(v / 256, 7);
    assert Le(v / 256, 7) == [v / 256 % 256] + Le(v / 256 / 256, 6);
    assert Le(v / 256 / 256, 6) == [v / 256 / 256 % 256] + Le(w, 5);
    assert Le(w, 5) == [w % 256] + Le(w / 256, 4);
  }

  // ---- recordings ----

  /** Type, size with the header, and count. */
  lemma ChunkBytes(c: Chunk)
    ensures Encode(c) == U16Le(c.kind) + U32Le(8 + |c.payload|) + U16Le(c.count) + c.payload
  {
  }

  /** Two instants, and an instant with the mouse and the keys. */
  lemma InstantBytes(r: Rec)
    requires Valid(r)
    ensures var us := (r.timer - r.start) / 1000;
            && TimesChunk(r) == Chunk(0x3F4, 1, U64Le(us) + U64Le(r.lastReal / 1000))
            && TimestampChunk(r)
               == Chunk(0x3F0, 1, U64Le(us) + (U16Le(r.mouseX) + U16Le(r.mouseY) + ([0] + EncodeKeys(r.keys))))
  {
  }

  lemma KeyBytes(keys: seq<nat>, i: nat)
    requires i < |keys|
    ensures EncodeKeys(keys)[4 * i..4 * i + 4] == U32Le(keys[i])
    decreases i
  {
    if i > 0 {
      KeyBytes(keys[1..], i - 1);
      assert EncodeKeys(keys)[4 * i..4 * i + 4] == EncodeKeys(keys[1..])[4 * (i - 1)..4 * (i - 1) + 4];
    }
  }

  /** Batches with their number of drawings, the mask as zero or one, a change of window, and a predefined
      cursor with the mouse. */
  lemma OperationBytes(r: Rec, enable: bool, i: nat)
    requires Valid(r) && i < P.PREDEFINED_POINTER_COUNT
    ensures OrderChunks(r) == if r.orders == [] then [] else [Chunk(0, |r.orders|, Concat(r.orders))]
    ensures BitmapChunks(r) == if r.bitmaps == [] then [] else [Chunk(0x3ED, |r.bitmaps|, Concat(r.bitmaps))]
    ensures Emitted(r, KbdMask(enable)) == [Chunk(0x2002, 1, [if enable then 1 else 0])]
    ensures r.keys == [] ==> Emitted(r, WindowChange) == [Chunk(0x2000, 0, [])]
    ensures Emitted(r, PredefinedPointer(i)) == [Chunk(0x3F5, 0, U16Le(r.mouseX) + U16Le(r.mouseY) + [i])]
  {
    assert Le(i, 1) == [i];
    assert [] + [Chunk(0x2000, 0, [])] == [Chunk(0x2000, 0, [])];
  }

  /** A cursor by its index with the mouse; and in full: depth, slot, hot spot, size, the sizes of the masks
      with that of the AND mask first, and the masks with the XOR mask first. */
  lemma CursorBytes(r: Rec, idx: nat, c: Cursor)
    requires Valid(r) && idx in r.source
    ensures idx in r.cached ==>
              Emitted(r, CachedPointer(idx)) == [Chunk(0x3F1, 0, U16Le(r.mouseX) + U16Le(r.mouseY) + [idx])]
    ensures NativeChunk(idx, c).kind == 0x3F3 && NativeChunk(idx, c).payload == EncodeCursor(idx, c)
    ensures var s := U16s([c.bpp, idx, c.hotX, c.hotY, c.width, c.height, |c.andMask|, |c.xorMask|]) + (c.xorMask + c.andMask);
            EncodeCursor(idx, c) == s + if |s| % 2 == 0 then [] else [0]
  {
    assert Le(idx, 1) == [idx];
  }

  lemma FieldBytes(f: seq<nat>, i: nat)
    requires i < |f|
    ensures U16s(f)[2 * i..2 * i + 2] == U16Le(f[i])
    decreases i
  {
    if i > 0 {
      FieldBytes(f[1..], i - 1);
      assert U16s(f)[2 * i..2 * i + 2] == U16s(f[1..])[2 * (i - 1)..2 * (i - 1) + 2];
    }
  }

  /** The instant of an update, the size of its message, its identifier, the number of pairs, and each pair with
      the sizes of its parts, one byte and two. */
  lemma UpdateBytes(r: Rec, now: int, id: nat, kv: Kv)
    requires 0 <= now - r.start < TWO_63 && KvSize(kv) <= 16369
    ensures var m := U32Le(id) + ([1] + ([|kv.key| % 256] + (U16Le(|kv.value|) + (kv.key + kv.value))));
            var us := (now - r.start) / 1000;
            UpdateChunk(r, now, id, [kv]) == Chunk(0x1005, 1, U64Le(us) + (U16Le(|m|) + m))
  {
    var kvs := [kv];
    assert kvs[1..] == [];
    assert KeptKvs(kvs, UPDATE_BUFFER - UPDATE_FIXED) == kvs;
    assert EncodeKvs(kvs) == EncodeKv(kv) + [] == EncodeKv(kv);
    assert Le(1, 1) == [1] && Le(|kv.key|, 1) == [|kv.key| % 256];
  }

  // ---- the access control list ----

  /** A question and a value: a mark, the name after one byte, and the value after four. */
  lemma AclFieldBytes(name: seq<byte>, value: seq<byte>)
    requires |name| < 256 && |value| < TWO_32
    ensures A.EncodeField(A.Ask(name)) == ['?' as int, |name|] + name
    ensures A.EncodeField(A.Value(name, value)) == ['!' as int, |name|] + name + Be(|value|, 4) + value
  {
  }

  /** The fields one after the other, after their number. */
  lemma {:induction false} AclMessageBytes(m: seq<A.Field>, i: nat)
    requires A.SendableMessage(m) && i < |m|
    ensures A.EncodeMessage(m) == Be(|m|, 2) + A.EncodeFields(m)
    ensures A.EncodeFields(m[i..]) == A.EncodeField(m[i]) + A.EncodeFields(m[i + 1..])
  {
    assert m[i..][1..] == m[i + 1..];
  }

  // ---- the index of a recording ----

  lemma IndexBytes(f: seq<byte>, n: nat, d: nat, q: seq<byte>, h: seq<byte>)
    requires |f| < TWO_16 && n < TWO_64 && d < TWO_64 && |q| == |h| == 32
    ensures M.Serialize(M.HeaderCompatibility) == ['v' as int, '3' as int, '\n' as int]
    ensures M.Serialize(M.WrmNew(f)) == U16Le(1) + U16Le(|f|) + f && M.Serialize(M.FdxNew(f)) == U16Le(3) + U16Le(|f|) + f
    ensures M.Serialize(M.WrmState(n, d, q, h)) == U16Le(2) + U64Le(n) + U64Le(d) + [3] + (q + h)
    ensures M.Serialize(M.WrmState(n, d, [], [])) == U16Le(2) + U64Le(n) + U64Le(d) + [0]
  {
  }

  /** A transferred file: the three low bits say which hashes are there, two bits the direction, two the status. */
  lemma TransferBytes(id: nat, n: nat, dir: nat, st: nat, o: seq<byte>, t: seq<byte>, q: seq<byte>, h: seq<byte>, s: seq<byte>)
    requires id < TWO_64 && n < TWO_64 && dir < 4 && st < 4 && |o| < TWO_16 && |t| < TWO_16 && |q| == |h| == |s| == 32
    ensures M.Serialize(M.TflNew(id, n, dir, st, o, t, q, h, s))
            == U16Le(4) + U64Le(id) + U64Le(n) + [7 + 8 * dir + 32 * st] + U16Le(|o|) + U16Le(|t|) + (o + (t + (q + (h + s))))
  {
  }

  /** The same without two of the hashes. */
  lemma ShortTransferBytes(id: nat, n: nat, dir: nat, st: nat, o: seq<byte>, t: seq<byte>, s: seq<byte>)
    requires id < TWO_64 && n < TWO_64 && dir < 4 && st < 4 && |o| < TWO_16 && |t| < TWO_16 && |s| == 32
    ensures M.Serialize(M.TflNew(id, n, dir, st, o, t, [], [], s))
            == U16Le(4) + U64Le(id) + U64Le(n) + [4 + 8 * dir + 32 * st] + U16Le(|o|) + U16Le(|t|) + (o + (t + s))
  {
    assert [] + s == s;
  }

  // ---- fonts ----

  /** The magic number, version and style, and the other fields of the header in their order. */
  lemma FontHeaderBytes(f: F.Font)
    requires F.ValidFont(f)
    ensures F.EncodeHeader(f)
            == ['R' as int, 'B' as int, 'F' as int, '2' as int] + U32Le(1) + f.name + U16Le(f.size) + U16Le(1)
               + U16Le(f.ascent) + U16Le(f.descent) + U32Le(1 + |f.contiguous| + |f.random|) + U32Le(f.unicodeMax)
               + U32Le(F.TotalData(f))
  {
  }

  /** A glyph: one, or its code point, then offsets as signed bytes, advance, width, height and rows. */
  lemma GlyphBytes(g: F.Glyph, uni: nat)
    requires F.ValidGlyph(g) && uni < TWO_32
    ensures var fields: seq<byte> := [g.offsetx % 256, g.offsety % 256, g.incby, g.cx, g.cy];
            && F.EncodeSlot(Some(g)) == [1] + (fields + g.data) && F.EncodeSlot(None) == [0]
            && F.EncodeEntry(F.Entry(uni, g)) == U32Le(uni) + (fields + g.data)
  {
  }
}
