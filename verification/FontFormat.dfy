/** The RBF2 font file: what the generator writes, what the loader makes of any file, and that the
    second undoes the first. */
module FontFormat {
  import opened Bytes
  import opened FontGlyph

  const CHARSET_START: nat := 32
  const CONTIGUOUS_MAX: nat := 0xD7FC
  const MAX_DATA: nat := 32 * 1024 * 1024

  /** A glyph as the generator packs it. */
  datatype Glyph = Glyph(offsetx: int, offsety: int, incby: nat, cx: nat, cy: nat, data: seq<byte>)

  /** The bytes of cy rows of cx pixels. */
  function DataSize(cx: nat, cy: nat): nat {
    if cy == 0 then 0 else NbBytes(cx) + DataSize(cx, cy - 1)
  }

  lemma {:induction false} DataSizeIsProduct(cx: nat, cy: nat)
    ensures DataSize(cx, cy) == NbBytes(cx) * cy
  {
    if cy > 0 {
      DataSizeIsProduct(cx, cy - 1);
      assert NbBytes(cx) * cy == NbBytes(cx) * (cy - 1) + NbBytes(cx);
    }
  }

  lemma DataSizeBound(cx: nat, cy: nat)
    requires cx < 256 && cy < 256
    ensures DataSize(cx, cy) <= 32 * 255
  {
    DataSizeRows(cx, cy);
  }

  lemma {:induction false} DataSizeRows(cx: nat, cy: nat)
    requires cx < 256
    ensures DataSize(cx, cy) <= 32 * cy
  {
    if cy > 0 {
      DataSizeRows(cx, cy - 1);
    }
  }

  predicate ValidGlyph(g: Glyph) {
    && -128 <= g.offsetx < 128 && -128 <= g.offsety < 128
    && g.incby < 256 && g.cx < 256 && g.cy < 256 && |g.data| == DataSize(g.cx, g.cy)
  }

  function I8(v: int): byte
    requires -128 <= v < 128
  {
    if v < 0 then v + 256 else v
  }

  function FromI8(b: byte): int { if b < 128 then b else b - 256 }

  function EncodeGlyph(g: Glyph): (r: seq<byte>)
    requires ValidGlyph(g)
    ensures |r| == 5 + |g.data|
  {
    [I8(g.offsetx), I8(g.offsety), g.incby, g.cx, g.cy] + g.data
  }

  function EncodeSlot(g: Option<Glyph>): seq<byte>
    requires g.Some? ==> ValidGlyph(g.value)
  {
    match g
    case None => [0]
    case Some(g) => [1] + EncodeGlyph(g)
  }

  predicate ValidSlots(slots: seq<Option<Glyph>>) {
    forall i :: 0 <= i < |slots| ==> slots[i].Some? ==> ValidGlyph(slots[i].value)
  }

  function EncodeSlots(slots: seq<Option<Glyph>>): seq<byte>
    requires ValidSlots(slots)
  {
    if slots == [] then [] else EncodeSlot(slots[0]) + EncodeSlots(slots[1..])
  }

  datatype Entry = Entry(uni: nat, glyph: Glyph)

  predicate ValidEntry(e: Entry) { e.uni < TWO_32 && ValidGlyph(e.glyph) }

  predicate ValidEntries(es: seq<Entry>) {
    forall i :: 0 <= i < |es| ==> ValidEntry(es[i])
  }

  function EncodeEntry(e: Entry): seq<byte>
    requires ValidEntry(e)
  {
    U32Le(e.uni) + EncodeGlyph(e.glyph)
  }

  function EncodeEntries(es: seq<Entry>): seq<byte>
    requires ValidEntries(es)
  {
    if es == [] then [] else EncodeEntry(es[0]) + EncodeEntries(es[1..])
  }

  /** The aligned sizes of the data of all glyphs. */
  function SlotsSize(slots: seq<Option<Glyph>>): nat {
    if slots == [] then 0
    else (if slots[0].Some? then Align4(|slots[0].value.data|) else 0) + SlotsSize(slots[1..])
  }

  function EntriesSize(es: seq<Entry>): nat {
    if es == [] then 0 else Align4(|es[0].glyph.data|) + EntriesSize(es[1..])
  }

  // ---- what the loader makes of the bytes ----

  /** A loaded glyph; its data is padded with zeros to a multiple of four bytes. */
  datatype Item = Item(offsetx: int, offsety: int, incby: nat, width: nat, height: nat, data: seq<byte>)

  function Pad(data: seq<byte>): (r: seq<byte>)
    ensures |r| == Align4(|data|) && data <= r
  {
    data + seq(Align4(|data|) - |data|, _ => 0)
  }

  function ItemOf(g: Glyph): Item {
    Item(g.offsetx, g.offsety, g.incby, g.cx, g.cy, Pad(g.data))
  }

  /** The question mark that is built in. */
  function DefaultUnknown(): Item {
    Item(2, 0, 7, 5, 10, [0x78, 0x88, 0x08, 0x18, 0x30, 0x20, 0x20, 0x00, 0x20, 0x20, 0x00, 0x00])
  }

  datatype Parsed = Broken | Got(item: Item, rest: seq<byte>, usable: nat)

  function ParseGlyph(s: seq<byte>, usable: nat): Parsed
    requires |s| >= 5
  {
    var (cx, cy) := (s[3], s[4]);
    var n := DataSize(cx, cy);
    if Align4(n) > usable || |s| - 5 < n then Broken
    else Got(Item(FromI8(s[0]), FromI8(s[1]), s[2], cx, cy, Pad(s[5..5 + n])), s[5 + n..], usable - Align4(n))
  }

  function ParseSlot(s: seq<byte>, usable: nat, unknown: Item): Parsed {
    if |s| < 1 then Broken
    else if s[0] == 0 then Got(unknown, s[1..], usable)
    else if |s| < 6 then Broken
    else ParseGlyph(s[1..], usable)
  }

  /** The glyphs read before the end, or before the file breaks. */
  datatype Read<T> = Read(items: seq<T>, ok: bool, rest: seq<byte>, usable: nat)

  function After<T>(item: T, r: Read<T>): Read<T> { r.(items := [item] + r.items) }

  function ParseSlots(n: nat, s: seq<byte>, usable: nat, unknown: Item): (r: Read<Item>)
    ensures |r.items| <= n && (r.ok ==> |r.items| == n)
  {
    if n == 0 then Read([], true, s, usable)
    else
      match ParseSlot(s, usable, unknown)
      case Broken => Read([], false, [], 0)
      case Got(item, rest, left) =>
        After(item, ParseSlots(n - 1, rest, left, unknown))
  }

  datatype Random = Random(uni: nat, item: Item)

  function ParseEntries(n: nat, previous: nat, s: seq<byte>, usable: nat): (r: Read<Random>)
    ensures |r.items| <= n && (r.ok ==> |r.items| == n)
  {
    if n == 0 then Read([], true, s, usable)
    else if |s| < 9 then Read([], false, [], 0)
    else
      var uni := FromLe(s[..4]);
      if previous >= uni then Read([], false, [], 0)
      else
        match ParseGlyph(s[4..], usable)
        case Broken => Read([], false, [], 0)
        case Got(item, rest, left) =>
          After(Random(uni, item), ParseEntries(n - 1, uni, rest, left))
  }

  // ---- round trips ----

  lemma GlyphRoundTrip(g: Glyph, rest: seq<byte>, usable: nat)
    requires ValidGlyph(g) && Align4(|g.data|) <= usable
    ensures ParseGlyph(EncodeGlyph(g) + rest, usable) == Got(ItemOf(g), rest, usable - Align4(|g.data|))
  {
    var s := EncodeGlyph(g) + rest;
    assert s[0] == I8(g.offsetx) && s[1] == I8(g.offsety) && s[2] == g.incby && s[3] == g.cx && s[4] == g.cy;
    assert s[5..5 + |g.data|] == g.data && s[5 + |g.data|..] == rest;
  }

  function SlotItem(g: Option<Glyph>, unknown: Item): Item {
    if g.Some? then ItemOf(g.value) else unknown
  }

  function SlotItems(slots: seq<Option<Glyph>>, unknown: Item): (r: seq<Item>)
    ensures |r| == |slots| && forall i :: 0 <= i < |r| ==> r[i] == SlotItem(slots[i], unknown)
  {
    seq(|slots|, i requires 0 <= i < |slots| => SlotItem(slots[i], unknown))
  }

  lemma SlotRoundTrip(g: Option<Glyph>, rest: seq<byte>, usable: nat, unknown: Item)
    requires g.Some? ==> ValidGlyph(g.value) && Align4(|g.value.data|) <= usable
    ensures ParseSlot(EncodeSlot(g) + rest, usable, unknown)
            == Got(SlotItem(g, unknown), rest, usable - if g.Some? then Align4(|g.value.data|) else 0)
  {
    match g
    case None =>
      TakeDrop([0], rest);
    case Some(v) =>
      Regroup([1], EncodeGlyph(v), rest);
      PresentSlot(EncodeGlyph(v) + rest, usable, unknown);
      GlyphRoundTrip(v, rest, usable);
  }

  lemma PresentSlot(s: seq<byte>, usable: nat, unknown: Item)
    requires |s| >= 5
    ensures ParseSlot([1] + s, usable, unknown) == ParseGlyph(s, usable)
  {
    TakeDrop([1], s);
  }

  function SlotSize(g: Option<Glyph>): nat {
    if g.Some? then Align4(|g.value.data|) else 0
  }

  lemma FirstSlot(slots: seq<Option<Glyph>>, rest: seq<byte>, usable: nat, unknown: Item)
    requires slots != [] && ValidSlots(slots) && SlotSize(slots[0]) <= usable
    ensures ParseSlot(EncodeSlots(slots) + rest, usable, unknown)
            == Got(SlotItem(slots[0], unknown), EncodeSlots(slots[1..]) + rest, usable - SlotSize(slots[0]))
  {
    var after := EncodeSlots(slots[1..]) + rest;
    assert EncodeSlots(slots) + rest == EncodeSlot(slots[0]) + after;
    SlotRoundTrip(slots[0], after, usable, unknown);
  }

  lemma NextSlots(n: nat, s: seq<byte>, usable: nat, unknown: Item, item: Item, rest: seq<byte>, left: nat)
    requires n > 0 && ParseSlot(s, usable, unknown) == Got(item, rest, left)
    ensures ParseSlots(n, s, usable, unknown) == After(item, ParseSlots(n - 1, rest, left, unknown))
  {
  }

  lemma SlotsSizeParts(slots: seq<Option<Glyph>>)
    requires slots != []
    ensures SlotsSize(slots) == SlotSize(slots[0]) + SlotsSize(slots[1..])
  {
  }

  lemma {:induction false} SlotsRoundTrip(slots: seq<Option<Glyph>>, rest: seq<byte>, usable: nat, unknown: Item)
    requires ValidSlots(slots) && SlotsSize(slots) <= usable
    ensures ParseSlots(|slots|, EncodeSlots(slots) + rest, usable, unknown)
            == Read(SlotItems(slots, unknown), true, rest, usable - SlotsSize(slots))
    decreases |slots|
  {
    if slots == [] {
      assert EncodeSlots(slots) + rest == rest;
    } else {
      SlotsSizeParts(slots);
      var (left, item) := (usable - SlotSize(slots[0]), SlotItem(slots[0], unknown));
      var after := EncodeSlots(slots[1..]) + rest;
      FirstSlot(slots, rest, usable, unknown);
      NextSlots(|slots|, EncodeSlots(slots) + rest, usable, unknown, item, after, left);
      SlotsRoundTrip(slots[1..], rest, left, unknown);
      FirstItem(slots, unknown);
    }
  }

  lemma FirstItem(slots: seq<Option<Glyph>>, unknown: Item)
    requires slots != []
    ensures SlotItems(slots, unknown) == [SlotItem(slots[0], unknown)] + SlotItems(slots[1..], unknown)
  {
  }

  predicate Ascending(es: seq<Entry>) {
    forall i, j :: 0 <= i < j < |es| ==> es[i].uni < es[j].uni
  }

  function EntryItems(es: seq<Entry>): (r: seq<Random>)
    ensures |r| == |es| && forall i :: 0 <= i < |r| ==> r[i] == Random(es[i].uni, ItemOf(es[i].glyph))
  {
    seq(|es|, i requires 0 <= i < |es| => Random(es[i].uni, ItemOf(es[i].glyph)))
  }

  lemma NextEntries(n: nat, previous: nat, uni: nat, tail: seq<byte>, usable: nat, item: Item, rest: seq<byte>, left: nat)
    requires n > 0 && |tail| >= 5 && previous < uni < TWO_32 && ParseGlyph(tail, usable) == Got(item, rest, left)
    ensures ParseEntries(n, previous, U32Le(uni) + tail, usable)
            == After(Random(uni, item), ParseEntries(n - 1, uni, rest, left))
  {
    LeWidths(uni);
    assert (U32Le(uni) + tail)[..4] == U32Le(uni);
    assert (U32Le(uni) + tail)[4..] == tail;
  }

  lemma {:induction false} EntriesRoundTrip(es: seq<Entry>, previous: nat, rest: seq<byte>, usable: nat)
    requires ValidEntries(es) && Ascending(es) && (es != [] ==> previous < es[0].uni) && EntriesSize(es) <= usable
    ensures ParseEntries(|es|, previous, EncodeEntries(es) + rest, usable)
            == Read(EntryItems(es), true, rest, usable - EntriesSize(es))
    decreases |es|
  {
    if es == [] {
      assert EncodeEntries(es) + rest == rest;
    } else {
      var (e, after) := (es[0], EncodeEntries(es[1..]) + rest);
      var left := usable - Align4(|e.glyph.data|);
      assert EncodeEntries(es) + rest == U32Le(e.uni) + (EncodeGlyph(e.glyph) + after);
      GlyphRoundTrip(e.glyph, after, usable);
      NextEntries(|es|, previous, e.uni, EncodeGlyph(e.glyph) + after, usable, ItemOf(e.glyph), after, left);
      EntriesRoundTrip(es[1..], e.uni, rest, left);
      assert EntryItems(es) == [Random(e.uni, ItemOf(e.glyph))] + EntryItems(es[1..]);
    }
  }

  // ---- the file ----

  datatype Font = Font(
    name: seq<byte>, size: nat, ascent: nat, descent: nat, unicodeMax: nat,
    replacement: Glyph, contiguous: seq<Option<Glyph>>, random: seq<Entry>)

  /** How many code points from the first character on have a slot of their own. */
  function ContiguousCount(unicodeMax: nat): nat {
    var end := if unicodeMax < CONTIGUOUS_MAX then unicodeMax else CONTIGUOUS_MAX;
    (if end > CHARSET_START then end else CHARSET_START) - CHARSET_START
  }

  function Count(f: Font): nat { 1 + |f.contiguous| + |f.random| }

  function TotalData(f: Font): nat {
    Align4(|f.replacement.data|) + SlotsSize(f.contiguous) + EntriesSize(f.random)
  }

  predicate ValidFont(f: Font) {
    && |f.name| == 32 && f.size < TWO_16 && f.ascent < TWO_16 && f.descent < TWO_16
    && f.unicodeMax < TWO_32 && Count(f) < TWO_32 && TotalData(f) < TWO_32
    && ValidGlyph(f.replacement) && ValidSlots(f.contiguous) && ValidEntries(f.random)
    && Ascending(f.random) && (forall i :: 0 <= i < |f.random| ==> f.random[i].uni >= CONTIGUOUS_MAX)
    && |f.contiguous| == ContiguousCount(f.unicodeMax)
  }

  function Magic(): seq<byte> { [0x52, 0x42, 0x46, 0x32] }

  function EncodeHeader(f: Font): (r: seq<byte>)
    requires ValidFont(f)
    ensures |r| == 60
  {
    Magic() + U32Le(1) + f.name + U16Le(f.size) + U16Le(1) + U16Le(f.ascent) + U16Le(f.descent)
    + U32Le(Count(f)) + U32Le(f.unicodeMax) + U32Le(TotalData(f))
  }

  function EncodeGlyphs(f: Font): seq<byte>
    requires ValidFont(f)
  {
    EncodeSlot(Some(f.replacement)) + EncodeSlots(f.contiguous) + EncodeEntries(f.random)
  }

  function EncodeFont(f: Font): seq<byte>
    requires ValidFont(f)
  {
    EncodeHeader(f) + EncodeGlyphs(f)
  }

  datatype Loaded = Loaded(maxHeight: nat, baseline: nat, unknown: Item, contiguous: seq<Item>, random: seq<Random>)

  datatype Header = Header(ascent: nat, descent: nat, count: nat, unicodeMax: nat, total: nat)

  function ParseHeader(s: seq<byte>): Header
    requires |s| >= 60
  {
    Header(FromLe(s[44..46]), FromLe(s[46..48]), FromLe(s[48..52]), FromLe(s[52..56]), FromLe(s[56..60]))
  }

  function MaxHeight(ascent: nat, descent: nat): nat { (ascent + descent) % 65536 }

  function Default(): Loaded { Loaded(11, 5, DefaultUnknown(), [], []) }

  function LoadGlyphs(h: Header, s: seq<byte>, l: Loaded): Loaded
    requires h.count > 0
  {
    match ParseSlot(s, h.total, DefaultUnknown())
    case Broken => l
    case Got(unknown, rest, usable) => LoadSlots(h, unknown, rest, usable, l)
  }

  function ContiguousIn(h: Header): (n: nat)
    requires h.count > 0
    ensures n < h.count
  {
    if h.count - 1 < ContiguousCount(h.unicodeMax) then h.count - 1 else ContiguousCount(h.unicodeMax)
  }

  function LoadSlots(h: Header, unknown: Item, s: seq<byte>, usable: nat, l: Loaded): Loaded
    requires h.count > 0
  {
    var n := ContiguousIn(h);
    LoadEntries(h.count - 1 - n, ParseSlots(n, s, usable, unknown), l.(unknown := unknown))
  }

  function LoadEntries(n: nat, c: Read<Item>, l: Loaded): Loaded {
    l.(contiguous := c.items, random := if c.ok then ParseEntries(n, 0, c.rest, c.usable).items else l.random)
  }

  /** FontData::FontData on a file that can be opened. */
  function Load(file: seq<byte>): Loaded
    requires |file| < 58 || |file| >= 60
  {
    if |file| < 58 || file[..4] != Magic() then Default()
    else
      var h := ParseHeader(file);
      var l := Default().(maxHeight := MaxHeight(h.ascent, h.descent), baseline := h.ascent);
      if h.total > MAX_DATA || h.count == 0 then l else LoadGlyphs(h, file[60..], l)
  }

  lemma LastFields(front: seq<byte>, a: seq<byte>, d: seq<byte>, c: seq<byte>, m: seq<byte>, t: seq<byte>, rest: seq<byte>)
    requires |front| == 44 && |a| == |d| == 2 && |c| == |m| == |t| == 4
    ensures var s := front + a + d + c + m + t + rest;
            && s[44..46] == a && s[46..48] == d && s[48..52] == c && s[52..56] == m && s[56..60] == t && s[60..] == rest
            && s[..44] == front
  {
  }

  lemma HeaderRoundTrip(f: Font, rest: seq<byte>)
    requires ValidFont(f)
    ensures var s := EncodeHeader(f) + rest;
            && s[..4] == Magic() && s[60..] == rest
            && ParseHeader(s) == Header(f.ascent, f.descent, Count(f), f.unicodeMax, TotalData(f))
  {
    LeWidths(f.ascent);
    LeWidths(f.descent);
    LeWidths(Count(f));
    LeWidths(f.unicodeMax);
    LeWidths(TotalData(f));
    var front := Magic() + U32Le(1) + f.name + U16Le(f.size) + U16Le(1);
    LastFields(front, U16Le(f.ascent), U16Le(f.descent), U32Le(Count(f)), U32Le(f.unicodeMax), U32Le(TotalData(f)), rest);
    assert (EncodeHeader(f) + rest)[..4] == front[..4] == Magic();
  }

  function AfterReplacement(f: Font): seq<byte>
    requires ValidFont(f)
  {
    EncodeSlots(f.contiguous) + EncodeEntries(f.random)
  }

  function SizeAfterReplacement(f: Font): nat {
    SlotsSize(f.contiguous) + EntriesSize(f.random)
  }

  lemma ReplacementRoundTrip(f: Font)
    requires ValidFont(f)
    ensures SlotIs(EncodeGlyphs(f), TotalData(f), ItemOf(f.replacement), AfterReplacement(f),
                   SizeAfterReplacement(f))
  {
    Regroup(EncodeSlot(Some(f.replacement)), EncodeSlots(f.contiguous), EncodeEntries(f.random));
    SlotRoundTrip(Some(f.replacement), AfterReplacement(f), TotalData(f), DefaultUnknown());
  }

  predicate SlotIs(s: seq<byte>, usable: nat, item: Item, rest: seq<byte>, left: nat) {
    ParseSlot(s, usable, DefaultUnknown()) == Got(item, rest, left)
  }

  predicate SlotsAre(n: nat, s: seq<byte>, usable: nat, unknown: Item, c: Read<Item>) {
    ParseSlots(n, s, usable, unknown) == c
  }

  predicate EntriesAre(n: nat, s: seq<byte>, usable: nat, r: Read<Random>) {
    ParseEntries(n, 0, s, usable) == r
  }

  lemma ContiguousRoundTrip(f: Font, unknown: Item) returns (c: Read<Item>)
    requires ValidFont(f)
    ensures SlotsAre(|f.contiguous|, AfterReplacement(f), SizeAfterReplacement(f), unknown, c)
    ensures c.items == SlotItems(f.contiguous, unknown) && c.ok
    ensures c.rest == EncodeEntries(f.random) && c.usable == EntriesSize(f.random)
  {
    SlotsRoundTrip(f.contiguous, EncodeEntries(f.random), SizeAfterReplacement(f), unknown);
    c := ParseSlots(|f.contiguous|, AfterReplacement(f), SizeAfterReplacement(f), unknown);
  }

  /** In the end the file and the announced length of the data are used up exactly. */
  lemma RandomRoundTrip(f: Font)
    requires ValidFont(f)
    ensures EntriesAre(|f.random|, EncodeEntries(f.random), EntriesSize(f.random), Read(EntryItems(f.random), true, [], 0))
  {
    assert EncodeEntries(f.random) + [] == EncodeEntries(f.random);
    EntriesRoundTrip(f.random, 0, [], EntriesSize(f.random));
  }

  /** Everything is loaded as it was generated. */
  predicate Faithful(l: Loaded, f: Font) {
    && l.maxHeight == MaxHeight(f.ascent, f.descent) && l.baseline == f.ascent
    && l.unknown == ItemOf(f.replacement)
    && l.contiguous == SlotItems(f.contiguous, ItemOf(f.replacement))
    && l.random == EntryItems(f.random)
  }

  predicate Counts(h: Header, n: nat, m: nat) { h.count == 1 + n + m && n == ContiguousIn(h) }

  lemma FontCounts(f: Font)
    requires |f.contiguous| == ContiguousCount(f.unicodeMax)
    ensures Counts(HeaderOf(f), |f.contiguous|, |f.random|)
  {
  }

  lemma LoadParts(h: Header, s: seq<byte>, l: Loaded, unknown: Item, rest: seq<byte>, usable: nat,
                  n: nat, c: Read<Item>, m: nat, r: Read<Random>)
    requires Counts(h, n, m)
    requires SlotIs(s, h.total, unknown, rest, usable)
    requires SlotsAre(n, rest, usable, unknown, c) && c.ok
    requires EntriesAre(m, c.rest, c.usable, r)
    ensures LoadGlyphs(h, s, l) == l.(unknown := unknown, contiguous := c.items, random := r.items)
  {
  }

  function HeaderOf(f: Font): Header {
    Header(f.ascent, f.descent, Count(f), f.unicodeMax, TotalData(f))
  }

  lemma LoadGlyphsRoundTrip(f: Font, l: Loaded)
    requires ValidFont(f)
    ensures LoadGlyphs(HeaderOf(f), EncodeGlyphs(f), l)
            == l.(unknown := ItemOf(f.replacement), contiguous := SlotItems(f.contiguous, ItemOf(f.replacement)),
                  random := EntryItems(f.random))
  {
    var unknown := ItemOf(f.replacement);
    ReplacementRoundTrip(f);
    var c := ContiguousRoundTrip(f, unknown);
    RandomRoundTrip(f);
    FontCounts(f);
    LoadParts(HeaderOf(f), EncodeGlyphs(f), l, unknown, AfterReplacement(f),
              SizeAfterReplacement(f),
              |f.contiguous|, c, |f.random|, Read(EntryItems(f.random), true, [], 0));
  }

  lemma LoadHeader(file: seq<byte>, h: Header)
    requires |file| >= 60 && file[..4] == Magic() && ParseHeader(file) == h && h.count > 0
    ensures var l := Default().(maxHeight := MaxHeight(h.ascent, h.descent), baseline := h.ascent);
            Load(file) == if h.total > MAX_DATA then l else LoadGlyphs(h, file[60..], l)
  {
  }

  /** The loader gives back every glyph of the generator, up to 32 MiB of data, and otherwise not. */
  lemma FontRoundTrip(f: Font)
    requires ValidFont(f)
    ensures Faithful(Load(EncodeFont(f)), f) <==> TotalData(f) <= MAX_DATA
  {
    var h := HeaderOf(f);
    var l := Default().(maxHeight := MaxHeight(h.ascent, h.descent), baseline := h.ascent);
    HeaderRoundTrip(f, EncodeGlyphs(f));
    LoadHeader(EncodeFont(f), h);
    LoadGlyphsRoundTrip(f, l);
    var loaded := Load(EncodeFont(f));
    assert EncodeFont(f)[60..] == EncodeGlyphs(f);
    if TotalData(f) > MAX_DATA {
      TooMuchData(f);
      assert loaded.contiguous == [] && loaded.random == [];
    } else {
      assert loaded == LoadGlyphs(h, EncodeGlyphs(f), l);
      assert Faithful(loaded, f);
    }
  }

  lemma TooMuchData(f: Font)
    requires ValidFont(f) && TotalData(f) > MAX_DATA
    ensures f.contiguous != [] || f.random != []
  {
    DataSizeBound(f.replacement.cx, f.replacement.cy);
  }

  function Repeated(g: Glyph, n: nat): (r: seq<Option<Glyph>>)
    ensures |r| == n && forall i :: 0 <= i < n ==> r[i] == Some(g)
  {
    if n == 0 then [] else [Some(g)] + Repeated(g, n - 1)
  }

  lemma {:induction false} RepeatedSize(g: Glyph, n: nat)
    ensures SlotsSize(Repeated(g, n)) == n * Align4(|g.data|)
    decreases n
  {
    if n > 0 {
      RepeatedSize(g, n - 1);
      assert Repeated(g, n)[1..] == Repeated(g, n - 1);
      OneMore(Align4(|g.data|), n - 1);
    }
  }

  lemma LargestGlyph() returns (g: Glyph)
    ensures ValidGlyph(g) && |g.data| == 8160 && Align4(8160) == 8160
  {
    DataSizeIsProduct(255, 255);
    g := Glyph(0, 0, 255, 255, 255, seq(8160, _ => 0));
  }

  lemma FullFont(g: Glyph, n: nat) returns (f: Font)
    requires ValidGlyph(g) && n <= 4200 && Align4(|g.data|) * (n + 1) < TWO_32
    ensures ValidFont(f) && TotalData(f) == (n + 1) * Align4(|g.data|)
  {
    RepeatedSize(g, n);
    OneMore(Align4(|g.data|), n);
    f := Font(seq(32, _ => 0), 255, 255, 0, CHARSET_START + n, g, Repeated(g, n), []);
  }

  /** A font that the generator can make and the loader refuses: 4201 glyphs of 255 by 255 pixels. */
  lemma LargeFontIsNotLoaded() returns (f: Font)
    ensures ValidFont(f) && TotalData(f) == 4201 * 8160 && !Faithful(Load(EncodeFont(f)), f)
  {
    var g := LargestGlyph();
    f := FullFont(g, 4200);
    FontRoundTrip(f);
  }

  // ---- lookup ----

  /** The first glyph with a code point, looking at one after the other. */
  function LinearFind(r: seq<Random>, uni: nat): Option<Item> {
    if r == [] then None
    else if r[0].uni == uni then Some(r[0].item)
    else LinearFind(r[1..], uni)
  }

  /** The glyph to draw, and whether it is the one that was asked for. */
  function Find(l: Loaded, uni: nat): (Item, bool) {
    if uni < CHARSET_START then (l.unknown, false)
    else if uni - CHARSET_START < |l.contiguous| then (l.contiguous[uni - CHARSET_START], true)
    else
      match LinearFind(l.random, uni)
      case Some(item) => (item, true)
      case None => (l.unknown, false)
  }

  function FindEntry(es: seq<Entry>, uni: nat): Option<Glyph> {
    if es == [] then None else if es[0].uni == uni then Some(es[0].glyph) else FindEntry(es[1..], uni)
  }

  /** What the generator has for a code point: nothing, or a slot of its own, empty or not. */
  function GlyphFor(f: Font, uni: nat): Option<Option<Glyph>> {
    if uni < CHARSET_START then None
    else if uni - CHARSET_START < |f.contiguous| then Some(f.contiguous[uni - CHARSET_START])
    else
      match FindEntry(f.random, uni)
      case Some(g) => Some(Some(g))
      case None => None
  }

  lemma {:induction false} FindEntryItem(es: seq<Entry>, uni: nat)
    ensures LinearFind(EntryItems(es), uni)
            == match FindEntry(es, uni) case Some(g) => Some(ItemOf(g)) case None => None
    decreases |es|
  {
    if es != [] {
      assert EntryItems(es)[1..] == EntryItems(es[1..]);
      FindEntryItem(es[1..], uni);
    }
  }

  /** From the generator to the screen: every code point is drawn with the generator's glyph, or with
      the replacement glyph where it has none. */
  lemma EveryCodePoint(f: Font, uni: nat)
    requires ValidFont(f) && TotalData(f) <= MAX_DATA
    ensures Find(Load(EncodeFont(f)), uni)
            == match GlyphFor(f, uni)
               case Some(Some(g)) => (ItemOf(g), true)
               case Some(None) => (ItemOf(f.replacement), true)
               case None => (ItemOf(f.replacement), false)
  {
    FontRoundTrip(f);
    FindLoaded(Load(EncodeFont(f)), f, uni);
  }

  lemma FindLoaded(l: Loaded, f: Font, uni: nat)
    requires Faithful(l, f)
    ensures Find(l, uni)
            == match GlyphFor(f, uni)
               case Some(Some(g)) => (ItemOf(g), true)
               case Some(None) => (ItemOf(f.replacement), true)
               case None => (ItemOf(f.replacement), false)
  {
    FindEntryItem(f.random, uni);
  }
}
