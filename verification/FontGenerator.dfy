/** The part of the font generator that turns rendered characters into an RBF2 file. */
module FontGenerator {
  import opened Bytes
  import opened FontGlyph
  import opened FontFormat

  datatype GlyphType = Normal | Unknown | Replacement

  /** A rendered character: its pixels, their box, and where the pen starts. */
  datatype GlyphInfo = GlyphInfo(
    kind: GlyphType, pixels: seq<byte>, x1: int, y1: int, x2: int, y2: int, offsetx: int, offsety: int)

  const REPLACEMENT_UNI: nat := 0xFFFD

  function Max(a: int, b: int): int { if a > b then a else b }

  function AdjustY(): set<nat> { {0x25b8, 0x25b9, 0x25ba, 0x25bb, 0x25c2, 0x25c3, 0x25c4, 0x25c5} }

  function Incby(uni: nat, info: GlyphInfo, fontSize: nat): int {
    info.x2 - info.offsetx - if fontSize == 14 && uni == 114 then 1 else 0
  }

  function OffsetY(uni: nat, info: GlyphInfo, fontSize: nat): int {
    Max(0, info.offsety + info.y1) + if fontSize == 14 && uni != 114 && uni in AdjustY() then 1 else 0
  }

  /** What struct.pack accepts, and enough pixels for the box. */
  predicate Packable(uni: nat, info: GlyphInfo, fontSize: nat) {
    var (cx, cy) := (info.x2 - info.x1, info.y2 - info.y1);
    && 0 <= cx < 256 && 0 <= cy < 256 && cy * cx <= |info.pixels|
    && 0 <= Incby(uni, info, fontSize) < 256
    && Max(1, info.offsetx + info.x1) < 128 && OffsetY(uni, info, fontSize) < 128
  }

  function GlyphOf(uni: nat, info: GlyphInfo, fontSize: nat): (g: Glyph)
    requires Packable(uni, info, fontSize)
    ensures ValidGlyph(g)
  {
    var (cx, cy) := (info.x2 - info.x1, info.y2 - info.y1);
    var data := PackRows(Rows(info.pixels, cx, cy));
    PackedRows(Rows(info.pixels, cx, cy), cx);
    DataSizeIsProduct(cx, cy);
    Glyph(Max(1, info.offsetx + info.x1), OffsetY(uni, info, fontSize), Incby(uni, info, fontSize), cx, cy, data)
  }

  /** The pixels of a generated glyph are those that were rendered. */
  lemma GlyphPixels(uni: nat, info: GlyphInfo, fontSize: nat, r: nat, c: nat)
    requires Packable(uni, info, fontSize) && r < info.y2 - info.y1 && c < info.x2 - info.x1
    ensures var g := GlyphOf(uni, info, fontSize);
            && 0 <= r * g.cx <= r * g.cx + c < |info.pixels|
            && NbBytes(g.cx) * r + NbBytes(g.cx) <= |g.data|
            && (Pixel(g.data, g.cx, r, c) <==> info.pixels[r * g.cx + c] == 255)
  {
    var (cx, cy) := (info.x2 - info.x1, info.y2 - info.y1);
    var g := GlyphOf(uni, info, fontSize);
    assert g.cx == cx && g.data == PackRows(Rows(info.pixels, cx, cy));
    RenderedPixel(info.pixels, cx, cy, r, c);
  }

  /** A character of the ranges; nothing is rendered for those that cannot be printed. */
  datatype Char = Char(uni: nat, info: Option<GlyphInfo>)

  predicate HasGlyph(c: Char) { c.info.Some? && c.info.value.kind == Normal }

  predicate Usable(c: Char, fontSize: nat) {
    HasGlyph(c) ==> Packable(c.uni, c.info.value, fontSize)
  }

  function SlotOf(c: Char, fontSize: nat): (s: Option<Glyph>)
    requires Usable(c, fontSize)
    ensures s.Some? ==> ValidGlyph(s.value)
  {
    if HasGlyph(c) then Some(GlyphOf(c.uni, c.info.value, fontSize)) else None
  }

  function SlotsOf(cs: seq<Char>, fontSize: nat): (r: seq<Option<Glyph>>)
    requires forall i :: 0 <= i < |cs| ==> Usable(cs[i], fontSize)
    ensures |r| == |cs| && ValidSlots(r) && forall i :: 0 <= i < |r| ==> r[i] == SlotOf(cs[i], fontSize)
  {
    seq(|cs|, i requires 0 <= i < |cs| => SlotOf(cs[i], fontSize))
  }

  function EntriesOf(cs: seq<Char>, fontSize: nat): (r: seq<Entry>)
    requires forall i :: 0 <= i < |cs| ==> Usable(cs[i], fontSize) && cs[i].uni < TWO_32
    ensures ValidEntries(r) && |r| <= |cs|
  {
    if cs == [] then []
    else
      var (front, c) := (cs[..|cs| - 1], cs[|cs| - 1]);
      assert Usable(c, fontSize);
      EntriesOf(front, fontSize) + if HasGlyph(c) then [Entry(c.uni, GlyphOf(c.uni, c.info.value, fontSize))] else []
  }

  lemma {:induction false} EncodeSlotsAppend(slots: seq<Option<Glyph>>, s: Option<Glyph>)
    requires ValidSlots(slots) && (s.Some? ==> ValidGlyph(s.value))
    ensures EncodeSlots(slots + [s]) == EncodeSlots(slots) + EncodeSlot(s)
    decreases |slots|
  {
    if slots == [] {
      assert [s][1..] == [] && slots + [s] == [s];
      assert EncodeSlot(s) + [] == [] + EncodeSlot(s);
    } else {
      assert (slots + [s])[1..] == slots[1..] + [s];
      EncodeSlotsAppend(slots[1..], s);
    }
  }

  lemma {:induction false} SlotsSizeAppend(slots: seq<Option<Glyph>>, s: Option<Glyph>)
    requires ValidSlots(slots) && (s.Some? ==> ValidGlyph(s.value))
    ensures SlotsSize(slots + [s]) == SlotsSize(slots) + SlotSize(s)
    decreases |slots|
  {
    if slots != [] {
      assert (slots + [s])[1..] == slots[1..] + [s];
      SlotsSizeAppend(slots[1..], s);
    }
  }

  lemma {:induction false} EncodeEntriesAppend(es: seq<Entry>, e: Entry)
    requires ValidEntries(es) && ValidEntry(e)
    ensures EncodeEntries(es + [e]) == EncodeEntries(es) + EncodeEntry(e)
    ensures EntriesSize(es + [e]) == EntriesSize(es) + Align4(|e.glyph.data|)
    decreases |es|
  {
    if es == [] {
      assert [e][1..] == [] && es + [e] == [e];
      assert EncodeEntry(e) + [] == [] + EncodeEntry(e);
    } else {
      assert (es + [e])[1..] == es[1..] + [e];
      EncodeEntriesAppend(es[1..], e);
    }
  }

  class Glyphs {
    var totalDataLen: nat
    var dataGlyphs: seq<seq<byte>>
    var unicodeValues: set<nat>

    constructor ()
      ensures totalDataLen == 0 && dataGlyphs == [] && unicodeValues == {}
    {
      totalDataLen, dataGlyphs, unicodeValues := 0, [], {};
    }

    /** What a glyph adds to the file. */
    ghost predicate Added(before: nat, list: seq<seq<byte>>, bytes: seq<byte>, size: nat)
      reads this
    {
      dataGlyphs == list + [bytes] && totalDataLen == before + size
    }

    method Add(uni: nat, info: GlyphInfo, fontSize: nat, forceInsert: bool)
      requires uni !in unicodeValues && uni < TWO_32
      requires info.kind == Normal || forceInsert ==> Packable(uni, info, fontSize)
      modifies this
      ensures unicodeValues == old(unicodeValues) + {uni}
      ensures if info.kind == Normal || forceInsert then
                var g := GlyphOf(uni, info, fontSize);
                Added(old(totalDataLen), old(dataGlyphs),
                      if uni < CONTIGUOUS_MAX || forceInsert then EncodeSlot(Some(g)) else EncodeEntry(Entry(uni, g)),
                      Align4(|g.data|))
              else if uni < CONTIGUOUS_MAX then Added(old(totalDataLen), old(dataGlyphs), [0], 0)
              else dataGlyphs == old(dataGlyphs) && totalDataLen == old(totalDataLen)
    {
      unicodeValues := unicodeValues + {uni};
      var incby := info.x2 - info.offsetx;
      var cx := info.x2 - info.x1;
      var cy := info.y2 - info.y1;
      var offsetx := Max(1, info.offsetx + info.x1);
      var offsety := Max(0, info.offsety + info.y1);
      if fontSize == 14 {
        if uni == 114 {
          incby := incby - 1;
        } else if uni in AdjustY() {
          offsety := offsety + 1;
        }
      }
      if info.kind == Normal || forceInsert {
        assert incby == Incby(uni, info, fontSize) && offsety == OffsetY(uni, info, fontSize);
        Insert(uni, forceInsert, offsetx, offsety, incby, cx, cy, info.pixels, GlyphOf(uni, info, fontSize));
      } else if uni < CONTIGUOUS_MAX {
        dataGlyphs := dataGlyphs + [[0]];
      }
    }

    method Insert(uni: nat, forceInsert: bool, offsetx: int, offsety: int, incby: nat, cx: nat, cy: nat,
                  pixels: seq<byte>, ghost g: Glyph)
      requires uni < TWO_32 && cy * cx <= |pixels| && ValidGlyph(g)
      requires g == Glyph(offsetx, offsety, incby, cx, cy, PackRows(Rows(pixels, cx, cy)))
      modifies this`dataGlyphs, this`totalDataLen
      ensures Added(old(totalDataLen), old(dataGlyphs),
                    if uni < CONTIGUOUS_MAX || forceInsert then EncodeSlot(Some(g)) else EncodeEntry(Entry(uni, g)),
                    Align4(|g.data|))
    {
      var data := SerializeGlyph(cx, cy, pixels);
      var prefix := if uni < CONTIGUOUS_MAX || forceInsert then [1] else U32Le(uni);
      var fields: seq<byte> := [I8(offsetx), I8(offsety), incby, cx, cy];
      var dataInfo := prefix + fields;
      DataSizeIsProduct(cx, cy);
      totalDataLen := totalDataLen + Align4(NbBytes(cx) * cy);
      dataGlyphs := dataGlyphs + [dataInfo + data];
      assert dataInfo + data == prefix + EncodeGlyph(g);
    }
  }

  function GlyphBytes(replacement: Glyph, slots: seq<Option<Glyph>>, es: seq<Entry>): seq<byte>
    requires ValidGlyph(replacement) && ValidSlots(slots) && ValidEntries(es)
  {
    EncodeSlot(Some(replacement)) + EncodeSlots(slots) + EncodeEntries(es)
  }

  function GlyphSizes(replacement: Glyph, slots: seq<Option<Glyph>>, es: seq<Entry>): nat {
    Align4(|replacement.data|) + SlotsSize(slots) + EntriesSize(es)
  }

  /** The glyphs written so far, as one string, and the data they announce. */
  predicate Lists(list: seq<seq<byte>>, total: nat, replacement: Glyph, slots: seq<Option<Glyph>>, es: seq<Entry>) {
    && ValidGlyph(replacement) && ValidSlots(slots) && ValidEntries(es)
    && Concat(list) == GlyphBytes(replacement, slots, es)
    && |list| == 1 + |slots| + |es|
    && total == GlyphSizes(replacement, slots, es)
  }

  lemma ListReplacement(replacement: Glyph)
    requires ValidGlyph(replacement)
    ensures Lists([EncodeSlot(Some(replacement))], Align4(|replacement.data|), replacement, [], [])
  {
    ConcatOne([], EncodeSlot(Some(replacement)));
    assert [] + [EncodeSlot(Some(replacement))] == [EncodeSlot(Some(replacement))];
  }

  lemma BytesOfSlot(replacement: Glyph, slots: seq<Option<Glyph>>, s: Option<Glyph>)
    requires ValidGlyph(replacement) && ValidSlots(slots) && (s.Some? ==> ValidGlyph(s.value))
    ensures ValidSlots(slots + [s])
    ensures GlyphBytes(replacement, slots + [s], []) == GlyphBytes(replacement, slots, []) + EncodeSlot(s)
  {
    EncodeSlotsAppend(slots, s);
    var head := EncodeSlot(Some(replacement));
    Regroup(head, EncodeSlots(slots), EncodeSlot(s));
    assert EncodeEntries([]) == [];
    assert head + EncodeSlots(slots) + [] == head + EncodeSlots(slots);
    assert head + EncodeSlots(slots + [s]) + [] == head + EncodeSlots(slots + [s]);
  }

  lemma SizeOfSlot(replacement: Glyph, slots: seq<Option<Glyph>>, s: Option<Glyph>)
    requires ValidSlots(slots) && (s.Some? ==> ValidGlyph(s.value))
    ensures GlyphSizes(replacement, slots + [s], []) == GlyphSizes(replacement, slots, []) + SlotSize(s)
  {
    SlotsSizeAppend(slots, s);
  }

  lemma BytesOfEntry(replacement: Glyph, slots: seq<Option<Glyph>>, es: seq<Entry>, e: Entry)
    requires ValidGlyph(replacement) && ValidSlots(slots) && ValidEntries(es) && ValidEntry(e)
    ensures ValidEntries(es + [e])
    ensures GlyphBytes(replacement, slots, es + [e]) == GlyphBytes(replacement, slots, es) + EncodeEntry(e)
  {
    EncodeEntriesAppend(es, e);
    Regroup(EncodeSlot(Some(replacement)) + EncodeSlots(slots), EncodeEntries(es), EncodeEntry(e));
  }

  lemma SizeOfEntry(replacement: Glyph, slots: seq<Option<Glyph>>, es: seq<Entry>, e: Entry)
    requires ValidEntries(es) && ValidEntry(e)
    ensures GlyphSizes(replacement, slots, es + [e])
            == GlyphSizes(replacement, slots, es) + Align4(|e.glyph.data|)
  {
    EncodeEntriesAppend(es, e);
  }

  lemma ListSlot(list: seq<seq<byte>>, total: nat, replacement: Glyph, slots: seq<Option<Glyph>>, s: Option<Glyph>)
    requires Lists(list, total, replacement, slots, []) && (s.Some? ==> ValidGlyph(s.value))
    ensures Lists(list + [EncodeSlot(s)], total + SlotSize(s), replacement, slots + [s], [])
  {
    ConcatOne(list, EncodeSlot(s));
    BytesOfSlot(replacement, slots, s);
    SizeOfSlot(replacement, slots, s);
  }

  lemma ListEntry(list: seq<seq<byte>>, total: nat, replacement: Glyph, slots: seq<Option<Glyph>>, es: seq<Entry>, e: Entry)
    requires Lists(list, total, replacement, slots, es) && ValidEntry(e)
    ensures Lists(list + [EncodeEntry(e)], total + Align4(|e.glyph.data|), replacement, slots, es + [e])
  {
    ConcatOne(list, EncodeEntry(e));
    BytesOfEntry(replacement, slots, es, e);
    SizeOfEntry(replacement, slots, es, e);
  }

  /** The characters of the ranges: first those in a row from the space on, then others, in order. */
  predicate Enumerates(cs: seq<Char>, charsetEnd: nat) {
    var n := ContiguousCount(charsetEnd);
    && n <= |cs| && (forall i :: 0 <= i < n ==> cs[i].uni == CHARSET_START + i)
    && (forall i :: n <= i < |cs| ==> CONTIGUOUS_MAX <= cs[i].uni < TWO_32 && cs[i].uni != REPLACEMENT_UNI)
    && (forall i, j :: 0 <= i < j < |cs| ==> cs[i].uni < cs[j].uni)
  }

  predicate AllUsable(cs: seq<Char>, fontSize: nat) {
    forall i :: 0 <= i < |cs| ==> Usable(cs[i], fontSize) && cs[i].uni < TWO_32
  }

  function Name32(name: seq<byte>): (r: seq<byte>)
    ensures |r| == 32
  {
    (name + seq(32, _ => 0))[..32]
  }

  function FontOf(name: seq<byte>, fontSize: nat, ascent: nat, descent: nat, charsetEnd: nat,
                  replacement: GlyphInfo, cs: seq<Char>): Font
    requires Enumerates(cs, charsetEnd) && AllUsable(cs, fontSize) && Packable(REPLACEMENT_UNI, replacement, fontSize)
  {
    var n := ContiguousCount(charsetEnd);
    Font(Name32(name), fontSize, ascent, descent, charsetEnd, GlyphOf(REPLACEMENT_UNI, replacement, fontSize),
         SlotsOf(cs[..n], fontSize), EntriesOf(cs[n..], fontSize))
  }

  lemma {:induction false} EntriesInOrder(cs: seq<Char>, fontSize: nat, bound: nat)
    requires AllUsable(cs, fontSize)
    requires forall i, j :: 0 <= i < j < |cs| ==> cs[i].uni < cs[j].uni
    requires forall i :: 0 <= i < |cs| ==> CONTIGUOUS_MAX <= cs[i].uni < bound
    ensures var es := EntriesOf(cs, fontSize);
            && Ascending(es) && forall i :: 0 <= i < |es| ==> CONTIGUOUS_MAX <= es[i].uni < bound
    decreases |cs|
  {
    if cs != [] {
      var (before, last) := (cs[..|cs| - 1], cs[|cs| - 1]);
      EntriesInOrder(before, fontSize, last.uni);
      EntryAfter(EntriesOf(before, fontSize), last.uni, EntriesOf(cs, fontSize), bound);
    }
  }

  lemma EntryAfter(es: seq<Entry>, uni: nat, es': seq<Entry>, bound: nat)
    requires Ascending(es) && forall i :: 0 <= i < |es| ==> CONTIGUOUS_MAX <= es[i].uni < uni
    requires CONTIGUOUS_MAX <= uni < bound
    requires es' == es || (|es'| == |es| + 1 && es'[..|es|] == es && es'[|es|].uni == uni)
    ensures Ascending(es') && forall i :: 0 <= i < |es'| ==> CONTIGUOUS_MAX <= es'[i].uni < bound
  {
    assert forall i :: 0 <= i < |es| ==> es'[i] == es[i];
  }

  /** The lists after the first i characters. */
  ghost predicate Written(list: seq<seq<byte>>, total: nat, replacement: Glyph, fontSize: nat, charsetEnd: nat,
                          cs: seq<Char>, i: nat)
    requires Enumerates(cs, charsetEnd) && AllUsable(cs, fontSize) && i <= |cs|
  {
    var m := RowLength(ContiguousCount(charsetEnd), i);
    Lists(list, total, replacement, SlotsOf(cs[..m], fontSize), EntriesOf(cs[m..i], fontSize))
  }

  /** What one character does to the lists. */
  predicate CharAdded(list: seq<seq<byte>>, total: nat, list': seq<seq<byte>>, total': nat, c: Char, fontSize: nat)
    requires Usable(c, fontSize) && c.uni < TWO_32
  {
    var s := SlotOf(c, fontSize);
    if c.uni < CONTIGUOUS_MAX then list' == list + [EncodeSlot(s)] && total' == total + SlotSize(s)
    else if s.Some? then
      list' == list + [EncodeEntry(Entry(c.uni, s.value))] && total' == total + Align4(|s.value.data|)
    else list' == list && total' == total
  }

  lemma WriteChar(list: seq<seq<byte>>, total: nat, list': seq<seq<byte>>, total': nat, replacement: Glyph,
                  fontSize: nat, charsetEnd: nat, cs: seq<Char>, i: nat)
    requires Enumerates(cs, charsetEnd) && AllUsable(cs, fontSize) && i < |cs|
    requires Written(list, total, replacement, fontSize, charsetEnd, cs, i)
    requires Usable(cs[i], fontSize) && CharAdded(list, total, list', total', cs[i], fontSize)
    ensures Written(list', total', replacement, fontSize, charsetEnd, cs, i + 1)
  {
    var n := ContiguousCount(charsetEnd);
    if i < n {
      assert cs[i..i] == [] && cs[i + 1..i + 1] == [];
      WriteInRow(list, total, list', total', replacement, fontSize, cs[..i], cs[i]);
      SlicePush(cs, 0, i);
      assert RowLength(n, i + 1) == i + 1;
    } else {
      WriteOther(list, total, list', total', replacement, fontSize, cs[..n], cs[n..i], cs[i]);
      SlicePush(cs, n, i);
      assert RowLength(n, i + 1) == n;
    }
  }

  lemma SlicePush<T>(s: seq<T>, n: nat, i: nat)
    requires n <= i < |s|
    ensures s[n..i] + [s[i]] == s[n..i + 1]
    ensures s[0..i] == s[..i] && s[0..i + 1] == s[..i + 1]
  {
  }

  /** How many of the first i characters are in the row of n. */
  function RowLength(n: nat, i: nat): (m: nat)
    ensures m <= i
  {
    if i < n then i else n
  }

  lemma WriteInRow(list: seq<seq<byte>>, total: nat, list': seq<seq<byte>>, total': nat, replacement: Glyph,
                   fontSize: nat, before: seq<Char>, c: Char)
    requires AllUsable(before, fontSize) && Usable(c, fontSize) && c.uni < CONTIGUOUS_MAX
    requires Lists(list, total, replacement, SlotsOf(before, fontSize), [])
    requires CharAdded(list, total, list', total', c, fontSize)
    ensures AllUsable(before + [c], fontSize)
    ensures Lists(list', total', replacement, SlotsOf(before + [c], fontSize), [])
  {
    ListSlot(list, total, replacement, SlotsOf(before, fontSize), SlotOf(c, fontSize));
    assert SlotsOf(before + [c], fontSize) == SlotsOf(before, fontSize) + [SlotOf(c, fontSize)];
  }

  lemma WriteOther(list: seq<seq<byte>>, total: nat, list': seq<seq<byte>>, total': nat, replacement: Glyph,
                   fontSize: nat, row: seq<Char>, before: seq<Char>, c: Char)
    requires AllUsable(row, fontSize) && AllUsable(before, fontSize) && Usable(c, fontSize)
    requires CONTIGUOUS_MAX <= c.uni < TWO_32
    requires Lists(list, total, replacement, SlotsOf(row, fontSize), EntriesOf(before, fontSize))
    requires CharAdded(list, total, list', total', c, fontSize)
    ensures AllUsable(before + [c], fontSize)
    ensures Lists(list', total', replacement, SlotsOf(row, fontSize), EntriesOf(before + [c], fontSize))
  {
    var (es, more) := (EntriesOf(before, fontSize), before + [c]);
    assert more[..|more| - 1] == before && more[|more| - 1] == c;
    if HasGlyph(c) {
      ListEntry(list, total, replacement, SlotsOf(row, fontSize), es, Entry(c.uni, SlotOf(c, fontSize).value));
    } else {
      assert es + [] == es;
    }
  }

  /** One character of the ranges. */
  method AddChar(glyphs: Glyphs, c: Char, fontSize: nat)
    requires Usable(c, fontSize) && c.uni < TWO_32 && c.uni !in glyphs.unicodeValues
    modifies glyphs
    ensures CharAdded(old(glyphs.dataGlyphs), old(glyphs.totalDataLen), glyphs.dataGlyphs, glyphs.totalDataLen, c, fontSize)
    ensures glyphs.unicodeValues <= old(glyphs.unicodeValues) + {c.uni}
  {
    match c.info
    case Some(info) =>
      glyphs.Add(c.uni, info, fontSize, false);
    case None =>
      if c.uni < CONTIGUOUS_MAX {
        glyphs.dataGlyphs := glyphs.dataGlyphs + [[0]];
      }
  }

  /** The loop over the ranges. */
  method AddAll(replacement: GlyphInfo, fontSize: nat, charsetEnd: nat, cs: seq<Char>) returns (glyphs: Glyphs)
    requires Enumerates(cs, charsetEnd) && AllUsable(cs, fontSize) && Packable(REPLACEMENT_UNI, replacement, fontSize)
    ensures Written(glyphs.dataGlyphs, glyphs.totalDataLen, GlyphOf(REPLACEMENT_UNI, replacement, fontSize),
                    fontSize, charsetEnd, cs, |cs|)
  {
    ghost var g := GlyphOf(REPLACEMENT_UNI, replacement, fontSize);
    glyphs := new Glyphs();
    glyphs.Add(REPLACEMENT_UNI, replacement, fontSize, true);
    ListReplacement(g);
    assert glyphs.dataGlyphs == [EncodeSlot(Some(g))];
    assert cs[..0] == [] && cs[0..0] == [];
    for i := 0 to |cs|
      invariant fresh(glyphs)
      invariant Written(glyphs.dataGlyphs, glyphs.totalDataLen, g, fontSize, charsetEnd, cs, i)
      invariant forall j :: i <= j < |cs| ==> cs[j].uni !in glyphs.unicodeValues
    {
      ghost var (list, total) := (glyphs.dataGlyphs, glyphs.totalDataLen);
      assert Usable(cs[i], fontSize);
      AddChar(glyphs, cs[i], fontSize);
      WriteChar(list, total, glyphs.dataGlyphs, glyphs.totalDataLen, g, fontSize, charsetEnd, cs, i);
    }
  }

  lemma FontOfValid(name: seq<byte>, fontSize: nat, ascent: nat, descent: nat, charsetEnd: nat,
                    replacement: GlyphInfo, cs: seq<Char>)
    requires Enumerates(cs, charsetEnd) && AllUsable(cs, fontSize) && Packable(REPLACEMENT_UNI, replacement, fontSize)
    requires fontSize < TWO_16 && ascent < TWO_16 && descent < TWO_16 && charsetEnd < TWO_32
    requires var f := FontOf(name, fontSize, ascent, descent, charsetEnd, replacement, cs);
             Count(f) < TWO_32 && TotalData(f) < TWO_32
    ensures ValidFont(FontOf(name, fontSize, ascent, descent, charsetEnd, replacement, cs))
  {
    EntriesInOrder(cs[ContiguousCount(charsetEnd)..], fontSize, TWO_32);
  }

  lemma WrittenAll(list: seq<seq<byte>>, total: nat, f: Font, fontSize: nat, charsetEnd: nat, cs: seq<Char>)
    requires Enumerates(cs, charsetEnd) && AllUsable(cs, fontSize)
    requires Written(list, total, f.replacement, fontSize, charsetEnd, cs, |cs|) && ValidFont(f)
    requires f.contiguous == SlotsOf(cs[..ContiguousCount(charsetEnd)], fontSize)
    requires f.random == EntriesOf(cs[ContiguousCount(charsetEnd)..], fontSize)
    ensures Concat(list) == EncodeGlyphs(f) && |list| == Count(f) && total == TotalData(f)
  {
    assert cs[ContiguousCount(charsetEnd)..|cs|] == cs[ContiguousCount(charsetEnd)..];
  }

  method WriteAll(header: seq<byte>, list: seq<seq<byte>>) returns (file: seq<byte>)
    ensures file == header + Concat(list)
  {
    file := header;
    for i := 0 to |list|
      invariant file == header + Concat(list[..i])
    {
      ConcatOne(list[..i], list[i]);
      assert list[..i + 1] == list[..i] + [list[i]];
      file := file + list[i];
    }
    assert list[..|list|] == list;
  }

  /** The whole generator: its file is the encoding of the font that was rendered. */
  method Generate(name: seq<byte>, fontSize: nat, ascent: nat, descent: nat, charsetEnd: nat,
                  replacement: GlyphInfo, cs: seq<Char>) returns (file: seq<byte>)
    requires Enumerates(cs, charsetEnd) && AllUsable(cs, fontSize) && Packable(REPLACEMENT_UNI, replacement, fontSize)
    requires fontSize < TWO_16 && ascent < TWO_16 && descent < TWO_16 && charsetEnd < TWO_32
    requires var f := FontOf(name, fontSize, ascent, descent, charsetEnd, replacement, cs);
             Count(f) < TWO_32 && TotalData(f) < TWO_32
    ensures var f := FontOf(name, fontSize, ascent, descent, charsetEnd, replacement, cs);
            ValidFont(f) && file == EncodeFont(f)
  {
    var glyphs := AddAll(replacement, fontSize, charsetEnd, cs);
    ghost var f := FontOf(name, fontSize, ascent, descent, charsetEnd, replacement, cs);
    FontOfValid(name, fontSize, ascent, descent, charsetEnd, replacement, cs);
    WrittenAll(glyphs.dataGlyphs, glyphs.totalDataLen, f, fontSize, charsetEnd, cs);
    var header := Magic() + U32Le(1) + Name32(name) + U16Le(fontSize) + U16Le(1) + U16Le(ascent) + U16Le(descent)
      + U32Le(|glyphs.dataGlyphs|) + U32Le(charsetEnd) + U32Le(glyphs.totalDataLen);
    file := WriteAll(header, glyphs.dataGlyphs);
  }
}
