/** What a font file gives beyond its round trip: characters by their code points, heights, broken and missing
    files, and files that are cut short. */
module FontRules {
  import opened Bytes
  import opened FontGlyph
  import opened FontFormat
  import G = FontGenerator

  // ---- from the rendered characters to the lookup ----

  lemma {:induction false} FindRendered(cs: seq<G.Char>, fontSize: nat, i: nat)
    requires G.AllUsable(cs, fontSize) && i < |cs|
    requires forall j, k :: 0 <= j < k < |cs| ==> cs[j].uni < cs[k].uni
    ensures FindEntry(G.EntriesOf(cs, fontSize), cs[i].uni)
            == if G.HasGlyph(cs[i]) then Some(G.GlyphOf(cs[i].uni, cs[i].info.value, fontSize)) else None
    decreases |cs|
  {
    var (front, c) := (cs[..|cs| - 1], cs[|cs| - 1]);
    var last := if G.HasGlyph(c) then [Entry(c.uni, G.GlyphOf(c.uni, c.info.value, fontSize))] else [];
    FindInBoth(G.EntriesOf(front, fontSize), last, cs[i].uni);
    if i < |cs| - 1 {
      FindRendered(front, fontSize, i);
    } else {
      NotAmong(front, fontSize, c.uni);
    }
  }

  lemma {:induction false} FindInBoth(a: seq<Entry>, b: seq<Entry>, uni: nat)
    ensures FindEntry(a + b, uni) == if FindEntry(a, uni).Some? then FindEntry(a, uni) else FindEntry(b, uni)
    decreases |a|
  {
    if a == [] {
      assert a + b == b;
    } else {
      assert (a + b)[1..] == a[1..] + b;
      FindInBoth(a[1..], b, uni);
    }
  }

  lemma {:induction false} NotAmong(cs: seq<G.Char>, fontSize: nat, uni: nat)
    requires G.AllUsable(cs, fontSize) && forall i :: 0 <= i < |cs| ==> cs[i].uni != uni
    ensures FindEntry(G.EntriesOf(cs, fontSize), uni) == None
    decreases |cs|
  {
    if cs != [] {
      var (front, c) := (cs[..|cs| - 1], cs[|cs| - 1]);
      NotAmong(front, fontSize, uni);
      FindInBoth(G.EntriesOf(front, fontSize),
                 if G.HasGlyph(c) then [Entry(c.uni, G.GlyphOf(c.uni, c.info.value, fontSize))] else [], uni);
    }
  }

  /** What the font has for a character of the generator. */
  function Expected(c: G.Char, fontSize: nat): Option<Option<Glyph>>
    requires G.Usable(c, fontSize)
  {
    if G.HasGlyph(c) then Some(Some(G.GlyphOf(c.uni, c.info.value, fontSize)))
    else if c.uni < 0xD7FC then Some(None)
    else None
  }

  lemma SlotOfChar(f: Font, cs: seq<G.Char>, fontSize: nat, n: nat, i: nat)
    requires i < n <= |cs| && G.AllUsable(cs, fontSize) && cs[i].uni == 32 + i < 0xD7FC
    requires f.contiguous == G.SlotsOf(cs[..n], fontSize)
    ensures GlyphFor(f, cs[i].uni) == Expected(cs[i], fontSize)
  {
    assert f.contiguous[i] == G.SlotOf(cs[i], fontSize);
  }

  lemma EntryOfChar(f: Font, cs: seq<G.Char>, fontSize: nat, n: nat, i: nat)
    requires n <= i < |cs| && G.AllUsable(cs, fontSize) && cs[i].uni >= 0xD7FC && |f.contiguous| == n <= 0xD7FC - 32
    requires forall j, k :: 0 <= j < k < |cs| ==> cs[j].uni < cs[k].uni
    requires f.random == G.EntriesOf(cs[n..], fontSize)
    ensures GlyphFor(f, cs[i].uni) == Expected(cs[i], fontSize)
  {
    FindRendered(cs[n..], fontSize, i - n);
    assert cs[n..][i - n] == cs[i];
  }

  /** Every character that was rendered is found by its code point, with its own glyph; code points start at 32, and
      up to 0xD7FB also those without a glyph have a slot. */
  lemma RenderedIsFound(f: Font, name: seq<byte>, fontSize: nat, ascent: nat, descent: nat, charsetEnd: nat,
                        replacement: G.GlyphInfo, cs: seq<G.Char>, i: nat)
    requires G.Enumerates(cs, charsetEnd) && G.AllUsable(cs, fontSize)
    requires G.Packable(G.REPLACEMENT_UNI, replacement, fontSize)
    requires f == G.FontOf(name, fontSize, ascent, descent, charsetEnd, replacement, cs)
    requires ValidFont(f) && TotalData(f) <= MAX_DATA && i < |cs|
    ensures Find(Load(EncodeFont(f)), cs[i].uni)
            == match Expected(cs[i], fontSize)
               case Some(Some(g)) => (ItemOf(g), true)
               case Some(None) => (ItemOf(f.replacement), true)
               case None => (ItemOf(f.replacement), false)
  {
    var n := ContiguousCount(charsetEnd);
    CodePointsOfSlots(cs, charsetEnd, i);
    if i < n {
      SlotOfChar(f, cs, fontSize, n, i);
    } else {
      EntryOfChar(f, cs, fontSize, n, i);
    }
    EveryCodePoint(f, cs[i].uni);
  }

  lemma CodePointsOfSlots(cs: seq<G.Char>, charsetEnd: nat, i: nat)
    requires G.Enumerates(cs, charsetEnd) && i < |cs|
    ensures cs[i].uni >= 32 && (cs[i].uni < 0xD7FC ==> cs[i].uni == 32 + i)
    ensures 32 <= charsetEnd <= 0xD7FC ==> ContiguousCount(charsetEnd) == charsetEnd - 32
  {
  }

  /** The box of the ink gives the size; the advance goes from the pen to the right edge of the ink, except for the
      letter r at size 14; the offsets are those of the ink, at least one to the right and not above the line. */
  lemma Metrics(uni: nat, info: G.GlyphInfo, fontSize: nat)
    requires G.Packable(uni, info, fontSize)
    ensures var g := G.GlyphOf(uni, info, fontSize);
            && g.cx == info.x2 - info.x1 && g.cy == info.y2 - info.y1
            && g.incby + info.offsetx + (if fontSize == 14 && uni == 'r' as int then 1 else 0) == info.x2
            && g.offsetx >= 1 && (g.offsetx > 1 ==> g.offsetx == info.offsetx + info.x1)
            && (fontSize != 14 ==> g.offsety >= 0 && (g.offsety > 0 ==> g.offsety == info.offsety + info.y1))
            && (fontSize == 14 && uni in {0x25b8, 0x25b9, 0x25ba, 0x25bb, 0x25c2, 0x25c3, 0x25c4, 0x25c5} ==>
                  g.offsety == 1 + if info.offsety + info.y1 > 0 then info.offsety + info.y1 else 0)
  {
  }

  // ---- heights, and files that are no fonts ----

  lemma Heights(f: Font)
    requires ValidFont(f)
    ensures var l := Load(EncodeFont(f));
            l.baseline == f.ascent && (f.ascent + f.descent < 65536 ==> l.maxHeight == f.ascent + f.descent)
  {
    HeaderRoundTrip(f, EncodeGlyphs(f));
    HeightsOfFile(EncodeFont(f), HeaderOf(f));
  }

  lemma HeightsOfFile(file: seq<byte>, h: Header)
    requires |file| >= 60 && file[..4] == Magic() && ParseHeader(file) == h && h.count > 0
    ensures var l := Load(file);
            l.baseline == h.ascent && (h.ascent + h.descent < 65536 ==> l.maxHeight == h.ascent + h.descent)
  {
    LoadHeader(file, h);
    KeepHeights(h, file[60..], Default().(maxHeight := MaxHeight(h.ascent, h.descent), baseline := h.ascent));
  }

  lemma KeepHeights(h: Header, s: seq<byte>, l: Loaded)
    requires h.count > 0
    ensures LoadGlyphs(h, s, l).maxHeight == l.maxHeight && LoadGlyphs(h, s, l).baseline == l.baseline
  {
  }

  /** A file that is too short or of another kind leaves the built-in question mark, and nothing else. */
  lemma NoFont(file: seq<byte>)
    requires |file| < 58 || (|file| >= 60 && file[..4] != ['R' as int, 'B' as int, 'F' as int, '2' as int])
    ensures Load(file)
            == Loaded(11, 5, Item(2, 0, 7, 5, 10, [0x78, 0x88, 0x08, 0x18, 0x30, 0x20, 0x20, 0x00, 0x20, 0x20, 0x00, 0x00]), [], [])
  {
  }

  // ---- files that are cut short ----

  lemma GlyphPrefix(s: seq<byte>, t: seq<byte>, usable: nat)
    requires t <= s && |t| >= 5
    ensures var (a, b) := (ParseGlyph(s, usable), ParseGlyph(t, usable));
            b.Got? ==> a.Got? && b.item == a.item && b.usable == a.usable && b.rest <= a.rest
  {
    var n := DataSize(t[3], t[4]);
    if |t| - 5 >= n {
      assert s[5..5 + n] == t[5..5 + n];
      assert s == t + s[|t|..];
      assert s[5 + n..] == t[5 + n..] + s[|t|..];
    }
  }

  lemma SlotPrefix(s: seq<byte>, t: seq<byte>, usable: nat, unknown: Item)
    requires t <= s
    ensures var (a, b) := (ParseSlot(s, usable, unknown), ParseSlot(t, usable, unknown));
            b.Got? ==> a.Got? && b.item == a.item && b.usable == a.usable && b.rest <= a.rest
  {
    if |t| >= 1 {
      assert t[1..] <= s[1..];
      if |t| >= 6 {
        GlyphPrefix(s[1..], t[1..], usable);
      }
    }
  }

  lemma {:induction false} SlotsPrefix(n: nat, s: seq<byte>, t: seq<byte>, usable: nat, unknown: Item)
    requires t <= s
    ensures var (a, b) := (ParseSlots(n, s, usable, unknown), ParseSlots(n, t, usable, unknown));
            b.items <= a.items && (b.ok ==> a.ok && b.usable == a.usable && b.rest <= a.rest)
    decreases n
  {
    if n > 0 {
      SlotPrefix(s, t, usable, unknown);
      var (a, b) := (ParseSlot(s, usable, unknown), ParseSlot(t, usable, unknown));
      if b.Got? {
        SlotsPrefix(n - 1, a.rest, b.rest, a.usable, unknown);
      }
    }
  }

  lemma {:induction false} EntriesPrefix(n: nat, previous: nat, s: seq<byte>, t: seq<byte>, usable: nat)
    requires t <= s
    ensures var (a, b) := (ParseEntries(n, previous, s, usable), ParseEntries(n, previous, t, usable));
            b.items <= a.items
    decreases n
  {
    if n > 0 && |t| >= 9 {
      assert s[..4] == t[..4] && t[4..] <= s[4..];
      GlyphPrefix(s[4..], t[4..], usable);
      var (uni, a, b) := (FromLe(s[..4]), ParseGlyph(s[4..], usable), ParseGlyph(t[4..], usable));
      if b.Got? && previous < uni {
        EntriesPrefix(n - 1, uni, a.rest, b.rest, a.usable);
        EntryStep(n, previous, s, usable);
        EntryStep(n, previous, t, usable);
      }
    }
  }

  lemma EntryStep(n: nat, previous: nat, s: seq<byte>, usable: nat)
    requires n > 0 && |s| >= 9 && previous < FromLe(s[..4]) && ParseGlyph(s[4..], usable).Got?
    ensures var (uni, g) := (FromLe(s[..4]), ParseGlyph(s[4..], usable));
            ParseEntries(n, previous, s, usable).items
            == [Random(uni, g.item)] + ParseEntries(n - 1, uni, g.rest, g.usable).items
  {
  }

  /** Whatever file is cut wherever: the glyphs that are loaded are the first ones of the whole file. */
  lemma CutFile(file: seq<byte>, k: nat)
    requires 60 <= k <= |file|
    ensures var (whole, cut) := (Load(file), Load(file[..k]));
            && cut.contiguous <= whole.contiguous && cut.random <= whole.random
            && (cut.unknown == whole.unknown || cut.unknown == DefaultUnknown())
            && cut.maxHeight == whole.maxHeight && cut.baseline == whole.baseline
  {
    var cut := file[..k];
    assert cut[..4] == file[..4];
    assert cut[44..46] == file[44..46] && cut[46..48] == file[46..48] && cut[48..52] == file[48..52];
    assert cut[52..56] == file[52..56] && cut[56..60] == file[56..60];
    var h := ParseHeader(file);
    var l := Default().(maxHeight := MaxHeight(h.ascent, h.descent), baseline := h.ascent);
    if file[..4] == Magic() && h.total <= MAX_DATA && h.count > 0 {
      assert cut[60..] <= file[60..];
      CutGlyphs(h, file[60..], cut[60..], l);
    }
  }

  lemma CutGlyphs(h: Header, s: seq<byte>, t: seq<byte>, l: Loaded)
    requires h.count > 0 && t <= s && l.contiguous == [] && l.random == [] && l.unknown == DefaultUnknown()
    ensures var (whole, cut) := (LoadGlyphs(h, s, l), LoadGlyphs(h, t, l));
            && cut.contiguous <= whole.contiguous && cut.random <= whole.random
            && (cut.unknown == whole.unknown || cut.unknown == DefaultUnknown())
            && cut.maxHeight == whole.maxHeight && cut.baseline == whole.baseline
  {
    SlotPrefix(s, t, h.total, DefaultUnknown());
    var (a, b) := (ParseSlot(s, h.total, DefaultUnknown()), ParseSlot(t, h.total, DefaultUnknown()));
    if b.Got? {
      var n := ContiguousIn(h);
      SlotsPrefix(n, a.rest, b.rest, a.usable, a.item);
      var (x, y) := (ParseSlots(n, a.rest, a.usable, a.item), ParseSlots(n, b.rest, a.usable, a.item));
      if y.ok {
        EntriesPrefix(h.count - 1 - n, 0, x.rest, y.rest, x.usable);
      }
    }
  }
}
