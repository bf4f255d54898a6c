/** The font loader: a file read through a 32 KiB buffer into one block of glyph data, and the search
    for the glyph of a code point. */
module FontData {
  import opened Bytes
  import opened FontGlyph
  import F = FontFormat

  const BUF_SIZE: nat := 32 * 1024

  /** Where the data of a glyph is. */
  datatype Pointer = BuiltIn | At(offset: nat)

  datatype FontCharView = View(offsetx: int, offsety: int, incby: nat, width: nat, height: nat, data: Pointer)

  function DefaultUnknown(): FontCharView { View(2, 0, 7, 5, 10, BuiltIn) }

  function ViewSize(v: FontCharView): nat { Align4(F.DataSize(v.width, v.height)) }

  /** The data is below d. */
  predicate Below(v: FontCharView, d: nat) {
    if v.data.BuiltIn? then v == DefaultUnknown() else v.data.offset + ViewSize(v) <= d
  }

  predicate AllBelow(vs: seq<FontCharView>, d: nat) {
    forall i :: 0 <= i < |vs| ==> Below(vs[i], d)
  }

  function ItemAt(v: FontCharView, data: seq<byte>): F.Item
    requires Below(v, |data|)
  {
    match v.data
    case BuiltIn => F.DefaultUnknown()
    case At(o) => F.Item(v.offsetx, v.offsety, v.incby, v.width, v.height, data[o..o + ViewSize(v)])
  }

  function ItemsAt(vs: seq<FontCharView>, data: seq<byte>): (r: seq<F.Item>)
    requires AllBelow(vs, |data|)
    ensures |r| == |vs| && forall i :: 0 <= i < |r| ==> r[i] == ItemAt(vs[i], data)
  {
    seq(|vs|, i requires 0 <= i < |vs| => ItemAt(vs[i], data))
  }

  /** New data goes after what is there, and changes no glyph. */
  lemma SameItem(v: FontCharView, data: seq<byte>, data': seq<byte>, d: nat)
    requires d <= |data| && d <= |data'| && data[..d] == data'[..d] && Below(v, d)
    ensures ItemAt(v, data) == ItemAt(v, data')
  {
    if v.data.At? {
      var (o, n) := (v.data.offset, ViewSize(v));
      assert data[o..o + n] == data[..d][o..o + n] && data'[o..o + n] == data'[..d][o..o + n];
    }
  }

  lemma SameItems(vs: seq<FontCharView>, data: seq<byte>, data': seq<byte>, d: nat)
    requires d <= |data| && d <= |data'| && data[..d] == data'[..d] && AllBelow(vs, d)
    ensures ItemsAt(vs, data) == ItemsAt(vs, data')
  {
    forall i | 0 <= i < |vs| ensures ItemAt(vs[i], data) == ItemAt(vs[i], data') {
      SameItem(vs[i], data, data', d);
    }
  }

  /** The open file and its buffer. */
  class Stream {
    const buf: array<byte>
    var cur: nat
    var end: nat
    // what was not read yet
    var file: seq<byte>

    ghost predicate Valid()
      reads this
    {
      cur <= end <= buf.Length == BUF_SIZE
    }

    ghost function Pending(): seq<byte>
      requires Valid()
      reads this, buf
    {
      buf[cur..end] + file
    }

    constructor (bytes: seq<byte>)
      ensures Valid() && Pending() == bytes && cur == end && fresh(buf)
    {
      buf := new byte[BUF_SIZE];
      cur, end, file := 0, 0, bytes;
    }

    /** read() on a regular file: as much as fits. */
    method ReadAt(p: nat) returns (n: nat)
      requires p <= buf.Length == BUF_SIZE
      modifies this`file, buf
      ensures n == if |old(file)| < BUF_SIZE - p then |old(file)| else BUF_SIZE - p
      ensures file == old(file)[n..] && buf[..p + n] == old(buf[..p]) + old(file)[..n]
    {
      n := if |file| < BUF_SIZE - p then |file| else BUF_SIZE - p;
      for i := 0 to n
        invariant file == old(file)
        invariant forall k :: 0 <= k < i ==> buf[p + k] == file[k]
        invariant forall k :: 0 <= k < p ==> buf[k] == old(buf[k])
      {
        buf[p + i] := file[i];
      }
      file := file[n..];
    }

    method MoveToFront()
      requires Valid()
      modifies buf
      ensures buf[..end - cur] == old(buf[cur..end])
    {
      for i := 0 to end - cur
        invariant forall k :: 0 <= k < i ==> buf[k] == old(buf[cur + k])
        invariant forall k :: i <= k < buf.Length ==> buf[k] == old(buf[k])
      {
        buf[i] := buf[cur + i];
      }
    }

    /** prepare_stream: at least len bytes in the buffer. */
    method Prepare(len: nat) returns (ok: bool)
      requires Valid() && len < BUF_SIZE / 2
      modifies this, buf
      ensures Valid() && (ok <==> |old(Pending())| >= len)
      ensures ok ==> end - cur >= len && Pending() == old(Pending())
      ensures ok && old(end - cur) < len ==> end - cur == (if |Pending()| < BUF_SIZE then |Pending()| else BUF_SIZE)
    {
      var remaining := end - cur;
      if remaining < len {
        MoveToFront();
        ghost var (held, rest) := (buf[..remaining], file);
        var n := ReadAt(remaining);
        if n + remaining < len {
          return false;
        }
        cur, end := 0, n + remaining;
        assert rest == rest[..n] + rest[n..];
        assert held + rest[..n] + rest[n..] == held + rest;
      }
      ok := true;
    }

    method Skip(n: nat) returns (s: seq<byte>)
      requires Valid() && n <= end - cur
      modifies this`cur
      ensures Valid() && end == old(end) && cur == old(cur) + n
      ensures |s| == n && s == old(Pending())[..n] && Pending() == old(Pending())[n..]
    {
      s := buf[cur..cur + n];
      assert buf[cur..end] == s + buf[cur + n..end];
      cur := cur + n;
    }
  }

  class Loader {
    const stream: Stream
    const data: array<byte>
    // where the next glyph goes, and how much room is left
    var used: nat
    var usable: nat

    ghost predicate Valid()
      reads this, stream, data
    {
      && stream.Valid() && stream.buf != data && used + usable == data.Length
      && forall k :: used <= k < data.Length ==> data[k] == 0
    }

    constructor (stream: Stream, total: nat)
      requires stream.Valid()
      ensures Valid() && this.stream == stream && used == 0 && usable == total && fresh(data)
    {
      this.stream := stream;
      data := new byte[total](_ => 0);
      used, usable := 0, total;
    }

    method CopyBytes(s: seq<byte>)
      requires Valid() && |s| <= usable
      modifies data
      ensures data[..used] == old(data[..used])
      ensures data[used..used + |s|] == s
      ensures forall k :: used + |s| <= k < data.Length ==> data[k] == 0
    {
      for i := 0 to |s|
        invariant forall k :: 0 <= k < i ==> data[used + k] == s[k]
        invariant forall k :: 0 <= k < used ==> data[k] == old(data[k])
        invariant forall k :: used + i <= k < data.Length ==> data[k] == 0
      {
        data[used + i] := s[i];
      }
    }

    /** A glyph's data, and the zeros that align the next one. */
    method Store(bytes: seq<byte>)
      requires Valid() && Align4(|bytes|) <= usable
      modifies this, data
      ensures Valid() && used == old(used) + Align4(|bytes|) && usable == old(usable) - Align4(|bytes|)
      ensures Kept(old(used), old(data[..])) && data[..][old(used)..used] == F.Pad(bytes)
    {
      CopyBytes(bytes);
      var n := Align4(|bytes|);
      assert data[used..used + n] == F.Pad(bytes);
      assert data[..][used..used + n] == data[used..used + n];
      used, usable := used + n, usable - n;
    }

    /** The first u bytes are what they were. */
    ghost predicate Kept(u: nat, before: seq<byte>)
      reads data
    {
      u <= |before| == data.Length && data[..u] == before[..u]
    }

    /** The result of a step and what the parser says of the bytes before it. */
    ghost predicate Agrees(ok: bool, v: FontCharView, p: F.Parsed)
      reads this, stream, stream.buf, data
    {
      match p
      case Broken => !ok
      case Got(item, rest, left) =>
        && ok && Valid() && stream.Pending() == rest && usable == left
        && Below(v, used) && ItemAt(v, data[..]) == item
    }

    method ExtractGlyph() returns (ok: bool, v: FontCharView)
      requires Valid() && stream.end - stream.cur >= 5
      modifies this, stream, stream.buf, data
      ensures Agrees(ok, v, F.ParseGlyph(old(stream.Pending()), old(usable)))
      ensures old(used) <= used <= data.Length && Kept(old(used), old(data[..]))
    {
      ghost var s := stream.Pending();
      var head := stream.Skip(5);
      var (cx, cy) := (head[3] as nat, head[4] as nat);
      v := View(F.FromI8(head[0]), F.FromI8(head[1]), head[2], cx, cy, At(used));
      var glyphSize := NbBytes(cx) * cy;
      var dataSize := Align4(glyphSize);
      F.DataSizeIsProduct(cx, cy);
      F.DataSizeBound(cx, cy);
      if dataSize > usable {
        return false, v;
      }
      ghost var (t, u, p) := (s[5..], used, F.ParseGlyph(s, usable));
      assert stream.Pending() == t;
      ok := ExtractData(glyphSize);
      if ok {
        assert t[..glyphSize] == s[5..5 + glyphSize] && t[glyphSize..] == s[5 + glyphSize..];
        assert data[..][u..u + ViewSize(v)] == F.Pad(s[5..5 + glyphSize]);
        assert ItemAt(v, data[..]) == p.item;
      }
    }

    /** The data of a glyph. */
    method ExtractData(n: nat) returns (ok: bool)
      requires Valid() && Align4(n) <= usable && n < BUF_SIZE / 2
      modifies this, stream, stream.buf, data
      ensures old(used) <= used <= data.Length && Kept(old(used), old(data[..]))
      ensures ok <==> |old(stream.Pending())| >= n
      ensures ok ==> && Valid() && stream.Pending() == old(stream.Pending())[n..]
                     && used == old(used) + Align4(n) && usable == old(usable) - Align4(n)
                     && data[..][old(used)..used] == F.Pad(old(stream.Pending())[..n])
    {
      ok := stream.Prepare(n);
      if ok {
        var bytes := stream.Skip(n);
        Store(bytes);
      }
    }

    method ExtractSlot(unknown: FontCharView) returns (ok: bool, v: FontCharView)
      requires Valid() && Below(unknown, used)
      modifies this, stream, stream.buf, data
      ensures Agrees(ok, v, F.ParseSlot(old(stream.Pending()), old(usable), old(ItemAt(unknown, data[..]))))
      ensures old(used) <= used <= data.Length && Kept(old(used), old(data[..]))
    {
      v := unknown;
      ghost var s := stream.Pending();
      ok := stream.Prepare(1);
      if !ok {
        return;
      }
      var flag := stream.Skip(1);
      assert stream.Pending() == s[1..];
      if flag[0] == 0 {
        return;
      }
      ok := stream.Prepare(5);
      if ok {
        ok, v := ExtractGlyph();
      }
    }

    /** One more slot; done are the glyphs before it, and m slots are left to read. */
    method ExtractNext(m: nat, unknown: FontCharView, items: seq<FontCharView>, ghost unk: F.Item)
      returns (ok: bool, items': seq<FontCharView>)
      requires Valid() && AllBelow(items, used) && Below(unknown, used) && ItemAt(unknown, data[..]) == unk && m > 0
      modifies this, stream, stream.buf, data
      ensures old(used) <= used <= data.Length && Kept(old(used), old(data[..])) && AllBelow(items', used)
      ensures ItemAt(unknown, data[..]) == unk
      ensures var all := old(Prepend(ItemsAt(items, data[..]), F.ParseSlots(m, stream.Pending(), usable, unk)));
              if ok then Valid() && all == Prepend(ItemsAt(items', data[..]), F.ParseSlots(m - 1, stream.Pending(), usable, unk))
              else all == F.Read(ItemsAt(items', data[..]), false, [], 0)
    {
      ghost var (d, u, s, left, done) := (data[..], used, stream.Pending(), usable, ItemsAt(items, data[..]));
      var v;
      ok, v := ExtractSlot(unknown);
      SameItems(items, d, data[..], u);
      SameItem(unknown, d, data[..], u);
      SlotStep(m, s, left, unk, done);
      if ok {
        ItemsPush(items, v, data[..]);
        items' := items + [v];
      } else {
        items' := items;
      }
    }

    /** The glyphs of n code points in a row. */
    method ExtractSlots(n: nat, unknown: FontCharView) returns (ok: bool, items: seq<FontCharView>)
      requires Valid() && Below(unknown, used)
      modifies this, stream, stream.buf, data
      ensures old(used) <= used <= data.Length && Kept(old(used), old(data[..])) && AllBelow(items, used)
      ensures var r := F.ParseSlots(n, old(stream.Pending()), old(usable), old(ItemAt(unknown, data[..])));
              && ok == r.ok && r.items == ItemsAt(items, data[..])
              && (ok ==> Valid() && stream.Pending() == r.rest && usable == r.usable)
    {
      items := [];
      ghost var unk := ItemAt(unknown, data[..]);
      ghost var all := F.ParseSlots(n, stream.Pending(), usable, unk);
      PrependNone(all);
      for i := 0 to n
        invariant Valid() && old(used) <= used && Kept(old(used), old(data[..]))
        invariant AllBelow(items, used) && Below(unknown, used) && ItemAt(unknown, data[..]) == unk
        invariant all == Prepend(ItemsAt(items, data[..]), F.ParseSlots(n - i, stream.Pending(), usable, unk))
      {
        ghost var (d, u) := (data[..], used);
        ok, items := ExtractNext(n - i, unknown, items, unk);
        KeptTwice(old(data[..]), d, data[..], old(used), u);
        if !ok {
          return;
        }
      }
      ok := true;
      PrependEnd(ItemsAt(items, data[..]), stream.Pending(), usable);
    }

    /** The glyphs so far, and the m that are left to read, make up all. */
    ghost predicate EntriesGoOn(unis: seq<nat>, items: seq<FontCharView>, m: nat, previous: nat, all: F.Read<F.Random>)
      reads this, stream, stream.buf, data
    {
      && Valid() && AllBelow(items, used) && |unis| == |items| && AscendingUpTo(unis, previous)
      && all == Prepend(Randoms(unis, items, data[..]), F.ParseEntries(m, previous, stream.Pending(), usable))
    }

    ghost predicate EntriesRead(ok: bool, unis: seq<nat>, items: seq<FontCharView>, all: F.Read<F.Random>)
      reads this, stream, stream.buf, data
    {
      && used <= data.Length && AllBelow(items, used) && |unis| == |items| && Ascending(unis)
      && ok == all.ok && all.items == Randoms(unis, items, data[..])
      && (ok ==> Valid() && stream.Pending() == all.rest && usable == all.usable)
    }

    lemma EntriesStart(n: nat, all: F.Read<F.Random>)
      requires Valid() && all == F.ParseEntries(n, 0, stream.Pending(), usable)
      ensures EntriesGoOn([], [], n, 0, all)
    {
      PrependNone(all);
    }

    lemma EntriesEnd(unis: seq<nat>, items: seq<FontCharView>, previous: nat, all: F.Read<F.Random>)
      requires EntriesGoOn(unis, items, 0, previous, all)
      ensures EntriesRead(true, unis, items, all)
    {
      PrependEnd(Randoms(unis, items, data[..]), stream.Pending(), usable);
    }

    /** A code point and its glyph. */
    method ExtractEntry(previous: nat) returns (ok: bool, uni: nat, v: FontCharView)
      requires Valid()
      modifies this, stream, stream.buf, data
      ensures var s := old(stream.Pending());
              if |s| < 9 || previous >= FromLe(s[..4]) then !ok
              else uni == FromLe(s[..4]) && Agrees(ok, v, F.ParseGlyph(s[4..], old(usable)))
      ensures old(used) <= used <= data.Length && Kept(old(used), old(data[..]))
    {
      uni, v := 0, DefaultUnknown();
      ghost var s := stream.Pending();
      ok := stream.Prepare(9);
      if !ok {
        return;
      }
      var head := stream.Skip(4);
      uni := FromLe(head);
      if previous >= uni {
        ok := false;
        return;
      }
      assert stream.Pending() == s[4..];
      ok, v := ExtractGlyph();
    }

    /** One more of the glyphs that are left. */
    method ExtractNextEntry(m: nat, previous: nat, unis: seq<nat>, items: seq<FontCharView>, ghost all: F.Read<F.Random>)
      returns (ok: bool, unis': seq<nat>, items': seq<FontCharView>, uni: nat)
      requires m > 0 && EntriesGoOn(unis, items, m, previous, all)
      modifies this, stream, stream.buf, data
      ensures old(used) <= used <= data.Length && Kept(old(used), old(data[..]))
      ensures if ok then EntriesGoOn(unis', items', m - 1, uni, all) else EntriesRead(false, unis', items', all)
    {
      ghost var (d, u) := (data[..], used);
      EntryStep(m, previous, stream.Pending(), usable, Randoms(unis, items, data[..]));
      var v;
      ok, uni, v := ExtractEntry(previous);
      SameItems(items, d, data[..], u);
      SameRandoms(unis, items, d, data[..]);
      if ok {
        RandomsPush(unis, items, uni, v, data[..]);
        AscendingPush(unis, previous, uni);
        unis', items' := unis + [uni], items + [v];
      } else {
        unis', items' := unis, items;
      }
    }

    /** The same, and what was there before the first of them is still there. */
    method ExtractEntryAfter(ghost u: nat, ghost before: seq<byte>, m: nat, previous: nat, unis: seq<nat>,
                             items: seq<FontCharView>, ghost all: F.Read<F.Random>)
      returns (ok: bool, unis': seq<nat>, items': seq<FontCharView>, uni: nat)
      requires m > 0 && EntriesGoOn(unis, items, m, previous, all) && u <= used && Kept(u, before)
      modifies this, stream, stream.buf, data
      ensures u <= used <= data.Length && Kept(u, before)
      ensures if ok then EntriesGoOn(unis', items', m - 1, uni, all) else EntriesRead(false, unis', items', all)
    {
      ghost var (d, w) := (data[..], used);
      ok, unis', items', uni := ExtractNextEntry(m, previous, unis, items, all);
      KeptTwice(before, d, data[..], u, w);
    }

    /** The glyphs that carry their code point, in increasing order. */
    method ExtractEntries(n: nat) returns (ok: bool, unis: seq<nat>, items: seq<FontCharView>)
      requires Valid()
      modifies this, stream, stream.buf, data
      ensures old(used) <= used <= data.Length && Kept(old(used), old(data[..]))
      ensures EntriesRead(ok, unis, items, F.ParseEntries(n, 0, old(stream.Pending()), old(usable)))
    {
      unis, items := [], [];
      var previous := 0;
      ghost var all := F.ParseEntries(n, 0, stream.Pending(), usable);
      EntriesStart(n, all);
      for i := 0 to n
        invariant old(used) <= used && Kept(old(used), old(data[..]))
        invariant EntriesGoOn(unis, items, n - i, previous, all)
      {
        ok, unis, items, previous := ExtractEntryAfter(old(used), old(data[..]), n - i, previous, unis, items, all);
        if !ok {
          return;
        }
      }
      ok := true;
      EntriesEnd(unis, items, previous, all);
    }

    /** Everything after the replacement glyph. */
    method ExtractOthers(h: F.Header, unknown: FontCharView, ghost l: F.Loaded)
      returns (slots: seq<FontCharView>, unis: seq<nat>, entries: seq<FontCharView>, ghost l': F.Loaded)
      requires Valid() && Below(unknown, used) && h.count > 0 && l.random == []
      modifies this, stream, stream.buf, data
      ensures Below(unknown, data.Length) && AllBelow(slots, data.Length) && AllBelow(entries, data.Length)
      ensures ItemAt(unknown, data[..]) == old(ItemAt(unknown, data[..]))
      ensures |unis| == |entries| && Ascending(unis)
      ensures l' == F.LoadSlots(h, old(ItemAt(unknown, data[..])), old(stream.Pending()), old(usable), l)
      ensures Shows(l', l, ItemAt(unknown, data[..]), ItemsAt(slots, data[..]), Randoms(unis, entries, data[..]))
    {
      ghost var (d0, u0) := (data[..], used);
      var n := F.ContiguousIn(h);
      l' := F.LoadSlots(h, ItemAt(unknown, data[..]), stream.Pending(), usable, l);
      SlotsThenEntries(h, ItemAt(unknown, data[..]), stream.Pending(), usable, l);
      var ok;
      ok, slots := ExtractSlots(n, unknown);
      SameItem(unknown, d0, data[..], u0);
      unis, entries := [], [];
      if ok {
        ok, unis, entries := ExtractEntriesAfter(h.count - 1 - n, unknown, slots);
      }
    }

    /** The glyphs that carry their code point, after the others, which stay as they are. */
    method ExtractEntriesAfter(n: nat, ghost unknown: FontCharView, ghost slots: seq<FontCharView>)
      returns (ok: bool, unis: seq<nat>, items: seq<FontCharView>)
      requires Valid() && Below(unknown, used) && AllBelow(slots, used)
      modifies this, stream, stream.buf, data
      ensures Below(unknown, data.Length) && AllBelow(slots, data.Length)
      ensures ItemAt(unknown, data[..]) == old(ItemAt(unknown, data[..]))
      ensures ItemsAt(slots, data[..]) == old(ItemsAt(slots, data[..]))
      ensures EntriesRead(ok, unis, items, F.ParseEntries(n, 0, old(stream.Pending()), old(usable)))
    {
      ghost var (d, u) := (data[..], used);
      ok, unis, items := ExtractEntries(n);
      SameItem(unknown, d, data[..], u);
      SameItems(slots, d, data[..], u);
    }
  }

  /** The glyphs of a loaded font, where a part of it was loaded before. */
  predicate Shows(l': F.Loaded, l: F.Loaded, unknown: F.Item, contiguous: seq<F.Item>, random: seq<F.Random>) {
    && l'.maxHeight == l.maxHeight && l'.baseline == l.baseline
    && l'.unknown == unknown && l'.contiguous == contiguous && l'.random == random
  }

  lemma SlotsThenEntries(h: F.Header, unknown: F.Item, s: seq<byte>, usable: nat, l: F.Loaded)
    requires h.count > 0 && l.random == []
    ensures var n := F.ContiguousIn(h);
            var c := F.ParseSlots(n, s, usable, unknown);
            Shows(F.LoadSlots(h, unknown, s, usable, l), l, unknown, c.items,
                  if c.ok then F.ParseEntries(h.count - 1 - n, 0, c.rest, c.usable).items else [])
  {
  }

  function Randoms(unis: seq<nat>, vs: seq<FontCharView>, data: seq<byte>): (r: seq<F.Random>)
    requires AllBelow(vs, |data|) && |unis| == |vs|
    ensures |r| == |vs| && forall i :: 0 <= i < |r| ==> r[i] == F.Random(unis[i], ItemAt(vs[i], data))
  {
    seq(|vs|, i requires 0 <= i < |vs| => F.Random(unis[i], ItemAt(vs[i], data)))
  }

  lemma SameRandoms(unis: seq<nat>, vs: seq<FontCharView>, data: seq<byte>, data': seq<byte>)
    requires AllBelow(vs, |data|) && AllBelow(vs, |data'|) && |unis| == |vs|
    requires ItemsAt(vs, data) == ItemsAt(vs, data')
    ensures Randoms(unis, vs, data) == Randoms(unis, vs, data')
  {
    assert forall i :: 0 <= i < |vs| ==> ItemsAt(vs, data)[i] == ItemsAt(vs, data')[i];
  }

  lemma RandomsPush(unis: seq<nat>, vs: seq<FontCharView>, uni: nat, v: FontCharView, data: seq<byte>)
    requires AllBelow(vs, |data|) && Below(v, |data|) && |unis| == |vs|
    ensures AllBelow(vs + [v], |data|)
    ensures Randoms(unis + [uni], vs + [v], data) == Randoms(unis, vs, data) + [F.Random(uni, ItemAt(v, data))]
  {
  }

  lemma EntryStep(n: nat, previous: nat, s: seq<byte>, usable: nat, done: seq<F.Random>)
    requires n > 0
    ensures var all := Prepend(done, F.ParseEntries(n, previous, s, usable));
            if |s| < 9 || previous >= FromLe(s[..4]) then all == F.Read(done, false, [], 0)
            else
              match F.ParseGlyph(s[4..], usable)
              case Broken => all == F.Read(done, false, [], 0)
              case Got(item, rest, left) =>
                all == Prepend(done + [F.Random(FromLe(s[..4]), item)], F.ParseEntries(n - 1, FromLe(s[..4]), rest, left))
  {
    assert done + [] == done;
    if |s| >= 9 {
      var (uni, p) := (FromLe(s[..4]), F.ParseGlyph(s[4..], usable));
      if previous < uni && p.Got? {
        PrependAfter(done, F.Random(uni, p.item), F.ParseEntries(n - 1, uni, p.rest, p.usable));
      }
    }
  }

  lemma PrependEnd<T>(done: seq<T>, s: seq<byte>, usable: nat)
    ensures Prepend(done, F.Read([], true, s, usable)) == F.Read(done, true, s, usable)
  {
    assert done + [] == done;
  }

  lemma SlotStep(n: nat, s: seq<byte>, usable: nat, unknown: F.Item, done: seq<F.Item>)
    requires n > 0
    ensures var all := Prepend(done, F.ParseSlots(n, s, usable, unknown));
            match F.ParseSlot(s, usable, unknown)
            case Broken => all == F.Read(done, false, [], 0)
            case Got(item, rest, left) => all == Prepend(done + [item], F.ParseSlots(n - 1, rest, left, unknown))
  {
    var p := F.ParseSlot(s, usable, unknown);
    assert done + [] == done;
    if p.Got? {
      PrependAfter(done, p.item, F.ParseSlots(n - 1, p.rest, p.usable, unknown));
    }
  }

  lemma KeptTwice(a: seq<byte>, b: seq<byte>, c: seq<byte>, u: nat, w: nat)
    requires u <= w <= |a| && |a| == |b| == |c| && a[..u] == b[..u] && b[..w] == c[..w]
    ensures a[..u] == c[..u]
  {
    assert b[..u] == b[..w][..u] && c[..u] == c[..w][..u];
  }

  lemma ItemsPush(vs: seq<FontCharView>, v: FontCharView, data: seq<byte>)
    requires AllBelow(vs, |data|) && Below(v, |data|)
    ensures AllBelow(vs + [v], |data|) && ItemsAt(vs + [v], data) == ItemsAt(vs, data) + [ItemAt(v, data)]
  {
  }

  function Prepend<T>(done: seq<T>, r: F.Read<T>): F.Read<T> { r.(items := done + r.items) }

  lemma PrependNone<T>(r: F.Read<T>)
    ensures Prepend([], r) == r
  {
    assert [] + r.items == r.items;
  }

  lemma PrependAfter<T>(done: seq<T>, item: T, r: F.Read<T>)
    ensures Prepend(done, F.After(item, r)) == Prepend(done + [item], r)
  {
    assert done + ([item] + r.items) == done + [item] + r.items;
  }

  /** The header. It is 60 bytes long but only 58 are asked for. */
  method ReadHeader(stream: Stream) returns (ok: bool, h: F.Header)
    requires stream.Valid() && stream.cur == stream.end
    requires |stream.Pending()| < 58 || |stream.Pending()| >= 60
    modifies stream, stream.buf
    ensures var s := old(stream.Pending());
            && stream.Valid() && (ok <==> |s| >= 60 && s[..4] == F.Magic())
            && (ok ==> h == F.ParseHeader(s) && stream.Pending() == s[60..])
  {
    h := F.Header(0, 0, 0, 0, 0);
    ghost var s := stream.Pending();
    ok := stream.Prepare(58);
    if !ok {
      return;
    }
    var head := stream.Skip(60);
    if head[..4] != F.Magic() {
      assert s[..4] == head[..4];
      return false, h;
    }
    assert s[..4] == head[..4];
    assert s[44..46] == head[44..46] && s[46..48] == head[46..48] && s[48..52] == head[48..52];
    assert s[52..56] == head[52..56] && s[56..60] == head[56..60];
    h := F.ParseHeader(head);
  }

  /** std::lower_bound */
  method LowerBound(s: seq<nat>, x: nat) returns (p: nat)
    requires Ascending(s)
    ensures p <= |s|
    ensures forall i :: 0 <= i < p ==> s[i] < x
    ensures forall i :: p <= i < |s| ==> x <= s[i]
  {
    p := 0;
    var count := |s|;
    while count > 0
      invariant count >= 0 && p + count <= |s|
      invariant forall i :: 0 <= i < p ==> s[i] < x
      invariant forall i :: p + count <= i < |s| ==> x <= s[i]
    {
      var step := count / 2;
      if s[p + step] < x {
        p := p + step + 1;
        count := count - step - 1;
      } else {
        count := step;
      }
    }
  }

  class FontData {
    var maxHeight: nat
    var baseline: nat
    var unknown: FontCharView
    // the glyphs of the code points in a row, then those of the others
    var items: seq<FontCharView>
    var nbContiguous: nat
    var unicodeValues: seq<nat>
    var data: array<byte>

    ghost predicate Valid()
      reads this, data
    {
      && AllBelow(items, data.Length) && Below(unknown, data.Length)
      && |items| == nbContiguous + |unicodeValues|
      && Ascending(unicodeValues)
    }

    ghost function State(): F.Loaded
      requires Valid()
      reads this, data
    {
      F.Loaded(maxHeight, baseline, ItemAt(unknown, data[..]), ItemsAt(items[..nbContiguous], data[..]),
               Randoms(unicodeValues, items[nbContiguous..], data[..]))
    }

    constructor ()
      ensures Valid() && State() == F.Default() && fresh(data)
    {
      maxHeight, baseline, unknown := 11, 5, DefaultUnknown();
      items, nbContiguous, unicodeValues := [], 0, [];
      data := new byte[0];
    }

    ghost predicate StateIs(l: F.Loaded)
      reads this, data
    {
      && Valid()
      && maxHeight == l.maxHeight && baseline == l.baseline && ItemAt(unknown, data[..]) == l.unknown
      && ItemsAt(items[..nbContiguous], data[..]) == l.contiguous
      && Randoms(unicodeValues, items[nbContiguous..], data[..]) == l.random
    }

    /** The part of the constructor after the header. */
    method ReadGlyphs(h: F.Header, stream: Stream)
      requires Valid() && stream.Valid() && h.count > 0
      requires items == [] && nbContiguous == 0 && unicodeValues == [] && unknown == DefaultUnknown()
      modifies this, stream, stream.buf
      ensures StateIs(F.LoadGlyphs(h, old(stream.Pending()), old(State())))
    {
      ghost var l := State();
      var loader := new Loader(stream, h.total);
      var ok, view := loader.ExtractSlot(DefaultUnknown());
      if ok {
        var slots, unis, entries, l' := loader.ExtractOthers(h, view, l);
        Adopt(loader.data, view, slots, unis, entries, l, l');
      }
    }

    method Adopt(glyphs: array<byte>, view: FontCharView, slots: seq<FontCharView>, unis: seq<nat>,
                 entries: seq<FontCharView>, ghost l: F.Loaded, ghost l': F.Loaded)
      requires Below(view, glyphs.Length) && AllBelow(slots, glyphs.Length) && AllBelow(entries, glyphs.Length)
      requires |unis| == |entries| && Ascending(unis) && maxHeight == l.maxHeight && baseline == l.baseline
      requires Shows(l', l, ItemAt(view, glyphs[..]), ItemsAt(slots, glyphs[..]), Randoms(unis, entries, glyphs[..]))
      modifies this
      ensures StateIs(l')
    {
      data, unknown := glyphs, view;
      items, nbContiguous, unicodeValues := slots + entries, |slots|, unis;
      assert items[..nbContiguous] == slots && items[nbContiguous..] == entries;
    }

    /** FontData::FontData on an open file. */
    constructor Load(file: seq<byte>)
      requires |file| < 58 || |file| >= 60
      ensures StateIs(F.Load(file))
    {
      maxHeight, baseline, unknown := 11, 5, DefaultUnknown();
      items, nbContiguous, unicodeValues := [], 0, [];
      data := new byte[0];
      new;
      var stream := new Stream(file);
      var ok, h := ReadHeader(stream);
      if ok {
        baseline := h.ascent;
        maxHeight := F.MaxHeight(h.ascent, h.descent);
        if h.total <= F.MAX_DATA && h.count != 0 {
          ReadGlyphs(h, stream);
        }
      }
    }

    /** Font::item: the binary search finds what looking at every glyph would. */
    method Item(unicode: nat) returns (view: FontCharView, isValid: bool)
      requires Valid()
      ensures Below(view, data.Length) && (ItemAt(view, data[..]), isValid) == F.Find(State(), unicode)
    {
      if unicode < 32 {
        return unknown, false;
      }
      if unicode - 32 < nbContiguous {
        return items[unicode - 32], true;
      }
      var p := LowerBound(unicodeValues, unicode);
      ghost var randoms := items[nbContiguous..];
      FindAt(unicodeValues, randoms, data[..], unicode, p);
      if p < |unicodeValues| && unicodeValues[p] == unicode {
        assert items[nbContiguous + p] == randoms[p];
        return items[nbContiguous + p], true;
      }
      return unknown, false;
    }
  }

  lemma {:induction false} FindAt(unis: seq<nat>, vs: seq<FontCharView>, data: seq<byte>, unicode: nat, p: nat)
    requires AllBelow(vs, |data|) && |unis| == |vs| && p <= |unis|
    requires forall i :: 0 <= i < p ==> unis[i] < unicode
    requires forall i :: p <= i < |unis| ==> unicode <= unis[i]
    requires Ascending(unis)
    ensures F.LinearFind(Randoms(unis, vs, data), unicode)
            == if p < |unis| && unis[p] == unicode then Some(ItemAt(vs[p], data)) else None
    decreases |unis|
  {
    var r := Randoms(unis, vs, data);
    if unis != [] && !(p == 0 && unis[0] == unicode) {
      assert r[1..] == Randoms(unis[1..], vs[1..], data);
      FindAt(unis[1..], vs[1..], data, unicode, if p == 0 then 0 else p - 1);
    }
  }

  predicate AscendingUpTo(s: seq<nat>, last: nat) {
    Ascending(s) && forall i :: 0 <= i < |s| ==> s[i] <= last
  }

  lemma AscendingPush(s: seq<nat>, last: nat, x: nat)
    requires AscendingUpTo(s, last) && last < x
    ensures AscendingUpTo(s + [x], x)
  {
  }

  predicate Ascending(s: seq<nat>) {
    forall i, j :: 0 <= i < j < |s| ==> s[i] < s[j]
  }
}
