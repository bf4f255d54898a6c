/** The pixels of a glyph as the font generator packs them: rows of bits, most significant first, each
    row padded to whole bytes. */
module FontGlyph {
  import opened Bytes

  function NbBytes(x: nat): nat { (x + 7) / 8 }

  function Align4(x: nat): (r: nat)
    ensures x <= r < x + 4 && r % 4 == 0
  {
    if x % 4 == 0 then x else x + 4 - x % 4
  }

  function CountBitPadding(cx: nat): nat { (8 - cx % 8) % 8 }

  function Pow2(n: nat): nat {
    if n == 0 then 1 else 2 * Pow2(n - 1)
  }

  /** The number that bits pushed in from the right make. */
  function Value(bits: seq<bool>): (v: nat)
    ensures v < Pow2(|bits|)
  {
    if bits == [] then 0
    else 2 * Value(bits[..|bits| - 1]) + if bits[|bits| - 1] then 1 else 0
  }

  /** Bit i of n, counted from the most significant one. */
  predicate Bit(v: nat, n: nat, i: nat)
    requires i < n
    decreases n
  {
    if i == n - 1 then v % 2 == 1 else Bit(v / 2, n - 1, i)
  }

  lemma {:induction false} BitOfValue(bits: seq<bool>, i: nat)
    requires i < |bits|
    ensures Bit(Value(bits), |bits|, i) == bits[i]
    decreases |bits|
  {
    var (front, v) := (bits[..|bits| - 1], Value(bits));
    assert v / 2 == Value(front) && (v % 2 == 1 <==> bits[|bits| - 1]);
    if i < |bits| - 1 {
      BitOfValue(front, i);
      assert Bit(v, |bits|, i) == Bit(v / 2, |front|, i);
    }
  }

  function Zeros(n: nat): (r: seq<bool>)
    ensures |r| == n
  {
    seq(n, _ => false)
  }

  /** v << n */
  function Shifted(v: nat, n: nat): nat {
    if n == 0 then v else 2 * Shifted(v, n - 1)
  }

  lemma {:induction false} ValueShifted(bits: seq<bool>, n: nat)
    ensures Value(bits + Zeros(n)) == Shifted(Value(bits), n)
    decreases n
  {
    if n == 0 {
      assert bits + Zeros(0) == bits;
    } else {
      ValueShifted(bits, n - 1);
      var t := bits + Zeros(n);
      assert t[..|t| - 1] == bits + Zeros(n - 1) && !t[|t| - 1];
    }
  }

  lemma Pow2Of8()
    ensures Pow2(8) == 256
  {
    assert Pow2(4) == 16;
  }

  /** The first eight bits of a row, padded. */
  function First8(row: seq<bool>): (r: seq<bool>)
    ensures |r| == 8
  {
    seq(8, i => 0 <= i < |row| && row[i])
  }

  function PackRow(row: seq<bool>): (r: seq<byte>)
    ensures |r| == NbBytes(|row|)
  {
    Pow2Of8();
    if row == [] then []
    else if |row| <= 8 then [Value(First8(row))]
    else [Value(First8(row))] + PackRow(row[8..])
  }

  function PackRows(rows: seq<seq<bool>>): seq<byte> {
    if rows == [] then [] else PackRow(rows[0]) + PackRows(rows[1..])
  }

  /** The pixel of a packed row, as the mask 128 >> c % 8 finds it. */
  predicate RowPixel(row: seq<byte>, c: nat)
    requires c / 8 < |row|
  {
    Bit(row[c / 8], 8, c % 8)
  }

  lemma {:induction false} PackedRow(row: seq<bool>, c: nat)
    requires c < |row|
    ensures RowPixel(PackRow(row), c) == row[c]
    decreases |row|
  {
    if c < 8 {
      BitOfValue(First8(row), c);
    } else {
      PackedRow(row[8..], c - 8);
      assert (c - 8) / 8 == c / 8 - 1 && (c - 8) % 8 == c % 8;
    }
  }

  predicate Rectangle(rows: seq<seq<bool>>, cx: nat) {
    forall r :: 0 <= r < |rows| ==> |rows[r]| == cx
  }

  lemma {:induction false} PackedRows(rows: seq<seq<bool>>, cx: nat)
    requires Rectangle(rows, cx)
    ensures |PackRows(rows)| == NbBytes(cx) * |rows|
    decreases |rows|
  {
    if rows != [] {
      PackedRows(rows[1..], cx);
      OneMore(NbBytes(cx), |rows| - 1);
    }
  }

  lemma OneMore(n: nat, k: nat)
    ensures n * (k + 1) == n * k + n
  {
  }

  lemma {:induction false} RowsApart(rows: seq<seq<bool>>, cx: nat, r: nat)
    requires Rectangle(rows, cx) && r < |rows|
    ensures var n := NbBytes(cx);
            0 <= n * r <= n * r + n <= |PackRows(rows)| && PackRows(rows)[n * r..n * r + n] == PackRow(rows[r])
    decreases r
  {
    var n := NbBytes(cx);
    PackedRows(rows, cx);
    if r == 0 {
      assert n * 0 == 0;
    } else {
      RowsApart(rows[1..], cx, r - 1);
      assert n * r == n * (r - 1) + n;
      assert PackRows(rows)[n * r..n * r + n] == PackRows(rows[1..])[n * (r - 1)..n * (r - 1) + n];
    }
  }

  /** The pixel at row r and column c of packed data. */
  predicate Pixel(data: seq<byte>, cx: nat, r: nat, c: nat)
    requires c < cx && NbBytes(cx) * r + NbBytes(cx) <= |data|
  {
    Bit(data[NbBytes(cx) * r + c / 8], 8, c % 8)
  }

  /** Packing loses no pixel. */
  lemma PackedPixel(rows: seq<seq<bool>>, cx: nat, r: nat, c: nat)
    requires Rectangle(rows, cx) && r < |rows| && c < cx
    ensures NbBytes(cx) * r + NbBytes(cx) <= |PackRows(rows)|
    ensures Pixel(PackRows(rows), cx, r, c) == rows[r][c]
  {
    var n := NbBytes(cx);
    RowsApart(rows, cx, r);
    PackedRow(rows[r], c);
    assert PackRows(rows)[n * r..n * r + n][c / 8] == PackRows(rows)[n * r + c / 8];
  }

  /** The rows of the pixels in a bitmap of cx columns; 255 is ink. */
  function Row(pixels: seq<byte>, cx: nat, r: nat): (row: seq<bool>)
    requires r * cx + cx <= |pixels|
    ensures |row| == cx
  {
    seq(cx, c requires 0 <= c < cx => pixels[r * cx + c] == 255)
  }

  function Rows(pixels: seq<byte>, cx: nat, cy: nat): (rows: seq<seq<bool>>)
    requires cy * cx <= |pixels|
    ensures |rows| == cy && Rectangle(rows, cx)
    ensures forall r :: 0 <= r < cy ==> r * cx + cx <= |pixels| && rows[r] == Row(pixels, cx, r)
  {
    if cy == 0 then []
    else
      assert (cy - 1) * cx + cx == cy * cx;
      Rows(pixels, cx, cy - 1) + [Row(pixels, cx, cy - 1)]
  }

  /** A packed pixel is set exactly when the bitmap has ink there. */
  lemma RenderedPixel(pixels: seq<byte>, cx: nat, cy: nat, r: nat, c: nat)
    requires cy * cx <= |pixels| && r < cy && c < cx
    ensures 0 <= r * cx <= r * cx + c < |pixels|
    ensures NbBytes(cx) * r + NbBytes(cx) <= |PackRows(Rows(pixels, cx, cy))|
    ensures Pixel(PackRows(Rows(pixels, cx, cy)), cx, r, c) <==> pixels[r * cx + c] == 255
  {
    var rows := Rows(pixels, cx, cy);
    RowInside(cx, cy, r);
    PackedPixel(rows, cx, r, c);
    assert rows[r] == Row(pixels, cx, r);
  }

  lemma {:induction false} PackRowsAppend(rows: seq<seq<bool>>, row: seq<bool>)
    ensures PackRows(rows + [row]) == PackRows(rows) + PackRow(row)
    decreases |rows|
  {
    if rows == [] {
      assert [row][1..] == [];
      assert PackRow(row) + [] == PackRow(row) && [] + PackRow(row) == PackRow(row) && rows + [row] == [row];
    } else {
      assert (rows + [row])[1..] == rows[1..] + [row];
      PackRowsAppend(rows[1..], row);
    }
  }

  lemma {:induction false} PackRowAppend(head: seq<bool>, tail: seq<bool>)
    requires |head| % 8 == 0
    ensures PackRow(head + tail) == PackRow(head) + PackRow(tail)
    decreases |head|
  {
    if head == [] {
      assert head + tail == tail && PackRow(head) + PackRow(tail) == PackRow(tail);
    } else {
      assert First8(head + tail) == First8(head);
      assert (head + tail)[8..] == head[8..] + tail;
      PackRowAppend(head[8..], tail);
      PackRow8(head + tail);
      PackRow8(head);
    }
  }

  lemma PackRow8(row: seq<bool>)
    requires |row| >= 8
    ensures PackRow(row) == [Value(First8(row)) as byte] + PackRow(row[8..])
  {
    Pow2Of8();
  }

  /** serialize_glyph: eight pixels to a byte, and what is left of a row shifted to the top. */
  method SerializeGlyph(cx: nat, cy: nat, pixels: seq<byte>) returns (data: seq<byte>)
    requires cy * cx <= |pixels|
    ensures data == PackRows(Rows(pixels, cx, cy))
  {
    data := [];
    for r := 0 to cy
      invariant r * cx <= |pixels| && data == PackRows(Rows(pixels, cx, r))
    {
      RowInside(cx, cy, r);
      data := SerializeRow(cx, r * cx, pixels, data, Row(pixels, cx, r));
      PackRowsAppend(Rows(pixels, cx, r), Row(pixels, cx, r));
    }
  }

  lemma RowInside(cx: nat, cy: nat, r: nat)
    requires r < cy
    ensures 0 <= r * cx && (r + 1) * cx == r * cx + cx <= cy * cx
  {
    assert (r + 1) * cx <= cy * cx;
  }

  method SerializeRow(cx: nat, base: nat, pixels: seq<byte>, before: seq<byte>, ghost row: seq<bool>)
    returns (data: seq<byte>)
    requires base + cx <= |pixels| && |row| == cx
    requires forall c :: 0 <= c < cx ==> row[c] == (pixels[base + c] == 255)
    ensures data == before + PackRow(row)
  {
    var b, counter;
    ghost var k;
    data, b, counter, k := SerializeBytes(cx, base, pixels, before, row);
    if counter != 0 {
      PaddingOf(cx, k, counter);
      var padding := CountBitPadding(cx);
      assert row[8 * k..] == row[8 * k..8 * k + 8 - padding];
      data := AppendByte(data, b, before, row, k, padding);
      assert row[..8 * k + 8 - padding] == row;
    } else {
      assert row[..8 * k] == row;
    }
  }

  /** The whole bytes of a row, and the bits that are left of it. */
  method SerializeBytes(cx: nat, base: nat, pixels: seq<byte>, before: seq<byte>, ghost row: seq<bool>)
    returns (data: seq<byte>, b: nat, counter: nat, ghost k: nat)
    requires base + cx <= |pixels| && |row| == cx
    requires forall c :: 0 <= c < cx ==> row[c] == (pixels[base + c] == 255)
    ensures cx == 8 * k + counter && counter < 8
    ensures b == Value(row[8 * k..]) && data == before + PackRow(row[..8 * k])
  {
    data := before;
    b, counter := 0, 0;
    ghost var start := 0;
    k := 0;
    for c := 0 to cx
      invariant start == 8 * k == c - counter && counter < 8
      invariant b == Value(row[start..c]) && data == before + PackRow(row[..start])
    {
      b := PushPixel(b, pixels[base + c], row, start, c);
      counter := counter + 1;
      if counter == 8 {
        data := AppendByte(data, b, before, row, k, 0);
        counter := 0;
        b := 0;
        k, start := k + 1, start + 8;
      }
    }
    assert row[start..cx] == row[start..];
  }

  method PushPixel(b: nat, pixel: byte, ghost row: seq<bool>, ghost start: nat, ghost c: nat) returns (b': nat)
    requires start <= c < |row| && row[c] == (pixel == 255) && b == Value(row[start..c])
    ensures b' == Value(row[start..c + 1])
  {
    PushBit(row, start, c);
    b' := 2 * b;
    if pixel == 255 {
      b' := b' + 1;
    }
  }

  lemma PaddingOf(cx: nat, k: nat, counter: nat)
    requires cx == 8 * k + counter && 0 < counter < 8
    ensures CountBitPadding(cx) == 8 - counter
  {
    assert cx % 8 == counter;
  }

  /** The byte of up to eight pixels from 8 * k on, shifted over the n pixels that are missing. */
  method AppendByte(data: seq<byte>, b: nat, ghost before: seq<byte>, ghost row: seq<bool>, ghost k: nat, n: nat)
    returns (data': seq<byte>)
    requires n < 8 && 8 * k + 8 - n <= |row| && (n > 0 ==> 8 * k + 8 - n == |row|)
    requires data == before + PackRow(row[..8 * k]) && b == Value(row[8 * k..8 * k + 8 - n])
    ensures data' == before + PackRow(row[..8 * k + 8 - n])
  {
    ghost var tail := row[8 * k..8 * k + 8 - n];
    PadByte(tail, n);
    PackRowAppend(row[..8 * k], tail);
    assert row[..8 * k + 8 - n] == row[..8 * k] + tail;
    data' := data + [Shifted(b, n)];
  }

  lemma PadByte(tail: seq<bool>, n: nat)
    requires tail != [] && |tail| + n == 8
    ensures Shifted(Value(tail), n) < 256 && PackRow(tail) == [Shifted(Value(tail), n) as byte]
  {
    Pow2Of8();
    assert First8(tail) == tail + Zeros(n);
    ValueShifted(tail, n);
  }

  lemma PushBit(row: seq<bool>, start: nat, c: nat)
    requires start <= c < |row|
    ensures Value(row[start..c + 1]) == 2 * Value(row[start..c]) + if row[c] then 1 else 0
  {
    var t := row[start..c + 1];
    assert t[..|t| - 1] == row[start..c] && t[|t| - 1] == row[c];
  }
}
