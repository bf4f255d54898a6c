/** The buffer of a cropped video: it is patched when the cropping changes and copied over before
    each frame, yet always shows what a fresh crop would. */
module VideoCropper {
  import opened Bytes

  const BPP: nat := 3

  datatype Rect = Rect(x: nat, y: nat, cx: nat, cy: nat)

  /** The position of byte c of row r in an image of h rows. */
  function At(h: nat, rowSize: nat, r: nat, c: nat): (k: nat)
    requires r < h && c < rowSize
    ensures r * rowSize <= k < r * rowSize + rowSize <= h * rowSize
  {
    RowBefore(r, h, rowSize);
    r * rowSize + c
  }

  lemma RowBefore(r: nat, h: nat, rowSize: nat)
    requires r < h
    ensures r * rowSize + rowSize <= h * rowSize
  {
    assert (r + 1) * rowSize <= h * rowSize;
  }

  /** Row i of an image only holds bytes of row i. */
  lemma RowsApart(h: nat, rowSize: nat, i: nat)
    requires i < h
    ensures forall r, c :: 0 <= r < i && 0 <= c < rowSize ==> At(h, rowSize, r, c) < i * rowSize
    ensures forall r, c :: i < r < h && 0 <= c < rowSize ==> At(h, rowSize, r, c) >= i * rowSize + rowSize
  {
    forall r, c | 0 <= r < i && 0 <= c < rowSize ensures At(h, rowSize, r, c) < i * rowSize {
      RowBefore(r, i, rowSize);
    }
    forall r, c | i < r < h && 0 <= c < rowSize ensures At(h, rowSize, r, c) >= i * rowSize + rowSize {
      RowBefore(i, r, rowSize);
    }
  }

  class Drawable {
    const width: nat
    const height: nat
    const data: array<byte>

    predicate Valid() {
      data.Length == height * (width * BPP)
    }

    constructor (w: nat, h: nat)
      ensures Valid() && width == w && height == h && fresh(data)
    {
      width, height := w, h;
      data := new byte[h * (w * BPP)](_ => 0);
    }
  }

  predicate Inside(crop: Rect, width: nat, height: nat) {
    crop.x + crop.cx <= width && crop.y + crop.cy <= height
  }

  method Memset(a: array<byte>, p: nat, n: nat)
    requires p + n <= a.Length
    modifies a
    ensures forall k :: p <= k < p + n ==> a[k] == 0
    ensures forall k :: 0 <= k < a.Length && !(p <= k < p + n) ==> a[k] == old(a[k])
  {
    for i := 0 to n
      invariant forall k :: p <= k < p + i ==> a[k] == 0
      invariant forall k :: 0 <= k < a.Length && !(p <= k < p + i) ==> a[k] == old(a[k])
    {
      a[p + i] := 0;
    }
  }

  method Memcpy(a: array<byte>, p: nat, src: array<byte>, q: nat, n: nat)
    requires a != src && p + n <= a.Length && q + n <= src.Length
    modifies a
    ensures forall k :: p <= k < p + n ==> a[k] == src[q + k - p]
    ensures forall k :: 0 <= k < a.Length && !(p <= k < p + n) ==> a[k] == old(a[k])
  {
    for i := 0 to n
      invariant forall k :: p <= k < p + i ==> a[k] == src[q + k - p]
      invariant forall k :: 0 <= k < a.Length && !(p <= k < p + i) ==> a[k] == old(a[k])
    {
      a[p + i] := src[q + i];
    }
  }

  class VideoCropper {
    const drawable: Drawable
    const w: nat
    const h: nat
    const isFullscreen: bool
    // stands for the null pointer when the whole screen is recorded
    const out: array<byte>
    var crop: Rect

    ghost predicate Sized() {
      && drawable.Valid()
      && out != drawable.data
      && (!isFullscreen ==>
            && h * (w * BPP) <= out.Length == drawable.height * (drawable.width * BPP))
    }

    ghost predicate Valid()
      reads this, out
    {
      && Sized()
      && crop.cx <= w && crop.cy <= h && Inside(crop, drawable.width, drawable.height)
      && (isFullscreen ==> w == drawable.width && h == drawable.height)
      && (!isFullscreen ==> BlankOutside(crop.cx, crop.cy))
    }

    /** Nothing is visible outside the first cx columns of the first cy rows. */
    ghost predicate BlankOutside(cx: nat, cy: nat)
      requires Sized() && !isFullscreen
      reads out
    {
      && (forall r, c :: 0 <= r < h && 0 <= c < w * BPP && (r >= cy || c >= cx * BPP) ==>
            out[At(h, w * BPP, r, c)] == 0)
      && BlankTail()
    }

    ghost predicate BlankTail()
      requires Sized() && !isFullscreen
      reads out
    {
      forall k :: h * (w * BPP) <= k < out.Length ==> out[k] == 0
    }

    /** The current crop of the drawable is in the top left corner. */
    ghost predicate ShowsCrop()
      requires Valid() && !isFullscreen
      reads this, out, drawable.data
    {
      forall r :: 0 <= r < crop.cy ==> ShowsRow(r)
    }

    constructor (d: Drawable, cropRect: Rect)
      requires d.Valid() && Inside(cropRect, d.width, d.height)
      ensures Valid() && drawable == d && crop == cropRect && w == cropRect.cx && h == cropRect.cy
      ensures isFullscreen <==> (d.width == cropRect.cx && d.height == cropRect.cy)
      ensures fresh(out)
    {
      drawable := d;
      crop := cropRect;
      w, h := cropRect.cx, cropRect.cy;
      isFullscreen := d.width == cropRect.cx && d.height == cropRect.cy;
      if d.width == cropRect.cx && d.height == cropRect.cy {
        out := new byte[0];
      } else {
        out := new byte[d.height * (d.width * BPP)](_ => 0);
      }
      new;
      SizesGrow(w, h, d.width, d.height);
    }

    method ClearColumns(cx: nat, cy: nat)
      requires Sized() && !isFullscreen && cx <= w && cy <= h
      modifies out
      ensures forall k :: 0 <= k < out.Length && old(out[k]) == 0 ==> out[k] == 0
      ensures forall r, c :: 0 <= r < cy && cx * BPP <= c < w * BPP ==> out[At(h, w * BPP, r, c)] == 0
      ensures forall r, c :: 0 <= r < h && 0 <= c < cx * BPP ==>
                               out[At(h, w * BPP, r, c)] == old(out[At(h, w * BPP, r, c)])
    {
      var p := cx * BPP;
      var rowSize := w * BPP;
      for i := 0 to cy
        invariant p == i * rowSize + cx * BPP
        invariant forall k :: 0 <= k < out.Length && old(out[k]) == 0 ==> out[k] == 0
        invariant forall r, c :: 0 <= r < i && cx * BPP <= c < rowSize ==> out[At(h, rowSize, r, c)] == 0
        invariant forall r, c :: 0 <= r < h && 0 <= c < cx * BPP ==>
                                   out[At(h, rowSize, r, c)] == old(out[At(h, rowSize, r, c)])
      {
        RowBefore(i, h, rowSize);
        RowsApart(h, rowSize, i);
        Memset(out, p, (w - cx) * BPP);
        p := p + rowSize;
        NextRow(i, rowSize);
      }
    }

    method ClearRows(cy: nat)
      requires Sized() && !isFullscreen && cy <= h
      modifies out
      ensures forall k :: 0 <= k < out.Length && old(out[k]) == 0 ==> out[k] == 0
      ensures forall r, c :: cy <= r < h && 0 <= c < w * BPP ==> out[At(h, w * BPP, r, c)] == 0
      ensures forall r, c :: 0 <= r < cy && 0 <= c < w * BPP ==>
                               out[At(h, w * BPP, r, c)] == old(out[At(h, w * BPP, r, c)])
    {
      var rowSize := w * BPP;
      var p := rowSize * cy;
      for i := cy to h
        invariant p == i * rowSize
        invariant forall k :: 0 <= k < out.Length && old(out[k]) == 0 ==> out[k] == 0
        invariant forall r, c :: cy <= r < i && 0 <= c < rowSize ==> out[At(h, rowSize, r, c)] == 0
        invariant forall r, c :: 0 <= r < cy && 0 <= c < rowSize ==>
                                   out[At(h, rowSize, r, c)] == old(out[At(h, rowSize, r, c)])
      {
        RowBefore(i, h, rowSize);
        RowsApart(h, rowSize, i);
        Memset(out, p, rowSize);
        p := p + rowSize;
        NextRow(i, rowSize);
      }
    }

    /** Only the margins that the new cropping uncovers are cleared; the inside is left alone. */
    method SetCropping(cropping: Rect)
      requires Valid() && cropping.cx <= w && cropping.cy <= h
      requires Inside(cropping, drawable.width, drawable.height)
      modifies this`crop, out
      ensures Valid()
      ensures isFullscreen ==> crop == old(crop)
      ensures !isFullscreen ==> crop == cropping
      ensures !isFullscreen ==> forall r, c :: 0 <= r < cropping.cy && 0 <= c < cropping.cx * BPP ==>
                                                 out[At(h, w * BPP, r, c)] == old(out[At(h, w * BPP, r, c)])
    {
      if isFullscreen {
        return;
      }
      if cropping.cx != crop.cx {
        ClearColumns(cropping.cx, cropping.cy);
      }
      if cropping.cx != crop.cx || cropping.cy != crop.cy {
        ClearRows(cropping.cy);
      }
      crop := cropping;
    }

    /** Row i of the crop is in place. */
    ghost predicate ShowsRow(i: nat)
      requires Valid() && !isFullscreen && i < crop.cy
      reads this, out, drawable.data
    {
      forall c :: 0 <= c < crop.cx * BPP ==>
        out[At(h, w * BPP, i, c)]
        == drawable.data[At(drawable.height, drawable.width * BPP, crop.y + i, crop.x * BPP + c)]
    }

    method CopyRow(i: nat, p: nat, q: nat)
      requires Valid() && !isFullscreen && i < crop.cy
      requires p == i * (w * BPP) && q == (crop.y + i) * (drawable.width * BPP) + crop.x * BPP
      modifies out
      ensures Valid() && ShowsRow(i)
      ensures forall r :: 0 <= r < i && old(ShowsRow(r)) ==> ShowsRow(r)
    {
      RowBefore(i, h, w * BPP);
      RowBefore(crop.y + i, drawable.height, drawable.width * BPP);
      RowsApart(h, w * BPP, i);
      Memcpy(out, p, drawable.data, q, crop.cx * BPP);
      assert BlankTail();
    }

    /** Copies the crop of the drawable. */
    method PrepareImageFrame()
      requires Valid()
      modifies out
      ensures Valid() && (!isFullscreen ==> ShowsCrop())
    {
      if isFullscreen {
        return;
      }
      var rowSize, inRowSize := w * BPP, drawable.width * BPP;
      var p := 0;
      var q := crop.y * inRowSize + crop.x * BPP;
      for i := 0 to crop.cy
        invariant p == i * rowSize && q == (crop.y + i) * inRowSize + crop.x * BPP
        invariant Valid() && forall r :: 0 <= r < i ==> ShowsRow(r)
      {
        CopyRow(i, p, q);
        p := p + rowSize;
        q := q + inRowSize;
        NextRow(i, rowSize);
        NextRow(crop.y + i, inRowSize);
      }
    }
  }

  lemma NextRow(i: nat, rowSize: nat)
    ensures (i + 1) * rowSize == i * rowSize + rowSize
  {
  }

  /** Every byte of the first h rows has a row and a column. */
  lemma Place(h: nat, rowSize: nat, k: nat) returns (r: nat, c: nat)
    requires k < h * rowSize
    ensures r < h && c < rowSize && k == At(h, rowSize, r, c)
  {
    assert rowSize > 0;
    r, c := k / rowSize, k % rowSize;
    assert k == r * rowSize + c;
    assert r >= h ==> r * rowSize >= h * rowSize;
  }

  /** What the buffer holds after a frame is prepared is a function of the drawable and of the
      current cropping alone: nothing is left of what was recorded before. */
  lemma OneImage(a: VideoCropper, b: VideoCropper)
    requires a.Valid() && b.Valid() && !a.isFullscreen && !b.isFullscreen
    requires a.drawable == b.drawable && a.w == b.w && a.h == b.h && a.crop == b.crop
    requires a.ShowsCrop() && b.ShowsCrop()
    ensures a.out[..] == b.out[..]
  {
    forall k | 0 <= k < a.out.Length ensures a.out[k] == b.out[k] {
      if k < a.h * (a.w * BPP) {
        var r, c := Place(a.h, a.w * BPP, k);
        if r < a.crop.cy {
          assert a.ShowsRow(r) && b.ShowsRow(r);
        }
      }
    }
  }

  datatype Operation = SetCropping(cropping: Rect) | Prepare | Draw(at: nat, color: byte)

  predicate Possible(op: Operation, first: Rect, d: Drawable) {
    match op
    case SetCropping(r) => r.cx <= first.cx && r.cy <= first.cy && Inside(r, d.width, d.height)
    case Prepare => true
    case Draw(at, _) => at < d.data.Length
  }

  method Run(a: VideoCropper, first: Rect, ops: seq<Operation>)
    requires a.Valid() && a.w == first.cx && a.h == first.cy
    requires forall op :: op in ops ==> Possible(op, first, a.drawable)
    modifies a, a.out, a.drawable.data
    ensures a.Valid()
  {
    for i := 0 to |ops|
      invariant a.Valid()
    {
      assert Possible(ops[i], first, a.drawable);
      match ops[i]
      case SetCropping(r) =>
        a.SetCropping(r);
      case Prepare =>
        a.PrepareImageFrame();
      case Draw(at, color) =>
        a.drawable.data[at] := color;
    }
  }

  /** However the cropping and the drawing went before, a frame is the one that a recorder which only
      ever saw the last cropping would record. */
  method LastCroppingDecides(d: Drawable, first: Rect, ops: seq<Operation>, last: Rect)
    returns (a: VideoCropper, b: VideoCropper)
    requires d.Valid() && Inside(first, d.width, d.height) && (first.cx != d.width || first.cy != d.height)
    requires forall op :: op in ops ==> Possible(op, first, d)
    requires Possible(SetCropping(last), first, d)
    modifies d.data
    ensures a.Valid() && b.Valid() && !a.isFullscreen && a.drawable == d && a.crop == last && a.ShowsCrop()
    ensures a.out != b.out && a.out[..] == b.out[..]
  {
    a := new VideoCropper(d, first);
    Run(a, first, ops);
    a.SetCropping(last);
    a.PrepareImageFrame();
    b := new VideoCropper(d, first);
    b.SetCropping(last);
    b.PrepareImageFrame();
    OneImage(a, b);
  }

  lemma SizesGrow(w: nat, h: nat, width: nat, height: nat)
    requires w <= width && h <= height
    ensures h * (w * BPP) <= height * (width * BPP)
  {
    assert h * (w * BPP) <= height * (w * BPP);
    assert height * (w * BPP) <= height * (width * BPP);
  }
}
