/** Cutting an embedded image into chunks: OutChunkedBufferingTransport. */
module WrmImage {
  import opened Bytes
  import opened WrmFormat

  /** The chunks of an image of which nothing has been sent yet: full PARTIAL chunks, then a LAST
      chunk with what remains, which is never empty. */
  function ImageChunks(data: seq<byte>, max: nat): seq<Chunk>
    requires max > 0
    decreases |data|
  {
    if data == [] then []
    else if |data| <= max then [Chunk(LAST_IMAGE_CHUNK, 1, data)]
    else [Chunk(PARTIAL_IMAGE_CHUNK, 1, data[..max])] + ImageChunks(data[max..], max)
  }

  function Payloads(cs: seq<Chunk>): seq<byte> {
    if cs == [] then [] else cs[0].payload + Payloads(cs[1..])
  }

  lemma {:induction false} PayloadsAppend(xs: seq<Chunk>, ys: seq<Chunk>)
    ensures Payloads(xs + ys) == Payloads(xs) + Payloads(ys)
  {
    if xs == [] {
      assert xs + ys == ys;
    } else {
      assert (xs + ys)[1..] == xs[1..] + ys;
      PayloadsAppend(xs[1..], ys);
    }
  }

  /** The shape of a chunked image: the payloads are the image, every chunk but the last is a
      PARTIAL chunk of exactly max bytes, and the last one is a non-empty LAST chunk. */
  predicate ChunkedImage(cs: seq<Chunk>, data: seq<byte>, max: nat) {
    && Payloads(cs) == data
    && (data == [] <==> cs == [])
    && (forall i :: 0 <= i < |cs| - 1 ==> cs[i].kind == PARTIAL_IMAGE_CHUNK && |cs[i].payload| == max)
    && (cs != [] ==> var last := cs[|cs| - 1];
                     last.kind == LAST_IMAGE_CHUNK && 0 < |last.payload| <= max)
  }

  lemma {:induction false} ImageChunksShape(data: seq<byte>, max: nat)
    requires 0 < max <= MAX_CHUNK_SIZE - WRM_HEADER_SIZE
    ensures ChunkedImage(ImageChunks(data, max), data, max)
    ensures forall c | c in ImageChunks(data, max) :: WellFormed(c) && IsImage(c.kind) && c.count == 1
    decreases |data|
  {
    if data == [] {
    } else if |data| <= max {
      assert [Chunk(LAST_IMAGE_CHUNK, 1, data)][1..] == [];
    } else {
      var rest := ImageChunks(data[max..], max);
      ImageChunksShape(data[max..], max);
      assert ImageChunks(data, max)[1..] == rest;
      assert data[..max] + data[max..] == data;
    }
  }

  /** The shape determines the chunks: there is one way to cut an image. */
  lemma {:induction false} ChunkedImageUnique(cs: seq<Chunk>, data: seq<byte>, max: nat)
    requires max > 0 && ChunkedImage(cs, data, max) && forall c | c in cs :: c.count == 1
    ensures cs == ImageChunks(data, max)
    decreases |cs|
  {
    if cs != [] {
      assert cs[0] in cs;
      if |cs| == 1 {
        assert cs[1..] == [];
        assert Payloads(cs[1..]) == [];
        assert cs[0].payload + [] == data;
        assert cs[0].payload == data;
        assert cs[0] == cs[|cs| - 1] == Chunk(LAST_IMAGE_CHUNK, 1, data);
        assert cs == [cs[0]];
      } else {
        var rest := cs[1..];
        assert data[..max] == cs[0].payload;
        assert data[max..] == Payloads(rest);
        NonEmptyPayloads(rest);
        assert rest[|rest| - 1] == cs[|cs| - 1];
        ChunkedImageUnique(rest, data[max..], max);
      }
    }
  }

  lemma NonEmptyPayloads(cs: seq<Chunk>)
    requires cs != [] && |cs[|cs| - 1].payload| > 0
    ensures Payloads(cs) != []
    decreases |cs|
  {
    if |cs| > 1 {
      NonEmptyPayloads(cs[1..]);
    }
  }

  ghost predicate Partials(cs: seq<Chunk>, max: nat) {
    forall c | c in cs :: c.kind == PARTIAL_IMAGE_CHUNK && |c.payload| == max && c.count == 1
  }

  /** What has been sent of an image and what is still buffered, after sending data. */
  ghost predicate Sending(sent: seq<Chunk>, buffered: seq<byte>, data: seq<byte>, max: nat) {
    && |buffered| <= max
    && (sent != [] ==> buffered != [])
    && Payloads(sent) + buffered == data
    && Partials(sent, max)
  }

  lemma SentThenFlushed(sent: seq<Chunk>, buffered: seq<byte>, data: seq<byte>, max: nat)
    requires max > 0 && Sending(sent, buffered, data, max)
    ensures sent + (if buffered == [] then [] else [Chunk(LAST_IMAGE_CHUNK, 1, buffered)])
            == ImageChunks(data, max)
  {
    var last := if buffered == [] then [] else [Chunk(LAST_IMAGE_CHUNK, 1, buffered)];
    var cs := sent + last;
    PayloadsAppend(sent, last);
    if buffered != [] {
      assert last[1..] == [];
    } else {
      assert cs == sent == [];
    }
    ChunkedImageUnique(cs, data, max);
  }

  /** The transport dump_png24 writes an image to. `out` is what reaches the underlying transport,
      one byte string per send. */
  class ImageTransport {
    const max: nat
    // StaticOutStream
    var stream: seq<byte>
    var out: seq<byte>
    // the chunks of the current image already in out, and the bytes sent since it began
    ghost var sent: seq<Chunk>
    ghost var data: seq<byte>
    ghost var before: seq<byte>

    constructor (size: nat, out: seq<byte>)
      requires 8 < size <= MAX_CHUNK_SIZE
      ensures Valid() && max == size - 8
      ensures this.out == out && data == [] && before == out
    {
      max := size - 8;
      stream := [];
      this.out := out;
      sent := [];
      data := [];
      before := out;
    }

    ghost predicate Valid()
      reads this
    {
      && 0 < max <= MAX_CHUNK_SIZE - WRM_HEADER_SIZE
      && Sending(sent, stream, data, max)
      && out == before + EncodeAll(sent)
    }

    method SendChunkHeader(kind: nat, size: nat)
      requires kind < TWO_16 && size < TWO_16
      modifies this`out
      ensures out == old(out) + Header(kind, size, 1)
    {
      out := out + Header(kind, size, 1);
    }

    /** The loop body of Send: a PARTIAL chunk with the buffered bytes and then part. */
    method SendFull(part: seq<byte>)
      requires |stream| + |part| == max < TWO_16
      modifies this`out, this`stream, this`sent
      ensures stream == []
      ensures sent == old(sent) + [Chunk(PARTIAL_IMAGE_CHUNK, 1, old(stream) + part)]
      ensures Payloads(sent) + stream == Payloads(old(sent)) + (old(stream) + part)
      ensures old(out) == before + EncodeAll(old(sent)) ==> out == before + EncodeAll(sent)
      ensures Partials(old(sent), max) ==> Partials(sent, max)
    {
      ghost var c := Chunk(PARTIAL_IMAGE_CHUNK, 1, stream + part);
      OneMore(before, sent, c);
      SendChunkHeader(PARTIAL_IMAGE_CHUNK, max);
      out := out + stream;
      out := out + part;
      assert out == old(out) + Header(c.kind, max, 1) + c.payload;
      sent := sent + [c];
      stream := [];
    }

    method Send(buffer: seq<byte>)
      requires Valid()
      modifies this
      ensures Valid() && before == old(before)
      ensures data == old(data) + buffer
    {
      var toBufferLen := |buffer|;
      while |stream| + toBufferLen > max
        invariant 0 <= toBufferLen <= |buffer|
        invariant |stream| <= max && 0 < max <= MAX_CHUNK_SIZE - WRM_HEADER_SIZE
        invariant sent != [] ==> stream != [] || toBufferLen > 0
        invariant Payloads(sent) + stream == old(data) + buffer[..|buffer| - toBufferLen]
        invariant Partials(sent, max)
        invariant out == before + EncodeAll(sent) && before == old(before) && data == old(data)
        decreases toBufferLen + |stream|
      {
        var done := |buffer| - toBufferLen;
        var toSend := max - |stream|;
        var part := buffer[done..done + toSend];
        SentMore(Payloads(sent), stream, old(data), buffer, done, done + toSend);
        SendFull(part);
        toBufferLen := toBufferLen - toSend;
        assert done + toSend == |buffer| - toBufferLen;
      }
      var done := |buffer| - toBufferLen;
      SentMore(Payloads(sent), stream, old(data), buffer, done, |buffer|);
      assert buffer[done..] == buffer[done..|buffer|] && buffer[..|buffer|] == buffer;
      stream := stream + buffer[done..];
      data := data + buffer;
    }

    method Flush()
      requires Valid()
      modifies this
      ensures Valid() && stream == [] && data == []
      ensures out == old(before) + EncodeAll(ImageChunks(old(data), max)) && before == out
    {
      ghost var cs := ImageChunks(data, max);
      SentThenFlushed(sent, stream, data, max);
      if |stream| > 0 {
        ghost var c := Chunk(LAST_IMAGE_CHUNK, 1, stream);
        assert cs == sent + [c];
        OneMore(before, sent, c);
        SendChunkHeader(LAST_IMAGE_CHUNK, |stream|);
        out := out + stream;
        stream := [];
      } else {
        assert cs == sent;
      }
      assert out == before + EncodeAll(cs);
      sent, data, before := [], [], out;
    }
  }

  lemma SentMore(p: seq<byte>, stream: seq<byte>, data: seq<byte>, buffer: seq<byte>, i: nat, j: nat)
    requires i <= j <= |buffer| && p + stream == data + buffer[..i]
    ensures p + (stream + buffer[i..j]) == data + buffer[..j]
  {
    assert buffer[..j] == buffer[..i] + buffer[i..j];
    assert p + (stream + buffer[i..j]) == (p + stream) + buffer[i..j];
  }

  lemma OneMore(before: seq<byte>, sent: seq<Chunk>, c: Chunk)
    ensures before + EncodeAll(sent) + Header(c.kind, |c.payload|, c.count) + c.payload
            == before + EncodeAll(sent + [c])
    ensures Payloads(sent + [c]) == Payloads(sent) + c.payload
  {
    PayloadsAppend(sent, [c]);
    assert Payloads([c]) == c.payload + [];
    EncodeAllAppend(sent, [c]);
    assert [c][1..] == [];
    assert EncodeAll([c]) == Encode(c) + [];
  }
}
