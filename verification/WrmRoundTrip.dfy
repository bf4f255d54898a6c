/** From the recorder's calls to the player's consumers, through the bytes of the files. */
module WrmRoundTrip {
  import opened Bytes
  import opened WrmFormat
  import opened WrmImage
  import opened WrmRecord
  import opened WrmSession
  import opened WrmSimulation
  import P = WrmPlayer
  import R = GraphicToFile
  import F = FileToGraphic

  predicate Plain(cs: seq<Chunk>) {
    forall i :: 0 <= i < |cs| ==> WellFormed(cs[i]) && !IsImage(cs[i].kind)
  }

  lemma ReadableAppend(xs: seq<Chunk>, ys: seq<Chunk>)
    requires F.Readable(xs) && F.Readable(ys)
    ensures F.Readable(xs + ys)
  {
    var cs := xs + ys;
    forall i | 0 <= i < |cs| && cs[i].kind == PARTIAL_IMAGE_CHUNK
      ensures i + 1 < |cs| && IsImage(cs[i + 1].kind)
    {
      if i < |xs| {
        assert cs[i] == xs[i];
        assert cs[i + 1] == xs[i + 1];
      } else {
        assert cs[i] == ys[i - |xs|];
        assert cs[i + 1] == ys[i - |xs| + 1];
      }
    }
  }

  lemma ImageReadable(data: seq<byte>)
    ensures F.Readable(ImageChunks(data, MAX_IMAGE_PART))
  {
    var cs := ImageChunks(data, MAX_IMAGE_PART);
    ImageChunksShape(data, MAX_IMAGE_PART);
    forall i | 0 <= i < |cs| ensures WellFormed(cs[i]) && IsImage(cs[i].kind) {
      assert cs[i] in cs;
    }
  }

  lemma DrawingsPlain(r: Rec)
    requires WrmRecord.Valid(r)
    ensures Plain(OrderChunks(r)) && Plain(BitmapChunks(r)) && Plain(FlushChunks(r))
  {
  }

  lemma ReportPlain(r: Rec, op: Op)
    requires WrmRecord.Valid(r) && Fits(r, op) && op.SessionUpdate?
    ensures Plain(Emitted(r, op))
  {
    MicrosRange(op.now - r.start);
    KeptKvsFit(op.kvs, UPDATE_BUFFER - UPDATE_FIXED);
    assert WellFormed(UpdateChunk(r, op.now, op.id, op.kvs));
    StepStaysValid(r, op);
    assert Plain(PendingInput(SetTimer(r, op.now)));
  }

  /** No operation writes a chunk that the player's buffer cannot hold or that its header cannot
      describe. */
  lemma EmittedPlain(r: Rec, op: Op)
    requires WrmRecord.Valid(r) && Fits(r, op)
    ensures Plain(Emitted(r, op))
  {
    DrawingsPlain(r);
    if op.SessionUpdate? {
      ReportPlain(r, op);
    }
  }

  lemma OpeningReadable(r: Rec, state: seq<byte>, png: seq<byte>, meta: seq<byte>)
    requires WrmRecord.Valid(r) && |state| <= SAVE_STATE_SIZE && |meta| <= META_SIZE
    ensures F.Readable(Opening(r, state, png, meta))
  {
    ImageReadable(png);
    ReadableAppend([Chunk(META_FILE, 1, meta), TimesChunk(r), TimestampChunk(r), Chunk(SAVE_STATE, 1, state)],
                   ImageChunks(png, MAX_IMAGE_PART));
  }

  lemma OpenReadable(now: int, realNow: int, source: map<nat, Cursor>, png: seq<byte>, meta: seq<byte>)
    requires 0 <= realNow && |meta| <= META_SIZE
    ensures F.Readable(Open(now, realNow, source, png, meta).out)
  {
    var r := Open(now, realNow, source, png, meta);
    ImageReadable(png);
    ReadableAppend([Chunk(META_FILE, 1, meta)], ImageChunks(png, MAX_IMAGE_PART));
    ReadableAppend([Chunk(META_FILE, 1, meta)] + ImageChunks(png, MAX_IMAGE_PART), [TimesChunk(r)]);
  }

  lemma {:induction false} RunReadable(r: Rec, ops: seq<Op>, codec: P.Codec)
    requires ValidFor(r, codec) && LegalRun(r, ops, codec) && F.Readable(AllChunks(r))
    ensures F.Readable(AllChunks(Run(r, ops, codec)))
    decreases |ops|
  {
    if ops != [] {
      StepReadable(r, ops[0], codec);
      RunReadable(Step(r, ops[0]), ops[1..], codec);
    }
  }

  lemma StepReadable(r: Rec, op: Op, codec: P.Codec)
    requires ValidFor(r, codec) && Legal(r, op, codec) && F.Readable(AllChunks(r))
    ensures ValidFor(Step(r, op), codec) && F.Readable(AllChunks(Step(r, op)))
  {
    FilesGrow(r, op, codec);
    EmittedPlain(r, op);
    ReadableAppend(AllChunks(r), Emitted(r, op));
    if op.Breakpoint? {
      StepSettles(r, op, codec);
      OpeningReadable(Settled(r, op), op.saveState, op.png, op.meta);
      ReadableAppend(AllChunks(r) + Emitted(r, op), Step(r, op).out);
    }
  }

  /** The files hold, one after the other, the encodings of all the chunks. */
  lemma {:induction false} FilesBytes(files: seq<seq<Chunk>>, out: seq<Chunk>)
    ensures Concat(R.EncodeFiles(files) + [EncodeAll(out)]) == EncodeAll(Flatten(files) + out)
  {
    ConcatOne(R.EncodeFiles(files), EncodeAll(out));
    ClosedBytes(files);
    EncodeAllAppend(Flatten(files), out);
  }

  lemma {:induction false} ClosedBytes(files: seq<seq<Chunk>>)
    ensures Concat(R.EncodeFiles(files)) == EncodeAll(Flatten(files))
  {
    if files != [] {
      var tail := R.EncodeFiles(files[1..]);
      assert ([EncodeAll(files[0])] + tail)[1..] == tail;
      ClosedBytes(files[1..]);
      EncodeAllAppend(files[0], Flatten(files[1..]));
    }
  }

  lemma SessionReadable(now: int, realNow: int, source: map<nat, Cursor>, png: seq<byte>, meta: seq<byte>,
                        ops: seq<Op>, codec: P.Codec)
    requires 0 <= realNow < TWO_63 && |meta| <= META_SIZE && ValidFor(Open(now, realNow, source, png, meta), codec)
    requires LegalRun(Open(now, realNow, source, png, meta), ops, codec)
    ensures F.Readable(AllChunks(Run(Open(now, realNow, source, png, meta), ops, codec)))
  {
    var r := Open(now, realNow, source, png, meta);
    assert AllChunks(r) == r.out;
    OpenReadable(now, realNow, source, png, meta);
    RunReadable(r, ops, codec);
  }

  /** Reading back the bytes that a recorder has written, from its creation and after any run of
      operations, gives the consumers of the player everything that was recorded since. */
  method Replay(g: R.GraphicToFile, ghost now: int, ghost realNow: int, ghost source: map<nat, Cursor>,
                ghost png: seq<byte>, ghost meta: seq<byte>, ghost ops: seq<Op>,
                relevant: set<nat>, codec: P.Codec)
    returns (p: P.Player, ok: bool)
    requires g.Valid() && 0 <= realNow < TWO_63 && |meta| <= META_SIZE
    requires forall i | i in source :: i < P.MAX_POINTER_COUNT && ValidCursor(source[i])
    requires LegalRun(Open(now, realNow, source, png, meta), ops, codec)
    requires g.rec == Run(Open(now, realNow, source, png, meta), ops, codec)
    ensures ok && Replayed(g.rec, p, Plus(NothingYet(), RunLog(Open(now, realNow, source, png, meta), ops, relevant, codec)))
  {
    SessionReadable(now, realNow, source, png, meta, ops, codec);
    ghost var q := WholeSessionReplays(now, realNow, source, png, meta, ops, relevant, codec);
    p, ok := ReadFiles(g, q, relevant, codec);
  }

  method ReadFiles(g: R.GraphicToFile, ghost q: P.Player, relevant: set<nat>, codec: P.Codec)
    returns (p: P.Player, ok: bool)
    requires g.Valid() && F.Readable(AllChunks(g.rec)) && P.Listen(relevant, AllChunks(g.rec), codec) == Some(q)
    ensures ok && p == q
  {
    FilesBytes(g.rec.files, g.rec.out);
    var f := new F.FileToGraphic(Concat(g.files + [g.trans]), codec);
    ok := f.PlayFile(AllChunks(g.rec), relevant);
    p := f.player;
  }
}
