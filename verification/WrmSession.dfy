/** Whole recording sessions: every run of the recorder, over all the files it writes. */
module WrmSession {
  import opened Bytes
  import opened WrmFormat
  import opened WrmImage
  import opened WrmRecord
  import opened WrmSimulation
  import P = WrmPlayer

  ghost predicate LegalRun(r: Rec, ops: seq<Op>, codec: P.Codec)
    requires ValidFor(r, codec)
    decreases |ops|
  {
    ops == [] || (Legal(r, ops[0], codec)
                  && (StepKeepsValid(r, ops[0], codec); LegalRun(Step(r, ops[0]), ops[1..], codec)))
  }

  ghost function Run(r: Rec, ops: seq<Op>, codec: P.Codec): (e: Rec)
    requires ValidFor(r, codec) && LegalRun(r, ops, codec)
    ensures ValidFor(e, codec)
    decreases |ops|
  {
    if ops == [] then r
    else
      StepKeepsValid(r, ops[0], codec);
      Run(Step(r, ops[0]), ops[1..], codec)
  }

  function Flatten(files: seq<seq<Chunk>>): seq<Chunk> {
    if files == [] then [] else files[0] + Flatten(files[1..])
  }

  lemma {:induction false} FlattenAppend(xs: seq<seq<Chunk>>, y: seq<Chunk>)
    ensures Flatten(xs + [y]) == Flatten(xs) + y
  {
    if xs == [] {
      assert xs + [y] == [y];
      assert [y][1..] == [];
      assert Flatten([y]) == y + [];
    } else {
      assert (xs + [y])[1..] == xs[1..] + [y];
      FlattenAppend(xs[1..], y);
    }
  }

  /** Everything the session has written, in order, over all its files. */
  function AllChunks(r: Rec): seq<Chunk> { Flatten(r.files) + r.out }

  // ----- What a run was asked to record -----

  ghost function RunLog(r: Rec, ops: seq<Op>, relevant: set<nat>, codec: P.Codec): Log
    requires ValidFor(r, codec) && LegalRun(r, ops, codec)
    decreases |ops|
  {
    if ops == [] then NoLog()
    else
      StepKeepsValid(r, ops[0], codec);
      Plus(Recorded(r, ops[0], relevant), RunLog(Step(r, ops[0]), ops[1..], relevant, codec))
  }

  /** The player is in step with the recorder, and its consumers have received all that was recorded and is not
      still buffered, the keys at instants that do not go back. */
  ghost predicate Replayed(r: Rec, p: P.Player, log: Log) {
    Core(r, p) && Received(r, p) == log && KeysInOrder(p.keys, p.recordNow)
  }

  // ----- One operation, closing and opening files -----

  /** The player after an operation: if the operation closes a file, the player has also read the
      first chunks of the next one. */
  function Through(r: Rec, op: Op, p: P.Player): P.Player
    requires op.CachedPointer? ==> op.idx in r.source
  {
    var q := Next(r, op, p);
    if op.Breakpoint? then Reopened(Rebase(After(r, op)), q, op.png) else q
  }

  lemma ReopenedKeeps(r: Rec, p: P.Player, png: seq<byte>)
    requires r.keys == [] && r.cached == {} && r.monoReal == r.timer && OnTime(r, p)
    ensures var q := Reopened(r, p, png);
            && Core(r, q) && p.recordNow <= q.recordNow && q.shown == p.shown && q.drawn == p.drawn
            && q.keys == p.keys && q.updates == p.updates && q.images == p.images + [png]
            && q.masks == p.masks && q.windowChanges == p.windowChanges && q.relevant == p.relevant
            && (q.mouseX, q.mouseY) == (r.mouseX, r.mouseY)
  {
    assert p.keys + [] == p.keys;
  }

  /** The recorder's state after an operation, without the files. */
  function Settled(r: Rec, op: Op): Rec {
    if op.Breakpoint? then Rebase(After(r, op)) else After(r, op)
  }

  lemma StepSettles(r: Rec, op: Op, codec: P.Codec)
    requires ValidFor(r, codec) && Legal(r, op, codec)
    ensures ValidFor(Step(r, op), codec) && ValidFor(Settled(r, op), codec)
    ensures Step(r, op) == Settled(r, op).(files := Step(r, op).files, out := Step(r, op).out)
    ensures !op.Breakpoint? ==> Step(r, op).files == r.files && Step(r, op).out == r.out + Emitted(r, op)
    ensures op.Breakpoint? ==>
              && Step(r, op).files == r.files + [r.out + Emitted(r, op)]
              && Step(r, op).out == Opening(Settled(r, op), op.saveState, op.png, op.meta)
  {
    StepKeepsValid(r, op, codec);
    AfterKeepsValid(r, op, codec);
    assert After(r, op).files == r.files;
  }

  lemma Grow(files: seq<seq<Chunk>>, out: seq<Chunk>, cs: seq<Chunk>, next: seq<Chunk>)
    ensures Flatten(files + [out + cs]) + next == Flatten(files) + out + cs + next
    ensures Flatten(files) + (out + cs) == Flatten(files) + out + cs
  {
    FlattenAppend(files, out + cs);
  }

  lemma FilesGrow(r: Rec, op: Op, codec: P.Codec)
    requires ValidFor(r, codec) && Legal(r, op, codec)
    ensures ValidFor(Step(r, op), codec)
    ensures op.Breakpoint? ==> AllChunks(Step(r, op)) == AllChunks(r) + Emitted(r, op) + Step(r, op).out
    ensures !op.Breakpoint? ==> AllChunks(Step(r, op)) == AllChunks(r) + Emitted(r, op)
  {
    StepSettles(r, op, codec);
    var s := Step(r, op);
    Grow(r.files, r.out, Emitted(r, op), s.out);
  }

  lemma SettledPlays(r: Rec, op: Op, p: P.Player, codec: P.Codec)
    requires InStep(r, op, p, codec) && op.Breakpoint?
    ensures ValidFor(Step(r, op), codec)
    ensures P.Play(Next(r, op, p), Step(r, op).out, codec) == Some(Through(r, op, p))
  {
    StepSettles(r, op, codec);
    NextCore(r, op, p);
    OpeningPlays(Settled(r, op), Next(r, op, p), op.saveState, op.png, op.meta, codec);
  }

  /** A file that was listened to goes on. */
  lemma ListenThen(relevant: set<nat>, xs: seq<Chunk>, p: P.Player, ys: seq<Chunk>, q: P.Player, codec: P.Codec)
    requires P.Listen(relevant, xs, codec) == Some(p) && P.Known(p) && P.Play(p, ys, codec) == Some(q)
    ensures P.Listen(relevant, xs + ys, codec) == Some(q)
  {
    P.ListenAppend(relevant, xs, ys, codec);
  }

  lemma StepPlays(r: Rec, op: Op, p: P.Player, codec: P.Codec)
    requires InStep(r, op, p, codec)
    requires P.Listen(p.relevant, AllChunks(r), codec) == Some(p)
    ensures ValidFor(Step(r, op), codec)
    ensures P.Listen(p.relevant, AllChunks(Step(r, op)), codec) == Some(Through(r, op, p))
  {
    OperationPlays(r, op, p, codec);
    NextCore(r, op, p);
    var n := Next(r, op, p);
    ListenThen(p.relevant, AllChunks(r), p, Emitted(r, op), n, codec);
    FilesGrow(r, op, codec);
    if op.Breakpoint? {
      SettledPlays(r, op, p, codec);
      ListenThen(p.relevant, AllChunks(r) + Emitted(r, op), n, Step(r, op).out, Through(r, op, p), codec);
    }
  }

  /** What an operation adds for the player, the opening of a file included. */
  ghost predicate Gains(r: Rec, op: Op, p: P.Player, s: Rec, q: P.Player)
    requires op.CachedPointer? ==> op.idx in r.source
  {
    && p.recordNow <= q.recordNow && q.relevant == p.relevant
    && Received(s, q) == Plus(Received(r, p), Recorded(r, op, p.relevant))
    && (KeysInOrder(p.keys, p.recordNow) ==> KeysInOrder(q.keys, q.recordNow))
  }

  /** The files a recorder has written do not matter to the player that has read them. */
  lemma FilesAside(r: Rec, s: Rec, p: P.Player)
    requires s == r.(files := s.files, out := s.out)
    ensures Core(s, p) == Core(r, p)
    ensures Received(s, p) == Received(r, p)
  {
  }

  lemma BreakGains(r: Rec, op: Op, p: P.Player, n: P.Player)
    requires op.Breakpoint?
    requires Advances(r, op, p, n) && Core(After(r, op), n)
    requires KeysInOrder(p.keys, p.recordNow) ==> KeysInOrder(n.keys, n.recordNow)
    ensures var (s, q) := (Settled(r, op), Reopened(Settled(r, op), n, op.png));
            Core(s, q) && Gains(r, op, p, s, q)
  {
    ReopenedKeeps(Rebase(After(r, op)), n, op.png);
    ReopenedReceives(r, op, n);
    OneImage(Received(r, p), Recorded(r, op, p.relevant), Received(After(r, op), n), op.png, (r.mouseX, r.mouseY));
  }

  lemma ReopenedReceives(r: Rec, op: Op, n: P.Player)
    requires op.Breakpoint? && Core(After(r, op), n)
    ensures var was := Received(After(r, op), n);
            Received(Settled(r, op), Reopened(Settled(r, op), n, op.png))
            == was.(images := was.images + [op.png], mouse := Some((r.mouseX, r.mouseY)))
  {
    var a := After(r, op);
    assert Pending(Rebase(a)) == Pending(a);
    ReopenedKeeps(Rebase(a), n, op.png);
  }

  lemma OneImage(a: Log, b: Log, n: Log, png: seq<byte>, mouse: (nat, nat))
    requires b.images == [png] && b.mouse == Some(mouse) && n == Plus(a, b.(images := []))
    ensures n.(images := n.images + [png], mouse := Some(mouse)) == Plus(a, b)
  {
    assert a.images + [] == a.images;
  }

  lemma NextGains(r: Rec, op: Op, p: P.Player, n: P.Player)
    requires !op.Breakpoint? && (op.CachedPointer? ==> op.idx in r.source)
    requires Advances(r, op, p, n)
    requires KeysInOrder(p.keys, p.recordNow) ==> KeysInOrder(n.keys, n.recordNow)
    ensures Gains(r, op, p, After(r, op), n)
  {
    assert p.images + [] == p.images;
  }

  lemma SettledGains(r: Rec, op: Op, p: P.Player, codec: P.Codec)
    requires InStep(r, op, p, codec)
    ensures Core(Settled(r, op), Through(r, op, p))
    ensures Gains(r, op, p, Settled(r, op), Through(r, op, p))
  {
    NextCore(r, op, p);
    NextAdvances(r, op, p);
    if KeysInOrder(p.keys, p.recordNow) {
      OrderKept(r, op, p);
    }
    if op.Breakpoint? {
      BreakGains(r, op, p, Next(r, op, p));
    } else {
      NextGains(r, op, p, Next(r, op, p));
    }
  }

  lemma ThroughKeeps(r: Rec, op: Op, p: P.Player, codec: P.Codec)
    requires InStep(r, op, p, codec)
    ensures ValidFor(Step(r, op), codec) && Core(Step(r, op), Through(r, op, p))
    ensures Gains(r, op, p, Step(r, op), Through(r, op, p))
  {
    SettledGains(r, op, p, codec);
    StepSettles(r, op, codec);
    FilesAside(Settled(r, op), Step(r, op), Through(r, op, p));
  }

  // ----- Main results -----

  /** Over every run, replaying all the files in order hands out what was recorded, in that order: the cursors
      shown, the drawings, the keys with their instants, the masks, the updates, the changes of window and
      the images. */
  lemma {:induction false} SessionReplays(r: Rec, ops: seq<Op>, p: P.Player, codec: P.Codec) returns (q: P.Player)
    requires ValidFor(r, codec) && LegalRun(r, ops, codec) && Core(r, p) && KeysInOrder(p.keys, p.recordNow)
    requires P.Listen(p.relevant, AllChunks(r), codec) == Some(p)
    ensures P.Listen(p.relevant, AllChunks(Run(r, ops, codec)), codec) == Some(q)
    ensures Replayed(Run(r, ops, codec), q, Plus(Received(r, p), RunLog(r, ops, p.relevant, codec)))
    ensures p.recordNow <= q.recordNow && q.relevant == p.relevant
    decreases |ops|
  {
    if ops == [] {
      q := p;
      PlusNothing(Received(r, p));
    } else {
      var op := ops[0];
      var s, tail, p' := Step(r, op), ops[1..], Through(r, op, p);
      StepPlays(r, op, p, codec);
      ThroughKeeps(r, op, p, codec);
      q := SessionReplays(s, tail, p', codec);
      PlusPlus(Received(r, p), Recorded(r, op, p.relevant), RunLog(s, tail, p.relevant, codec));
    }
  }

  /** The same from the creation of the recorder and of the player. The first image is not received: the
      player reads it before it can have consumers. */
  lemma WholeSessionReplays(now: int, realNow: int, source: map<nat, Cursor>, png: seq<byte>, meta: seq<byte>,
                            ops: seq<Op>, relevant: set<nat>, codec: P.Codec) returns (q: P.Player)
    requires 0 <= realNow < TWO_63
    requires forall i | i in source :: i < P.MAX_POINTER_COUNT && ValidCursor(source[i])
    requires LegalRun(Open(now, realNow, source, png, meta), ops, codec)
    ensures var r := Open(now, realNow, source, png, meta);
            && P.Listen(relevant, AllChunks(Run(r, ops, codec)), codec) == Some(q)
            && Replayed(Run(r, ops, codec), q, Plus(NothingYet(), RunLog(r, ops, relevant, codec)))
  {
    var r := Open(now, realNow, source, png, meta);
    var p := OpenSession(now, realNow, source, png, meta, relevant, codec);
    q := SessionReplays(r, ops, p, codec);
  }

  /** What the consumers know before anything was recorded: the mouse is in the corner. */
  function NothingYet(): Log { NoLog().(mouse := Some((0, 0))) }

  /** The player after the first chunks of a recording: nothing was received, the image neither. */
  lemma OpenSession(now: int, realNow: int, source: map<nat, Cursor>, png: seq<byte>, meta: seq<byte>,
                    relevant: set<nat>, codec: P.Codec) returns (p: P.Player)
    requires 0 <= realNow < TWO_63
    requires forall i | i in source :: i < P.MAX_POINTER_COUNT && ValidCursor(source[i])
    ensures var r := Open(now, realNow, source, png, meta);
            && ValidFor(r, codec) && Replayed(r, p, NothingYet()) && p.relevant == relevant
            && P.Listen(relevant, AllChunks(r), codec) == Some(p)
  {
    var r := Open(now, realNow, source, png, meta);
    var images := |ImageChunks(png, MAX_IMAGE_PART)|;
    p := Opened(r, relevant, images);
    OpenPlays(r, now, realNow, source, png, meta, relevant, codec);
    assert AllChunks(r) == r.out;
    OpenCore(r, relevant, images, codec);
    OpenedEmpty(r, relevant, images);
  }

  lemma OpenCore(r: Rec, relevant: set<nat>, images: nat, codec: P.Codec)
    requires r.start == r.timer == r.monoReal && 0 <= r.lastReal < TWO_63 && r.cached == {} && r.keys == []
    requires r.orders == [] && r.bitmaps == [] && r.mouseX == 0 && r.mouseY == 0
    requires forall i | i in r.source :: i < P.MAX_POINTER_COUNT && ValidCursor(r.source[i])
    ensures ValidFor(r, codec) && Core(r, Opened(r, relevant, images))
  {
  }

  lemma OpenedEmpty(r: Rec, relevant: set<nat>, images: nat)
    requires 0 <= r.lastReal && r.start == r.timer && r.keys == [] && r.orders == [] && r.bitmaps == []
    ensures var p := Opened(r, relevant, images);
            p.relevant == relevant && Received(r, p) == NothingYet() && KeysInOrder(p.keys, p.recordNow)
  {
  }

  // ----- The keyboard mask, the keys and the mouse, from the operations alone -----

  function MaskNext(masked: bool, op: Op): bool { if op.KbdMask? then op.enable else masked }

  /** The mask that the last change has left. */
  function MaskBy(masked: bool, ops: seq<Op>): bool
    decreases |ops|
  {
    if ops == [] then masked else MaskBy(MaskNext(masked, ops[0]), ops[1..])
  }

  function MouseNext(at: (nat, nat), op: Op): (nat, nat) { if op.MouseMove? then (op.x, op.y) else at }

  /** Where the last movement has left the mouse. */
  function MouseBy(at: (nat, nat), ops: seq<Op>): (nat, nat)
    decreases |ops|
  {
    if ops == [] then at else MouseBy(MouseNext(at, ops[0]), ops[1..])
  }

  /** The key that an operation adds to a buffer of so many: a star under the mask. */
  function KeyOf(masked: bool, buffered: nat, op: Op): seq<nat> {
    if op.KbdInput? && buffered < 128 then [if masked then 42 else op.code] else []
  }

  /** Keys are kept until an instant, an update, a change of window or a new file. */
  function BufferedNext(buffered: nat, op: Op): nat {
    match op
    case KbdInput(_) => if buffered < 128 then buffered + 1 else buffered
    case SendTimestamp => 0
    case SessionUpdate(_, _, _) => 0
    case WindowChange => 0
    case Breakpoint(_, _, _) => 0
    case _ => buffered
  }

  /** The keys of a run, from the operations and how many keys are buffered. */
  function TypedBy(masked: bool, buffered: nat, ops: seq<Op>): seq<nat>
    decreases |ops|
  {
    if ops == [] then []
    else
      KeyOf(masked, buffered, ops[0])
      + TypedBy(MaskNext(masked, ops[0]), BufferedNext(buffered, ops[0]), ops[1..])
  }

  lemma StepMaskAndMouse(r: Rec, op: Op, codec: P.Codec)
    requires ValidFor(r, codec) && Legal(r, op, codec)
    ensures ValidFor(Step(r, op), codec) && Step(r, op).masked == MaskNext(r.masked, op)
    ensures (Step(r, op).mouseX, Step(r, op).mouseY) == MouseNext((r.mouseX, r.mouseY), op)
  {
    StepSettles(r, op, codec);
  }

  lemma StepKeys(r: Rec, op: Op, codec: P.Codec)
    requires ValidFor(r, codec) && Legal(r, op, codec)
    ensures ValidFor(Step(r, op), codec) && |Step(r, op).keys| == BufferedNext(|r.keys|, op)
    ensures Typed(r, op) == KeyOf(r.masked, |r.keys|, op)
  {
    StepSettles(r, op, codec);
    if op.KbdInput? {
      KeyIsBuffered(r, op.code);
      TypedIsBuffered(r, op);
    }
  }

  lemma TypedIsBuffered(r: Rec, op: Op)
    requires op.KbdInput?
    requires After(r, op).keys == if |r.keys| >= 128 then r.keys else r.keys + [if r.masked then 42 else op.code]
    ensures Typed(r, op) == KeyOf(r.masked, |r.keys|, op)
  {
    assert After(r, op).keys[|r.keys|..] == Typed(r, op);
  }

  /** Over every run: the mask and the place of the mouse are those of the last change. */
  lemma {:induction false} RunMaskAndMouse(r: Rec, ops: seq<Op>, codec: P.Codec)
    requires ValidFor(r, codec) && LegalRun(r, ops, codec)
    ensures var e := Run(r, ops, codec);
            e.masked == MaskBy(r.masked, ops) && (e.mouseX, e.mouseY) == MouseBy((r.mouseX, r.mouseY), ops)
    decreases |ops|
  {
    if ops != [] {
      StepMaskAndMouse(r, ops[0], codec);
      RunMaskAndMouse(Step(r, ops[0]), ops[1..], codec);
    }
  }

  /** And the keys that are recorded follow from the operations. */
  lemma {:induction false} RunTyped(r: Rec, ops: seq<Op>, relevant: set<nat>, codec: P.Codec)
    requires ValidFor(r, codec) && LegalRun(r, ops, codec)
    ensures RunLog(r, ops, relevant, codec).typed == TypedBy(r.masked, |r.keys|, ops)
    decreases |ops|
  {
    if ops != [] {
      StepMaskAndMouse(r, ops[0], codec);
      StepKeys(r, ops[0], codec);
      RunTyped(Step(r, ops[0]), ops[1..], relevant, codec);
    }
  }

  /** Two runs that only differ in keys typed under the mask. */
  predicate DifferUnderMask(masked: bool, a: seq<Op>, b: seq<Op>)
    decreases |a|
  {
    |a| == |b| && (a != [] ==>
                     && (a[0] == b[0] || (masked && a[0].KbdInput? && b[0].KbdInput?))
                     && DifferUnderMask(MaskNext(masked, a[0]), a[1..], b[1..]))
  }

  /** Nothing of a key under the mask reaches a file: the recordings are the same to the last byte. */
  lemma {:induction false} MaskedKeysStaySecret(r: Rec, a: seq<Op>, b: seq<Op>, codec: P.Codec)
    requires ValidFor(r, codec) && LegalRun(r, a, codec) && LegalRun(r, b, codec) && DifferUnderMask(r.masked, a, b)
    ensures Run(r, a, codec) == Run(r, b, codec)
    decreases |a|
  {
    if a != [] {
      StepMaskAndMouse(r, a[0], codec);
      if a[0] != b[0] {
        MaskedKeyIsAStar(r, a[0].code, b[0].code);
      }
      MaskedKeysStaySecret(Step(r, a[0]), a[1..], b[1..], codec);
    }
  }

  lemma MaskedKeyIsAStar(r: Rec, x: nat, y: nat)
    requires Valid(r) && r.masked
    ensures Step(r, KbdInput(x)) == Step(r, KbdInput(y))
  {
    KeyIsBuffered(r, x);
    KeyIsBuffered(r, y);
    assert After(r, KbdInput(x)) == After(r, KbdInput(y));
  }

  // ----- Each file on its own -----

  /** The cursors a run shows, file by file; `shown` is what the current file already shows. */
  ghost function ShownByFile(r: Rec, ops: seq<Op>, shown: seq<P.Display>, codec: P.Codec): (f: seq<seq<P.Display>>)
    requires ValidFor(r, codec) && LegalRun(r, ops, codec)
    ensures |f| > 0
    decreases |ops|
  {
    if ops == [] then [shown]
    else
      StepKeepsValid(r, ops[0], codec);
      var s := Step(r, ops[0]);
      if ops[0].Breakpoint? then [shown] + ShownByFile(s, ops[1..], [], codec)
      else ShownByFile(s, ops[1..], shown + Shown(r, ops[0]), codec)
  }

  /** A player that starts at this file shows exactly these cursors. */
  ghost predicate Alone(file: seq<Chunk>, shown: seq<P.Display>, relevant: set<nat>, codec: P.Codec) {
    var p := P.Listen(relevant, file, codec);
    p.Some? && p.value.shown == shown
  }

  lemma OutPlays(r: Rec, op: Op, p: P.Player, codec: P.Codec)
    requires InStep(r, op, p, codec)
    requires P.Listen(p.relevant, r.out, codec) == Some(p)
    ensures P.Listen(p.relevant, r.out + Emitted(r, op), codec) == Some(Next(r, op, p))
  {
    OperationPlays(r, op, p, codec);
    ListenThen(p.relevant, r.out, p, Emitted(r, op), Next(r, op, p), codec);
  }

  lemma StartsAt(a: Rec, relevant: set<nat>, op: Op, codec: P.Codec) returns (q: P.Player)
    requires Valid(a) && op.Breakpoint? && op.png != []
    requires a.keys == [] && a.cached == {} && a.monoReal == a.timer
    ensures P.Listen(relevant, Opening(a, op.saveState, op.png, op.meta), codec) == Some(q)
    ensures Core(a, q) && q.shown == [] && q.relevant == relevant
  {
    MicrosRange(a.timer - a.start);
    q := Restarted(a, relevant, op.png);
    RestartPlays(a, relevant, op.saveState, op.png, op.meta, codec);
    var p := P.Attach(P.Fresh(), relevant);
    ReopenedKeeps(a, p, op.png);
    SameStart(a, relevant, op.png);
  }

  /** The first two chunks of a file hand out nothing. */
  lemma SameStart(a: Rec, relevant: set<nat>, png: seq<byte>)
    requires a.keys == []
    ensures Restarted(a, relevant, png) == Reopened(a, P.Attach(P.Fresh(), relevant), png)
  {
  }

  /** A player that starts at the file a breakpoint opens is in step at once. */
  lemma StartsInStep(r: Rec, op: Op, relevant: set<nat>, codec: P.Codec) returns (q: P.Player)
    requires ValidFor(r, codec) && Legal(r, op, codec) && op.Breakpoint?
    ensures ValidFor(Step(r, op), codec)
    ensures P.Listen(relevant, Step(r, op).out, codec) == Some(q)
    ensures Core(Step(r, op), q) && q.shown == [] && q.relevant == relevant
  {
    StepSettles(r, op, codec);
    q := StartsAt(Settled(r, op), relevant, op, codec);
    FilesAside(Settled(r, op), Step(r, op), q);
  }

  ghost predicate AllAlone(e: Rec, base: nat, f: seq<seq<P.Display>>, relevant: set<nat>, codec: P.Codec)
    requires |f| > 0
  {
    && |e.files| == base + |f| - 1
    && (forall k :: 0 <= k < |f| - 1 ==> Alone(e.files[base + k], f[k], relevant, codec))
    && Alone(e.out, f[|f| - 1], relevant, codec)
  }

  lemma OneMoreAlone(e: Rec, base: nat, shown: seq<P.Display>, f: seq<seq<P.Display>>, relevant: set<nat>, codec: P.Codec)
    requires |f| > 0 && AllAlone(e, base + 1, f, relevant, codec)
    requires Alone(e.files[base], shown, relevant, codec)
    ensures AllAlone(e, base, [shown] + f, relevant, codec)
  {
    var g := [shown] + f;
    forall k | 0 <= k < |g| - 1 ensures Alone(e.files[base + k], g[k], relevant, codec) {
      if k > 0 {
        assert g[k] == f[k - 1];
        assert e.files[base + 1 + (k - 1)] == e.files[base + k];
      }
    }
  }

  lemma GoesOn(r: Rec, op: Op, p: P.Player, codec: P.Codec) returns (q: P.Player)
    requires InStep(r, op, p, codec) && !op.Breakpoint?
    requires P.Listen(p.relevant, r.out, codec) == Some(p)
    ensures ValidFor(Step(r, op), codec) && Step(r, op).files == r.files && Core(Step(r, op), q)
    ensures P.Listen(p.relevant, Step(r, op).out, codec) == Some(q)
    ensures q.shown == p.shown + Shown(r, op) && q.relevant == p.relevant
  {
    q := Next(r, op, p);
    StepSettles(r, op, codec);
    OutPlays(r, op, p, codec);
    ShownAdvances(r, op, p);
    ReportsAdvance(r, op, p);
    NextCore(r, op, p);
    FilesAside(After(r, op), Step(r, op), q);
  }

  /** Every file of every run resolves its cursors alone: a player that has read no other file shows
      the cursors the run showed while that file was current, by their contents. */
  lemma {:induction false} FilesReplayAlone(r: Rec, ops: seq<Op>, p: P.Player, codec: P.Codec)
    requires ValidFor(r, codec) && LegalRun(r, ops, codec) && Core(r, p)
    requires P.Listen(p.relevant, r.out, codec) == Some(p)
    ensures AllAlone(Run(r, ops, codec), |r.files|, ShownByFile(r, ops, p.shown, codec), p.relevant, codec)
    ensures r.files <= Run(r, ops, codec).files
    decreases |ops|, 1
  {
    if ops == [] {
    } else if ops[0].Breakpoint? {
      AloneAtBreak(r, ops, p, codec);
    } else {
      var q := GoesOn(r, ops[0], p, codec);
      FilesReplayAlone(Step(r, ops[0]), ops[1..], q, codec);
    }
  }

  lemma {:induction false} AloneAtBreak(r: Rec, ops: seq<Op>, p: P.Player, codec: P.Codec)
    requires ops != [] && ops[0].Breakpoint?
    requires ValidFor(r, codec) && LegalRun(r, ops, codec) && Core(r, p)
    requires P.Listen(p.relevant, r.out, codec) == Some(p)
    ensures AllAlone(Run(r, ops, codec), |r.files|, ShownByFile(r, ops, p.shown, codec), p.relevant, codec)
    ensures r.files <= Run(r, ops, codec).files
    decreases |ops|, 0
  {
    var op, tail := ops[0], ops[1..];
    var q := StartsInStep(r, op, p.relevant, codec);
    FilesReplayAlone(Step(r, op), tail, q, codec);
    BreakAlone(r, op, tail, p, codec);
  }

  lemma BreakAlone(r: Rec, op: Op, tail: seq<Op>, p: P.Player, codec: P.Codec)
    requires InStep(r, op, p, codec) && op.Breakpoint?
    requires P.Listen(p.relevant, r.out, codec) == Some(p)
    requires ValidFor(Step(r, op), codec) && LegalRun(Step(r, op), tail, codec)
    requires AllAlone(Run(Step(r, op), tail, codec), |r.files| + 1,
                      ShownByFile(Step(r, op), tail, [], codec), p.relevant, codec)
    requires Step(r, op).files <= Run(Step(r, op), tail, codec).files
    ensures AllAlone(Run(Step(r, op), tail, codec), |r.files|,
                     [p.shown] + ShownByFile(Step(r, op), tail, [], codec), p.relevant, codec)
    ensures r.files <= Run(Step(r, op), tail, codec).files
  {
    var e, s := Run(Step(r, op), tail, codec), Step(r, op);
    FileOfBreak(r, op, e.files, codec);
    AloneAtEnd(r, op, p, codec);
    OneMoreAlone(e, |r.files|, p.shown, ShownByFile(s, tail, [], codec), p.relevant, codec);
  }

  lemma FileOfBreak(r: Rec, op: Op, files: seq<seq<Chunk>>, codec: P.Codec)
    requires ValidFor(r, codec) && Legal(r, op, codec) && op.Breakpoint? && ValidFor(Step(r, op), codec)
    requires Step(r, op).files <= files
    ensures r.files <= files && |r.files| < |files| && files[|r.files|] == r.out + Emitted(r, op)
  {
    StepSettles(r, op, codec);
    var s := Step(r, op);
    assert files[|r.files|] == s.files[|r.files|];
    assert r.files <= s.files;
  }

  lemma AloneAtEnd(r: Rec, op: Op, p: P.Player, codec: P.Codec)
    requires InStep(r, op, p, codec) && op.Breakpoint?
    requires P.Listen(p.relevant, r.out, codec) == Some(p)
    ensures Alone(r.out + Emitted(r, op), p.shown, p.relevant, codec)
  {
    OutPlays(r, op, p, codec);
    ShownAdvances(r, op, p);
  }

  predicate NoneUnset(shown: seq<P.Display>) { forall d | d in shown :: !d.Unset? }

  lemma ShownIsSet(r: Rec, op: Op, shown: seq<P.Display>)
    requires NoneUnset(shown) && (op.CachedPointer? ==> op.idx in r.source)
    ensures NoneUnset(shown + Shown(r, op))
  {
  }

  /** No run shows a cursor that was never given: with FilesReplayAlone, no reference by index is left
      unresolved in any file. */
  lemma {:induction false} NothingUnset(r: Rec, ops: seq<Op>, shown: seq<P.Display>, codec: P.Codec)
    requires ValidFor(r, codec) && LegalRun(r, ops, codec) && NoneUnset(shown)
    ensures forall f | f in ShownByFile(r, ops, shown, codec) :: NoneUnset(f)
    decreases |ops|
  {
    if ops != [] {
      var (op, tail) := (ops[0], ops[1..]);
      StepKeepsValid(r, op, codec);
      if op.Breakpoint? {
        NothingUnset(Step(r, op), tail, [], codec);
        assert ShownByFile(r, ops, shown, codec) == [shown] + ShownByFile(Step(r, op), tail, [], codec);
      } else {
        ShownIsSet(r, op, shown);
        NothingUnset(Step(r, op), tail, shown + Shown(r, op), codec);
        assert ShownByFile(r, ops, shown, codec) == ShownByFile(Step(r, op), tail, shown + Shown(r, op), codec);
      }
    }
  }

  // ----- Clocks -----

  /** The real time the player reports differs from the recorder's mapping, at the same instant, by
      the sub-microsecond parts that the file drops: less than a microsecond, and not at all exactly
      when the two anchors of the mapping have equal sub-microsecond parts. */
  lemma ReplayedRealTime(r: Rec, p: P.Player)
    requires Valid(r) && Core(r, p)
    ensures var error := RealAt(r, r.start + p.recordNow) - P.RealTime(p);
            && -1000 < error < 1000
            && (error == 0 <==> r.lastReal % 1000 == (r.monoReal - r.start) % 1000)
    ensures r.start + p.recordNow <= r.timer
  {
    MicrosRange(r.timer - r.start);
    MicrosRange(r.lastReal);
    MicrosRange(r.monoReal - r.start);
  }

  /** A session whose clocks do not start on the same sub-microsecond part replays a real time that
      is off by the difference. */
  lemma RealTimeCanBeOff(png: seq<byte>, codec: P.Codec) returns (p: P.Player)
    ensures var r := Open(0, 1, map[], png, []);
            && Core(r, p) && P.Listen({}, AllChunks(r), codec) == Some(p)
            && RealAt(r, r.start + p.recordNow) != P.RealTime(p)
  {
    var r := Open(0, 1, map[], png, []);
    p := OpenSession(0, 1, map[], png, [], {}, codec);
    OffAtTheStart(r, p);
  }

  lemma OffAtTheStart(r: Rec, p: P.Player)
    requires Valid(r) && Core(r, p) && r.lastReal == 1 && r.monoReal == r.start
    ensures RealAt(r, r.start + p.recordNow) != P.RealTime(p)
  {
    ReplayedRealTime(r, p);
  }

  lemma MappingStep(r: Rec, op: Op, t: int, codec: P.Codec)
    requires ValidFor(r, codec) && Legal(r, op, codec) && !op.UpdateTimes?
    ensures ValidFor(Step(r, op), codec) && RealAt(Step(r, op), t) == RealAt(r, t)
  {
    StepSettles(r, op, codec);
    StepKeepsMapping(r, op, t);
  }

  /** Breakpoints rebase the mapping without changing it, and so does every operation but
      update_times: the real time of an instant is what the last update_times made it. */
  lemma {:induction false} MappingOverRun(r: Rec, ops: seq<Op>, t: int, codec: P.Codec)
    requires ValidFor(r, codec) && LegalRun(r, ops, codec)
    requires forall op | op in ops :: !op.UpdateTimes?
    ensures RealAt(Run(r, ops, codec), t) == RealAt(r, t)
    decreases |ops|
  {
    if ops != [] {
      var op := ops[0];
      assert op in ops;
      assert forall o | o in ops[1..] :: o in ops;
      MappingStep(r, op, t, codec);
      MappingOverRun(Step(r, op), ops[1..], t, codec);
    }
  }
}
