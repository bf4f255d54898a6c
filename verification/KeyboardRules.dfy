/** When the editor of the session metadata sends what was typed, under which mask, and with which time. */
module KeyboardRules {
  import opened Bytes
  import opened Utf8
  import opened K = KeyboardMeta

  // ---- the mask and the probe are those of the last change ----

  function MaskNext(masked: bool, op: Op): bool { if op.Mask? then op.enable else masked }
  function ProbeNext(probe: bool, op: Op): bool { if op.Probe? then op.ready else probe }

  function TimeNext(last: int, op: Op): int {
    match op
    case Key(now, _) => now
    case Log(now, _) => now
    case Snapshot(now) => now
    case _ => last
  }

  function MaskBy(masked: bool, ops: seq<Op>): bool
    decreases |ops|
  {
    if ops == [] then masked else MaskBy(MaskNext(masked, ops[0]), ops[1..])
  }

  function ProbeBy(probe: bool, ops: seq<Op>): bool
    decreases |ops|
  {
    if ops == [] then probe else ProbeBy(ProbeNext(probe, ops[0]), ops[1..])
  }

  function TimeBy(last: int, ops: seq<Op>): int
    decreases |ops|
  {
    if ops == [] then last else TimeBy(TimeNext(last, ops[0]), ops[1..])
  }

  lemma StepFollows(m: Meta, op: Op, hideMarkers: bool)
    ensures var m' := Step(m, op, hideMarkers);
            m'.masked == MaskNext(m.masked, op) && m'.probe == ProbeNext(m.probe, op) && m'.last == TimeNext(m.last, op)
  {
    if op.Key? {
      KeyFollows(m, op.now, op.c, Filter(op.c), hideMarkers);
    }
  }

  /** Nothing that is written changes the mask or the probe. */
  lemma KeyFollows(m: Meta, now: int, c: nat, filtered: Option<seq<byte>>, hideMarkers: bool)
    ensures var w := SendIfSpecial(Write(m, c, filtered, hideMarkers), c); w.masked == m.masked && w.probe == m.probe
    ensures var w := SendIfSpecial(WriteShadowKeys(m), c); w.masked == m.masked && w.probe == m.probe
  {
  }

  lemma {:induction false} RunFollows(m: Meta, ops: seq<Op>, hideMarkers: bool)
    ensures var m' := Run(m, ops, hideMarkers);
            m'.masked == MaskBy(m.masked, ops) && m'.probe == ProbeBy(m.probe, ops) && m'.last == TimeBy(m.last, ops)
    decreases |ops|
  {
    if ops != [] {
      StepFollows(m, ops[0], hideMarkers);
      RunFollows(Step(m, ops[0], hideMarkers), ops[1..], hideMarkers);
    }
  }

  /** Whether two runs only differ in characters typed while the mask, by its last change, was on. */
  predicate DifferWhileMasked(masked: bool, a: seq<Op>, b: seq<Op>)
    decreases |a|
  {
    |a| == |b| && (a != [] ==>
                     && (a[0] == b[0]
                         || (masked && a[0].Key? && b[0].Key? && a[0].now == b[0].now
                             && (a[0].c in {0x09, 0x0D} <==> b[0].c in {0x09, 0x0D})))
                     && DifferWhileMasked(MaskNext(masked, a[0]), a[1..], b[1..]))
  }

  /** Then they are the same to the log, whatever the state of the editor was. */
  lemma {:induction false} MaskedTypingIsSecret(m: Meta, a: seq<Op>, b: seq<Op>, hideMarkers: bool)
    requires DifferWhileMasked(m.masked, a, b)
    ensures Run(m, a, hideMarkers) == Run(m, b, hideMarkers)
    decreases |a|
  {
    if a != [] {
      StepFollows(m, a[0], hideMarkers);
      assert Step(m, a[0], hideMarkers) == Step(m, b[0], hideMarkers);
      MaskedTypingIsSecret(Step(m, a[0], hideMarkers), a[1..], b[1..], hideMarkers);
    }
  }

  // ---- stars ----

  function EightStars(): seq<byte> { [42, 42, 42, 42, 42, 42, 42, 42] }

  predicate Ordinary(cs: seq<nat>) { forall i :: 0 <= i < |cs| ==> cs[i] !in {0x09, 0x0D} }

  lemma {:induction false} MaskedKeysWait(m: Meta, now: int, cs: seq<nat>, hideMarkers: bool)
    requires Inv(m) && m.masked && m.probe && Ordinary(cs)
    ensures var m' := Run(m, Typed(now, cs), hideMarkers);
            Inv(m') && m'.log == m.log && m'.hidden == m.hidden + |cs| && m'.Text() == []
            && m'.last == if cs == [] then m.last else now
    decreases |cs|
  {
    if cs != [] {
      var m1 := Step(m, Key(now, cs[0]), hideMarkers);
      StepKeepsInv(m, Key(now, cs[0]), hideMarkers);
      assert Typed(now, cs)[1..] == Typed(now, cs[1..]);
      MaskedKeysWait(m1, now, cs[1..], hideMarkers);
    }
  }

  /** However many keys are typed under the mask, the entry that ends them is eight stars, with their time. */
  lemma MaskedKeysShowStars(m: Meta, now: int, cs: seq<nat>, hideMarkers: bool)
    requires Inv(m) && m.masked && m.probe && Ordinary(cs) && cs != []
    ensures var m' := Run(m, Typed(now, cs), hideMarkers);
            && m'.log == m.log
            && Step(m', Close, hideMarkers).log == m.log + [Keys(now, EightStars())]
            && Step(m', Mask(false), hideMarkers).log == m.log + [Keys(now, EightStars())]
  {
    MaskedKeysWait(m, now, cs, hideMarkers);
    assert [] + Stars() == Stars() == EightStars();
  }

  /** Without a probe they leave nothing at all. */
  lemma MaskedKeysWithoutProbe(m: Meta, now: int, c: nat, hideMarkers: bool)
    requires m.masked && !m.probe
    ensures Step(m, Key(now, c), hideMarkers) == m.(last := now)
  {
  }

  // ---- what ends an entry ----

  /** A change of window, a change of the mask and the end send what was typed, with the time of the last event. */
  lemma Sends(m: Meta, op: Op, hideMarkers: bool)
    requires Inv(m) && (op.WindowChange? || op.Close? || (op.Mask? && op.enable != m.masked))
    ensures var m' := Step(m, op, hideMarkers);
            && m'.Text() == [] && m'.hidden == 0 && m'.chars == []
            && m'.log == m.log + if m.Text() == [] && m.hidden == 0 then []
                                 else [Keys(m.last, m.Text() + if m.hidden > 0 then EightStars() else [])]
  {
    assert Stars() == EightStars();
    assert m.log + [] == m.log;
    CharsFit(m.chars);
  }

  /** A key that fits the 506 bytes of the buffer is not sent, and one that does not sends the others, unless it
      takes a character back or shows nothing. */
  lemma SentIfFull(m: Meta, now: int, c: nat, hideMarkers: bool)
    requires Inv(m) && !m.masked && m.hidden == 0 && c !in {0x09, 0x0D} && !Erases(m, c)
    ensures var (m', shown) := (Step(m, Key(now, c), hideMarkers), Shown(c, hideMarkers));
            if |m.Text()| + |shown| <= 506 then m'.log == m.log && m'.Text() == m.Text() + shown
            else m'.log == m.log + [Keys(m.last, m.Text())] && m'.Text() == shown
  {
    WriteIfFull(m, c, Filter(c), hideMarkers);
  }

  lemma WriteIfFull(m: Meta, c: nat, filtered: Option<seq<byte>>, hideMarkers: bool)
    requires Inv(m) && !m.masked && m.hidden == 0 && !Erases(m, c) && (filtered.Some? ==> 2 <= |filtered.value| <= 12)
    ensures var (w, shown) := (Write(m, c, filtered, hideMarkers), ShownAs(c, filtered, hideMarkers));
            if |m.Text()| + |shown| <= 506 then w.log == m.log && w.Text() == m.Text() + shown && w.flushed == m.flushed
            else w.log == m.log + [Keys(m.last, m.Text())] && w.Text() == shown && w.flushed
  {
    var bytes := if filtered.None? then Utf32ToUtf8(c) else if hideMarkers then Ascii("/") else filtered.value;
    PushText(m, bytes);
    AppendText(m, bytes);
    SendIfFull(m, bytes);
    assert m.Text() + [] == m.Text();
  }

  lemma SendIfFull(m: Meta, bytes: seq<byte>)
    requires Inv(m) && m.hidden == 0 && 1 <= |bytes| <= 12
    ensures var r := MakeRoom(m, |bytes|);
            if |m.Text()| + |bytes| <= 506 then r == m
            else r.log == m.log + [Keys(m.last, m.Text())] && r.Text() == [] && r.flushed
    ensures [] + bytes == bytes
  {
    assert m.Text() + [] == m.Text();
  }

  /** An enter or a tab ends the entry, itself included, unless the key before it has ended one, or there was
      no room for it in the same entry; then it waits with what follows, if it shows at all. */
  lemma EnterEndsEntry(m: Meta, now: int, c: nat, hideMarkers: bool)
    requires Inv(m) && !m.masked && m.hidden == 0 && c in {0x09, 0x0D}
    ensures var (m', shown) := (Step(m, Key(now, c), hideMarkers), Shown(c, hideMarkers));
            && (m'.Text() == [] <==> (m.flushed ==> m.Text() + shown == []) && |m.Text()| + |shown| <= 506)
            && (!m.flushed && |m.Text()| + |shown| <= 506 && m.Text() + shown != [] ==>
                  m'.log == m.log + [Keys(m.last, m.Text() + shown)])
  {
    var w := Write(m, c, Filter(c), hideMarkers);
    WriteIfFull(m, c, Filter(c), hideMarkers);
    NoHidden(m, c, Filter(c), hideMarkers);
    assert w.Text() + [] == w.Text();
  }

  /** An enter or a tab after another key always ends the entry, if there is room for it. */
  lemma EnterAfterKey(m: Meta, now: int, c: nat, later: int, enter: nat, hideMarkers: bool)
    requires Inv(m) && !m.masked && m.hidden == 0 && c !in {0x09, 0x0D} && enter in {0x09, 0x0D}
    ensures var m1 := Step(m, Key(now, c), hideMarkers);
            var m2 := Step(m1, Key(later, enter), hideMarkers);
            var text := m1.Text() + Shown(enter, hideMarkers);
            !m1.flushed && (|text| <= 506 ==> m2.Text() == [] && (text != [] ==> m2.log == m1.log + [Keys(now, text)]))
  {
    var m1 := Step(m, Key(now, c), hideMarkers);
    StepKeepsInv(m, Key(now, c), hideMarkers);
    StepFollows(m, Key(now, c), hideMarkers);
    NoHidden(m, c, Filter(c), hideMarkers);
    EnterEndsEntry(m1, later, enter, hideMarkers);
  }

  /** Under the mask too: then the entry is eight stars. */
  lemma MaskedEnterAfterKey(m: Meta, now: int, c: nat, later: int, enter: nat, hideMarkers: bool)
    requires Inv(m) && m.masked && m.probe && c !in {0x09, 0x0D} && enter in {0x09, 0x0D}
    ensures var m1 := Step(m, Key(now, c), hideMarkers);
            var m2 := Step(m1, Key(later, enter), hideMarkers);
            m1.log == m.log && m2.log == m.log + [Keys(now, EightStars())] && m2.hidden == 0 && m2.Text() == []
  {
    assert [] + Stars() == Stars() == EightStars();
  }

  lemma NoHidden(m: Meta, c: nat, filtered: Option<seq<byte>>, hideMarkers: bool)
    requires m.hidden == 0
    ensures var w := Write(m, c, filtered, hideMarkers); w.hidden == 0 && w.last == m.last
  {
  }

  /** A key that is written by its name, and a marker that is not shown, cannot be taken back, and neither can what
      was typed before it; a character and a slash can. */
  lemma TakenBackOrNot(m: Meta, now: int, c: nat, hideMarkers: bool)
    requires Inv(m) && !m.masked && !Erases(m, c) && c !in {0x09, 0x0D}
    ensures var m' := Step(m, Key(now, c), hideMarkers);
            if Filter(c).Some? && c != 0x2F then m'.chars == []
            else m'.chars != [] && m'.chars[|m'.chars| - 1] == Shown(c, hideMarkers)
  {
    BackOrNot(m, c, Filter(c), hideMarkers);
  }

  lemma BackOrNot(m: Meta, c: nat, filtered: Option<seq<byte>>, hideMarkers: bool)
    requires !Erases(m, c)
    ensures var w := Write(m, c, filtered, hideMarkers);
            if filtered.Some? && c != 0x2F then w.chars == []
            else w.chars != [] && w.chars[|w.chars| - 1] == ShownAs(c, filtered, hideMarkers)
  {
  }

  /** The lines of other events go to the log as they come. */
  lemma LineIsLogged(m: Meta, now: int, data: seq<byte>, hideMarkers: bool)
    ensures Step(m, Log(now, data), hideMarkers) == m.(log := m.log + [Line(now, data)], last := now)
  {
  }
}
