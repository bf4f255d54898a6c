/** When the session log reports what was typed, and under which mask. */
module SessionLogRules {
  import opened Bytes
  import opened S = SessionLogKbd

  function MaskNext(masked: bool, op: Op): bool { if op.Mask? then op.enable else masked }
  function ProbeNext(probe: bool, op: Op): bool { if op.Probe? then op.ready else probe }

  function MaskBy(masked: bool, ops: seq<Op>): bool
    decreases |ops|
  {
    if ops == [] then masked else MaskBy(MaskNext(masked, ops[0]), ops[1..])
  }

  function ProbeBy(probe: bool, ops: seq<Op>): bool
    decreases |ops|
  {
    if ops == [] then probe else ProbeBy(ProbeNext(probe, ops[0]), ops[1..])
  }

  lemma StepFollows(k: Kbd, op: Op)
    ensures Step(k, op).masked == MaskNext(k.masked, op) && Step(k, op).probe == ProbeNext(k.probe, op)
  {
  }

  /** The mask and the probe are those of the last change. */
  lemma {:induction false} RunFollows(k: Kbd, ops: seq<Op>)
    ensures Run(k, ops).masked == MaskBy(k.masked, ops) && Run(k, ops).probe == ProbeBy(k.probe, ops)
    decreases |ops|
  {
    if ops != [] {
      StepFollows(k, ops[0]);
      RunFollows(Step(k, ops[0]), ops[1..]);
    }
  }

  /** Whether two runs only differ in keys typed while the mask, by its last change, was on. */
  predicate DifferWhileMasked(masked: bool, a: seq<Op>, b: seq<Op>)
    decreases |a|
  {
    |a| == |b| && (a != [] ==>
                     && (a[0] == b[0] || (masked && a[0].Key? && b[0].Key?))
                     && DifferWhileMasked(MaskNext(masked, a[0]), a[1..], b[1..]))
  }

  lemma {:induction false} MaskedTypingIsSecret(k: Kbd, a: seq<Op>, b: seq<Op>)
    requires DifferWhileMasked(k.masked, a, b)
    ensures Run(k, a) == Run(k, b)
    decreases |a|
  {
    if a != [] {
      StepFollows(k, a[0]);
      assert Step(k, a[0]) == Step(k, b[0]);
      MaskedTypingIsSecret(Step(k, a[0]), a[1..], b[1..]);
    }
  }

  function EightStars(): seq<byte> { [42, 42, 42, 42, 42, 42, 42, 42] }

  function Keys(cs: seq<nat>): (r: seq<Op>)
    ensures |r| == |cs|
  {
    seq(|cs|, i requires 0 <= i < |cs| => Key(cs[i]))
  }

  /** However many keys are typed under the mask, they are one entry of eight stars; without a probe, none. */
  lemma {:induction false} MaskedKeysAreOneEntry(k: Kbd, cs: seq<nat>)
    requires Inv(k) && k.masked && cs != []
    ensures var k' := Run(k, Keys(cs));
            && k' == (if k.probe then k.(hidden := true) else k)
            && (k.probe ==> Flush(k').log == k.log + [EightStars()])
    decreases |cs|
  {
    var k1 := Step(k, Key(cs[0]));
    assert Keys(cs)[1..] == Keys(cs[1..]);
    if |cs| > 1 {
      StepKeepsInv(k, Key(cs[0]));
      MaskedKeysAreOneEntry(k1, cs[1..]);
    } else {
      assert Keys(cs[1..]) == [];
    }
    assert [] + K.Stars() == K.Stars() == EightStars();
  }

  /** A change of window, a change of the mask and the end report what was typed. */
  lemma Reports(k: Kbd, op: Op)
    requires op.WindowChange? || op.Close? || (op.Mask? && op.enable != k.masked)
    ensures var k' := Step(k, op);
            && k'.text == [] && !k'.hidden
            && k'.log == k.log + if k.text == [] && !k.hidden then [] else [k.text + if k.hidden then EightStars() else []]
  {
    assert K.Stars() == EightStars();
    assert k.log + [] == k.log;
  }

  /** A key that fits the 64 bytes is not reported, and one that does not reports the others. */
  lemma ReportedIfFull(k: Kbd, c: nat)
    requires Inv(k) && !k.masked
    ensures var k' := Step(k, Key(c));
            if |k.text| + |Shown(c)| <= 64 then k'.log == k.log && k'.text == k.text + Shown(c)
            else k'.log == k.log + [k.text] && k'.text == Shown(c)
  {
    assert k.text + [] == k.text && [] + Shown(c) == Shown(c);
  }
}
