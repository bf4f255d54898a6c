/** The typed keys as the session log reports them: short entries, and eight stars for whatever is
    typed under the mask. */
module SessionLogKbd {
  import opened Bytes
  import opened Utf8
  import K = KeyboardMeta

  const ROOM: nat := 64

  datatype Kbd = Kbd(text: seq<byte>, hidden: bool, masked: bool, probe: bool, log: seq<seq<byte>>)

  ghost predicate Inv(k: Kbd) {
    && |k.text| <= ROOM && (k.masked ==> k.text == []) && (k.hidden ==> k.masked)
    && forall i :: 0 <= i < |k.log| ==> |k.log[i]| <= ROOM
  }

  function Flush(k: Kbd): Kbd {
    if k.text == [] && !k.hidden then k
    else k.(text := [], hidden := false, log := k.log + [k.text + if k.hidden then K.Stars() else []])
  }

  /** What is written of a key. */
  function Shown(c: nat): (r: seq<byte>)
    ensures 1 <= |r| <= 12
  {
    match K.Filter(c)
    case None => Utf32ToUtf8(c)
    case Some(text) => text
  }

  function WriteChar(k: Kbd, bytes: seq<byte>): Kbd {
    var k' := if ROOM - |k.text| < |bytes| then Flush(k) else k;
    k'.(text := k'.text + bytes)
  }

  function WriteShadow(k: Kbd): Kbd {
    (if ROOM - |k.text| < 8 then Flush(k) else k).(hidden := true)
  }

  datatype Op = Key(c: nat) | Mask(enable: bool) | Probe(ready: bool) | WindowChange | Close

  function Step(k: Kbd, op: Op): Kbd {
    match op
    case Key(c) => if !k.masked then WriteChar(k, Shown(c)) else if k.probe then WriteShadow(k) else k
    case Mask(enable) => if k.masked != enable then Flush(k).(masked := enable) else k
    case Probe(ready) => k.(probe := ready)
    case _ => Flush(k)
  }

  function Run(k: Kbd, ops: seq<Op>): Kbd
    decreases |ops|
  {
    if ops == [] then k else Run(Step(k, ops[0]), ops[1..])
  }

  /** No entry is longer than the buffer, and the stars never meet other text. */
  lemma StepKeepsInv(k: Kbd, op: Op)
    requires Inv(k)
    ensures Inv(Step(k, op)) && Inv(Flush(k))
  {
  }

  lemma {:induction false} RunKeepsInv(k: Kbd, ops: seq<Op>)
    requires Inv(k)
    ensures Inv(Run(k, ops))
    decreases |ops|
  {
    if ops != [] {
      StepKeepsInv(k, ops[0]);
      RunKeepsInv(Step(k, ops[0]), ops[1..]);
    }
  }

  ghost predicate DifferUnderMask(k: Kbd, a: seq<Op>, b: seq<Op>)
    decreases |a|
  {
    |a| == |b| && (a != [] ==>
                     && (a[0] == b[0] || (k.masked && a[0].Key? && b[0].Key?))
                     && DifferUnderMask(Step(k, a[0]), a[1..], b[1..]))
  }

  /** Here not even enter and tab show through the mask. */
  lemma {:induction false} MaskedKeysStaySecret(k: Kbd, a: seq<Op>, b: seq<Op>)
    requires DifferUnderMask(k, a, b)
    ensures Run(k, a) == Run(k, b)
    decreases |a|
  {
    if a != [] {
      assert Step(k, a[0]) == Step(k, b[0]);
      MaskedKeysStaySecret(Step(k, a[0]), a[1..], b[1..]);
    }
  }

  /** Under the mask a key adds nothing to the log, and the next flush adds the stars alone. */
  lemma MaskedKeysShowStars(k: Kbd, c: nat)
    requires Inv(k) && k.masked && k.probe
    ensures Step(k, Key(c)).log == k.log
    ensures Flush(Step(k, Key(c))).log == k.log + [K.Stars()]
  {
    assert [] + K.Stars() == K.Stars();
  }

  function Visible(k: Kbd): seq<byte> { Concat(k.log) + k.text }

  function AllShown(cs: seq<nat>): seq<byte> {
    if cs == [] then [] else Shown(cs[0]) + AllShown(cs[1..])
  }

  lemma FlushVisible(k: Kbd)
    requires !k.hidden
    ensures Visible(Flush(k)) == Visible(k)
  {
    ConcatAppend(k.log, [k.text]);
    assert Concat([k.text]) == k.text + Concat([k.text][1..]);
    assert k.text + [] == k.text;
  }

  lemma WriteCharVisible(k: Kbd, bytes: seq<byte>)
    requires !k.hidden
    ensures Visible(WriteChar(k, bytes)) == Visible(k) + bytes
  {
    FlushVisible(k);
    var k' := if ROOM - |k.text| < |bytes| then Flush(k) else k;
    assert Concat(k'.log) + (k'.text + bytes) == Visible(k') + bytes;
  }

  /** Without the mask, the entries and the buffer are the typed text, cut anywhere. */
  lemma {:induction false} NothingTypedIsLost(k: Kbd, cs: seq<nat>)
    requires !k.masked && !k.hidden
    ensures Visible(Run(k, seq(|cs|, i requires 0 <= i < |cs| => Key(cs[i])))) == Visible(k) + AllShown(cs)
    decreases |cs|
  {
    var ops := seq(|cs|, i requires 0 <= i < |cs| => Key(cs[i]));
    if cs == [] {
      assert Visible(k) + [] == Visible(k);
    } else {
      var k' := Step(k, Key(cs[0]));
      WriteCharVisible(k, Shown(cs[0]));
      NothingTypedIsLost(k', cs[1..]);
      assert ops[1..] == seq(|cs[1..]|, i requires 0 <= i < |cs[1..]| => Key(cs[1..][i]));
      assert Visible(k) + Shown(cs[0]) + AllShown(cs[1..]) == Visible(k) + (Shown(cs[0]) + AllShown(cs[1..]));
    }
  }

  class SessionLogKbd {
    const stream: array<byte>
    var offset: nat
    var hidden: bool
    var masked: bool
    var probe: bool
    var log: seq<seq<byte>>

    ghost predicate Valid()
      reads this, stream
    {
      Bounded() && Inv(State())
    }

    ghost predicate Bounded()
      reads this
    {
      offset <= stream.Length == ROOM
    }

    ghost function State(): Kbd
      requires Bounded()
      reads this, stream
    {
      Kbd(stream[..offset], hidden, masked, probe, log)
    }

    constructor ()
      ensures Valid() && State() == Kbd([], false, false, false, []) && fresh(stream)
    {
      stream := new byte[ROOM];
      offset, hidden, masked, probe, log := 0, false, false, false, [];
    }

    method OutCopyBytes(bytes: seq<byte>)
      requires offset + |bytes| <= stream.Length
      modifies this`offset, stream
      ensures offset == old(offset) + |bytes| && stream[..offset] == old(stream[..offset]) + bytes
    {
      for i := 0 to |bytes|
        invariant offset == old(offset)
        invariant forall j :: 0 <= j < i ==> stream[offset + j] == bytes[j]
        invariant forall j :: 0 <= j < offset ==> stream[j] == old(stream[j])
      {
        stream[offset + i] := bytes[i];
      }
      offset := offset + |bytes|;
    }

    method FlushStream()
      requires Valid()
      modifies this, stream
      ensures Bounded() && State() == Flush(old(State())) && Valid()
    {
      StepKeepsInv(State(), Close);
      ghost var text := stream[..offset];
      assert text + [] == text && [] + K.Stars() == K.Stars();
      if offset != 0 || hidden {
        if hidden {
          OutCopyBytes(K.Stars());
        }
        hidden := false;
        log := log + [stream[..offset]];
        offset := 0;
      }
    }

    method CopyBytes(bytes: seq<byte>)
      requires Valid() && !masked && |bytes| <= 12
      modifies this, stream
      ensures Bounded() && State() == WriteChar(old(State()), bytes) && Valid()
    {
      if ROOM - offset < |bytes| {
        FlushStream();
      }
      var n := if ROOM - offset < |bytes| then ROOM - offset else |bytes|;
      OutCopyBytes(bytes[..n]);
    }

    method KbdInput(c: nat)
      requires Valid()
      modifies this, stream
      ensures Bounded() && State() == Step(old(State()), Key(c)) && Valid()
    {
      StepKeepsInv(State(), Key(c));
      if masked {
        if probe {
          // the flush that the code makes here when the stars do not fit is never reached: they always fit
          if ROOM - offset < 8 {
            assert false;
          }
          hidden := true;
        }
      } else {
        match K.Filter(c)
        case None =>
          CopyBytes(Utf32ToUtf8(c));
        case Some(text) =>
          CopyBytes(text);
      }
    }

    method EnableKbdInputMask(enable: bool)
      requires Valid()
      modifies this, stream
      ensures Bounded() && State() == Step(old(State()), Mask(enable)) && Valid()
    {
      if masked != enable {
        FlushStream();
        masked := enable;
      }
    }

    method SessionUpdate(ready: bool)
      requires Valid()
      modifies this
      ensures Bounded() && State() == Step(old(State()), Probe(ready)) && Valid()
    {
      probe := ready;
    }

    method PossibleActiveWindowChange()
      requires Valid()
      modifies this, stream
      ensures Bounded() && State() == Step(old(State()), WindowChange) && Valid()
    {
      FlushStream();
    }
  }
}
