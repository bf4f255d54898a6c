/** The keyboard log of the session metadata as it is kept: a byte stream over a fixed buffer and the
    widths of the characters that can still be erased. */
module SessionMeta {
  import opened Bytes
  import opened Utf8
  import opened K = KeyboardMeta

  class SessionMeta {
    const hideMarkers: bool
    const buffer: array<byte>
    var offset: nat
    const charsSize: array<byte>
    var charPos: nat
    var masked: bool
    var hiddenCount: nat
    var probe: bool
    var previousIsFlush: bool
    var lastTime: int
    var log: seq<Entry>
    // the text before the erasable characters, and these
    ghost var committed: seq<byte>
    ghost var chars: seq<seq<byte>>

    ghost predicate Valid()
      reads this, buffer, charsSize
    {
      && Represents() && Inv(State())
    }

    ghost predicate Represents()
      reads this, buffer, charsSize
    {
      && buffer.Length == USABLE && charsSize.Length == USABLE && buffer != charsSize
      && offset <= USABLE && buffer[..offset] == committed + Concat(chars)
      && charPos == |chars| <= USABLE
      && forall i :: 0 <= i < charPos ==> charsSize[i] == |chars[i]|
    }

    ghost function State(): Meta
      reads this
    {
      Meta(committed, chars, masked, hiddenCount, probe, previousIsFlush, lastTime, log)
    }

    constructor (now: int, hideMarkers: bool)
      ensures Valid() && this.hideMarkers == hideMarkers && fresh(buffer) && fresh(charsSize)
      ensures State() == Meta([], [], false, 0, false, false, now, [])
    {
      this.hideMarkers := hideMarkers;
      buffer, charsSize := new byte[USABLE], new byte[USABLE];
      offset, charPos, masked, hiddenCount, probe, previousIsFlush := 0, 0, false, 0, false, false;
      lastTime, log, committed, chars := now, [], [], [];
    }

    /** OutStream::out_copy_bytes, which does not check the room. */
    method OutCopyBytes(bytes: seq<byte>)
      requires offset + |bytes| <= buffer.Length
      modifies this`offset, buffer
      ensures offset == old(offset) + |bytes| && buffer[..offset] == old(buffer[..offset]) + bytes
    {
      for i := 0 to |bytes|
        invariant offset == old(offset)
        invariant forall k :: 0 <= k < i ==> buffer[offset + k] == bytes[k]
        invariant forall k :: 0 <= k < offset ==> buffer[k] == old(buffer[k])
      {
        buffer[offset + i] := bytes[i];
      }
      offset := offset + |bytes|;
    }

    method SendKbd()
      requires Valid()
      modifies this, buffer
      ensures State() == K.SendKbd(old(State())) && Valid()
    {
      SendKbdKeepsInv(State());
      assert State().Text() == buffer[..offset];
      if offset != 0 || hiddenCount != 0 {
        Flush();
      }
    }

    method Flush()
      requires Represents() && offset + (if hiddenCount != 0 then 8 else 0) <= USABLE
      modifies this, buffer
      ensures Represents()
      ensures State() == old(State()).(committed := [], chars := [], hidden := 0, flushed := true,
                log := old(log) + [Keys(lastTime, old(State()).Text() + if old(hiddenCount) != 0 then Stars() else [])])
    {
      ghost var data := State().Text();
      if hiddenCount != 0 {
        OutCopyBytes(Stars());
      }
      assert data + [] == data;
      hiddenCount := 0;
      log := log + [Keys(lastTime, buffer[..offset])];
      offset := 0;
      previousIsFlush := true;
      charPos := 0;
      committed, chars := [], [];
    }

    /** The stream holds the text and then bytes that belong to no character yet. */
    ghost predicate Holds(bytes: seq<byte>)
      reads this, buffer, charsSize
    {
      && buffer.Length == USABLE && charsSize.Length == USABLE && buffer != charsSize
      && offset <= USABLE && buffer[..offset] == State().Text() + bytes
      && charPos == |chars| <= USABLE && Inv(State())
      && forall i :: 0 <= i < charPos ==> charsSize[i] == |chars[i]|
    }

    method CopyBytes(bytes: seq<byte>)
      requires Valid() && |bytes| <= USABLE
      modifies this, buffer
      ensures Holds(bytes) && State() == MakeRoom(old(State()), |bytes|)
    {
      MakeRoomFor(|bytes|);
      OutCopyBytes(bytes);
    }

    method MakeRoomFor(n: nat)
      requires Valid() && n <= USABLE
      modifies this, buffer
      ensures Valid() && State() == MakeRoom(old(State()), n) && n <= USABLE - offset
    {
      SendKbdKeepsInv(State());
      if USABLE - offset < n {
        SendKbd();
      }
    }

    method PushChar(bytes: seq<byte>)
      requires Valid() && !masked && 1 <= |bytes| <= 12
      modifies this, buffer, charsSize
      ensures State() == Push(old(State()), bytes) && Valid()
    {
      PushKeepsInv(State(), bytes);
      PushText(State(), bytes);
      CopyBytes(bytes);
      CharsFit(chars);
      charsSize[charPos] := |bytes|;
      charPos := charPos + 1;
      chars := chars + [bytes];
    }

    method AppendBytes(bytes: seq<byte>)
      requires Valid() && !masked && 1 <= |bytes| <= 12
      modifies this, buffer, charsSize
      ensures State() == Append(old(State()), bytes) && Valid()
    {
      PushKeepsInv(State(), bytes);
      AppendText(State(), bytes);
      CopyBytes(bytes);
      charPos := 0;
      committed, chars := State().Text() + bytes, [];
    }

    method EraseChar()
      requires Valid() && charPos > 0
      modifies this
      ensures State() == Erase(old(State())) && Valid()
    {
      EraseKeepsInv(State());
      ConcatLast(chars);
      charPos := charPos - 1;
      offset := offset - charsSize[charPos];
      chars := chars[..charPos];
    }

    method ForgetChars()
      requires Valid()
      modifies this
      ensures State() == Commit(old(State())) && Valid()
    {
      CommitKeepsInv(State());
      charPos := 0;
      committed, chars := State().Text(), [];
    }

    method WriteKeys(c: nat)
      requires Valid() && !masked
      modifies this, buffer, charsSize
      ensures State() == K.WriteKeys(old(State()), c, hideMarkers) && Valid()
    {
      match Filter(c)
      case None =>
        PushChar(Utf32ToUtf8(c));
      case Some(text) =>
        if c == BACKSPACE && charPos > 0 {
          EraseChar();
        } else if hideMarkers {
          if c == SLASH {
            PushChar(Ascii("/"));
          } else {
            ForgetChars();
          }
        } else if c == SLASH {
          PushChar(text);
        } else {
          AppendBytes(text);
        }
    }

    method WriteShadowKeys()
      requires Valid()
      modifies this, buffer
      ensures Represents() && State() == K.WriteShadowKeys(old(State())) && (masked ==> Inv(State()))
    {
      SendKbdKeepsInv(State());
      if USABLE - offset < 1 {
        SendKbd();
      }
      hiddenCount := hiddenCount + 1;
    }

    method SendKbdIfSpecialChar(c: nat)
      requires Valid()
      modifies this, buffer
      ensures State() == SendIfSpecial(old(State()), c) && Valid()
    {
      if c == ENTER || c == TAB {
        if !previousIsFlush {
          SendKbd();
        }
      } else {
        previousIsFlush := false;
      }
    }

    method KbdInput(now: int, c: nat)
      requires Valid()
      modifies this, buffer, charsSize
      ensures State() == Step(old(State()), Key(now, c), hideMarkers) && Valid()
    {
      if masked {
        if probe {
          WriteShadowKeys();
          SendKbdIfSpecialChar(c);
        }
      } else {
        WriteKeys(c);
        SendKbdIfSpecialChar(c);
      }
      lastTime := now;
    }

    method EnableKbdInputMask(enable: bool)
      requires Valid()
      modifies this, buffer
      ensures State() == Step(old(State()), Mask(enable), hideMarkers) && Valid()
    {
      StepKeepsInv(State(), Mask(enable), hideMarkers);
      if masked != enable {
        SendKbd();
        masked := enable;
        assert State() == Step(old(State()), Mask(enable), hideMarkers);
      }
    }

    method PossibleActiveWindowChange()
      requires Valid()
      modifies this, buffer
      ensures State() == Step(old(State()), WindowChange, hideMarkers) && Valid()
    {
      ghost var m := State();
      StepKeepsInv(m, WindowChange, hideMarkers);
      SendKbd();
      ghost var sent := State();
      previousIsFlush := true;
      assert State() == sent.(flushed := true);
    }

    /** Any other line of the log. */
    method SendKvlogs(now: int, data: seq<byte>)
      requires Valid()
      modifies this
      ensures State() == Step(old(State()), Log(now, data), hideMarkers) && Valid()
    {
      log := log + [Line(now, data)];
      lastTime := now;
    }

    method ProbeStatus(ready: bool)
      requires Valid()
      modifies this
      ensures State() == Step(old(State()), Probe(ready), hideMarkers) && Valid()
    {
      probe := ready;
    }

    method PeriodicSnapshot(now: int)
      requires Valid()
      modifies this
      ensures State() == Step(old(State()), Snapshot(now), hideMarkers) && Valid()
    {
      lastTime := now;
    }

    method Perform(op: Op)
      requires Valid()
      modifies this, buffer, charsSize
      ensures State() == Step(old(State()), op, hideMarkers) && Valid()
    {
      match op
      case Key(now, c) =>
        KbdInput(now, c);
      case Mask(enable) =>
        EnableKbdInputMask(enable);
      case Probe(ready) =>
        ProbeStatus(ready);
      case Log(now, data) =>
        SendKvlogs(now, data);
      case WindowChange =>
        PossibleActiveWindowChange();
      case Snapshot(now) =>
        PeriodicSnapshot(now);
      case Close =>
        SendKbd();
    }
  }

  /** A whole session. No index leaves its buffer, and the log is that of the editor. */
  method Session(now: int, hideMarkers: bool, ops: seq<Op>) returns (log: seq<Entry>)
    ensures log == Run(Meta([], [], false, 0, false, false, now, []), ops, hideMarkers).log
  {
    var meta := new SessionMeta(now, hideMarkers);
    ghost var start := meta.State();
    for i := 0 to |ops|
      invariant meta.Valid() && fresh(meta) && fresh(meta.buffer) && fresh(meta.charsSize)
      invariant meta.hideMarkers == hideMarkers
      invariant Run(meta.State(), ops[i..], hideMarkers) == Run(start, ops, hideMarkers)
    {
      assert ops[i..][0] == ops[i] && ops[i..][1..] == ops[i + 1..];
      meta.Perform(ops[i]);
    }
    log := meta.log;
  }
}
