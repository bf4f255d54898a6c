/** The keyboard part of the session metadata: what is logged of the keys that were typed. */
module KeyboardMeta {
  import opened Bytes
  import opened Utf8

  const USABLE: nat := 506 // 512 bytes without the prefix and the end of line

  predicate IsAscii(s: string) { forall i :: 0 <= i < |s| ==> s[i] < 128 as char }

  function Ascii(s: string): (r: seq<byte>)
    requires IsAscii(s)
    ensures |r| == |s|
  {
    seq(|s|, i requires 0 <= i < |s| => s[i] as int)
  }

  const BACKSPACE: nat := 0x08
  const TAB: nat := 0x09
  const ENTER: nat := 0x0D
  const SLASH: nat := 0x2F

  /** filtering_kbd_input with the slash filtered: how the keys without a character of their own, and
      the slash that marks them, are written. */
  function Filter(c: nat): (r: Option<seq<byte>>)
    ensures r.Some? ==> 2 <= |r.value| <= 12
  {
    if c == SLASH then Some(Ascii("//"))
    else if c == BACKSPACE then Some(Ascii("/<backspace>"))
    else if c == TAB then Some(Ascii("/<tab>"))
    else if c == ENTER then Some(Ascii("/<enter>"))
    else if c == 0x1B then Some(Ascii("/<escape>"))
    else if c == 0x7F then Some(Ascii("/<delete>"))
    else if c == 0x2190 then Some(Ascii("/<left>"))
    else if c == 0x2191 then Some(Ascii("/<up>"))
    else if c == 0x2192 then Some(Ascii("/<right>"))
    else if c == 0x2193 then Some(Ascii("/<down>"))
    else if c == 0x2196 then Some(Ascii("/<home>"))
    else if c == 0x2198 then Some(Ascii("/<end>"))
    else None
  }

  function Stars(): (r: seq<byte>)
    ensures |r| == 8
  {
    Ascii("********")
  }

  datatype Entry = Keys(time: int, data: seq<byte>) | Line(time: int, data: seq<byte>)

  /** An editor with a committed part and a stack of characters that backspace can take back, and what
      it has logged. */
  datatype Meta = Meta(
    committed: seq<byte>, chars: seq<seq<byte>>,
    masked: bool, hidden: nat, probe: bool, flushed: bool, last: int, log: seq<Entry>)
  {
    function Text(): seq<byte> { committed + Concat(chars) }
  }

  ghost predicate Inv(m: Meta) {
    && |m.Text()| <= USABLE
    && (forall i :: 0 <= i < |m.chars| ==> 1 <= |m.chars[i]|)
    && (m.masked ==> m.committed == [] && m.chars == [])
    && (m.hidden > 0 ==> m.masked)
  }

  function SendKbd(m: Meta): Meta {
    if m.Text() == [] && m.hidden == 0 then m
    else
      var data := m.Text() + if m.hidden != 0 then Stars() else [];
      m.(committed := [], chars := [], hidden := 0, flushed := true, log := m.log + [Keys(m.last, data)])
  }

  function MakeRoom(m: Meta, n: nat): Meta {
    if |m.Text()| + n > USABLE then SendKbd(m) else m
  }

  function Push(m: Meta, bytes: seq<byte>): Meta {
    var m' := MakeRoom(m, |bytes|);
    m'.(chars := m'.chars + [bytes])
  }

  function Commit(m: Meta): Meta {
    m.(committed := m.Text(), chars := [])
  }

  function Append(m: Meta, bytes: seq<byte>): Meta {
    var m' := MakeRoom(m, |bytes|);
    m'.(committed := m'.Text() + bytes, chars := [])
  }

  predicate Erases(m: Meta, c: nat) { c == BACKSPACE && m.chars != [] }

  function Erase(m: Meta): Meta
    requires m.chars != []
  {
    m.(chars := m.chars[..|m.chars| - 1])
  }

  function WriteKeys(m: Meta, c: nat, hideMarkers: bool): Meta {
    Write(m, c, Filter(c), hideMarkers)
  }

  function Write(m: Meta, c: nat, filtered: Option<seq<byte>>, hideMarkers: bool): Meta {
    match filtered
    case None => Push(m, Utf32ToUtf8(c))
    case Some(text) =>
      if Erases(m, c) then Erase(m)
      else if hideMarkers then if c == SLASH then Push(m, Ascii("/")) else Commit(m)
      else if c == SLASH then Push(m, text)
      else Append(m, text)
  }

  function WriteShadowKeys(m: Meta): Meta {
    var m' := MakeRoom(m, 1);
    m'.(hidden := m'.hidden + 1)
  }

  predicate Special(c: nat) { c == ENTER || c == TAB }

  function SendIfSpecial(m: Meta, c: nat): Meta {
    if !Special(c) then m.(flushed := false)
    else if m.flushed then m
    else SendKbd(m)
  }

  datatype Op =
    | Key(now: int, c: nat)
    | Mask(enable: bool)
    | Probe(ready: bool)
    | Log(now: int, data: seq<byte>)
    | WindowChange
    | Snapshot(now: int)
    | Close

  function Step(m: Meta, op: Op, hideMarkers: bool): Meta {
    match op
    case Key(now, c) =>
      var m' := if !m.masked then SendIfSpecial(WriteKeys(m, c, hideMarkers), c)
                else if m.probe then SendIfSpecial(WriteShadowKeys(m), c)
                else m;
      m'.(last := now)
    case Mask(enable) => if m.masked != enable then SendKbd(m).(masked := enable) else m
    case Probe(ready) => m.(probe := ready)
    case Log(now, data) => m.(log := m.log + [Line(now, data)], last := now)
    case WindowChange => SendKbd(m).(flushed := true)
    case Snapshot(now) => m.(last := now)
    case Close => SendKbd(m)
  }

  function Run(m: Meta, ops: seq<Op>, hideMarkers: bool): Meta
    decreases |ops|
  {
    if ops == [] then m else Run(Step(m, ops[0], hideMarkers), ops[1..], hideMarkers)
  }

  // ---- the invariant ----

  lemma {:induction false} CharsFit(chars: seq<seq<byte>>)
    requires forall i :: 0 <= i < |chars| ==> 1 <= |chars[i]|
    ensures |chars| <= |Concat(chars)|
  {
    if chars != [] {
      CharsFit(chars[1..]);
    }
  }

  lemma ConcatLast(chars: seq<seq<byte>>)
    requires chars != []
    ensures Concat(chars) == Concat(chars[..|chars| - 1]) + chars[|chars| - 1]
  {
    ConcatOne(chars[..|chars| - 1], chars[|chars| - 1]);
    assert chars[..|chars| - 1] + [chars[|chars| - 1]] == chars;
  }

  lemma PushText(m: Meta, bytes: seq<byte>)
    ensures Push(m, bytes).Text() == MakeRoom(m, |bytes|).Text() + bytes
  {
    var m' := MakeRoom(m, |bytes|);
    ConcatOne(m'.chars, bytes);
    assert m'.committed + (Concat(m'.chars) + bytes) == m'.Text() + bytes;
  }

  lemma AppendText(m: Meta, bytes: seq<byte>)
    ensures Append(m, bytes).Text() == MakeRoom(m, |bytes|).Text() + bytes
    ensures Append(m, bytes).log == MakeRoom(m, |bytes|).log
  {
    var t := MakeRoom(m, |bytes|).Text() + bytes;
    assert t + [] == t;
  }

  lemma SendKbdKeepsInv(m: Meta)
    requires Inv(m)
    ensures Inv(SendKbd(m)) && SendKbd(m).Text() == [] && SendKbd(m).chars == [] && SendKbd(m).hidden == 0
    // what is sent always fits the buffer, stars included
    ensures |m.Text()| + (if m.hidden != 0 then 8 else 0) <= USABLE
  {
    CharsFit(m.chars);
  }

  lemma PushKeepsInv(m: Meta, bytes: seq<byte>)
    requires Inv(m) && !m.masked && 1 <= |bytes| <= 12
    ensures Inv(Push(m, bytes)) && !Push(m, bytes).masked
    ensures Inv(Append(m, bytes)) && !Append(m, bytes).masked
  {
    SendKbdKeepsInv(m);
    PushText(m, bytes);
    var m' := MakeRoom(m, |bytes|);
    assert |m'.Text()| + |bytes| <= USABLE;
    AppendText(m, bytes);
  }

  lemma EraseKeepsInv(m: Meta)
    requires Inv(m) && m.chars != []
    ensures Inv(Erase(m))
  {
    ConcatLast(m.chars);
  }

  lemma CommitKeepsInv(m: Meta)
    requires Inv(m)
    ensures Inv(Commit(m)) && Commit(m).Text() == m.Text()
  {
  }

  lemma WriteKeepsInv(m: Meta, c: nat, filtered: Option<seq<byte>>, hideMarkers: bool)
    requires Inv(m) && !m.masked && (filtered.Some? ==> 2 <= |filtered.value| <= 12)
    ensures Inv(Write(m, c, filtered, hideMarkers)) && !Write(m, c, filtered, hideMarkers).masked
  {
    match filtered
    case None =>
      PushKeepsInv(m, Utf32ToUtf8(c));
    case Some(text) =>
      if Erases(m, c) {
        EraseKeepsInv(m);
      } else {
        CommitKeepsInv(m);
        PushKeepsInv(m, Ascii("/"));
        PushKeepsInv(m, text);
      }
  }

  lemma KeyKeepsInv(m: Meta, now: int, c: nat, hideMarkers: bool)
    requires Inv(m)
    ensures Inv(Step(m, Key(now, c), hideMarkers))
  {
    if !m.masked {
      var w := Write(m, c, Filter(c), hideMarkers);
      WriteKeepsInv(m, c, Filter(c), hideMarkers);
      SendIfSpecialKeepsInv(w, c);
    } else {
      SendKbdKeepsInv(m);
      SendIfSpecialKeepsInv(WriteShadowKeys(m), c);
    }
  }

  lemma SendIfSpecialKeepsInv(m: Meta, c: nat)
    requires Inv(m)
    ensures Inv(SendIfSpecial(m, c))
  {
    SendKbdKeepsInv(m);
  }

  lemma StepKeepsInv(m: Meta, op: Op, hideMarkers: bool)
    requires Inv(m)
    ensures Inv(Step(m, op, hideMarkers))
  {
    match op
    case Key(now, c) =>
      KeyKeepsInv(m, now, c, hideMarkers);
    case _ =>
      SendKbdKeepsInv(m);
  }

  lemma {:induction false} RunKeepsInv(m: Meta, ops: seq<Op>, hideMarkers: bool)
    requires Inv(m)
    ensures Inv(Run(m, ops, hideMarkers))
    decreases |ops|
  {
    if ops != [] {
      StepKeepsInv(m, ops[0], hideMarkers);
      RunKeepsInv(Step(m, ops[0], hideMarkers), ops[1..], hideMarkers);
    }
  }

  // ---- masked input ----

  /** Two operations that may only differ in which character was typed. */
  predicate Alike(a: Op, b: Op) {
    a == b || (a.Key? && b.Key? && a.now == b.now && (Special(a.c) <==> Special(b.c)))
  }

  /** Whether two runs only differ in characters typed under the mask. */
  ghost predicate DifferUnderMask(m: Meta, a: seq<Op>, b: seq<Op>, hideMarkers: bool)
    decreases |a|
  {
    |a| == |b| && (a != [] ==>
                     && (if m.masked then Alike(a[0], b[0]) else a[0] == b[0])
                     && DifferUnderMask(Step(m, a[0], hideMarkers), a[1..], b[1..], hideMarkers))
  }

  /** Nothing of a masked character reaches the log, except that enter and tab end an entry. */
  lemma {:induction false} MaskedCharactersStaySecret(m: Meta, a: seq<Op>, b: seq<Op>, hideMarkers: bool)
    requires DifferUnderMask(m, a, b, hideMarkers)
    ensures Run(m, a, hideMarkers) == Run(m, b, hideMarkers)
    decreases |a|
  {
    if a != [] {
      assert Step(m, a[0], hideMarkers) == Step(m, b[0], hideMarkers);
      MaskedCharactersStaySecret(Step(m, a[0], hideMarkers), a[1..], b[1..], hideMarkers);
    }
  }

  /** And all that a masked key can add to the log is eight stars, whatever was hidden. */
  lemma MaskedKeyLogsStars(m: Meta, now: int, c: nat, hideMarkers: bool)
    requires Inv(m) && m.masked
    ensures var m' := Step(m, Key(now, c), hideMarkers);
            m'.Text() == [] && (m'.log == m.log || m'.log == m.log + [Keys(m.last, Stars())])
  {
    assert m.Text() == [];
    assert [] + Stars() == Stars();
  }

  // ---- nothing typed is lost, and backspace takes back one character ----

  function Logged(log: seq<Entry>): seq<byte> {
    if log == [] then []
    else
      var e := log[|log| - 1];
      Logged(log[..|log| - 1]) + if e.Keys? then e.data else []
  }

  /** All that is visible of the typed keys, logged or not yet. */
  function Visible(m: Meta): seq<byte> { Logged(m.log) + m.Text() }

  /** What a key adds. */
  function Shown(c: nat, hideMarkers: bool): seq<byte> {
    ShownAs(c, Filter(c), hideMarkers)
  }

  lemma LoggedAppend(log: seq<Entry>, e: Entry)
    ensures Logged(log + [e]) == Logged(log) + if e.Keys? then e.data else []
  {
    assert (log + [e])[..|log|] == log;
  }

  lemma SendKbdKeepsVisible(m: Meta)
    requires m.hidden == 0
    ensures Visible(SendKbd(m)) == Visible(m) && SendKbd(m).hidden == 0
  {
    if m.Text() != [] {
      LoggedAppend(m.log, Keys(m.last, m.Text()));
      assert m.Text() + [] == m.Text();
    }
  }

  lemma PushVisible(m: Meta, bytes: seq<byte>)
    requires m.hidden == 0
    ensures Visible(Push(m, bytes)) == Visible(m) + bytes && Push(m, bytes).hidden == 0
  {
    SendKbdKeepsVisible(m);
    PushText(m, bytes);
    var m' := MakeRoom(m, |bytes|);
    Regroup(Logged(m'.log), m'.Text(), bytes);
  }

  lemma AppendVisible(m: Meta, bytes: seq<byte>)
    requires m.hidden == 0
    ensures Visible(Append(m, bytes)) == Visible(m) + bytes && Append(m, bytes).hidden == 0
  {
    SendKbdKeepsVisible(m);
    AppendText(m, bytes);
    var m' := MakeRoom(m, |bytes|);
    Regroup(Logged(m'.log), m'.Text(), bytes);
  }

  lemma EraseVisible(m: Meta)
    requires m.chars != []
    ensures Visible(m) == Visible(Erase(m)) + m.chars[|m.chars| - 1]
  {
    ConcatLast(m.chars);
    var (e, l) := (Erase(m), m.chars[|m.chars| - 1]);
    assert Logged(m.log) + (m.committed + (Concat(e.chars) + l)) == Visible(e) + l;
  }

  /** What a key that is written as filtered adds. */
  function ShownAs(c: nat, filtered: Option<seq<byte>>, hideMarkers: bool): seq<byte> {
    match filtered
    case None => Utf32ToUtf8(c)
    case Some(text) => if !hideMarkers then text else if c == SLASH then Ascii("/") else []
  }

  lemma WriteVisible(m: Meta, c: nat, filtered: Option<seq<byte>>, hideMarkers: bool)
    requires m.hidden == 0 && (c == BACKSPACE ==> filtered.Some?)
    ensures var m' := Write(m, c, filtered, hideMarkers);
            && m'.hidden == 0 && m'.masked == m.masked
            && (if Erases(m, c) then m' == Erase(m)
                else Visible(m') == Visible(m) + ShownAs(c, filtered, hideMarkers))
  {
    match filtered
    case None =>
      PushVisible(m, Utf32ToUtf8(c));
    case Some(text) =>
      PushVisible(m, Ascii("/"));
      PushVisible(m, text);
      AppendVisible(m, text);
      assert Commit(m).Text() == m.Text();
      assert Visible(m) + [] == Visible(m);
  }

  /** An unmasked key adds its text at the end of what is visible, or takes back the last character that
      was not logged yet, all its bytes and no others. */
  lemma KeyIsShown(m: Meta, now: int, c: nat, hideMarkers: bool)
    requires !m.masked && m.hidden == 0
    ensures var m' := Step(m, Key(now, c), hideMarkers);
            && !m'.masked && m'.hidden == 0
            && (if Erases(m, c) then m'.log == m.log && Visible(m) == Visible(m') + m.chars[|m.chars| - 1]
                else Visible(m') == Visible(m) + Shown(c, hideMarkers))
  {
    var w := WriteKeys(m, c, hideMarkers);
    WriteVisible(m, c, Filter(c), hideMarkers);
    if Erases(m, c) {
      EraseVisible(m);
    }
    SendKbdKeepsVisible(w);
  }

  function AllShown(ops: seq<Op>, hideMarkers: bool): seq<byte> {
    if ops == [] then []
    else
      (if ops[0].Key? then Shown(ops[0].c, hideMarkers) else []) + AllShown(ops[1..], hideMarkers)
  }

  /** Without mask and backspace, the logged entries and the buffer are the typed text, cut anywhere. */
  lemma {:induction false} NothingTypedIsLost(m: Meta, ops: seq<Op>, hideMarkers: bool)
    requires !m.masked && m.hidden == 0
    requires forall i :: 0 <= i < |ops| ==> ops[i] != Mask(true) && !(ops[i].Key? && ops[i].c == BACKSPACE)
    ensures Visible(Run(m, ops, hideMarkers)) == Visible(m) + AllShown(ops, hideMarkers)
    decreases |ops|
  {
    if ops == [] {
      assert Visible(m) + [] == Visible(m);
    } else {
      StepIsShown(m, ops[0], hideMarkers);
      var shown := if ops[0].Key? then Shown(ops[0].c, hideMarkers) else [];
      NothingTypedIsLost(Step(m, ops[0], hideMarkers), ops[1..], hideMarkers);
      Regroup(Visible(m), shown, AllShown(ops[1..], hideMarkers));
    }
  }

  lemma StepIsShown(m: Meta, op: Op, hideMarkers: bool)
    requires !m.masked && m.hidden == 0 && op != Mask(true) && !(op.Key? && op.c == BACKSPACE)
    ensures var m' := Step(m, op, hideMarkers);
            && !m'.masked && m'.hidden == 0
            && Visible(m') == Visible(m) + if op.Key? then Shown(op.c, hideMarkers) else []
  {
    SendKbdKeepsVisible(m);
    assert Visible(m) + [] == Visible(m);
    match op
    case Key(now, c) =>
      KeyIsShown(m, now, c, hideMarkers);
    case Log(now, data) =>
      LoggedAppend(m.log, Line(now, data));
    case _ =>
  }

  /** The keys that go on the stack. */
  predicate Erasable(c: nat) { Filter(c).None? || c == SLASH }

  function Typed(now: int, cs: seq<nat>): (r: seq<Op>)
    ensures |r| == |cs|
  {
    seq(|cs|, i requires 0 <= i < |cs| => Key(now, cs[i]))
  }

  function Size(cs: seq<nat>, hideMarkers: bool): nat {
    if cs == [] then 0 else |Shown(cs[0], hideMarkers)| + Size(cs[1..], hideMarkers)
  }

  predicate SameText(a: Meta, b: Meta) {
    a.log == b.log && a.committed == b.committed && a.chars == b.chars && a.masked == b.masked
  }

  lemma TypeKey(m: Meta, now: int, c: nat, hideMarkers: bool)
    requires !m.masked && Erasable(c) && |m.Text()| + |Shown(c, hideMarkers)| <= USABLE
    ensures var m' := Step(m, Key(now, c), hideMarkers);
            && SameText(m', m.(chars := m.chars + [Shown(c, hideMarkers)]))
            && |m'.Text()| == |m.Text()| + |Shown(c, hideMarkers)|
  {
    ConcatOne(m.chars, Shown(c, hideMarkers));
  }

  lemma BackspaceKey(m: Meta, now: int, hideMarkers: bool)
    requires !m.masked && m.chars != []
    ensures SameText(Step(m, Key(now, BACKSPACE), hideMarkers), Erase(m))
  {
  }

  lemma {:induction false} RunAppend(m: Meta, a: seq<Op>, b: seq<Op>, hideMarkers: bool)
    ensures Run(m, a + b, hideMarkers) == Run(Run(m, a, hideMarkers), b, hideMarkers)
    decreases |a|
  {
    if a == [] {
      assert a + b == b;
    } else {
      assert (a + b)[1..] == a[1..] + b;
      RunAppend(Step(m, a[0], hideMarkers), a[1..], b, hideMarkers);
    }
  }

  function Backspaces(now: int, n: nat): (r: seq<Op>)
    ensures |r| == n
  {
    seq(n, _ => Key(now, BACKSPACE))
  }

  /** Characters of any width, then as many backspaces: the text, the stack and the log are what they
      were, as long as the characters fit the buffer. */
  lemma {:induction false} BackspacesUndo(m: Meta, now: int, cs: seq<nat>, hideMarkers: bool)
    requires !m.masked && forall i :: 0 <= i < |cs| ==> Erasable(cs[i])
    requires |m.Text()| + Size(cs, hideMarkers) <= USABLE
    ensures SameText(Run(m, Typed(now, cs) + Backspaces(now, |cs|), hideMarkers), m)
    decreases |cs|
  {
    if cs != [] {
      var n := |cs| - 1;
      var m1 := Step(m, Key(now, cs[0]), hideMarkers);
      TypeKey(m, now, cs[0], hideMarkers);
      BackspacesUndo(m1, now, cs[1..], hideMarkers);
      var inner := Typed(now, cs[1..]) + Backspaces(now, n);
      var m2 := Run(m1, inner, hideMarkers);
      BackspaceKey(m2, now, hideMarkers);
      assert Erase(m2).chars == m.chars;
      var back := [Key(now, BACKSPACE)];
      RunAppend(m1, inner, back, hideMarkers);
      assert Run(m2, back, hideMarkers) == Step(m2, back[0], hideMarkers) by {
        assert back[1..] == [];
      }
      var all := Typed(now, cs) + Backspaces(now, |cs|);
      assert all == [Key(now, cs[0])] + (inner + back);
      assert all[1..] == inner + back;
    }
  }
}
