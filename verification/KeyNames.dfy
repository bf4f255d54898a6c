/** What is written of a key can be read back: the log of an unmasked session tells which keys were typed. */
module KeyNames {
  import opened Bytes
  import opened Utf8
  import opened K = KeyboardMeta

  /** The keys with a name, by two letters of it and its length. */
  function NamedKey(s: seq<byte>): (r: (nat, nat))
    requires |s| >= 5
  {
    var (a, b, c) := (s[2], s[3], s[4]);
    if a == 'b' as int then (0x08, 12) // backspace
    else if a == 't' as int then (0x09, 6) // tab
    else if a == 'e' as int && b == 'n' as int && c == 't' as int then (0x0D, 8) // enter
    else if a == 'e' as int && b == 's' as int then (0x1B, 9) // escape
    else if a == 'd' as int && b == 'e' as int then (0x7F, 9) // delete
    else if a == 'l' as int then (0x2190, 7) // left
    else if a == 'u' as int then (0x2191, 5) // up
    else if a == 'r' as int then (0x2192, 8) // right
    else if a == 'd' as int then (0x2193, 7) // down
    else if a == 'h' as int then (0x2196, 7) // home
    else (0x2198, 6) // end
  }

  /** The first key of a text, and the bytes after it: a slash is written twice, a name is between a slash and a
      bracket, and everything else is UTF-8. */
  function ReadKey(s: seq<byte>): (nat, seq<byte>)
    requires s != []
  {
    if s[0] != '/' as int then Decode(s)
    else if |s| >= 2 && s[1] == '/' as int then ('/' as int, s[2..])
    else if |s| < 5 || |s| < NamedKey(s).1 then (0, [])
    else (NamedKey(s).0, s[NamedKey(s).1..])
  }

  /** Characters that are written as they are. */
  predicate Readable(c: nat) { c <= 0x10FFFF && !LosesBit(c) }

  predicate HasName(c: nat) {
    c in {0x08, 0x09, 0x0D, 0x1B, 0x7F, 0x2190, 0x2191, 0x2192, 0x2193, 0x2196, 0x2198}
  }

  lemma NamesOfControls(c: nat)
    requires c in {0x08, 0x09, 0x0D, 0x1B, 0x7F}
    ensures Filter(c).Some?
    ensures var t := Filter(c).value; |t| >= 5 && t[0] == '/' as int && t[1] == '<' as int && NamedKey(t) == (c, |t|)
  {
  }

  lemma NamesOfArrows(c: nat)
    requires c in {0x2190, 0x2191, 0x2192, 0x2193, 0x2196, 0x2198}
    ensures Filter(c).Some?
    ensures var t := Filter(c).value; |t| >= 5 && t[0] == '/' as int && t[1] == '<' as int && NamedKey(t) == (c, |t|)
  {
  }

  lemma NameIsRead(c: nat, rest: seq<byte>)
    requires HasName(c)
    ensures Filter(c).Some? && ReadKey(Filter(c).value + rest) == (c, rest)
  {
    if c < 0x80 {
      NamesOfControls(c);
    } else {
      NamesOfArrows(c);
    }
    var t := Filter(c).value;
    var s := t + rest;
    assert s[0] == t[0] && s[1] == t[1] && s[2] == t[2] && s[3] == t[3] && s[4] == t[4];
    assert s[|t|..] == rest;
  }

  lemma PlainIsRead(c: nat, rest: seq<byte>)
    requires Readable(c) && Filter(c) == None
    ensures ReadKey(Utf32ToUtf8(c) + rest) == (c, rest)
  {
    StandardUnlessBitLost(c);
    StandardRoundTrip(c, rest);
    FirstByte(c);
    assert (Utf32ToUtf8(c) + rest)[0] == Utf32ToUtf8(c)[0];
  }

  lemma FirstByte(c: nat)
    requires c <= 0x10FFFF && c != '/' as int
    ensures Utf32ToUtf8(c)[0] != '/' as int
  {
  }

  /** Whatever was typed next, the first key is found, be it a character, the slash or a key with a name. */
  lemma KeyIsRead(c: nat, rest: seq<byte>)
    requires Readable(c)
    ensures ReadKey(Shown(c, false) + rest) == (c, rest)
    ensures HasName(c) || c == '/' as int <==> Filter(c).Some?
  {
    if HasName(c) {
      NameIsRead(c, rest);
    } else if c == '/' as int {
      assert Filter(c).value == ['/' as int, '/' as int];
      assert (Filter(c).value + rest)[2..] == rest;
    } else {
      PlainIsRead(c, rest);
    }
  }

  function AllShown(cs: seq<nat>): seq<byte> {
    if cs == [] then [] else Shown(cs[0], false) + AllShown(cs[1..])
  }

  predicate AllReadable(cs: seq<nat>) { forall i :: 0 <= i < |cs| ==> Readable(cs[i]) }

  lemma ShownIsSomething(c: nat)
    ensures |Shown(c, false)| >= 1
  {
  }

  /** Two different sequences of keys never leave the same text. */
  lemma {:induction false} TextTellsKeys(a: seq<nat>, b: seq<nat>)
    requires AllReadable(a) && AllReadable(b) && AllShown(a) == AllShown(b)
    ensures a == b
    decreases |a|
  {
    if a == [] || b == [] {
      if a != [] {
        ShownIsSomething(a[0]);
      }
      if b != [] {
        ShownIsSomething(b[0]);
      }
    } else {
      KeyIsRead(a[0], AllShown(a[1..]));
      KeyIsRead(b[0], AllShown(b[1..]));
      TextTellsKeys(a[1..], b[1..]);
      assert [a[0]] + a[1..] == a && [b[0]] + b[1..] == b;
    }
  }
}
