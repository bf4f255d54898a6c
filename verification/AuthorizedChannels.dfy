/** The options of the proxy written into the channel lists: the text rewriting, and what the lists
    then authorize. */
module AuthorizedChannels {
  import opened ChannelLists
  import opened ChannelsAuthorizations

  // ---- the options and the features they stand for, in the same order ----

  function Options(): (r: seq<string>)
    ensures |r| == 10
  {
    ["RDP_CLIPBOARD_UP", "RDP_CLIPBOARD_DOWN", "RDP_CLIPBOARD_FILE",
     "RDP_PRINTER", "RDP_COM_PORT", "RDP_DRIVE_READ", "RDP_DRIVE_WRITE", "RDP_SMARTCARD",
     "RDP_AUDIO_OUTPUT", "RDP_AUDIO_INPUT"]
  }

  function Features(): (r: seq<string>)
    ensures |r| == 10
  {
    ["cliprdr_up", "cliprdr_down", "cliprdr_file",
     "rdpdr_printer", "rdpdr_port", "rdpdr_drive_read", "rdpdr_drive_write", "rdpdr_smartcard",
     "rdpsnd_audio_output", "rdpcap_audio_input"]
  }

  /** What the original lists lose; sound input is no static channel and stays. */
  function Removed(): (r: seq<string>)
    ensures |r| == 12
  {
    ["cliprdr", "rdpdr", "rdpsnd", "cliprdr_up", "cliprdr_down", "cliprdr_file",
     "rdpdr_printer", "rdpdr_port", "rdpdr_drive_read", "rdpdr_drive_write", "rdpdr_smartcard",
     "rdpsnd_audio_output"]
  }

  predicate Matches(s: string, i: nat, x: string) { i + |x| <= |s| && s[i..i + |x|] == x }

  ghost predicate Contains(s: string, x: string) { exists i: nat :: Matches(s, i, x) }

  function RemoveAll(s: string, rs: seq<string>): string
    decreases |rs|
  {
    if rs == [] then s else RemoveAll(Remove(s, rs[0] + ","), rs[1..])
  }

  function Chop(s: string): string {
    if s != "" && s[|s| - 1] == ',' then s[..|s| - 1] else s
  }

  function Strip(s: string): string {
    if s != "" && s[|s| - 1] == ',' then Strip(s[..|s| - 1]) else s
  }

  const DRIVE: string := "RDP_DRIVE"
  const DRIVE_BOTH: string := "RDP_DRIVE_READ,RDP_DRIVE_WRITE"

  /** The option string as it is searched. */
  function Normalized(opt: string): string {
    var o := Strip(opt) + ",";
    var r := Remove(o, DRIVE + ",");
    Chop(if r != o then r + DRIVE_BOTH else r)
  }

  /** The features that are added to a list, for the options looked at so far. */
  function Chosen(given: seq<bool>, b: bool): (r: seq<string>)
    requires |given| <= 10
  {
    if given == [] then []
    else
      var n := |given| - 1;
      Chosen(given[..n], b) + if given[n] == b then [Features()[n]] else []
  }

  function Added(names: seq<string>): string {
    if names == [] then "" else Added(names[..|names| - 1]) + "," + names[|names| - 1]
  }

  /** Which of the first options the string contains. */
  ghost predicate Found(opt: string, given: seq<bool>) {
    |given| <= 10 && forall i :: 0 <= i < |given| ==> given[i] == Contains(opt, Options()[i])
  }

  ghost predicate Given(opt: string, given: seq<bool>) { |given| == 10 && Found(Normalized(opt), given) }

  // ---- the code ----

  method Find(s: string, x: string, pos: nat) returns (i: int)
    requires pos <= |s| && x != ""
    ensures i == -1 || (pos <= i && Matches(s, i, x))
    ensures forall j :: pos <= j < (if i == -1 then |s| else i) ==> !Matches(s, j, x)
  {
    i := pos;
    while i + |x| <= |s|
      invariant pos <= i <= |s| && forall j :: pos <= j < i ==> !Matches(s, j, x)
    {
      if s[i..i + |x|] == x {
        return;
      }
      i := i + 1;
    }
    i := -1;
  }

  lemma {:induction false} RemoveUntil(s: string, pos: nat, i: nat, x: string)
    requires pos <= i <= |s| && x != "" && forall j :: pos <= j < i ==> !Matches(s, j, x)
    ensures Remove(s[pos..], x) == s[pos..i] + Remove(s[i..], x)
    decreases i - pos
  {
    if pos == i {
      assert s[pos..i] == "" && "" + Remove(s[i..], x) == Remove(s[i..], x);
    } else {
      var t := s[pos..];
      assert !Matches(s, pos, x);
      assert |t| >= |x| ==> t[..|x|] == s[pos..pos + |x|];
      ShortRemove(t, x);
      assert t[1..] == s[pos + 1..];
      RemoveUntil(s, pos + 1, i, x);
      assert s[pos..i] == [s[pos]] + s[pos + 1..i];
    }
  }

  /** The remove lambda. */
  method RemoveFrom(str0: string, pattern: string) returns (str: string, removed: bool)
    requires pattern != ""
    ensures str == Remove(str0, pattern) && (removed <==> str != str0)
  {
    str, removed := str0, false;
    var pos := 0;
    assert str0[0..] == str0;
    while true
      invariant pos <= |str| <= |str0| && str[..pos] + Remove(str[pos..], pattern) == Remove(str0, pattern)
      invariant removed <==> |str| < |str0|
      invariant !removed ==> str == str0
      decreases |str|
    {
      var i := Find(str, pattern, pos);
      if i == -1 {
        RemoveUntil(str, pos, |str|, pattern);
        Halves(str, pos);
        return;
      }
      var next := str[..i] + str[i + |pattern|..];
      EraseOne(str, pos, i, pattern);
      str, removed, pos := next, true, i;
    }
  }

  lemma EraseOne(s: string, pos: nat, i: nat, x: string)
    requires pos <= i && x != "" && Matches(s, i, x) && forall j :: pos <= j < i ==> !Matches(s, j, x)
    ensures var next := s[..i] + s[i + |x|..];
            s[..pos] + Remove(s[pos..], x) == next[..i] + Remove(next[i..], x)
  {
    var (next, after) := (s[..i] + s[i + |x|..], s[i + |x|..]);
    RemoveUntil(s, pos, i, x);
    RemoveHere(s, i, x);
    assert next[i..] == after && next[..i] == s[..i];
    Slices(s, pos, i, Remove(after, x));
  }

  lemma RemoveHere(s: string, i: nat, x: string)
    requires x != "" && Matches(s, i, x)
    ensures Remove(s[i..], x) == Remove(s[i + |x|..], x)
  {
    assert s[i..][..|x|] == s[i..i + |x|];
    assert s[i..][|x|..] == s[i + |x|..];
  }

  lemma Slices(s: string, i: nat, j: nat, t: string)
    requires i <= j <= |s|
    ensures s[..i] + (s[i..j] + t) == s[..j] + t
  {
  }

  lemma Halves(s: string, i: nat)
    requires i <= |s|
    ensures s[..i] + s[i..] == s && s[|s|..] == "" && s[i..|s|] + "" == s[i..]
  {
  }

  method RemoveEach(list: string) returns (s: string)
    ensures s == RemoveAll(list + ",", Removed())
  {
    s := list + ",";
    var rs := Removed();
    for k := 0 to |rs|
      invariant RemoveAll(s, rs[k..]) == RemoveAll(list + ",", rs)
    {
      assert rs[k..][0] == rs[k] && rs[k..][1..] == rs[k + 1..];
      var removed;
      s, removed := RemoveFrom(s, rs[k] + ",");
    }
  }

  method NormalizeOptions(proxyOpt: string) returns (opt: string)
    ensures opt == Normalized(proxyOpt)
  {
    opt := proxyOpt;
    while opt != "" && opt[|opt| - 1] == ','
      invariant Strip(opt) == Strip(proxyOpt)
      decreases |opt|
    {
      opt := opt[..|opt| - 1];
    }
    opt := opt + ",";
    var removed;
    opt, removed := RemoveFrom(opt, DRIVE + ",");
    if removed {
      opt := opt + DRIVE_BOTH;
    }
    if opt != "" && opt[|opt| - 1] == ',' {
      opt := opt[..|opt| - 1];
    }
  }

  method ComputeAuthorizedChannels(originalAllow: string, originalDeny: string, proxyOpt: string)
    returns (allow: string, deny: string, given: seq<bool>)
    ensures Given(proxyOpt, given)
    ensures allow == Chop(RemoveAll(originalAllow + ",", Removed())) + Added(Chosen(given, true))
    ensures deny == Chop(RemoveAll(originalDeny + ",", Removed())) + Added(Chosen(given, false))
  {
    var opt := NormalizeOptions(proxyOpt);
    allow := RemoveEach(originalAllow);
    deny := RemoveEach(originalDeny);
    allow, deny, given := AddFeatures(opt, Chop(allow), Chop(deny));
  }

  method AddFeatures(opt: string, a: string, d: string) returns (allow: string, deny: string, given: seq<bool>)
    ensures |given| == 10 && Found(opt, given)
    ensures allow == a + Added(Chosen(given, true)) && deny == d + Added(Chosen(given, false))
  {
    allow, deny, given := a, d, [];
    assert a + "" == a && d + "" == d;
    for i := 0 to 10
      invariant |given| == i && Found(opt, given)
      invariant allow == a + Added(Chosen(given, true)) && deny == d + Added(Chosen(given, false))
    {
      var found := Search(opt, i);
      FoundOne(opt, given, found);
      AddOne(allow, a, given, true, found);
      AddOne(deny, d, given, false, found);
      var feature := Features()[i];
      if found {
        allow := allow + "," + feature;
      } else {
        deny := deny + "," + feature;
      }
      given := given + [found];
    }
  }

  method Search(opt: string, i: nat) returns (found: bool)
    requires i < 10
    ensures found == Contains(opt, Options()[i])
  {
    var option := Options()[i];
    var f := Find(opt, option, 0);
    found := f != -1;
    if f != -1 {
      assert Matches(opt, f, option);
    }
  }

  lemma FoundOne(opt: string, given: seq<bool>, found: bool)
    requires Found(opt, given) && |given| < 10 && found == Contains(opt, Options()[|given|])
    ensures Found(opt, given + [found])
  {
    var more := given + [found];
    assert more[|given|] == found && forall i :: 0 <= i < |given| ==> more[i] == given[i];
  }

  /** The next option adds its feature to one of the lists. */
  lemma AddOne(text: string, start: string, given: seq<bool>, b: bool, found: bool)
    requires |given| < 10 && text == start + Added(Chosen(given, b))
    ensures (if found == b then text + "," + Features()[|given|] else text) == start + Added(Chosen(given + [found], b))
  {
    var (names, more, name) := (Chosen(given, b), given + [found], Features()[|given|]);
    assert more[..|given|] == given && more[|given|] == found;
    if found == b {
      var longer := names + [name];
      assert longer[..|longer| - 1] == names && longer[|longer| - 1] == name;
      assert start + Added(names) + "," + name == start + (Added(names) + "," + name);
    } else {
      assert names + [] == names;
    }
  }
}
