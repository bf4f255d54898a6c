/** The authorization of virtual channels: two lists of names with wildcards become a decision for each
    channel and for each of the features of three of them. */
module ChannelsAuthorizations {
  import opened ChannelLists

  /** The characters of a C string. */
  predicate ZString(s: string) {
    forall i :: 0 <= i < |s| ==> 0 < s[i] as int < 256
  }

  function Lower(c: char): (r: char)
    ensures 0 < c as int < 256 ==> 0 < r as int < 256
  {
    if 'A' <= c <= 'Z' then c + 32 as char else c
  }

  /** A name of at most seven characters as a number, upper and lower case being the same. */
  function NameId(name: string): nat {
    if name == "" then 0 else Lower(name[0]) as int + 256 * NameId(name[1..])
  }

  function LowerAll(name: string): (r: string)
    ensures |r| == |name|
  {
    seq(|name|, i requires 0 <= i < |name| => Lower(name[i]))
  }

  lemma {:induction false} NameIdInjective(a: string, b: string)
    requires ZString(a) && ZString(b)
    ensures NameId(a) == NameId(b) <==> LowerAll(a) == LowerAll(b)
    decreases |a|
  {
    if a == "" || b == "" {
      assert a != "" ==> NameId(a) > 0;
      assert b != "" ==> NameId(b) > 0;
    } else {
      NameIdInjective(a[1..], b[1..]);
      var (la, lb) := (LowerAll(a), LowerAll(b));
      assert la[1..] == LowerAll(a[1..]) && lb[1..] == LowerAll(b[1..]);
      assert la == [la[0]] + la[1..] && lb == [lb[0]] + lb[1..];
    }
  }

  lemma NameIdPositive(name: string)
    requires ZString(name) && name != ""
    ensures NameId(name) > 0
  {
  }

  const CLIPRDR: nat := NameId("cliprdr")
  const RDPDR: nat := NameId("rdpdr")
  const RDPSND: nat := NameId("rdpsnd")

  function Cliprdr(): seq<string> { ["cliprdr_up", "cliprdr_down", "cliprdr_file"] }

  function Rdpdr(): seq<string> {
    ["rdpdr_printer", "rdpdr_port", "rdpdr_drive_read", "rdpdr_drive_write", "rdpdr_smartcard"]
  }

  function Rdpsnd(): seq<string> { ["rdpsnd_audio_output"] }
  function Rdpcap(): seq<string> { ["rdpcap_audio_input"] }

  // ---- what a list says ----

  predicate Star(name: string) { Trim(name) != "" && Trim(name)[0] == '*' }
  predicate Short(name: string) { 1 <= |Trim(name)| <= 7 && !Star(name) }
  predicate Large(name: string) { 8 <= |Trim(name)| && !Star(name) }

  predicate HasStar(names: seq<string>) {
    exists i :: 0 <= i < |names| && Star(names[i])
  }

  predicate HasId(names: seq<string>, id: nat) {
    exists i :: 0 <= i < |names| && Short(names[i]) && NameId(Trim(names[i])) == id
  }

  predicate HasLarge(names: seq<string>, name: string) {
    exists i :: 0 <= i < |names| && Large(names[i]) && Trim(names[i]) == name
  }

  /** Whether a feature is granted: deny wins, and the wildcard of the allow list only counts when the
      deny list has none. */
  predicate Granted(allow: seq<string>, deny: seq<string>, channel: nat, feature: string) {
    && !HasId(deny, channel) && !HasLarge(deny, feature)
    && ((HasStar(allow) && !HasStar(deny)) || HasId(allow, channel) || HasLarge(allow, feature))
  }

  function Flags(allow: seq<string>, deny: seq<string>, channel: nat, features: seq<string>): (r: seq<bool>)
    ensures |r| == |features|
    ensures forall i :: 0 <= i < |r| ==> r[i] == Granted(allow, deny, channel, features[i])
  {
    seq(|features|, i requires 0 <= i < |features| => Granted(allow, deny, channel, features[i]))
  }

  /** Whether a channel that has no features is authorized. */
  predicate Listed(allow: seq<string>, deny: seq<string>, id: nat) {
    if HasStar(deny) then HasId(allow, id)
    else if HasStar(allow) then !HasId(deny, id)
    else !HasId(deny, id) && HasId(allow, id)
  }

  // ---- the constructor ----

  lemma SplitZString(s: string)
    requires ZString(s)
    ensures forall i :: 0 <= i < |Split(s)| ==> ZString(Split(s)[i])
    decreases |s|
  {
    var h := Head(s);
    if |h| < |s| {
      SplitZString(s[|h| + 1..]);
      assert Split(s)[1..] == Split(s[|h| + 1..]);
    }
  }

  lemma {:induction false} TrimLeftZString(s: string)
    requires ZString(s)
    ensures ZString(TrimLeft(s))
    decreases |s|
  {
    if s != [] && Blank(s[0]) {
      TrimLeftZString(s[1..]);
    }
  }

  lemma {:induction false} TrimRightZString(s: string)
    requires ZString(s)
    ensures ZString(TrimRight(s))
    decreases |s|
  {
    if s != [] && Blank(s[|s| - 1]) {
      TrimRightZString(s[..|s| - 1]);
    }
  }

  lemma TrimZString(s: string)
    requires ZString(s)
    ensures ZString(Trim(s))
  {
    TrimLeftZString(s);
    TrimRightZString(TrimLeft(s));
  }

  /** The short and the long names of a list. */
  ghost predicate NamesOf(names: seq<string>, ids: seq<nat>, large: seq<string>) {
    && (forall id :: id in ids <==> HasId(names, id))
    && (forall name :: name in large <==> HasLarge(names, name))
  }

  /** The short names of a list that name no channel with features. */
  ghost predicate OthersOf(names: seq<string>, ids: seq<nat>) {
    forall id :: id in ids <==> HasId(names, id) && !OwnChannel(id)
  }

  /** The names of a list by kind. */
  method Extract(list: string) returns (all: bool, ids: seq<nat>, large: seq<string>)
    requires ZString(list)
    ensures all <==> HasStar(Split(list))
    ensures NamesOf(Split(list), ids, large) && 0 !in ids
  {
    all, ids, large := false, [], [];
    var pieces := Split(list);
    SplitZString(list);
    for k := 0 to |pieces|
      invariant all <==> HasStar(pieces[..k])
      invariant forall id :: id in ids <==> HasId(pieces[..k], id)
      invariant forall name :: name in large <==> HasLarge(pieces[..k], name)
      invariant 0 !in ids
    {
      var name := Trim(pieces[k]);
      TrimZString(pieces[k]);
      Extended(pieces, k);
      if name != "" {
        if name[0] == '*' {
          all := true;
        } else if |name| <= 7 {
          NameIdPositive(name);
          ids := ids + [NameId(name)];
        } else {
          large := large + [name];
        }
      }
    }
    assert pieces[..|pieces|] == pieces;
  }

  lemma Extended(names: seq<string>, k: nat)
    requires k < |names|
    ensures HasStar(names[..k + 1]) <==> HasStar(names[..k]) || Star(names[k])
    ensures forall id :: HasId(names[..k + 1], id)
                         <==> HasId(names[..k], id) || (Short(names[k]) && NameId(Trim(names[k])) == id)
    ensures forall name :: HasLarge(names[..k + 1], name)
                           <==> HasLarge(names[..k], name) || (Large(names[k]) && Trim(names[k]) == name)
  {
    var (a, b) := (names[..k], names[..k + 1]);
    assert b[k] == names[k] && forall i :: 0 <= i < k ==> a[i] == b[i];
    assert HasStar(b) <==> HasStar(a) || Star(names[k]) by {
      if HasStar(a) {
        var i :| 0 <= i < |a| && Star(a[i]);
        assert Star(b[i]);
      }
    }
    forall id ensures HasId(b, id) <==> HasId(a, id) || (Short(names[k]) && NameId(Trim(names[k])) == id) {
      if HasId(a, id) {
        var i :| 0 <= i < |a| && Short(a[i]) && NameId(Trim(a[i])) == id;
        assert Short(b[i]);
      }
    }
    forall name ensures HasLarge(b, name) <==> HasLarge(a, name) || (Large(names[k]) && Trim(names[k]) == name) {
      if HasLarge(a, name) {
        var i :| 0 <= i < |a| && Large(a[i]) && Trim(a[i]) == name;
        assert Large(b[i]);
      }
    }
  }

  /** Takes a channel out of the short names, and sets its features: all of them when it was there,
      otherwise those among the long names. */
  method Normalize(ids: seq<nat>, large: seq<string>, channel: nat, set_: bool, values: seq<bool>, features: seq<string>)
    returns (ids': seq<nat>, values': seq<bool>)
    requires |values| == |features|
    ensures forall id :: id in ids' <==> id in ids && id != channel
    ensures |values'| == |values|
    ensures forall i :: 0 <= i < |values| ==>
                          values'[i] == if channel in ids || features[i] in large then set_ else values[i]
  {
    ids' := [];
    for k := 0 to |ids|
      invariant forall id :: id in ids' <==> id in ids[..k] && id != channel
      invariant |ids'| <= k && (|ids'| == k <==> channel !in ids[..k])
    {
      assert ids[..k + 1] == ids[..k] + [ids[k]];
      if ids[k] != channel {
        ids' := ids' + [ids[k]];
      }
    }
    assert ids[..|ids|] == ids;
    if |ids'| != |ids| {
      values' := seq(|values|, _ => set_);
      return;
    }
    values' := values;
    if large == [] {
      return;
    }
    for k := 0 to |features|
      invariant |values'| == |values|
      invariant forall i :: 0 <= i < k ==> values'[i] == if features[i] in large then set_ else values[i]
      invariant forall i :: k <= i < |values| ==> values'[i] == values[i]
    {
      if features[k] in large {
        values' := values'[k := set_];
      }
    }
  }

  /** Sorted, each once: std::sort and std::unique. */
  method Optimize(ids: seq<nat>) returns (r: seq<nat>)
    ensures forall id :: id in r <==> id in ids
    ensures forall i, j :: 0 <= i < j < |r| ==> r[i] < r[j]
  {
    r := [];
    for k := 0 to |ids|
      invariant forall id :: id in r <==> id in ids[..k]
      invariant forall i, j :: 0 <= i < j < |r| ==> r[i] < r[j]
    {
      assert ids[..k + 1] == ids[..k] + [ids[k]];
      r := Insert(r, ids[k]);
    }
    assert ids[..|ids|] == ids;
  }

  method Insert(s: seq<nat>, x: nat) returns (r: seq<nat>)
    requires forall i, j :: 0 <= i < j < |s| ==> s[i] < s[j]
    ensures forall id :: id in r <==> id in s || id == x
    ensures forall i, j :: 0 <= i < j < |r| ==> r[i] < r[j]
  {
    var p := 0;
    while p < |s| && s[p] < x
      invariant 0 <= p <= |s| && forall i :: 0 <= i < p ==> s[i] < x
    {
      p := p + 1;
    }
    if p < |s| && s[p] == x {
      r := s;
    } else {
      r := s[..p] + [x] + s[p..];
      assert s == s[..p] + s[p..];
    }
  }

  datatype DeviceType = Serial | Parallel | Printer | Filesystem | Smartcard | OtherDevice

  class ChannelsAuthorizations {
    var allowAndDeny: seq<nat>
    var pivot: nat
    var allAllow: bool
    var allDeny: bool
    var cliprdr: seq<bool>
    var rdpdr: seq<bool>
    var rdpsnd: seq<bool>
    var rdpcap: seq<bool>

    ghost predicate Valid()
      reads this
    {
      pivot <= |allowAndDeny| && |cliprdr| == 3 && |rdpdr| == 5 && |rdpsnd| == 1 && |rdpcap| == 1
    }

    /** The decisions are those of the two lists. */
    ghost predicate Decides(allow: seq<string>, deny: seq<string>)
      reads this
    {
      && Valid()
      && FlagsDecide(allow, deny)
      && (forall id :: IsAuthorized(id) <==> AuthorizedBy(allow, deny, id))
    }

    predicate IsAuthorized(id: nat)
      requires Valid()
      reads this
    {
      if allDeny then id in allowAndDeny[..pivot]
      else if allAllow then id !in allowAndDeny[pivot..]
      else id !in allowAndDeny[pivot..] && id in allowAndDeny[..pivot]
    }

    predicate CliprdrUp() requires Valid() reads this { cliprdr[0] }
    predicate CliprdrDown() requires Valid() reads this { cliprdr[1] }
    predicate CliprdrFile() requires Valid() reads this { cliprdr[2] }
    predicate DriveRead() requires Valid() reads this { rdpdr[2] }
    predicate DriveWrite() requires Valid() reads this { rdpdr[3] }
    predicate AudioOutput() requires Valid() reads this { rdpsnd[0] }
    predicate AudioInput() requires Valid() reads this { rdpcap[0] }

    /** rdpdr_type_is_authorized */
    predicate DeviceIsAuthorized(t: DeviceType)
      requires Valid()
      reads this
    {
      match t
      case Serial | Parallel => rdpdr[1]
      case Printer => rdpdr[0]
      case Filesystem => rdpdr[2] || rdpdr[3]
      case Smartcard => rdpdr[4]
      case OtherDevice => false
    }

    predicate AllDevicesAuthorized()
      requires Valid()
      reads this
    {
      DeviceIsAuthorized(Serial) && DeviceIsAuthorized(Printer) && DeviceIsAuthorized(Filesystem)
      && DeviceIsAuthorized(Smartcard)
    }

    /** The features of the three channels, and sound input, in the order of their options. */
    predicate Flag(i: nat)
      requires Valid() && i < 10
      reads this
    {
      if i < 3 then cliprdr[i] else if i < 8 then rdpdr[i - 3] else if i == 8 then rdpsnd[0] else rdpcap[0]
    }

    constructor (allow: string, deny: string)
      requires ZString(allow) && ZString(deny)
      ensures Decides(Split(allow), Split(deny))
    {
      cliprdr, rdpdr, rdpsnd, rdpcap := [false, false, false], [false, false, false, false, false], [false], [false];
      pivot, allowAndDeny := 0, [];
      new;
      assert AllFlags(false);
      var allowIds, allowLarge, denyIds, denyLarge;
      allAllow, allowIds, allowLarge := Extract(allow);
      allDeny, denyIds, denyLarge := Extract(deny);
      if allAllow && !allDeny {
        Fill();
      }
      allowIds, denyIds := NormalizeBoth(allowIds, allowLarge, denyIds, denyLarge, Split(allow), Split(deny));
      Store(allowIds, denyIds, Split(allow), Split(deny));
    }

    ghost predicate AllFlags(b: bool)
      reads this
    {
      Every(cliprdr, b) && Every(rdpdr, b) && Every(rdpsnd, b) && Every(rdpcap, b)
    }

    method Fill()
      modifies this`cliprdr, this`rdpdr, this`rdpsnd, this`rdpcap
      ensures AllFlags(true) && |cliprdr| == 3 && |rdpdr| == 5 && |rdpsnd| == 1 && |rdpcap| == 1
    {
      cliprdr, rdpdr, rdpsnd, rdpcap := [true, true, true], [true, true, true, true, true], [true], [true];
    }

    /** The features. */
    ghost predicate FlagsDecide(allow: seq<string>, deny: seq<string>)
      reads this
    {
      && cliprdr == Flags(allow, deny, CLIPRDR, Cliprdr())
      && rdpdr == Flags(allow, deny, RDPDR, Rdpdr())
      && rdpsnd == Flags(allow, deny, RDPSND, Rdpsnd())
      && rdpcap == Flags(allow, deny, 0, Rdpcap())
    }

    method NormalizeBoth(allowIds: seq<nat>, allowLarge: seq<string>, denyIds: seq<nat>, denyLarge: seq<string>,
                         ghost allow: seq<string>, ghost deny: seq<string>)
      returns (allowIds': seq<nat>, denyIds': seq<nat>)
      requires Valid() && 0 !in allowIds && 0 !in denyIds
      requires NamesOf(allow, allowIds, allowLarge) && NamesOf(deny, denyIds, denyLarge)
      requires allAllow == HasStar(allow) && allDeny == HasStar(deny)
      requires AllFlags(allAllow && !allDeny)
      modifies this`cliprdr, this`rdpdr, this`rdpsnd, this`rdpcap
      ensures Valid() && FlagsDecide(allow, deny)
      ensures OthersOf(allow, allowIds') && OthersOf(deny, denyIds')
    {
      ghost var (c0, d0, s0, p0) := (cliprdr, rdpdr, rdpsnd, rdpcap);
      allowIds' := NormalizeAll(true, allowIds, allowLarge);
      ghost var (c1, d1, s1, p1) := (cliprdr, rdpdr, rdpsnd, rdpcap);
      denyIds' := NormalizeAll(false, denyIds, denyLarge);
      TwoPasses(allow, deny, c0, c1, cliprdr, allowIds, allowLarge, denyIds, denyLarge, CLIPRDR, Cliprdr());
      TwoPasses(allow, deny, d0, d1, rdpdr, allowIds, allowLarge, denyIds, denyLarge, RDPDR, Rdpdr());
      TwoPasses(allow, deny, s0, s1, rdpsnd, allowIds, allowLarge, denyIds, denyLarge, RDPSND, Rdpsnd());
      TwoPasses(allow, deny, p0, p1, rdpcap, allowIds, allowLarge, denyIds, denyLarge, 0, Rdpcap());
    }

    /** The two sorted lists, one behind the other. */
    method Store(allowIds: seq<nat>, denyIds: seq<nat>, ghost allow: seq<string>, ghost deny: seq<string>)
      requires Valid() && FlagsDecide(allow, deny) && allAllow == HasStar(allow) && allDeny == HasStar(deny)
      requires OthersOf(allow, allowIds) && OthersOf(deny, denyIds)
      modifies this`allowAndDeny, this`pivot
      ensures Decides(allow, deny)
    {
      var a, d := AddChannels(allowIds, denyIds);
      a := Optimize(a);
      d := Optimize(d);
      allowAndDeny := a + d;
      pivot := |a|;
      assert allowAndDeny[..pivot] == a && allowAndDeny[pivot..] == d;
    }

    /** The features of the four channels after one of the lists. */
    method NormalizeAll(set_: bool, ids: seq<nat>, large: seq<string>) returns (ids': seq<nat>)
      requires Valid() && 0 !in ids
      modifies this`cliprdr, this`rdpdr, this`rdpsnd, this`rdpcap
      ensures Valid()
      ensures forall id :: id in ids' <==> id in ids && !OwnChannel(id)
      ensures Updated(old(cliprdr), cliprdr, set_, ids, large, CLIPRDR, Cliprdr())
      ensures Updated(old(rdpdr), rdpdr, set_, ids, large, RDPDR, Rdpdr())
      ensures Updated(old(rdpsnd), rdpsnd, set_, ids, large, RDPSND, Rdpsnd())
      ensures Updated(old(rdpcap), rdpcap, set_, ids, large, 0, Rdpcap())
    {
      Distinct();
      ids', cliprdr := Normalize(ids, large, CLIPRDR, set_, cliprdr, Cliprdr());
      ids', rdpdr := Normalize(ids', large, RDPDR, set_, rdpdr, Rdpdr());
      ids', rdpsnd := Normalize(ids', large, RDPSND, set_, rdpsnd, Rdpsnd());
      ids', rdpcap := Normalize(ids', large, 0, set_, rdpcap, Rdpcap());
    }

    /** The three channels go to one of the lists, by their features. */
    method AddChannels(allowIds: seq<nat>, denyIds: seq<nat>) returns (allowIds': seq<nat>, denyIds': seq<nat>)
      requires Valid()
      ensures forall id :: id in allowIds' <==> id in allowIds || (OwnChannel(id) && FeatureAllows(cliprdr, rdpdr, rdpsnd, id))
      ensures forall id :: id in denyIds' <==> id in denyIds || (OwnChannel(id) && !FeatureAllows(cliprdr, rdpdr, rdpsnd, id))
    {
      Distinct();
      allowIds', denyIds' := allowIds, denyIds;
      if CliprdrUp() || CliprdrDown() {
        allowIds' := allowIds' + [CLIPRDR];
      } else {
        denyIds' := denyIds' + [CLIPRDR];
      }
      if true in rdpdr || true in rdpsnd {
        allowIds' := allowIds' + [RDPDR, RDPSND];
      } else {
        denyIds' := denyIds' + [RDPDR, RDPSND];
      }
    }
  }

  predicate OwnChannel(id: nat) {
    id == CLIPRDR || id == RDPDR || id == RDPSND
  }

  /** A channel with features is open when one of its features is; printers, drives and sounds share a
      decision, and files alone do not open the clipboard. */
  predicate FeatureAllows(cliprdr: seq<bool>, rdpdr: seq<bool>, rdpsnd: seq<bool>, id: nat)
    requires |cliprdr| == 3
  {
    if id == CLIPRDR then cliprdr[0] || cliprdr[1] else true in rdpdr || true in rdpsnd
  }

  predicate AuthorizedBy(allow: seq<string>, deny: seq<string>, id: nat) {
    if OwnChannel(id) then
      FeatureAllows(Flags(allow, deny, CLIPRDR, Cliprdr()), Flags(allow, deny, RDPDR, Rdpdr()),
                    Flags(allow, deny, RDPSND, Rdpsnd()), id)
    else Listed(allow, deny, id)
  }

  predicate Every(values: seq<bool>, b: bool) {
    forall i :: 0 <= i < |values| ==> values[i] == b
  }

  lemma TwoPasses(allow: seq<string>, deny: seq<string>, v0: seq<bool>, v1: seq<bool>, v2: seq<bool>,
                  allowIds: seq<nat>, allowLarge: seq<string>, denyIds: seq<nat>, denyLarge: seq<string>,
                  channel: nat, features: seq<string>)
    requires NamesOf(allow, allowIds, allowLarge) && NamesOf(deny, denyIds, denyLarge)
    requires Every(v0, HasStar(allow) && !HasStar(deny))
    requires Updated(v0, v1, true, allowIds, allowLarge, channel, features)
    requires Updated(v1, v2, false, denyIds, denyLarge, channel, features)
    ensures v2 == Flags(allow, deny, channel, features)
  {
    forall i | 0 <= i < |features| ensures v2[i] == Granted(allow, deny, channel, features[i]) {
    }
  }

  predicate Updated(before: seq<bool>, after: seq<bool>, set_: bool, ids: seq<nat>, large: seq<string>, channel: nat,
                    features: seq<string>)
  {
    && |before| == |after| == |features|
    && forall i :: 0 <= i < |after| ==>
         after[i] == if channel in ids || features[i] in large then set_ else before[i]
  }

  lemma LengthsDiffer(a: string, b: string)
    requires ZString(a) && ZString(b) && |a| != |b|
    ensures NameId(a) != NameId(b)
  {
    NameIdInjective(a, b);
    assert |LowerAll(a)| != |LowerAll(b)|;
  }

  lemma Distinct()
    ensures CLIPRDR != RDPDR && CLIPRDR != RDPSND && RDPDR != RDPSND
    ensures CLIPRDR > 0 && RDPDR > 0 && RDPSND > 0
  {
    var (c, r, s) := ("cliprdr", "rdpdr", "rdpsnd");
    LengthsDiffer(c, r);
    LengthsDiffer(c, s);
    LengthsDiffer(r, s);
    NameIdPositive(c);
    NameIdPositive(r);
    NameIdPositive(s);
  }

  /** Whatever the lists and their wildcards: the clipboard channel is open if and only if copying is, one
      way or the other, and devices and sound are both open if and only if one of their features is. */
  lemma ChannelsFollowFeatures(c: ChannelsAuthorizations, allow: seq<string>, deny: seq<string>)
    requires c.Decides(allow, deny)
    ensures c.IsAuthorized(CLIPRDR) <==> c.Flag(0) || c.Flag(1)
    ensures c.IsAuthorized(RDPDR) <==> exists i :: 3 <= i <= 8 && c.Flag(i)
    ensures c.IsAuthorized(RDPSND) <==> c.IsAuthorized(RDPDR)
  {
    Distinct();
    assert c.IsAuthorized(RDPDR) <==> true in c.rdpdr || true in c.rdpsnd;
    assert forall i :: 3 <= i < 8 ==> c.Flag(i) == c.rdpdr[i - 3];
    if true in c.rdpdr {
      var k :| 0 <= k < 5 && c.rdpdr[k];
      assert c.Flag(k + 3);
    } else if true in c.rdpsnd {
      assert c.Flag(8);
    }
  }
}
