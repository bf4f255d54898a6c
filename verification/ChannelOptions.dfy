/** From the options of the proxy to the decisions: what a user gets is what the options say, whatever
    the original lists were. */
module ChannelOptions {
  import opened ChannelLists
  import opened ChannelsAuthorizations
  import opened AuthorizedChannels

  // ---- the lists ----

  function WithoutAll(names: seq<string>, rs: seq<string>): seq<string>
    decreases |rs|
  {
    if rs == [] then names else WithoutAll(Without(names, rs[0]), rs[1..])
  }

  /** No name ends with a removed name that it is not. */
  predicate NoOtherEnds(names: seq<string>, rs: seq<string>) {
    forall k :: 0 <= k < |rs| ==> Removable(names, rs[k])
  }

  predicate RemovableNames(rs: seq<string>) {
    forall k :: 0 <= k < |rs| ==> NoComma(rs[k]) && rs[k] != ""
  }

  lemma {:induction false} RemoveAllNames(names: seq<string>, rs: seq<string>)
    requires Names(names) && RemovableNames(rs) && NoOtherEnds(names, rs)
    ensures RemoveAll(Text(names), rs) == Text(WithoutAll(names, rs)) && Names(WithoutAll(names, rs))
    ensures forall x :: x in WithoutAll(names, rs) <==> x in names && x !in rs
    decreases |rs|
  {
    if rs != [] {
      var w := Without(names, rs[0]);
      assert Removable(names, rs[0]);
      RemoveName(names, rs[0]);
      WithoutNames(names, rs[0]);
      forall k | 0 <= k < |rs[1..]| ensures Removable(w, rs[1..][k]) {
        assert rs[1..][k] == rs[k + 1] && Removable(names, rs[k + 1]);
        forall i | 0 <= i < |w| ensures w[i] == rs[k + 1] || !EndsWith(w[i], rs[k + 1]) {
          assert w[i] in names;
        }
      }
      forall i | 0 <= i < |w| ensures NoComma(w[i]) {
        assert w[i] in names;
      }
      RemoveAllNames(w, rs[1..]);
      assert forall x :: x in rs <==> x == rs[0] || x in rs[1..];
    }
  }

  lemma {:induction false} JoinAppend(names: seq<string>, name: string)
    requires names != []
    ensures Join(names + [name]) == Join(names) + "," + name
    decreases |names|
  {
    var more := names + [name];
    assert more[1..] == names[1..] + [name];
    if |names| == 1 {
      assert more[1..] == [name];
    } else {
      JoinAppend(names[1..], name);
      assert names[0] + "," + (Join(names[1..]) + "," + name) == names[0] + "," + Join(names[1..]) + "," + name;
    }
  }

  lemma {:induction false} AddedNames(names: seq<string>, more: seq<string>)
    requires names != []
    ensures Join(names) + Added(more) == Join(names + more)
    decreases |more|
  {
    if more == [] {
      assert names + more == names && Join(names) + "" == Join(names);
    } else {
      var (front, last) := (more[..|more| - 1], more[|more| - 1]);
      AddedNames(names, front);
      JoinAppend(names + front, last);
      assert names + front + [last] == names + more;
      assert Join(names) + (Added(front) + "," + last) == Join(names) + Added(front) + "," + last;
    }
  }

  /** A list is never without a piece. */
  function Pieces(names: seq<string>): (r: seq<string>)
    ensures r != [] && forall x :: x in names ==> x in r
    ensures forall x :: x in r ==> x in names || x == ""
  {
    if names == [] then [""] else names
  }

  lemma ChopText(names: seq<string>)
    ensures Chop(Text(names)) == Join(Pieces(names))
  {
    if names != [] {
      TextJoin(names);
    }
  }

  /** The pieces of a list that was rewritten. */
  function Rewritten(list: string, more: seq<string>): (r: seq<string>)
    ensures r != []
  {
    Pieces(WithoutAll(Split(list), Removed())) + more
  }

  lemma RewrittenText(list: string, more: seq<string>)
    requires NoOtherEnds(Split(list), Removed())
    ensures Chop(RemoveAll(list + ",", Removed())) + Added(more) == Join(Rewritten(list, more))
    ensures forall x :: x in WithoutAll(Split(list), Removed()) <==> x in Split(list) && x !in Removed()
    ensures Names(WithoutAll(Split(list), Removed()))
  {
    var names := Split(list);
    JoinSplit(list);
    TextJoin(names);
    RemovedAreNames();
    RemoveAllNames(names, Removed());
    ChopText(WithoutAll(names, Removed()));
    AddedNames(Pieces(WithoutAll(names, Removed())), more);
  }

  lemma RemovedAreNames()
    ensures RemovableNames(Removed())
  {
    forall k | 0 <= k < 12 ensures NoComma(Removed()[k]) && Removed()[k] != "" {
    }
  }

  // ---- what the rewritten lists say ----

  predicate PlainChar(c: char) { !Blank(c) && !('A' <= c <= 'Z') && 0 < c as int < 256 }

  /** Without blanks and upper case. */
  predicate Plain(s: string) { forall i :: 0 <= i < |s| ==> PlainChar(s[i]) }

  predicate PlainNames(names: seq<string>) { forall k :: 0 <= k < |names| ==> Plain(names[k]) }

  lemma PlainName(s: string)
    requires Plain(s)
    ensures Trim(s) == s && LowerAll(s) == s && ZString(s)
  {
    assert s != "" ==> PlainChar(s[0]) && PlainChar(s[|s| - 1]);
    assert LowerAll(s) == s;
  }

  lemma OwnIdIsRemoved(s: string, own: string)
    requires Plain(s) && Plain(own) && s != own
    ensures NameId(s) != NameId(own)
  {
    PlainName(s);
    PlainName(own);
    NameIdInjective(s, own);
  }

  lemma OwnNames()
    ensures Plain("cliprdr") && Plain("rdpdr") && Plain("rdpsnd")
    ensures "cliprdr" in Removed() && "rdpdr" in Removed() && "rdpsnd" in Removed()
  {
    var r := Removed();
    assert r[0] == "cliprdr" && r[1] == "rdpdr" && r[2] == "rdpsnd";
  }

  /** A plain name that is not removed, or a long one, names none of the three channels. */
  lemma NotOwn(s: string)
    requires Plain(s) && (s !in Removed() || |s| >= 8)
    ensures !(Short(s) && OwnChannel(NameId(Trim(s))))
  {
    OwnNames();
    PlainName(s);
    if |s| <= 7 {
      var (c, r, n) := ("cliprdr", "rdpdr", "rdpsnd");
      OwnIdIsRemoved(s, c);
      OwnIdIsRemoved(s, r);
      OwnIdIsRemoved(s, n);
    }
  }

  lemma NoOwnId(names: seq<string>, id: nat)
    requires CleanNames(names) && OwnChannel(id)
    ensures !HasId(names, id)
  {
    forall k | 0 <= k < |names| && Short(names[k]) ensures NameId(Trim(names[k])) != id {
      assert CleanName(names[k]);
      NotOwn(names[k]);
    }
  }

  lemma LargeIsMember(names: seq<string>, f: string)
    requires CleanNames(names) && |f| >= 8 && f[0] != '*'
    ensures HasLarge(names, f) <==> f in names
  {
    forall k | 0 <= k < |names| ensures Large(names[k]) && Trim(names[k]) == f <==> names[k] == f {
      assert CleanName(names[k]);
      PlainName(names[k]);
    }
    if f in names {
      var k :| 0 <= k < |names| && names[k] == f;
      assert Large(names[k]) && Trim(names[k]) == f;
    }
  }

  // ---- the features ----

  predicate FeatureName(f: string) { Plain(f) && NoComma(f) && |f| >= 10 && f[0] != '*' }

  lemma FeatureNames(i: nat)
    requires i < 10
    ensures FeatureName(Features()[i])
  {
    FeatureNamesFirst();
    FeatureNamesMiddle();
    FeatureNamesLast();
  }

  lemma FeatureNamesFirst()
    ensures forall i :: 0 <= i < 5 ==> FeatureName(Features()[i])
  {
    assert FeatureName("cliprdr_up") && FeatureName("cliprdr_down") && FeatureName("cliprdr_file");
    assert FeatureName("rdpdr_printer") && FeatureName("rdpdr_port");
  }

  lemma FeatureNamesMiddle()
    ensures forall i :: 5 <= i < 8 ==> FeatureName(Features()[i])
  {
    assert FeatureName("rdpdr_drive_read") && FeatureName("rdpdr_drive_write") && FeatureName("rdpdr_smartcard");
  }

  lemma FeatureNamesLast()
    ensures forall i :: 8 <= i < 10 ==> FeatureName(Features()[i])
  {
    assert FeatureName("rdpsnd_audio_output") && FeatureName("rdpcap_audio_input");
  }

  /** Two features differ in their length or in one of two letters. */
  lemma FeaturesApart(i: nat, j: nat)
    requires i < 10 && j < 10 && i != j
    ensures Features()[i] != Features()[j]
  {
    var f := Features();
    assert |f[0]| == 10 && |f[1]| == 12 && |f[2]| == 12 && |f[3]| == 13 && |f[4]| == 10;
    assert |f[5]| == 16 && |f[6]| == 17 && |f[7]| == 15 && |f[8]| == 19 && |f[9]| == 18;
    assert f[0][0] == 'c' && f[4][0] == 'r' && f[1][8] == 'd' && f[2][8] == 'f';
    if |f[i]| == |f[j]| {
      assert f[i][0] != f[j][0] || f[i][8] != f[j][8];
    }
  }

  lemma FeatureRemoved(i: nat)
    requires i < 10
    ensures Features()[i] in Removed() <==> i < 9
  {
    var (f, r) := (Features(), Removed());
    assert forall k :: 0 <= k < 9 ==> f[k] == r[k + 3];
    if i < 9 {
      assert f[i] == r[i + 3];
    } else {
      assert |f[9]| == 18 && |r[0]| < 10 && |r[1]| < 10 && |r[2]| < 10;
      forall k | 0 <= k < 12 ensures r[k] != f[9] {
        if k >= 3 {
          FeaturesApart(k - 3, 9);
        }
      }
    }
  }

  lemma {:induction false} ChosenHas(given: seq<bool>, b: bool, i: nat)
    requires |given| <= 10 && i < 10
    ensures Features()[i] in Chosen(given, b) <==> i < |given| && given[i] == b
    ensures forall x :: x in Chosen(given, b) ==> exists j :: 0 <= j < 10 && x == Features()[j]
    decreases |given|
  {
    if given != [] {
      var n := |given| - 1;
      ChosenHas(given[..n], b, i);
      if i != n {
        FeaturesApart(i, n);
      }
    }
  }

  /** A list that can be rewritten: blank-free, lower case, and no name ends with a removed one. */
  predicate GoodList(list: string) {
    PlainNames(Split(list)) && NoOtherEnds(Split(list), Removed())
  }

  /** The channel that a feature belongs to; the last one has none. */
  function ChannelOf(i: nat): nat {
    if i < 3 then CLIPRDR else if i < 8 then RDPDR else if i == 8 then RDPSND else 0
  }

  /** Names that are read as they are written, and name none of the three channels. */
  predicate CleanName(s: string) { Plain(s) && NoComma(s) && (s !in Removed() || |s| >= 8) }

  predicate CleanNames(names: seq<string>) { forall k :: 0 <= k < |names| ==> CleanName(names[k]) }

  predicate FeatureIn(names: seq<string>, i: nat)
    requires i < 10
  {
    Features()[i] in names
  }

  lemma FeatureIsClean(i: nat)
    requires i < 10
    ensures CleanName(Features()[i])
  {
    FeatureNames(i);
  }

  lemma ChosenClean(given: seq<bool>, b: bool, x: string)
    requires |given| == 10 && x in Chosen(given, b)
    ensures CleanName(x)
  {
    ChosenHas(given, b, 0);
    var j :| 0 <= j < 10 && x == Features()[j];
    FeatureIsClean(j);
  }

  lemma RestClean(list: string, x: string)
    requires GoodList(list) && x in Pieces(WithoutAll(Split(list), Removed()))
    ensures CleanName(x)
  {
    RewrittenText(list, []);
    EmptyNotRemoved();
  }

  lemma RewrittenClean(list: string, given: seq<bool>, b: bool)
    requires GoodList(list) && |given| == 10
    ensures CleanNames(Rewritten(list, Chosen(given, b)))
  {
    var (w, more) := (Pieces(WithoutAll(Split(list), Removed())), Chosen(given, b));
    var r := w + more;
    forall k | 0 <= k < |r| ensures CleanName(r[k]) {
      if k < |w| {
        assert r[k] in w;
        RestClean(list, r[k]);
      } else {
        assert r[k] in more;
        ChosenClean(given, b, r[k]);
      }
    }
  }

  lemma RewrittenFeature(list: string, given: seq<bool>, b: bool, i: nat)
    requires GoodList(list) && |given| == 10 && i < 10
    ensures FeatureIn(Rewritten(list, Chosen(given, b)), i)
            <==> given[i] == b || (i == 9 && FeatureIn(Split(list), 9))
  {
    var f := Features()[i];
    RewrittenText(list, Chosen(given, b));
    ChosenHas(given, b, i);
    FeatureRemoved(i);
    assert f != "" by { FeatureNames(i); }
  }

  lemma EmptyNotRemoved()
    ensures "" !in Removed()
  {
    RemovedAreNames();
  }

  /** Which feature is granted by the rewritten lists: the one whose option was given. A sound input that
      the original list denies stays denied. */
  lemma GrantedIffGiven(allow: string, deny: string, given: seq<bool>, i: nat)
    requires GoodList(allow) && GoodList(deny) && |given| == 10 && i < 10
    ensures Granted(Rewritten(allow, Chosen(given, true)), Rewritten(deny, Chosen(given, false)), ChannelOf(i), Features()[i])
            <==> given[i] && !(i == 9 && FeatureIn(Split(deny), 9))
  {
    RewrittenFeature(allow, given, true, i);
    RewrittenFeature(deny, given, false, i);
    RewrittenClean(allow, given, true);
    RewrittenClean(deny, given, false);
    GrantedByNames(Rewritten(allow, Chosen(given, true)), Rewritten(deny, Chosen(given, false)), i);
  }

  /** In clean lists a feature is granted when it is allowed by name, or by a wildcard, and not denied. */
  lemma GrantedByNames(a: seq<string>, d: seq<string>, i: nat)
    requires CleanNames(a) && CleanNames(d) && i < 10
    ensures Granted(a, d, ChannelOf(i), Features()[i])
            <==> !FeatureIn(d, i) && (FeatureIn(a, i) || (HasStar(a) && !HasStar(d)))
  {
    var f := Features()[i];
    FeatureNames(i);
    LargeIsMember(a, f);
    LargeIsMember(d, f);
    if i < 9 {
      NoOwnId(a, ChannelOf(i));
      NoOwnId(d, ChannelOf(i));
    } else {
      NoZeroId(a);
      NoZeroId(d);
    }
  }

  lemma NoZeroId(names: seq<string>)
    requires CleanNames(names)
    ensures !HasId(names, 0)
  {
    forall k | 0 <= k < |names| && Short(names[k]) ensures NameId(Trim(names[k])) != 0 {
      assert CleanName(names[k]);
      PlainName(names[k]);
      NameIdPositive(names[k]);
    }
  }

  // ---- the option string ----

  lemma MatchAvoidsComma(s: string, i: nat, x: string, c: nat)
    requires Matches(s, i, x) && NoComma(x) && c < |s| && s[c] == ','
    ensures c < i || i + |x| <= c
  {
    forall k | i <= k < i + |x| ensures s[k] != ',' {
      assert s[k] == s[i..i + |x|][k - i];
    }
  }

  lemma SliceOfRest(name: string, rest: string, j: nat, n: nat)
    requires j + n <= |rest|
    ensures var s := name + "," + rest; s[|name| + 1 + j..|name| + 1 + j + n] == rest[j..j + n]
  {
    var s := name + "," + rest;
    assert s[|name| + 1..] == rest;
  }

  /** A comma-free text is found in a list exactly when it is found in one of the names. */
  lemma FoundInFirst(name: string, rest: string, x: string)
    requires NoComma(x) && x != ""
    ensures Contains(name + "," + rest, x) <==> Contains(name, x) || Contains(rest, x)
  {
    var s := name + "," + rest;
    if Contains(s, x) {
      var i: nat :| Matches(s, i, x);
      if i + |x| <= |name| {
        assert name[i..i + |x|] == s[i..i + |x|];
        assert Matches(name, i, x);
      } else {
        MatchAvoidsComma(s, i, x, |name|);
        var j := i - |name| - 1;
        SliceOfRest(name, rest, j, |x|);
        assert Matches(rest, j, x);
      }
    }
    if Contains(name, x) {
      var i: nat :| Matches(name, i, x);
      assert s[i..i + |x|] == name[i..i + |x|];
      assert Matches(s, i, x);
    }
    if Contains(rest, x) {
      var i: nat :| Matches(rest, i, x);
      var j := i + |name| + 1;
      assert s[j..j + |x|] == rest[i..i + |x|];
      assert Matches(s, j, x);
    }
  }

  ghost predicate InSome(names: seq<string>, x: string) {
    exists k :: 0 <= k < |names| && Contains(names[k], x)
  }

  lemma {:induction false} FoundInList(names: seq<string>, x: string)
    requires names != [] && NoComma(x) && x != ""
    ensures Contains(Join(names), x) <==> InSome(names, x)
    decreases |names|
  {
    if |names| > 1 {
      FoundInFirst(names[0], Join(names[1..]), x);
      FoundInList(names[1..], x);
      if InSome(names, x) && !Contains(names[0], x) {
        var k :| 0 <= k < |names| && Contains(names[k], x);
        assert Contains(names[1..][k - 1], x);
      }
      if InSome(names[1..], x) {
        var k :| 0 <= k < |names[1..]| && Contains(names[1..][k], x);
        assert Contains(names[k + 1], x);
      }
    } else if Contains(names[0], x) {
      assert InSome(names, x);
    }
  }

  /** Stripping commas at the end only takes away empty names. */
  lemma {:induction false} StripNames(s: string, x: string)
    requires x != ""
    ensures x in Split(Strip(s)) <==> x in Split(s)
    decreases |s|
  {
    if s != "" && s[|s| - 1] == ',' {
      var front := s[..|s| - 1];
      StripNames(front, x);
      JoinSplit(front);
      JoinAppend(Split(front), "");
      assert Join(Split(front)) + "," + "" == s;
      SplitJoin(Split(front) + [""]);
    }
  }

  lemma {:induction false} TextThenJoin(names: seq<string>, more: seq<string>)
    requires more != []
    ensures Text(names) + Join(more) == Join(names + more)
    decreases |names|
  {
    if names == [] {
      assert names + more == more;
    } else {
      TextThenJoin(names[1..], more);
      assert (names + more)[1..] == names[1..] + more;
      assert names[0] + "," + (Text(names[1..]) + Join(more)) == names[0] + "," + Text(names[1..]) + Join(more);
    }
  }

  lemma {:induction false} WithoutIsShorter(names: seq<string>, r: string)
    ensures |Text(Without(names, r))| <= |Text(names)|
    ensures r in names ==> |Text(Without(names, r))| < |Text(names)|
    ensures r !in names ==> Without(names, r) == names
    decreases |names|
  {
    if names != [] {
      WithoutIsShorter(names[1..], r);
      if names[0] == r {
        assert Without(names, r) == Without(names[1..], r);
      } else {
        assert Without(names, r)[1..] == Without(names[1..], r);
      }
    }
  }

  /** The names that are searched: a drive is both ways. */
  function OptionNames(opt: string): (r: seq<string>)
    ensures r != []
  {
    var names := Split(Strip(opt));
    if DRIVE in names then Without(names, DRIVE) + Both() else names
  }

  lemma NormalizedText(opt: string)
    requires Removable(Split(Strip(opt)), DRIVE)
    ensures Normalized(opt) == Join(OptionNames(opt))
  {
    var names := Split(Strip(opt));
    var o := Strip(opt) + ",";
    var r := Remove(o, DRIVE + ",");
    DriveRemoved(opt);
    if DRIVE in names {
      assert Normalized(opt) == Chop(r + DRIVE_BOTH);
      BothDrives();
      TextThenJoin(Without(names, DRIVE), Both());
      assert Chop(r + DRIVE_BOTH) == r + DRIVE_BOTH;
    } else {
      assert Normalized(opt) == Chop(o) == Strip(opt);
      JoinSplit(Strip(opt));
    }
  }

  lemma DriveRemoved(opt: string)
    requires Removable(Split(Strip(opt)), DRIVE)
    ensures var (names, o) := (Split(Strip(opt)), Strip(opt) + ",");
            && Remove(o, DRIVE + ",") == Text(Without(names, DRIVE))
            && (Remove(o, DRIVE + ",") == o <==> DRIVE !in names)
  {
    var names := Split(Strip(opt));
    JoinSplit(Strip(opt));
    TextJoin(names);
    RemoveName(names, DRIVE);
    WithoutIsShorter(names, DRIVE);
  }

  function Both(): seq<string> { ["RDP_DRIVE_READ", "RDP_DRIVE_WRITE"] }

  lemma BothDrives()
    ensures Join(Both()) == DRIVE_BOTH
  {
    assert Both()[1..] == ["RDP_DRIVE_WRITE"];
    assert Join(["RDP_DRIVE_WRITE"]) == "RDP_DRIVE_WRITE";
    assert Join(Both()) == "RDP_DRIVE_READ" + "," + "RDP_DRIVE_WRITE";
  }

  lemma GoodOptionText(opt: string, x: string)
    requires Removable(Split(Strip(opt)), DRIVE) && NoComma(x) && x != ""
    ensures Contains(Normalized(opt), x) <==> InSome(OptionNames(opt), x)
  {
    NormalizedText(opt);
    FoundInList(OptionNames(opt), x);
  }

  // ---- known options ----

  /** P and an underscore follow each other nowhere from j on. */
  predicate NoMarkFrom(s: string, j: nat)
    decreases |s| - j
  {
    j + 1 >= |s| || (!(s[j] == 'P' && s[j + 1] == '_') && NoMarkFrom(s, j + 1))
  }

  lemma {:induction false} NoMarkAt(s: string, j: nat, k: nat)
    requires NoMarkFrom(s, j) && j <= k && k + 1 < |s|
    ensures !(s[k] == 'P' && s[k + 1] == '_')
    decreases k - j
  {
    if j < k {
      NoMarkAt(s, j + 1, k);
    }
  }

  /** Every option starts with the only mark it has. */
  predicate Marked(s: string) { |s| >= 9 && s[2] == 'P' && s[3] == '_' && s[..2] == "RD" && NoMarkFrom(s, 3) }

  lemma OptionsMarkedFirst()
    ensures forall i :: 0 <= i < 5 ==> Marked(Options()[i])
  {
    assert Marked("RDP_CLIPBOARD_UP") && Marked("RDP_CLIPBOARD_DOWN") && Marked("RDP_CLIPBOARD_FILE");
    assert Marked("RDP_PRINTER") && Marked("RDP_COM_PORT");
  }

  lemma OptionsMarkedLast()
    ensures forall i :: 5 <= i < 10 ==> Marked(Options()[i])
    ensures Marked(DRIVE)
  {
    assert Marked("RDP_DRIVE_READ") && Marked("RDP_DRIVE_WRITE") && Marked("RDP_SMARTCARD");
    assert Marked("RDP_AUDIO_OUTPUT") && Marked("RDP_AUDIO_INPUT");
    assert Marked("RDP_DRIVE");
  }

  lemma MarkedMatch(s: string, i: nat, x: string)
    requires Marked(s) && Marked(x) && Matches(s, i, x)
    ensures i == 0
  {
    assert x[2] == s[i..i + |x|][2] == s[i + 2];
    assert x[3] == s[i..i + |x|][3] == s[i + 3];
    if i + 2 >= 3 {
      NoMarkAt(s, 3, i + 2);
    }
  }

  lemma OptionMarked(i: nat)
    requires i < 10
    ensures Marked(Options()[i])
  {
    OptionsMarkedFirst();
    OptionsMarkedLast();
  }

  /** What tells an option from the others: three of its letters, the last one where it is long enough. */
  predicate Letters(s: string, a: char, b: char) { |s| >= 11 && s[4] == a && s[10] == b }

  lemma OptionLetters()
    ensures var o := Options();
            && Letters(o[0], 'C', 'A') && Letters(o[1], 'C', 'A') && Letters(o[2], 'C', 'A')
            && |o[0]| > 14 && |o[1]| > 14 && |o[2]| > 14 && o[0][14] == 'U' && o[1][14] == 'D' && o[2][14] == 'F'
            && Letters(o[3], 'P', 'R') && Letters(o[4], 'C', 'R') && Letters(o[5], 'D', 'R') && Letters(o[6], 'D', 'W')
            && Letters(o[7], 'S', 'A') && Letters(o[8], 'A', 'O') && Letters(o[9], 'A', 'I')
  {
    assert Letters("RDP_CLIPBOARD_UP", 'C', 'A') && Letters("RDP_CLIPBOARD_DOWN", 'C', 'A');
    assert Letters("RDP_CLIPBOARD_FILE", 'C', 'A');
  }

  lemma NoOptionIsPrefix(i: nat, j: nat)
    requires i < 10 && j < 10 && Matches(Options()[i], 0, Options()[j])
    ensures i == j
  {
    OptionLetters();
    var (s, x) := (Options()[i], Options()[j]);
    assert s[..|x|] == x;
    assert s[4] == x[4] && s[10] == x[10];
    assert |x| > 14 ==> s[14] == x[14];
  }

  /** An option is part of another one only if it is that one. */
  lemma OptionInOption(i: nat, j: nat)
    requires i < 10 && j < 10
    ensures Contains(Options()[i], Options()[j]) <==> i == j
  {
    var (s, x) := (Options()[i], Options()[j]);
    if Contains(s, x) {
      var k: nat :| Matches(s, k, x);
      OptionMarked(i);
      OptionMarked(j);
      MarkedMatch(s, k, x);
      NoOptionIsPrefix(i, j);
    }
    if i == j {
      assert s[0..|s|] == s;
      assert Matches(s, 0, x);
    }
  }

  lemma NoOptionInDrive(j: nat)
    requires j < 10
    ensures !Contains(DRIVE, Options()[j]) && !Contains("", Options()[j]) && NoComma(Options()[j])
  {
    OptionLetters();
    OptionNoComma(j);
  }

  lemma OptionNoComma(j: nat)
    requires j < 10
    ensures NoComma(Options()[j])
  {
  }

  /** The options that the proxy knows. */
  predicate KnownOption(s: string) { s == "" || s == DRIVE || s in Options() }

  lemma KnownIsRemovable(s: string)
    requires KnownOption(s) && s != DRIVE
    ensures !EndsWith(s, DRIVE)
  {
    if s != "" {
      var i :| 0 <= i < 10 && s == Options()[i];
    }
  }

  /** Which options are given: those that are named, and both ways of a drive when it is. */
  predicate Named(opt: string, i: nat)
    requires i < 10
  {
    Options()[i] in Split(opt) || ((i == 5 || i == 6) && DRIVE in Split(opt))
  }

  predicate KnownOptions(names: seq<string>) { forall k :: 0 <= k < |names| ==> KnownOption(names[k]) }

  lemma StripKnown(opt: string)
    requires KnownOptions(Split(opt))
    ensures KnownOptions(Split(Strip(opt))) && Removable(Split(Strip(opt)), DRIVE)
  {
    var names := Split(Strip(opt));
    forall k | 0 <= k < |names| ensures KnownOption(names[k]) && (names[k] == DRIVE || !EndsWith(names[k], DRIVE)) {
      if names[k] != "" {
        StripNames(opt, names[k]);
        assert names[k] in Split(opt);
      }
      if names[k] != DRIVE {
        KnownIsRemovable(names[k]);
      }
    }
  }

  lemma OptionNamesKnown(opt: string)
    requires KnownOptions(Split(opt))
    ensures KnownOptions(OptionNames(opt))
  {
    StripKnown(opt);
    var (names, r) := (Split(Strip(opt)), OptionNames(opt));
    WithoutNames(names, DRIVE);
    assert Options()[5] == Both()[0] && Options()[6] == Both()[1];
    forall k | 0 <= k < |r| ensures KnownOption(r[k]) {
      assert r[k] in r;
      assert r[k] in names || r[k] in Both();
    }
  }

  lemma KnownInSome(names: seq<string>, i: nat)
    requires KnownOptions(names) && i < 10
    ensures InSome(names, Options()[i]) <==> Options()[i] in names
  {
    var x := Options()[i];
    NoOptionInDrive(i);
    OptionInOption(i, i);
    forall k | 0 <= k < |names| ensures Contains(names[k], x) <==> names[k] == x {
      if names[k] != "" && names[k] != DRIVE {
        var j :| 0 <= j < 10 && names[k] == Options()[j];
        OptionInOption(j, i);
      }
    }
  }

  lemma OptionNamed(opt: string, i: nat)
    requires KnownOptions(Split(opt)) && i < 10
    ensures Options()[i] in OptionNames(opt) <==> Named(opt, i)
  {
    var (x, names) := (Options()[i], Split(Strip(opt)));
    OptionLetters();
    StripNames(opt, x);
    StripNames(opt, DRIVE);
    WithoutNames(names, DRIVE);
    InBoth(i);
  }

  lemma InBoth(i: nat)
    requires i < 10
    ensures Options()[i] in Both() <==> i == 5 || i == 6
    ensures Options()[i] != DRIVE
  {
    OptionLetters();
    assert Options()[5] == Both()[0] && Options()[6] == Both()[1];
    if Options()[i] == Both()[0] {
      OptionInOption(i, 5);
      OptionInOption(5, i);
    }
    if Options()[i] == Both()[1] {
      OptionInOption(i, 6);
      OptionInOption(6, i);
    }
  }

  /** With known options, what the proxy looks for in the text is what is named in the list. */
  lemma GivenIffNamed(opt: string, i: nat)
    requires KnownOptions(Split(opt)) && i < 10
    ensures Contains(Normalized(opt), Options()[i]) <==> Named(opt, i)
  {
    StripKnown(opt);
    NoOptionInDrive(i);
    OptionLetters();
    GoodOptionText(opt, Options()[i]);
    OptionNamesKnown(opt);
    KnownInSome(OptionNames(opt), i);
    OptionNamed(opt, i);
  }

  lemma {:induction false} JoinZString(names: seq<string>)
    requires names != [] && CleanNames(names)
    ensures ZString(Join(names))
    decreases |names|
  {
    assert CleanName(names[0]);
    PlainName(names[0]);
    if |names| > 1 {
      JoinZString(names[1..]);
    }
  }

  /** A feature is granted when its option is named, except that a denied sound input stays denied. */
  predicate FollowsOption(flag: bool, opt: string, deny: string, i: nat)
    requires i < 10
  {
    flag <==> Named(opt, i) && !(i == 9 && FeatureIn(Split(deny), 9))
  }

  /** The lists of a connection, and what its channels are allowed: each feature is granted if and only
      if its option is named, whatever the original lists and their wildcards were. */
  method Authorize(allow0: string, deny0: string, opt: string) returns (c: ChannelsAuthorizations)
    requires GoodList(allow0) && GoodList(deny0) && KnownOptions(Split(opt))
    ensures c.Valid()
    ensures forall i :: 0 <= i < 10 ==> FollowsOption(c.Flag(i), opt, deny0, i)
    ensures FollowsNames(c, Split(opt), Split(deny0))
    ensures c.IsAuthorized(CLIPRDR) <==> Named(opt, 0) || Named(opt, 1)
    ensures c.IsAuthorized(RDPDR) <==> exists i :: 3 <= i <= 8 && Named(opt, i)
    ensures c.IsAuthorized(RDPSND) <==> c.IsAuthorized(RDPDR)
  {
    var allow, deny, given := ComputeAuthorizedChannels(allow0, deny0, opt);
    ghost var (a, d) := (Rewritten(allow0, Chosen(given, true)), Rewritten(deny0, Chosen(given, false)));
    Readable(allow0, given, true);
    Readable(deny0, given, false);
    c := new ChannelsAuthorizations(allow, deny);
    OptionsDecide(c, allow0, deny0, opt, given);
    ChannelsFollowOptions(c, a, d, opt, deny0);
    OptionsByName(c, opt, deny0);
  }

  /** The same by name: which option is for what. */
  ghost predicate FollowsNames(c: ChannelsAuthorizations, options: seq<string>, deny: seq<string>)
    requires c.Valid()
    reads c
  {
    && (c.CliprdrUp() <==> "RDP_CLIPBOARD_UP" in options)
    && (c.CliprdrDown() <==> "RDP_CLIPBOARD_DOWN" in options)
    && (c.CliprdrFile() <==> "RDP_CLIPBOARD_FILE" in options)
    && (c.DeviceIsAuthorized(Printer) <==> "RDP_PRINTER" in options)
    && (c.DeviceIsAuthorized(Serial) <==> "RDP_COM_PORT" in options)
    && (c.DeviceIsAuthorized(Parallel) <==> "RDP_COM_PORT" in options)
    && (c.DriveRead() <==> "RDP_DRIVE_READ" in options || "RDP_DRIVE" in options)
    && (c.DriveWrite() <==> "RDP_DRIVE_WRITE" in options || "RDP_DRIVE" in options)
    && (c.DeviceIsAuthorized(Filesystem) <==> c.DriveRead() || c.DriveWrite())
    && (c.DeviceIsAuthorized(Smartcard) <==> "RDP_SMARTCARD" in options)
    && (c.AudioOutput() <==> "RDP_AUDIO_OUTPUT" in options)
    && (c.AudioInput() <==> "RDP_AUDIO_INPUT" in options && "rdpcap_audio_input" !in deny)
    && !c.DeviceIsAuthorized(OtherDevice)
    && (c.AllDevicesAuthorized() <==> "RDP_PRINTER" in options && "RDP_COM_PORT" in options && "RDP_SMARTCARD" in options
                                      && (c.DriveRead() || c.DriveWrite()))
  }

  lemma OptionsByName(c: ChannelsAuthorizations, opt: string, deny0: string)
    requires c.Valid() && forall i :: 0 <= i < 10 ==> FollowsOption(c.Flag(i), opt, deny0, i)
    ensures FollowsNames(c, Split(opt), Split(deny0))
  {
    assert FollowsOption(c.Flag(0), opt, deny0, 0) && FollowsOption(c.Flag(1), opt, deny0, 1);
    assert FollowsOption(c.Flag(2), opt, deny0, 2) && FollowsOption(c.Flag(3), opt, deny0, 3);
    assert FollowsOption(c.Flag(4), opt, deny0, 4) && FollowsOption(c.Flag(5), opt, deny0, 5);
    assert FollowsOption(c.Flag(6), opt, deny0, 6) && FollowsOption(c.Flag(7), opt, deny0, 7);
    assert FollowsOption(c.Flag(8), opt, deny0, 8) && FollowsOption(c.Flag(9), opt, deny0, 9);
  }

  lemma OptionsDecide(c: ChannelsAuthorizations, allow0: string, deny0: string, opt: string, given: seq<bool>)
    requires GoodList(allow0) && GoodList(deny0) && KnownOptions(Split(opt)) && Given(opt, given)
    requires c.Decides(Rewritten(allow0, Chosen(given, true)), Rewritten(deny0, Chosen(given, false)))
    ensures forall i :: 0 <= i < 10 ==> FollowsOption(c.Flag(i), opt, deny0, i)
  {
    ghost var (a, d) := (Rewritten(allow0, Chosen(given, true)), Rewritten(deny0, Chosen(given, false)));
    forall i | 0 <= i < 10 ensures FollowsOption(c.Flag(i), opt, deny0, i) {
      FlagIsGranted(c, a, d, i);
      GrantedIffGiven(allow0, deny0, given, i);
      GivenIffNamed(opt, i);
    }
  }

  lemma ChannelsFollowOptions(c: ChannelsAuthorizations, a: seq<string>, d: seq<string>, opt: string, deny0: string)
    requires c.Decides(a, d) && forall i :: 0 <= i < 10 ==> FollowsOption(c.Flag(i), opt, deny0, i)
    ensures c.IsAuthorized(CLIPRDR) <==> Named(opt, 0) || Named(opt, 1)
    ensures c.IsAuthorized(RDPDR) <==> exists i :: 3 <= i <= 8 && Named(opt, i)
    ensures c.IsAuthorized(RDPSND) <==> c.IsAuthorized(RDPDR)
  {
    ChannelsFollowFeatures(c, a, d);
    assert forall i :: 0 <= i < 9 ==> FollowsOption(c.Flag(i), opt, deny0, i) && c.Flag(i) == Named(opt, i);
  }

  lemma FlagIsGranted(c: ChannelsAuthorizations, a: seq<string>, d: seq<string>, i: nat)
    requires c.Decides(a, d) && i < 10
    ensures c.Flag(i) == Granted(a, d, ChannelOf(i), Features()[i])
  {
  }

  /** The rewritten text splits into the rewritten names. */
  lemma Readable(list: string, given: seq<bool>, b: bool)
    requires GoodList(list) && |given| == 10
    ensures var s := Chop(RemoveAll(list + ",", Removed())) + Added(Chosen(given, b));
            ZString(s) && Split(s) == Rewritten(list, Chosen(given, b))
  {
    var r := Rewritten(list, Chosen(given, b));
    RewrittenText(list, Chosen(given, b));
    RewrittenClean(list, given, b);
    JoinZString(r);
    forall k | 0 <= k < |r| ensures NoComma(r[k]) {
      assert CleanName(r[k]);
    }
    SplitJoin(r);
  }
}