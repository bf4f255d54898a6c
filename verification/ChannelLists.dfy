/** Comma-separated lists of names: splitting, trimming, and removing a name from the text of a list. */
module ChannelLists {

  predicate NoComma(s: string) { forall i :: 0 <= i < |s| ==> s[i] != ',' }

  /** The text before the first comma. */
  function Head(s: string): (r: string)
    ensures |r| <= |s| && NoComma(r) && r == s[..|r|]
    ensures |r| < |s| ==> s[|r|] == ','
  {
    if s == [] || s[0] == ',' then [] else [s[0]] + Head(s[1..])
  }

  /** The pieces between the commas; there is always one. */
  function Split(s: string): (r: seq<string>)
    ensures r != []
    decreases |s|
  {
    var h := Head(s);
    if |h| == |s| then [h] else [h] + Split(s[|h| + 1..])
  }

  function Join(names: seq<string>): string
    requires names != []
  {
    if |names| == 1 then names[0] else names[0] + "," + Join(names[1..])
  }

  predicate Names(names: seq<string>) {
    forall i :: 0 <= i < |names| ==> NoComma(names[i])
  }

  lemma {:induction false} HeadOf(name: string, rest: string)
    requires NoComma(name)
    ensures Head(name + "," + rest) == name
    ensures Head(name) == name
    decreases |name|
  {
    if name != "" {
      assert (name + "," + rest)[1..] == name[1..] + "," + rest;
      HeadOf(name[1..], rest);
    }
  }

  lemma {:induction false} SplitJoin(names: seq<string>)
    requires names != [] && Names(names)
    ensures Split(Join(names)) == names
    decreases |names|
  {
    var rest := if |names| == 1 then "" else Join(names[1..]);
    HeadOf(names[0], rest);
    if |names| > 1 {
      SplitJoin(names[1..]);
      var s := names[0] + "," + rest;
      assert s[|names[0]| + 1..] == rest;
    }
  }

  /** Every list is the joining of its pieces. */
  lemma {:induction false} JoinSplit(s: string)
    ensures Names(Split(s)) && Join(Split(s)) == s
    decreases |s|
  {
    var h := Head(s);
    if |h| < |s| {
      JoinSplit(s[|h| + 1..]);
      assert Split(s)[1..] == Split(s[|h| + 1..]);
      assert s == h + "," + s[|h| + 1..];
    } else {
      assert Split(s) == [h] && h == s;
    }
  }

  // ---- trimming ----

  predicate Blank(c: char) { c == ' ' || c == '\t' }

  function TrimLeft(s: string): string {
    if s != [] && Blank(s[0]) then TrimLeft(s[1..]) else s
  }

  function TrimRight(s: string): string {
    if s != [] && Blank(s[|s| - 1]) then TrimRight(s[..|s| - 1]) else s
  }

  function Trim(s: string): string { TrimRight(TrimLeft(s)) }

  // ---- removing a name ----

  /** The removal loop of compute_authorized_channels: an occurrence is dropped and the search goes on
      behind it. */
  function Remove(s: string, pattern: string): string
    requires pattern != ""
    decreases |s|
  {
    if |s| < |pattern| then s
    else if s[..|pattern|] == pattern then Remove(s[|pattern|..], pattern)
    else [s[0]] + Remove(s[1..], pattern)
  }

  /** Every name followed by a comma. */
  function Text(names: seq<string>): string {
    if names == [] then "" else names[0] + "," + Text(names[1..])
  }

  lemma {:induction false} TextJoin(names: seq<string>)
    requires names != []
    ensures Text(names) == Join(names) + ","
  {
    if |names| == 1 {
      assert names[1..] == [];
      assert Text(names) == names[0] + "," + "";
    } else {
      TextJoin(names[1..]);
      assert names[0] + "," + (Join(names[1..]) + ",") == names[0] + "," + Join(names[1..]) + ",";
    }
  }

  predicate EndsWith(s: string, suffix: string) {
    |suffix| <= |s| && s[|s| - |suffix|..] == suffix
  }

  /** A name and the comma after it can only start a match together. */
  lemma MatchIsName(name: string, rest: string, r: string)
    requires NoComma(name) && NoComma(r)
    ensures var s := name + "," + rest;
            |s| >= |r| + 1 && s[..|r| + 1] == r + "," <==> name == r
  {
    var s := name + "," + rest;
    if |s| >= |r| + 1 && s[..|r| + 1] == r + "," {
      var p := s[..|r| + 1];
      assert p[|r|] == ',' == s[|name|];
      assert forall i :: 0 <= i < |r| ==> p[i] == r[i] != ',';
      assert forall i :: 0 <= i < |name| ==> s[i] == name[i] != ',';
      assert |name| == |r|;
      assert name == p[..|r|] == r;
    }
    if name == r {
      assert s[..|r| + 1] == r + ",";
    }
  }

  lemma {:induction false} RemoveSkips(name: string, rest: string, r: string)
    requires NoComma(name) && NoComma(r) && r != "" && !EndsWith(name, r)
    ensures Remove(name + "," + rest, r + ",") == name + "," + Remove(rest, r + ",")
    decreases |name|
  {
    var (s, p) := (name + "," + rest, r + ",");
    MatchIsName(name, rest, r);
    if name == "" {
      assert s[1..] == rest;
      assert Remove(s, p) == [','] + Remove(rest, p) by { ShortRemove(s, p); }
    } else {
      var t := name[1..] + "," + rest;
      assert s[1..] == t;
      EndOfTail(name, r);
      RemoveSkips(name[1..], rest, r);
      ShortRemove(s, p);
      assert [s[0]] + (name[1..] + "," + Remove(rest, p)) == name + "," + Remove(rest, p);
    }
  }

  lemma EndOfTail(name: string, r: string)
    requires name != "" && !EndsWith(name, r)
    ensures !EndsWith(name[1..], r)
  {
    assert |r| < |name| ==> name[1..][|name| - 1 - |r|..] == name[|name| - |r|..];
  }

  /** A text that does not start with the pattern keeps its first character. */
  lemma ShortRemove(s: string, pattern: string)
    requires s != "" && pattern != "" && !(|s| >= |pattern| && s[..|pattern|] == pattern)
    ensures Remove(s, pattern) == [s[0]] + Remove(s[1..], pattern)
  {
    if |s| < |pattern| {
      assert Remove(s[1..], pattern) == s[1..];
    }
  }

  function Without(names: seq<string>, r: string): (w: seq<string>)
    ensures |w| <= |names|
  {
    if names == [] then [] else (if names[0] == r then [] else [names[0]]) + Without(names[1..], r)
  }

  /** Removing is safe when no other name ends with the removed one. */
  predicate Removable(names: seq<string>, r: string) {
    forall i :: 0 <= i < |names| ==> names[i] == r || !EndsWith(names[i], r)
  }

  /** Of a name that ends with the removed one, the beginning is left without a comma. */
  lemma {:induction false} RemoveEnd(name: string, rest: string, r: string)
    requires NoComma(name) && NoComma(r) && r != "" && EndsWith(name, r)
    ensures Remove(name + "," + rest, r + ",") == name[..|name| - |r|] + Remove(rest, r + ",")
    decreases |name|
  {
    var (s, p) := (name + "," + rest, r + ",");
    MatchIsName(name, rest, r);
    if name == r {
      assert s[|p|..] == rest && name[..0] == "";
      assert "" + Remove(rest, p) == Remove(rest, p);
    } else {
      assert s[1..] == name[1..] + "," + rest;
      RemoveEnd(name[1..], rest, r);
      ShortRemove(s, p);
      assert [s[0]] + (name[1..][..|name| - 1 - |r|] + Remove(rest, p)) == name[..|name| - |r|] + Remove(rest, p);
    }
  }

  /** What is removed from a list is never less than the name, and more exactly when another name ends
      with it. */
  lemma {:induction false} RemoveLength(names: seq<string>, r: string)
    requires Names(names) && NoComma(r) && r != ""
    ensures |Remove(Text(names), r + ",")| <= |Text(Without(names, r))|
    ensures !Removable(names, r) ==> |Remove(Text(names), r + ",")| < |Text(Without(names, r))|
    decreases |names|
  {
    if names != [] {
      var (name, rest) := (names[0], names[1..]);
      RemoveLength(rest, r);
      if EndsWith(name, r) {
        RemoveEnd(name, Text(rest), r);
      } else {
        RemoveSkips(name, Text(rest), r);
      }
      assert Removable(rest, r) && (name == r || !EndsWith(name, r)) ==> Removable(names, r);
      WithoutFirst(names, r);
    }
  }

  lemma WithoutFirst(names: seq<string>, r: string)
    requires names != []
    ensures Text(Without(names, r)) == (if names[0] == r then "" else names[0] + ",") + Text(Without(names[1..], r))
  {
    if names[0] == r {
      assert Without(names, r) == [] + Without(names[1..], r) == Without(names[1..], r);
    } else {
      assert ([names[0]] + Without(names[1..], r))[1..] == Without(names[1..], r);
    }
  }

  lemma {:induction false} RemoveWhole(names: seq<string>, r: string)
    requires Names(names) && NoComma(r) && r != "" && Removable(names, r)
    ensures Remove(Text(names), r + ",") == Text(Without(names, r))
    decreases |names|
  {
    if names != [] {
      var rest := Text(names[1..]);
      RemoveWhole(names[1..], r);
      WithoutFirst(names, r);
      if names[0] == r {
        RemoveEnd(r, rest, r);
        assert r[..0] == "";
      } else {
        RemoveSkips(names[0], rest, r);
      }
    }
  }

  /** The text of the list without the name is the list without the name, if and only if it was safe. */
  lemma RemoveName(names: seq<string>, r: string)
    requires Names(names) && NoComma(r) && r != ""
    ensures Remove(Text(names), r + ",") == Text(Without(names, r)) <==> Removable(names, r)
  {
    RemoveLength(names, r);
    if Removable(names, r) {
      RemoveWhole(names, r);
    }
  }

  /** Otherwise the end of a name goes, and what is left of it sticks to the next one. */
  lemma RemoveGlues()
    ensures Remove("xrdpdr,rail,", "rdpdr,") == "xrail,"
  {
    var s := "xrdpdr,rail,";
    var p := "rdpdr,";
    assert s[..6] != p by { assert s[..6][0] == 'x'; }
    assert s[1..][..6] == p;
    var t := s[1..][6..];
    assert t == "rail,";
    assert Remove(t, p) == t;
    assert Remove(s, p) == ['x'] + Remove(s[1..], p);
  }

  lemma {:induction false} WithoutNames(names: seq<string>, r: string)
    ensures forall x :: x in Without(names, r) <==> x in names && x != r
    decreases |names|
  {
    if names != [] {
      WithoutNames(names[1..], r);
      assert forall x :: x in names <==> x == names[0] || x in names[1..];
    }
  }
}
