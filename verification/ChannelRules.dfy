/** What the two channel lists mean, said of the lists alone. */
module ChannelRules {
  import opened ChannelLists
  import opened ChannelsAuthorizations

  /** A channel without features: deny wins where the deny list has no wildcard; one that has a wildcard leaves
      what the allow list names; and the wildcard of the allow list stands for all names. */
  lemma ChannelsFollowLists(c: ChannelsAuthorizations, allow: seq<string>, deny: seq<string>, id: nat)
    requires c.Decides(allow, deny) && id !in {NameId("cliprdr"), NameId("rdpdr"), NameId("rdpsnd")}
    ensures !HasStar(deny) && HasId(deny, id) ==> !c.IsAuthorized(id)
    ensures HasStar(deny) ==> (c.IsAuthorized(id) <==> HasId(allow, id))
    ensures !HasStar(deny) && HasStar(allow) ==> (c.IsAuthorized(id) <==> !HasId(deny, id))
    ensures !HasStar(deny) && !HasStar(allow) ==> (c.IsAuthorized(id) <==> HasId(allow, id) && !HasId(deny, id))
  {
  }

  /** Whether a list names a feature, by its own name or by that of its channel. */
  predicate NamesFeature(list: seq<string>, channel: string, feature: string) {
    (channel != "" && HasId(list, NameId(channel))) || HasLarge(list, feature)
  }

  /** The features of the three channels, and sound input, which has none. */
  function FeatureName(i: nat): (string, string)
    requires i < 10
  {
    match i
    case 0 => ("cliprdr", "cliprdr_up")
    case 1 => ("cliprdr", "cliprdr_down")
    case 2 => ("cliprdr", "cliprdr_file")
    case 3 => ("rdpdr", "rdpdr_printer")
    case 4 => ("rdpdr", "rdpdr_port")
    case 5 => ("rdpdr", "rdpdr_drive_read")
    case 6 => ("rdpdr", "rdpdr_drive_write")
    case 7 => ("rdpdr", "rdpdr_smartcard")
    case 8 => ("rdpsnd", "rdpsnd_audio_output")
    case _ => ("", "rdpcap_audio_input")
  }

  lemma {:induction false} NoZeroId(list: seq<string>)
    requires forall i :: 0 <= i < |list| ==> ZString(list[i])
    ensures !HasId(list, 0)
  {
    forall i | 0 <= i < |list| && Short(list[i]) ensures NameId(Trim(list[i])) != 0 {
      TrimZString(list[i]);
      NameIdPositive(Trim(list[i]));
    }
  }

  /** A feature: deny always wins, and otherwise it is granted if it is named or if the allow list has a wildcard
      and the deny list has none. */
  lemma FeaturesFollowLists(c: ChannelsAuthorizations, allow: seq<string>, deny: seq<string>, i: nat)
    requires c.Decides(allow, deny) && i < 10
    requires forall k :: 0 <= k < |allow| ==> ZString(allow[k])
    requires forall k :: 0 <= k < |deny| ==> ZString(deny[k])
    ensures var (channel, feature) := FeatureName(i);
            c.Flag(i) <==> !NamesFeature(deny, channel, feature)
                           && (NamesFeature(allow, channel, feature) || (HasStar(allow) && !HasStar(deny)))
  {
    NoZeroId(allow);
    NoZeroId(deny);
  }

  lemma MoreNames(list: seq<string>, name: string)
    requires !Star(name)
    ensures var more := list + [name];
            && HasStar(more) == HasStar(list)
            && (forall id :: HasId(list, id) ==> HasId(more, id))
            && (forall large :: HasLarge(list, large) ==> HasLarge(more, large))
  {
    var more := list + [name];
    assert more[..|list|] == list && more[..|list| + 1] == more;
    Extended(more, |list|);
  }

  /** Naming one more channel or feature in the deny list never authorizes anything. */
  lemma DenyingMore(c: ChannelsAuthorizations, c': ChannelsAuthorizations, allow: seq<string>, deny: seq<string>, name: string,
                    id: nat, i: nat)
    requires c.Decides(allow, deny) && c'.Decides(allow, deny + [name]) && !Star(name) && i < 10
    ensures c'.Flag(i) ==> c.Flag(i)
    ensures c'.IsAuthorized(id) ==> c.IsAuthorized(id)
  {
    MoreNames(deny, name);
    FlagsShrink(allow, deny, deny + [name], CLIPRDR, Cliprdr());
    FlagsShrink(allow, deny, deny + [name], RDPDR, Rdpdr());
    FlagsShrink(allow, deny, deny + [name], RDPSND, Rdpsnd());
    FlagsShrink(allow, deny, deny + [name], 0, Rdpcap());
    OwnChannelsShrink(allow, deny, deny + [name], id);
  }

  ghost predicate Covers(deny: seq<string>, more: seq<string>) {
    && HasStar(more) == HasStar(deny)
    && (forall id :: HasId(deny, id) ==> HasId(more, id))
    && (forall large :: HasLarge(deny, large) ==> HasLarge(more, large))
  }

  lemma FlagsShrink(allow: seq<string>, deny: seq<string>, more: seq<string>, channel: nat, features: seq<string>)
    requires Covers(deny, more)
    ensures var (f, g) := (Flags(allow, deny, channel, features), Flags(allow, more, channel, features));
            && (forall k :: 0 <= k < |g| && g[k] ==> f[k])
            && (true in g ==> true in f)
  {
    var (f, g) := (Flags(allow, deny, channel, features), Flags(allow, more, channel, features));
    if true in g {
      var k :| 0 <= k < |g| && g[k];
      assert f[k];
    }
  }

  lemma OwnChannelsShrink(allow: seq<string>, deny: seq<string>, more: seq<string>, id: nat)
    requires Covers(deny, more)
    ensures AuthorizedBy(allow, more, id) ==> AuthorizedBy(allow, deny, id)
  {
    FlagsShrink(allow, deny, more, CLIPRDR, Cliprdr());
    FlagsShrink(allow, deny, more, RDPDR, Rdpdr());
    FlagsShrink(allow, deny, more, RDPSND, Rdpsnd());
  }

  /** But a wildcard does: behind it, a channel that both lists name is authorized. */
  lemma WildcardUndenies(c: ChannelsAuthorizations, c': ChannelsAuthorizations, name: string, star: string)
    requires Short(name) && NameId(Trim(name)) !in {NameId("cliprdr"), NameId("rdpdr"), NameId("rdpsnd")} && Star(star)
    requires c.Decides([name], [name]) && c'.Decides([name], [name, star])
    ensures !c.IsAuthorized(NameId(Trim(name))) && c'.IsAuthorized(NameId(Trim(name)))
  {
    var (one, two, id) := ([name], [name, star], NameId(Trim(name)));
    ListsOfOne(name, star);
    ChannelsFollowLists(c, one, one, id);
    ChannelsFollowLists(c', one, two, id);
  }

  lemma ListsOfOne(name: string, star: string)
    requires Short(name) && Star(star)
    ensures HasId([name], NameId(Trim(name))) && !HasStar([name]) && HasStar([name, star])
  {
    assert [name][0] == name && [name, star][1] == star;
  }

  // ---- how names are read ----

  predicate Blanks(s: string) { forall i :: 0 <= i < |s| ==> s[i] == ' ' || s[i] == '\t' }

  /** Blanks around a name do not count, and others do. */
  lemma Trimmed(s: string) returns (before: string, after: string)
    ensures s == before + Trim(s) + after && Blanks(before) && Blanks(after)
    ensures Trim(s) != "" ==> !Blanks([Trim(s)[0]]) && !Blanks([Trim(s)[|Trim(s)| - 1]])
  {
    var l := TrimLeft(s);
    before := TrimmedLeft(s);
    after := TrimmedRight(l);
    assert before + (Trim(s) + after) == before + Trim(s) + after;
    if Trim(s) != "" {
      assert l[0] == (Trim(s) + after)[0] == Trim(s)[0];
      assert [l[0]][0] == l[0] && [Trim(s)[|Trim(s)| - 1]][0] == Trim(s)[|Trim(s)| - 1];
    }
  }

  lemma {:induction false} TrimmedLeft(s: string) returns (before: string)
    ensures s == before + TrimLeft(s) && Blanks(before)
    ensures TrimLeft(s) != "" ==> !(TrimLeft(s)[0] == ' ' || TrimLeft(s)[0] == '\t')
    decreases |s|
  {
    before := "";
    if s != "" && Blank(s[0]) {
      var b := TrimmedLeft(s[1..]);
      before := [s[0]] + b;
    }
  }

  lemma {:induction false} TrimmedRight(s: string) returns (after: string)
    ensures s == TrimRight(s) + after && Blanks(after)
    ensures var t := TrimRight(s); t != "" ==> !(t[|t| - 1] == ' ' || t[|t| - 1] == '\t')
    decreases |s|
  {
    after := "";
    if s != "" && Blank(s[|s| - 1]) {
      var a := TrimmedRight(s[..|s| - 1]);
      after := a + [s[|s| - 1]];
      assert s == s[..|s| - 1] + [s[|s| - 1]];
    }
  }

  function Upper(c: char): char { if 'a' <= c <= 'z' then c - 32 as char else c }

  function UpperAll(name: string): (r: string)
    ensures |r| == |name|
  {
    seq(|name|, i requires 0 <= i < |name| => Upper(name[i]))
  }

  /** The case of a name does not matter. */
  lemma {:induction false} CaseDoesNotMatter(name: string)
    ensures NameId(UpperAll(name)) == NameId(name)
    decreases |name|
  {
    if name != "" {
      assert UpperAll(name)[1..] == UpperAll(name[1..]);
      CaseDoesNotMatter(name[1..]);
    }
  }
}
