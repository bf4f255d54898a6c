/** The packets of the Mwrm3 index file: how they are written, how they are read from a stream that
    may stop anywhere, and when the second gives back the first. */
module Mwrm3 {
  import opened Bytes

  const HASH_LEN: nat := 32

  datatype Packet =
    | HeaderCompatibility
    | WrmNew(filename: seq<byte>)
    | WrmState(fileSize: nat, duration: nat, quickHash: seq<byte>, fullHash: seq<byte>)
    | FdxNew(filename: seq<byte>)
    | TflNew(id: nat, fileSize: nat, direction: nat, status: nat, originalFilename: seq<byte>, tflFilename: seq<byte>,
             quickHash: seq<byte>, fullHash: seq<byte>, signature: seq<byte>)

  predicate IsHash(h: seq<byte>) { |h| == 0 || |h| == HASH_LEN }

  /** The fields fit their widths, and the two hashes are there or not together. */
  predicate Valid(p: Packet) {
    match p
    case HeaderCompatibility => true
    case WrmNew(f) => |f| < TWO_16
    case FdxNew(f) => |f| < TWO_16
    case WrmState(n, d, q, h) => n < TWO_64 && d < TWO_64 && IsHash(q) && IsHash(h) && |q| == |h|
    case TflNew(id, n, dir, st, o, t, q, h, s) =>
      && id < TWO_64 && n < TWO_64 && dir < 4 && st < 4 && |o| < TWO_16 && |t| < TWO_16
      && IsHash(q) && IsHash(h) && |q| == |h| && IsHash(s)
  }

  function Flag(h: seq<byte>): nat { if h == [] then 0 else 1 }

  function StateMask(q: seq<byte>, h: seq<byte>): (m: byte) { Flag(q) + 2 * Flag(h) }

  function TflMask(q: seq<byte>, h: seq<byte>, s: seq<byte>, dir: nat, st: nat): (m: byte)
    requires dir < 4 && st < 4
  {
    Flag(q) + 2 * Flag(h) + 4 * Flag(s) + 8 * dir + 32 * st
  }

  function Header(p: Packet): seq<byte>
    requires Valid(p)
  {
    match p
    case HeaderCompatibility => [0x76, 0x33, 0x0A] // v3 and a newline
    case WrmNew(f) => U16Le(1) + U16Le(|f|)
    case WrmState(n, d, q, h) => U16Le(2) + U64Le(n) + U64Le(d) + [StateMask(q, h)]
    case FdxNew(f) => U16Le(3) + U16Le(|f|)
    case TflNew(id, n, dir, st, o, t, q, h, s) =>
      U16Le(4) + U64Le(id) + U64Le(n) + [TflMask(q, h, s, dir, st)] + U16Le(|o|) + U16Le(|t|)
  }

  function Body(p: Packet): seq<byte>
    requires Valid(p)
  {
    match p
    case HeaderCompatibility => []
    case WrmNew(f) => f
    case WrmState(_, _, q, h) => q + h
    case FdxNew(f) => f
    case TflNew(_, _, _, _, o, t, q, h, s) => o + (t + (q + (h + s)))
  }

  function Serialize(p: Packet): seq<byte>
    requires Valid(p)
  {
    Header(p) + Body(p)
  }

  datatype Result = Ok(packet: Packet, rest: seq<byte>) | UnknownType | NeedMoreData

  datatype Taken = Taken(bytes: seq<byte>, rest: seq<byte>) | Missing

  function Take(s: seq<byte>, n: nat): Taken {
    if |s| < n then Missing else Taken(s[..n], s[n..])
  }

  function Optional(present: bool, s: seq<byte>): Taken {
    if present then Take(s, HASH_LEN) else Taken([], s)
  }

  function Bit(m: byte, n: nat): bool
    requires n < 3
  {
    if n == 0 then m % 2 == 1 else if n == 1 then m / 2 % 2 == 1 else m / 4 % 2 == 1
  }

  function ParseName(s: seq<byte>): Taken {
    match Take(s, 2)
    case Missing => Missing
    case Taken(n, r) => Take(r, FromLe(n))
  }

  function ParseState(s: seq<byte>): Result {
    match Take(s, 17)
    case Missing => NeedMoreData
    case Taken(g, r0) =>
      match Optional(Bit(g[16], 0), r0)
      case Missing => NeedMoreData
      case Taken(q, r1) =>
        match Optional(Bit(g[16], 1), r1)
        case Missing => NeedMoreData
        case Taken(h, r2) => Ok(WrmState(FromLe(g[0..8]), FromLe(g[8..16]), q, h), r2)
  }

  /** The hashes and the signature at the end. */
  function ParseTail(g: seq<byte>, o: seq<byte>, t: seq<byte>, s: seq<byte>): Result
    requires |g| == 21
  {
    match Optional(Bit(g[16], 0), s)
    case Missing => NeedMoreData
    case Taken(q, r0) =>
      match Optional(Bit(g[16], 1), r0)
      case Missing => NeedMoreData
      case Taken(h, r1) =>
        match Optional(Bit(g[16], 2), r1)
        case Missing => NeedMoreData
        case Taken(sig, r2) =>
          Ok(TflNew(FromLe(g[0..8]), FromLe(g[8..16]), g[16] / 8 % 4, g[16] / 32 % 4, o, t, q, h, sig), r2)
  }

  /** The groups of both names ask for two bytes more than they know of. */
  function ParseTfl(s: seq<byte>): Result {
    if |s| < 23 then NeedMoreData
    else
      var (g, r0) := (s[..21], s[21..]);
      match Take(r0, FromLe(g[17..19]))
      case Missing => NeedMoreData
      case Taken(o, r1) =>
        if |r1| < 2 then NeedMoreData
        else
          match Take(r1, FromLe(g[19..21]))
          case Missing => NeedMoreData
          case Taken(t, r2) => ParseTail(g, o, t, r2)
  }

  function ParseBody(kind: nat, s: seq<byte>): Result {
    if kind == 1 then
      match ParseName(s) case Missing => NeedMoreData case Taken(f, r) => Ok(WrmNew(f), r)
    else if kind == 2 then ParseState(s)
    else if kind == 3 then
      match ParseName(s) case Missing => NeedMoreData case Taken(f, r) => Ok(FdxNew(f), r)
    else if kind == 4 then ParseTfl(s)
    else if kind == 0x3376 then if s == [] then NeedMoreData else Ok(HeaderCompatibility, s[1..])
    else UnknownType
  }

  function ParsePacket(s: seq<byte>): Result {
    if |s| < 2 then NeedMoreData else ParseBody(FromLe(s[..2]), s[2..])
  }

  // ---- what is read is what was written ----

  lemma TakeOf(a: seq<byte>, b: seq<byte>)
    ensures Take(a + b, |a|) == Taken(a, b)
  {
  }

  lemma OptionalOf(h: seq<byte>, b: seq<byte>)
    requires IsHash(h)
    ensures Optional(h != [], h + b) == Taken(h, b)
  {
    TakeOf(h, b);
    assert [] + b == b;
  }

  lemma NameOf(f: seq<byte>, rest: seq<byte>)
    requires |f| < TWO_16
    ensures ParseName(U16Le(|f|) + f + rest) == Taken(f, rest)
  {
    LeWidths(|f|);
    TakeOf(U16Le(|f|), f + rest);
    assert U16Le(|f|) + f + rest == U16Le(|f|) + (f + rest);
    TakeOf(f, rest);
  }

  lemma MaskBits(q: seq<byte>, h: seq<byte>, s: seq<byte>, dir: nat, st: nat)
    requires dir < 4 && st < 4
    ensures var m := StateMask(q, h); (Bit(m, 0) <==> q != []) && (Bit(m, 1) <==> h != [])
    ensures var m := TflMask(q, h, s, dir, st);
            && (Bit(m, 0) <==> q != []) && (Bit(m, 1) <==> h != []) && (Bit(m, 2) <==> s != [])
            && m / 8 % 4 == dir && m / 32 % 4 == st
  {
  }

  lemma StateFields(n: nat, d: nat, m: byte)
    requires n < TWO_64 && d < TWO_64
    ensures var g := U64Le(n) + U64Le(d) + [m];
            FromLe(g[0..8]) == n && FromLe(g[8..16]) == d && g[16] == m
  {
    var g := U64Le(n) + U64Le(d) + [m];
    LeWidths(n);
    LeWidths(d);
    assert g[0..8] == U64Le(n) && g[8..16] == U64Le(d);
  }

  lemma StateOf(p: Packet, rest: seq<byte>)
    requires p.WrmState? && Valid(p)
    ensures ParseState(U64Le(p.fileSize) + U64Le(p.duration) + [StateMask(p.quickHash, p.fullHash)] + Body(p) + rest)
            == Ok(p, rest)
  {
    var (q, h) := (p.quickHash, p.fullHash);
    var g := U64Le(p.fileSize) + U64Le(p.duration) + [StateMask(q, h)];
    MaskBits(q, h, [], 0, 0);
    StateFields(p.fileSize, p.duration, StateMask(q, h));
    RegroupFour(g, q, h, rest);
    assert g + Body(p) + rest == g + (q + (h + rest)) by {
      Regroup(g, q, h);
      assert g + Body(p) == g + q + h;
    }
    TakeOf(g, q + (h + rest));
    OptionalOf(q, h + rest);
    OptionalOf(h, rest);
  }

  lemma TailOf(g: seq<byte>, p: Packet, rest: seq<byte>)
    requires p.TflNew? && Valid(p) && |g| == 21
    requires FromLe(g[0..8]) == p.id && FromLe(g[8..16]) == p.fileSize
    requires g[16] == TflMask(p.quickHash, p.fullHash, p.signature, p.direction, p.status)
    ensures ParseTail(g, p.originalFilename, p.tflFilename, p.quickHash + (p.fullHash + (p.signature + rest)))
            == Ok(p, rest)
  {
    MaskBits(p.quickHash, p.fullHash, p.signature, p.direction, p.status);
    OptionalOf(p.quickHash, p.fullHash + (p.signature + rest));
    OptionalOf(p.fullHash, p.signature + rest);
    OptionalOf(p.signature, rest);
  }

  /** The bytes after the original name. */
  function AfterOriginal(p: Packet, rest: seq<byte>): seq<byte>
    requires p.TflNew?
  {
    p.tflFilename + (p.quickHash + (p.fullHash + (p.signature + rest)))
  }

  function TflFields(p: Packet): (g: seq<byte>)
    requires p.TflNew? && Valid(p)
    ensures |g| == 21
  {
    U64Le(p.id) + U64Le(p.fileSize) + [TflMask(p.quickHash, p.fullHash, p.signature, p.direction, p.status)]
    + U16Le(|p.originalFilename|) + U16Le(|p.tflFilename|)
  }

  lemma TflFieldsRead(p: Packet)
    requires p.TflNew? && Valid(p)
    ensures var g := TflFields(p);
            && FromLe(g[0..8]) == p.id && FromLe(g[8..16]) == p.fileSize
            && g[16] == TflMask(p.quickHash, p.fullHash, p.signature, p.direction, p.status)
            && FromLe(g[17..19]) == |p.originalFilename| && FromLe(g[19..21]) == |p.tflFilename|
  {
    var g := TflFields(p);
    LeWidths(p.id);
    LeWidths(p.fileSize);
    LeWidths(|p.originalFilename|);
    LeWidths(|p.tflFilename|);
    assert g[0..8] == U64Le(p.id) && g[8..16] == U64Le(p.fileSize);
    assert g[17..19] == U16Le(|p.originalFilename|) && g[19..21] == U16Le(|p.tflFilename|);
  }

  lemma TflOf(p: Packet, rest: seq<byte>)
    requires p.TflNew? && Valid(p)
    ensures ParseTfl(TflFields(p) + (p.originalFilename + AfterOriginal(p, rest)))
            == if |AfterOriginal(p, rest)| < 2 then NeedMoreData else Ok(p, rest)
  {
    var (g, o, after) := (TflFields(p), p.originalFilename, AfterOriginal(p, rest));
    TflFieldsRead(p);
    TakeOf(g, o + after);
    TakeOf(o, after);
    TakeOf(p.tflFilename, p.quickHash + (p.fullHash + (p.signature + rest)));
    TailOf(g, p, rest);
  }

  lemma KindOf(kind: nat, s: seq<byte>)
    requires kind < TWO_16
    ensures ParsePacket(U16Le(kind) + s) == ParseBody(kind, s)
  {
    LeWidths(kind);
    TakeOf(U16Le(kind), s);
  }

  lemma CompatibilityBytes()
    ensures U16Le(0x3376) == [0x76, 0x33]
  {
    assert Le(0x33, 1) == [0x33];
  }

  /** What the groups of the two names ask for beyond what they read. */
  predicate EnoughFollows(p: Packet, rest: seq<byte>) {
    p.TflNew? ==> |p.tflFilename| + |p.quickHash| + |p.fullHash| + |p.signature| + |rest| >= 2
  }

  /** Whatever follows a packet, it is read back, and what follows is left, exactly when the packet is
      no TflNew or at least two bytes come after its original name. */
  lemma RoundTrip(p: Packet, rest: seq<byte>)
    requires Valid(p)
    ensures ParsePacket(Serialize(p) + rest) == if EnoughFollows(p, rest) then Ok(p, rest) else NeedMoreData
  {
    match p
    case HeaderCompatibility =>
      CompatibilityBytes();
      KindOf(0x3376, [0x0A] + rest);
      assert Serialize(p) + rest == U16Le(0x3376) + ([0x0A] + rest);
    case WrmNew(_) =>
      NewRoundTrip(p, rest);
    case FdxNew(_) =>
      NewRoundTrip(p, rest);
    case WrmState(_, _, _, _) =>
      StateRoundTrip(p, rest);
    case TflNew(_, _, _, _, _, _, _, _, _) =>
      TflRoundTrip(p, rest);
  }

  lemma StateBytes(p: Packet, rest: seq<byte>, tail: seq<byte>)
    requires Valid(p) && p.WrmState?
    requires tail == U64Le(p.fileSize) + U64Le(p.duration) + [StateMask(p.quickHash, p.fullHash)] + Body(p) + rest
    ensures Serialize(p) + rest == U16Le(2) + tail
  {
  }

  lemma StateRoundTrip(p: Packet, rest: seq<byte>)
    requires Valid(p) && p.WrmState?
    ensures ParsePacket(Serialize(p) + rest) == Ok(p, rest)
  {
    var tail := U64Le(p.fileSize) + U64Le(p.duration) + [StateMask(p.quickHash, p.fullHash)] + Body(p) + rest;
    StateOf(p, rest);
    KindOf(2, tail);
    StateBytes(p, rest, tail);
  }

  lemma TflBytes(p: Packet, rest: seq<byte>)
    requires Valid(p) && p.TflNew?
    ensures Serialize(p) + rest == U16Le(4) + (TflFields(p) + (p.originalFilename + AfterOriginal(p, rest)))
  {
    assert Header(p) == U16Le(4) + TflFields(p);
    assert Body(p) + rest == p.originalFilename + AfterOriginal(p, rest);
    RegroupFour(U16Le(4), TflFields(p), Body(p), rest);
  }

  lemma RegroupFour(a: seq<byte>, b: seq<byte>, c: seq<byte>, d: seq<byte>)
    ensures a + b + c + d == a + (b + (c + d))
  {
  }

  lemma AfterOriginalSize(p: Packet, rest: seq<byte>)
    requires p.TflNew?
    ensures EnoughFollows(p, rest) <==> |AfterOriginal(p, rest)| >= 2
  {
  }

  lemma TflRoundTrip(p: Packet, rest: seq<byte>)
    requires Valid(p) && p.TflNew?
    ensures ParsePacket(Serialize(p) + rest) == if EnoughFollows(p, rest) then Ok(p, rest) else NeedMoreData
  {
    TflOf(p, rest);
    TflBytes(p, rest);
    AfterOriginalSize(p, rest);
    KindOf(4, TflFields(p) + (p.originalFilename + AfterOriginal(p, rest)));
  }

  lemma NewRoundTrip(p: Packet, rest: seq<byte>)
    requires Valid(p) && (p.WrmNew? || p.FdxNew?)
    ensures ParsePacket(Serialize(p) + rest) == Ok(p, rest)
  {
    var (kind, f) := (if p.WrmNew? then 1 else 3, p.filename);
    NameOf(f, rest);
    KindOf(kind, U16Le(|f|) + f + rest);
    NewBytes(p, rest, kind);
  }

  lemma NewBytes(p: Packet, rest: seq<byte>, kind: nat)
    requires Valid(p) && (p.WrmNew? || p.FdxNew?) && kind == (if p.WrmNew? then 1 else 3)
    ensures Serialize(p) + rest == U16Le(kind) + (U16Le(|p.filename|) + p.filename + rest)
  {
  }

  // ---- packets that are cut short ----

  lemma TakePrefix(s: seq<byte>, n: nat, k: nat)
    requires k <= |s|
    ensures Take(s[..k], n) == if k < n then Missing else Taken(s[..n], s[n..][..k - n])
  {
    if n <= k {
      assert s[..k][..n] == s[..n] && s[..k][n..] == s[n..][..k - n];
    }
  }

  lemma OptionalPrefix(present: bool, s: seq<byte>, k: nat)
    requires k <= |s|
    ensures present ==> Optional(present, s[..k]) == if k < HASH_LEN then Missing else Taken(s[..HASH_LEN], s[HASH_LEN..][..k - HASH_LEN])
    ensures !present ==> Optional(present, s[..k]) == Taken([], s[..k])
  {
    TakePrefix(s, HASH_LEN, k);
  }

  /** A reading step on a shorter stream: it fails, or takes the same and leaves less. */
  predicate Shortened(t: Taken, t': Taken, missing: nat) {
    t.Taken? && (t'.Missing? || (missing <= |t.rest| && t' == Taken(t.bytes, t.rest[..|t.rest| - missing])))
  }

  lemma TakeShortened(s: seq<byte>, n: nat, missing: nat)
    requires missing <= |s| && Take(s, n).Taken?
    ensures Shortened(Take(s, n), Take(s[..|s| - missing], n), missing)
  {
    TakePrefix(s, n, |s| - missing);
  }

  lemma OptionalShortened(present: bool, s: seq<byte>, missing: nat)
    requires missing <= |s| && Optional(present, s).Taken?
    ensures Shortened(Optional(present, s), Optional(present, s[..|s| - missing]), missing)
  {
    OptionalPrefix(present, s, |s| - missing);
  }

  lemma NameShortened(s: seq<byte>, missing: nat)
    requires missing <= |s| && ParseName(s).Taken?
    ensures Shortened(ParseName(s), ParseName(s[..|s| - missing]), missing)
  {
    TakeShortened(s, 2, missing);
    var t := Take(s, 2);
    if missing <= |t.rest| {
      TakeShortened(t.rest, FromLe(t.bytes), missing);
    }
  }

  lemma TailShortened(g: seq<byte>, o: seq<byte>, t: seq<byte>, s: seq<byte>, missing: nat)
    requires |g| == 21 && missing <= |s| && ParseTail(g, o, t, s).Ok? && missing > |ParseTail(g, o, t, s).rest|
    ensures ParseTail(g, o, t, s[..|s| - missing]) == NeedMoreData
  {
    OptionalShortened(Bit(g[16], 0), s, missing);
    var r0 := Optional(Bit(g[16], 0), s).rest;
    if missing <= |r0| {
      OptionalShortened(Bit(g[16], 1), r0, missing);
      var r1 := Optional(Bit(g[16], 1), r0).rest;
      if missing <= |r1| {
        OptionalShortened(Bit(g[16], 2), r1, missing);
      }
    }
  }

  lemma StateShortened(s: seq<byte>, missing: nat)
    requires missing <= |s| && ParseState(s).Ok? && missing > |ParseState(s).rest|
    ensures ParseState(s[..|s| - missing]) == NeedMoreData
  {
    TakeShortened(s, 17, missing);
    var (g, r0) := (Take(s, 17).bytes, Take(s, 17).rest);
    if missing <= |r0| {
      OptionalShortened(Bit(g[16], 0), r0, missing);
      var r1 := Optional(Bit(g[16], 0), r0).rest;
      if missing <= |r1| {
        OptionalShortened(Bit(g[16], 1), r1, missing);
      }
    }
  }

  lemma TflShortened(s: seq<byte>, missing: nat)
    requires missing <= |s| && ParseTfl(s).Ok? && missing > |ParseTfl(s).rest|
    ensures ParseTfl(s[..|s| - missing]) == NeedMoreData
  {
    TakeShortened(s, 21, missing);
    var (g, r0) := (s[..21], s[21..]);
    if missing <= |r0| {
      TakeShortened(r0, FromLe(g[17..19]), missing);
      var t := Take(r0, FromLe(g[17..19]));
      if missing <= |t.rest| {
        TakeShortened(t.rest, FromLe(g[19..21]), missing);
        var u := Take(t.rest, FromLe(g[19..21]));
        if missing <= |u.rest| {
          TailShortened(g, t.bytes, u.bytes, u.rest, missing);
        }
      }
    }
  }

  /** Reading any bytes, a packet that is cut anywhere before its end asks for more data. */
  lemma CutShort(s: seq<byte>, k: nat)
    requires ParsePacket(s).Ok? && k < |s| - |ParsePacket(s).rest|
    ensures ParsePacket(s[..k]) == NeedMoreData
  {
    if k >= 2 {
      var (kind, r, missing) := (FromLe(s[..2]), s[2..], |s| - k);
      assert s[..k][..2] == s[..2] && s[..k][2..] == r[..|r| - missing];
      if kind == 1 || kind == 3 {
        NameShortened(r, missing);
      } else if kind == 2 {
        StateShortened(r, missing);
      } else if kind == 4 {
        TflShortened(r, missing);
      }
    }
  }

  /** No proper prefix of a packet is taken for a packet, or for an error. */
  lemma ProperPrefix(p: Packet, k: nat)
    requires Valid(p) && k < |Serialize(p)|
    ensures ParsePacket(Serialize(p)[..k]) == NeedMoreData
  {
    var s := Serialize(p) + [0, 0];
    RoundTrip(p, [0, 0]);
    CutShort(s, k);
    assert s[..k] == Serialize(p)[..k];
  }

  // ---- the readers ----

  class InStream {
    const data: seq<byte>
    var pos: nat

    ghost predicate Valid()
      reads this
    {
      pos <= |data|
    }

    function Remaining(): seq<byte>
      requires Valid()
      reads this
    {
      data[pos..]
    }

    constructor (data: seq<byte>)
      ensures Valid() && Remaining() == data
    {
      this.data := data;
      pos := 0;
    }

    predicate CheckRem(n: nat)
      requires Valid()
      reads this
    {
      |data| - pos >= n
    }

    method SkipBytes(n: nat) returns (s: seq<byte>)
      requires Valid() && CheckRem(n)
      modifies this
      ensures Valid() && Taken(s, Remaining()) == Take(old(Remaining()), n)
    {
      s := data[pos..pos + n];
      pos := pos + n;
    }

    method InLe(n: nat) returns (v: nat)
      requires Valid() && CheckRem(n)
      modifies this
      ensures Valid() && v == FromLe(old(Remaining())[..n]) && Remaining() == old(Remaining())[n..]
    {
      var s := SkipBytes(n);
      v := FromLe(s);
    }

    /** The data of a string or of a hash: a length is known, and the bytes may not be there. */
    method ReadData(n: nat) returns (ok: bool, s: seq<byte>)
      requires Valid()
      modifies this
      ensures Valid()
      ensures match Take(old(Remaining()), n)
              case Missing => !ok
              case Taken(b, r) => ok && s == b && Remaining() == r
    {
      ok, s := CheckRem(n), [];
      if ok {
        s := SkipBytes(n);
      }
    }

    method ReadOptional(present: bool) returns (ok: bool, s: seq<byte>)
      requires Valid()
      modifies this
      ensures Valid()
      ensures match Optional(present, old(Remaining()))
              case Missing => !ok
              case Taken(b, r) => ok && s == b && Remaining() == r
    {
      ok, s := true, [];
      if present {
        ok, s := ReadData(HASH_LEN);
      }
    }

    /** u16str, alone in its group. */
    method ReadName() returns (ok: bool, s: seq<byte>)
      requires Valid()
      modifies this
      ensures Valid()
      ensures match ParseName(old(Remaining()))
              case Missing => !ok
              case Taken(b, r) => ok && s == b && Remaining() == r
    {
      ok, s := CheckRem(2), [];
      if ok {
        var n := InLe(2);
        ok, s := ReadData(n);
      }
    }
  }

  method ReadState(input: InStream) returns (r: Result)
    requires input.Valid()
    modifies input
    ensures r == ParseState(old(input.Remaining()))
  {
    if !input.CheckRem(17) {
      return NeedMoreData;
    }
    ghost var g := input.Remaining()[..17];
    var fileSize := input.InLe(8);
    var duration := input.InLe(8);
    var m := input.SkipBytes(1);
    assert g[0..8] == old(input.Remaining())[..8] && g[8..16] == old(input.Remaining())[8..][..8] && g[16] == m[0];
    assert input.Remaining() == old(input.Remaining())[17..];
    var ok, quickHash := input.ReadOptional(Bit(m[0], 0));
    if !ok {
      return NeedMoreData;
    }
    var fullHash;
    ok, fullHash := input.ReadOptional(Bit(m[0], 1));
    if !ok {
      return NeedMoreData;
    }
    r := Ok(WrmState(fileSize, duration, quickHash, fullHash), input.Remaining());
  }

  method ReadTail(input: InStream, ghost g: seq<byte>, id: nat, fileSize: nat, m: byte, o: seq<byte>, t: seq<byte>)
    returns (r: Result)
    requires input.Valid() && |g| == 21 && id == FromLe(g[0..8]) && fileSize == FromLe(g[8..16]) && m == g[16]
    modifies input
    ensures r == ParseTail(g, o, t, old(input.Remaining()))
  {
    var ok, quickHash, fullHash, signature;
    ok, quickHash := input.ReadOptional(Bit(m, 0));
    if !ok {
      return NeedMoreData;
    }
    ok, fullHash := input.ReadOptional(Bit(m, 1));
    if !ok {
      return NeedMoreData;
    }
    ok, signature := input.ReadOptional(Bit(m, 2));
    if !ok {
      return NeedMoreData;
    }
    r := Ok(TflNew(id, fileSize, m / 8 % 4, m / 32 % 4, o, t, quickHash, fullHash, signature), input.Remaining());
  }

  /** The fixed fields, read one after the other. */
  lemma FieldSlices(s: seq<byte>)
    requires |s| >= 21
    ensures var g := s[..21];
            && g[0..8] == s[..8] && g[8..16] == s[8..][..8] && [g[16]] == s[8..][8..][..1]
            && g[17..19] == s[8..][8..][1..][..2] && g[19..21] == s[8..][8..][1..][2..][..2]
            && s[8..][8..][1..][2..][2..] == s[21..]
  {
    assert s[8..][8..] == s[16..] && s[16..][1..] == s[17..] && s[17..][2..] == s[19..] && s[19..][2..] == s[21..];
  }

  method ReadTfl(input: InStream) returns (r: Result)
    requires input.Valid()
    modifies input
    ensures r == ParseTfl(old(input.Remaining()))
  {
    if !input.CheckRem(8 + 8 + 1 + 2 + 2 + 2) {
      return NeedMoreData;
    }
    ghost var s := input.Remaining();
    ghost var g := s[..21];
    var id := input.InLe(8);
    assert input.Remaining() == s[8..];
    var fileSize := input.InLe(8);
    assert input.Remaining() == s[8..][8..];
    var m := input.SkipBytes(1);
    assert input.Remaining() == s[8..][8..][1..] && m == s[8..][8..][..1];
    var originalLen := input.InLe(2);
    var tflLen := input.InLe(2);
    FieldSlices(s);
    var ok, original, tfl;
    ok, original := input.ReadData(originalLen);
    if !ok || !input.CheckRem(2) {
      return NeedMoreData;
    }
    ok, tfl := input.ReadData(tflLen);
    if !ok {
      return NeedMoreData;
    }
    r := ReadTail(input, g, id, fileSize, m[0], original, tfl);
  }

  /** parse_packet */
  method ReadPacket(av: seq<byte>) returns (r: Result)
    ensures r == ParsePacket(av)
  {
    if |av| < 2 {
      return NeedMoreData;
    }
    var input := new InStream(av);
    var kind := input.InLe(2);
    if kind == 1 || kind == 3 {
      var ok, name := input.ReadName();
      if ok {
        r := Ok(if kind == 1 then WrmNew(name) else FdxNew(name), input.Remaining());
      } else {
        r := NeedMoreData;
      }
    } else if kind == 2 {
      r := ReadState(input);
    } else if kind == 4 {
      r := ReadTfl(input);
    } else if kind == 0x3376 {
      if input.Remaining() == [] {
        r := NeedMoreData;
      } else {
        r := Ok(HeaderCompatibility, input.Remaining()[1..]);
      }
    } else {
      r := UnknownType;
    }
  }
}
