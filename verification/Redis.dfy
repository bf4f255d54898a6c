/** The SET command for the real-time images: a template, a gap and the data share one buffer, and the
    header is put in place right before the data once its length is known. */
module Redis {
  import opened Bytes

  const CR: byte := 13
  const LF: byte := 10

  // ---- the protocol ----

  function Decimal(n: nat): (r: seq<byte>)
    ensures r != []
  {
    if n < 10 then [48 + n] else Decimal(n / 10) + [48 + n % 10]
  }

  /** An argument: a dollar sign, its length, and its bytes. */
  function Argument(a: seq<byte>): seq<byte> {
    [36] + Decimal(|a|) + [CR, LF] + a + [CR, LF]
  }

  function Arguments(args: seq<seq<byte>>): seq<byte> {
    if args == [] then [] else Argument(args[0]) + Arguments(args[1..])
  }

  /** A command is an array of arguments. */
  function Command(args: seq<seq<byte>>): seq<byte> {
    [42] + Decimal(|args|) + [CR, LF] + Arguments(args)
  }

  datatype Parsed<T> = Got(value: T, rest: seq<byte>) | Bad

  function Digits(s: seq<byte>, n: nat): (nat, seq<byte>)
    decreases |s|
  {
    if s != [] && 48 <= s[0] < 58 then Digits(s[1..], 10 * n + (s[0] - 48)) else (n, s)
  }

  /** A number and the end of its line. */
  function ParseNumber(s: seq<byte>): Parsed<nat> {
    var (n, r) := Digits(s, 0);
    if |r| >= 2 && r[0] == CR && r[1] == LF then Got(n, r[2..]) else Bad
  }

  function ParseArgument(s: seq<byte>): Parsed<seq<byte>> {
    if s == [] || s[0] != 36 then Bad
    else
      match ParseNumber(s[1..])
      case Bad => Bad
      case Got(n, r) =>
        if |r| >= n + 2 && r[n] == CR && r[n + 1] == LF then Got(r[..n], r[n + 2..]) else Bad
  }

  function ParseArguments(n: nat, s: seq<byte>): Parsed<seq<seq<byte>>> {
    if n == 0 then Got([], s)
    else
      match ParseArgument(s)
      case Bad => Bad
      case Got(a, r) =>
        match ParseArguments(n - 1, r)
        case Bad => Bad
        case Got(more, t) => Got([a] + more, t)
  }

  /** What a server takes a command for. */
  function ParseCommand(s: seq<byte>): Parsed<seq<seq<byte>>> {
    if s == [] || s[0] != 42 then Bad
    else match ParseNumber(s[1..]) case Bad => Bad case Got(n, r) => ParseArguments(n, r)
  }

  lemma {:induction false} DigitsOfDecimal(n: nat, t: seq<byte>)
    ensures Digits(Decimal(n) + t, 0) == Digits(t, n)
    decreases n
  {
    if n < 10 {
      assert (Decimal(n) + t)[1..] == t;
    } else {
      var d := [48 + n % 10 as byte];
      assert Decimal(n) + t == Decimal(n / 10) + (d + t);
      DigitsOfDecimal(n / 10, d + t);
      assert (d + t)[1..] == t;
    }
  }

  lemma NumberRoundTrip(n: nat, rest: seq<byte>)
    ensures ParseNumber(Decimal(n) + [CR, LF] + rest) == Got(n, rest)
  {
    var t := [CR, LF] + rest;
    assert Decimal(n) + [CR, LF] + rest == Decimal(n) + t;
    DigitsOfDecimal(n, t);
    assert t[2..] == rest;
  }

  lemma ArgumentRoundTrip(a: seq<byte>, rest: seq<byte>)
    ensures ParseArgument(Argument(a) + rest) == Got(a, rest)
  {
    var s := Argument(a) + rest;
    var r := a + [CR, LF] + rest;
    assert s[1..] == Decimal(|a|) + [CR, LF] + r;
    NumberRoundTrip(|a|, r);
    assert r[..|a|] == a && r[|a| + 2..] == rest;
  }

  lemma {:induction false} ArgumentsRoundTrip(args: seq<seq<byte>>, rest: seq<byte>)
    ensures ParseArguments(|args|, Arguments(args) + rest) == Got(args, rest)
    decreases |args|
  {
    if args == [] {
      assert Arguments(args) + rest == rest;
    } else {
      assert Arguments(args) + rest == Argument(args[0]) + (Arguments(args[1..]) + rest);
      ArgumentRoundTrip(args[0], Arguments(args[1..]) + rest);
      ArgumentsRoundTrip(args[1..], rest);
      assert [args[0]] + args[1..] == args;
    }
  }

  /** A server reads the arguments of any command back, whatever bytes they are made of. */
  lemma CommandRoundTrip(args: seq<seq<byte>>, rest: seq<byte>)
    ensures ParseCommand(Command(args) + rest) == Got(args, rest)
  {
    var s := Command(args) + rest;
    assert s[1..] == Decimal(|args|) + [CR, LF] + (Arguments(args) + rest);
    NumberRoundTrip(|args|, Arguments(args) + rest);
    ArgumentsRoundTrip(args, rest);
  }

  // ---- the buffer ----

  /** Enough for any unsigned 64-bit number. */
  const NUMBER_ROOM: nat := 20

  function Pow10(k: nat): nat {
    if k == 0 then 1 else 10 * Pow10(k - 1)
  }

  lemma {:induction false} DecimalLength(n: nat, k: nat)
    requires n < Pow10(k) && k > 0
    ensures |Decimal(n)| <= k
    decreases k
  {
    if n >= 10 {
      assert k > 1;
      DecimalLength(n / 10, k - 1);
    }
  }

  lemma NumberFits(n: nat)
    requires n < TWO_64
    ensures |Decimal(n)| <= NUMBER_ROOM
  {
    assert Pow10(5) == 100000;
    assert Pow10(10) == 10000000000;
    assert Pow10(15) == 1000000000000000;
    assert Pow10(20) == 100000000000000000000;
    DecimalLength(n, 20);
  }

  function Set(): seq<byte> { [83, 69, 84] }
  function Ex(): seq<byte> { [69, 88] }

  /** memcpy into a vector. */
  function Overwrite(s: seq<byte>, p: nat, bytes: seq<byte>): (r: seq<byte>)
    requires p + |bytes| <= |s|
    ensures |r| == |s|
  {
    s[..p] + bytes + s[p + |bytes|..]
  }

  lemma Overwritten(s: seq<byte>, p: nat, bytes: seq<byte>, i: nat, j: nat)
    requires p + |bytes| <= |s| && i <= j <= |s|
    ensures Overwrite(s, p, bytes)[p..p + |bytes|] == bytes
    ensures j <= p || p + |bytes| <= i ==> Overwrite(s, p, bytes)[i..j] == s[i..j]
  {
  }

  /** The end of the command: the expiration, and before it the end of the data. */
  function ExpireOf(delay: nat): seq<byte> {
    [CR, LF] + Argument(Ex()) + Argument(Decimal(delay))
  }

  /** The command up to the length of the data. */
  function TemplateOf(key: seq<byte>): seq<byte> {
    [42] + Decimal(5) + [CR, LF] + Argument(Set()) + Argument(key) + [36]
  }

  lemma ExpireBytes(delay: nat)
    ensures var d := Decimal(delay);
            ExpireOf(delay) == [CR, LF, 36, 50, CR, LF, 69, 88, CR, LF, 36] + Decimal(|d|) + [CR, LF] + d + [CR, LF]
  {
    var (d2, x) := (Decimal(2), Ex());
    assert d2 == [50];
    var p := [36] + d2 + [CR, LF];
    assert p == [36, 50, CR, LF];
    var q := p + x + [CR, LF];
    assert q == [36, 50, CR, LF, 69, 88, CR, LF];
    ExpireParts(q, Decimal(|Decimal(delay)|), Decimal(delay));
  }

  lemma ExpireParts(ex: seq<byte>, n: seq<byte>, d: seq<byte>)
    requires ex == [36, 50, CR, LF, 69, 88, CR, LF]
    ensures [CR, LF] + ex + ([36] + n + [CR, LF] + d + [CR, LF])
            == [CR, LF, 36, 50, CR, LF, 69, 88, CR, LF, 36] + n + [CR, LF] + d + [CR, LF]
  {
    var head := [CR, LF] + ex + [36];
    assert head == [CR, LF, 36, 50, CR, LF, 69, 88, CR, LF, 36];
    Regroup([CR, LF] + ex, [36] + n + [CR, LF] + d, [CR, LF]);
    Regroup([CR, LF] + ex, [36] + n + [CR, LF], d);
    Regroup([CR, LF] + ex, [36] + n, [CR, LF]);
    Regroup([CR, LF] + ex, [36], n);
  }

  /** The five arguments, and the first of them. */
  function Start(): seq<byte> { [42, 53, CR, LF, 36, 51, CR, LF, 83, 69, 84, CR, LF] }

  lemma TemplateBytes(key: seq<byte>)
    ensures TemplateOf(key)
            == Start() + [36] + Decimal(|key|) + [CR, LF] + key + ([CR, LF] + [36])
  {
    var start := Start();
    StartBytes();
    Moved(start, [36], Decimal(|key|) + [CR, LF] + key, [CR, LF], [36]);
    Regroup([36], Decimal(|key|) + [CR, LF], key);
    Regroup([36], Decimal(|key|), [CR, LF]);
    Regroup(start + [36], Decimal(|key|) + [CR, LF], key);
    Regroup(start + [36], Decimal(|key|), [CR, LF]);
  }

  lemma StartBytes()
    ensures [42] + Decimal(5) + [CR, LF] + Argument(Set()) == Start()
  {
    var (d5, d3, s) := (Decimal(5), Decimal(3), Set());
    assert d5 == [53] && d3 == [51];
    var p := [42] + d5 + [CR, LF];
    assert p == [42, 53, CR, LF];
    var q := [36] + d3 + [CR, LF];
    assert q == [36, 51, CR, LF];
    var r := q + s + [CR, LF];
    assert r == [36, 51, CR, LF, 83, 69, 84, CR, LF];
    assert Argument(s) == r;
  }

  lemma Moved(a: seq<byte>, b: seq<byte>, c: seq<byte>, d: seq<byte>, e: seq<byte>)
    ensures a + (b + c + d) + e == a + b + c + (d + e)
  {
  }

  function SetCommand(key: seq<byte>, data: seq<byte>, delay: nat): seq<byte> {
    Command([Set(), key, data, Ex(), Decimal(delay)])
  }

  /** The pieces that the buffer brings together. */
  lemma SetCommandBytes(key: seq<byte>, data: seq<byte>, delay: nat)
    ensures TemplateOf(key) + Decimal(|data|) + [CR, LF] + data + ExpireOf(delay) == SetCommand(key, data, delay)
  {
    var (start, n) := ([42] + Decimal(5) + [CR, LF], [36] + Decimal(|data|) + [CR, LF]);
    var (x, k, e, t) := (Argument(Set()), Argument(key), Argument(Ex()), Argument(Decimal(delay)));
    FiveArguments(Set(), key, data, Ex(), Decimal(delay));
    Regroup(start + x + k, [36], Decimal(|data|));
    Regroup(start + x + k, [36] + Decimal(|data|), [CR, LF]);
    Together(start, x, k, n, data, [CR, LF], e, t);
  }

  lemma FiveArguments(a: seq<byte>, b: seq<byte>, c: seq<byte>, d: seq<byte>, e: seq<byte>)
    ensures Arguments([a, b, c, d, e])
            == Argument(a) + (Argument(b) + (Argument(c) + (Argument(d) + Argument(e))))
  {
    ArgumentsCons(a, [b, c, d, e]);
    ArgumentsCons(b, [c, d, e]);
    ArgumentsCons(c, [d, e]);
    ArgumentsCons(d, [e]);
    ArgumentsCons(e, []);
    assert [a] + [b, c, d, e] == [a, b, c, d, e] && [b] + [c, d, e] == [b, c, d, e];
    assert [c] + [d, e] == [c, d, e] && [d] + [e] == [d, e] && [e] + [] == [e];
    assert Argument(e) + [] == Argument(e);
  }

  lemma ArgumentsCons(a: seq<byte>, more: seq<seq<byte>>)
    ensures Arguments([a] + more) == Argument(a) + Arguments(more)
  {
    assert ([a] + more)[1..] == more;
  }

  lemma Together(h: seq<byte>, x: seq<byte>, k: seq<byte>, n: seq<byte>, data: seq<byte>, l: seq<byte>, e: seq<byte>,
                 t: seq<byte>)
    ensures h + x + k + n + data + (l + e + t) == h + (x + (k + ((n + data + l) + (e + t))))
  {
    Regroup(h, x, k + ((n + data + l) + (e + t)));
    Regroup(h + x, k, (n + data + l) + (e + t));
    Regroup(h + x + k, n + data + l, e + t);
    Regroup(h + x + k, n + data, l);
    Regroup(h + x + k, n, data);
    Regroup(h + x + k + n + data + l, e, t);
    Regroup(h + x + k + n + data, l + e, t);
    Regroup(h + x + k + n + data, l, e);
  }

  class RedisCmdSet {
    var cmdBuffer: seq<byte>
    var headerPos: nat
    var preformattedSize: nat
    ghost var key: seq<byte>
    ghost var delay: nat

    ghost predicate Valid()
      reads this
    {
      && headerPos == |ExpireOf(delay)| && preformattedSize == headerPos + |TemplateOf(key)|
      && |cmdBuffer| >= ReservedBufferSize()
      && cmdBuffer[..headerPos] == ExpireOf(delay) && cmdBuffer[headerPos..preformattedSize] == TemplateOf(key)
      && cmdBuffer[ReservedBufferSize() - 2..ReservedBufferSize()] == [CR, LF]
    }

    function ReservedBufferSize(): nat
      requires headerPos <= preformattedSize
      reads this
    {
      headerPos + (preformattedSize - headerPos) * 2 + NUMBER_ROOM + 2
    }

    /** What was appended since the last clear. */
    function CurrentData(): seq<byte>
      requires headerPos <= preformattedSize && |cmdBuffer| >= ReservedBufferSize()
      reads this
    {
      cmdBuffer[ReservedBufferSize()..]
    }

    constructor (keyName: seq<byte>, expirationDelay: nat)
      requires |keyName| < TWO_64 && expirationDelay < TWO_64
      ensures Valid() && CurrentData() == [] && key == keyName && delay == expirationDelay
    {
      key, delay := keyName, expirationDelay;
      var delayAsStr := Decimal(expirationDelay);
      var expire: seq<byte> := [CR, LF, 36, 50, CR, LF, 69, 88, CR, LF, 36] + Decimal(|delayAsStr|) + [CR, LF] + delayAsStr + [CR, LF];
      var template: seq<byte> := Start() + [36] + Decimal(|keyName|) + [CR, LF] + keyName + ([CR, LF] + [36]);
      ExpireBytes(expirationDelay);
      TemplateBytes(keyName);
      headerPos := |expire|;
      preformattedSize := |expire| + |template|;
      cmdBuffer := expire + template + seq(|template| + NUMBER_ROOM, _ => 0) + [CR, LF];
    }

    method Append(data: seq<byte>)
      requires Valid()
      modifies this`cmdBuffer
      ensures Valid() && CurrentData() == old(CurrentData()) + data
    {
      cmdBuffer := cmdBuffer + data;
    }

    method Clear()
      requires Valid()
      modifies this`cmdBuffer
      ensures Valid() && CurrentData() == []
    {
      cmdBuffer := cmdBuffer[..ReservedBufferSize()];
    }

    /** The command for the current data. The copy of the header meets neither the template nor the
        separator, and the data stays where it is. */
    method BuildCommand() returns (view: seq<byte>)
      requires Valid() && |cmdBuffer| < TWO_64
      modifies this`cmdBuffer
      ensures Valid() && CurrentData() == old(CurrentData()) + ExpireOf(delay)
      ensures view == SetCommand(key, old(CurrentData()), delay)
    {
      var start := ReservedBufferSize();
      var dataLen := |cmdBuffer| - start;
      ghost var data := CurrentData();
      Append(cmdBuffer[..headerPos]);
      assert CurrentData() == data + ExpireOf(delay);
      var dataLenAsStr := Decimal(dataLen);
      NumberFits(dataLen);
      var headerSize := preformattedSize - headerPos;
      var setCmdSize := headerSize + |dataLenAsStr| + 2;
      var header := start - setCmdSize;
      assert preformattedSize <= header;
      PutHeader(header, headerSize, dataLenAsStr);
      view := cmdBuffer[header..];
      CommandView(cmdBuffer, header, header + headerSize, start, key, data, delay);
    }

    /** The two copies in front of the data. */
    method PutHeader(header: nat, headerSize: nat, length: seq<byte>)
      requires Valid() && headerSize == preformattedSize - headerPos && preformattedSize <= header
      requires header + headerSize + |length| + 2 == ReservedBufferSize()
      modifies this`cmdBuffer
      ensures Valid() && |cmdBuffer| == old(|cmdBuffer|) && CurrentData() == old(CurrentData())
      ensures cmdBuffer[header..header + headerSize] == TemplateOf(key)
      ensures cmdBuffer[header + headerSize..header + headerSize + |length|] == length
    {
      var (start, p) := (ReservedBufferSize(), header + headerSize);
      ghost var (s0, template) := (cmdBuffer, TemplateOf(key));
      cmdBuffer := Overwrite(cmdBuffer, header, cmdBuffer[headerPos..preformattedSize]);
      ghost var s1 := cmdBuffer;
      cmdBuffer := Overwrite(cmdBuffer, p, length);
      Unmoved(s0, header, template, p, length, 0, headerPos);
      Unmoved(s0, header, template, p, length, headerPos, preformattedSize);
      Unmoved(s0, header, template, p, length, start - 2, start);
      Unmoved(s0, header, template, p, length, start, |s0|);
      Overwritten(s0, header, template, 0, 0);
      Overwritten(s1, p, length, header, p);
    }
  }

  lemma FourSlices(s: seq<byte>, a: nat, b: nat, c: nat, d: nat)
    requires a <= b <= c <= d <= |s|
    ensures s[a..] == s[a..b] + s[b..c] + s[c..d] + s[d..]
  {
  }

  /** The pieces of the buffer from the header on are the command. */
  lemma CommandView(s: seq<byte>, header: nat, p: nat, start: nat, key: seq<byte>, data: seq<byte>, delay: nat)
    requires header <= p <= start - 2 && start <= |s|
    requires s[header..p] == TemplateOf(key) && s[p..start - 2] == Decimal(|data|)
    requires s[start - 2..start] == [CR, LF] && s[start..] == data + ExpireOf(delay)
    ensures s[header..] == SetCommand(key, data, delay)
  {
    FourSlices(s, header, p, start - 2, start);
    Regroup(TemplateOf(key) + Decimal(|data|) + [CR, LF], data, ExpireOf(delay));
    SetCommandBytes(key, data, delay);
  }

  lemma Unmoved(s: seq<byte>, p: nat, a: seq<byte>, q: nat, b: seq<byte>, i: nat, j: nat)
    requires p + |a| <= |s| && q + |b| <= |s| && i <= j <= |s|
    requires (j <= p || p + |a| <= i) && (j <= q || q + |b| <= i)
    ensures Overwrite(Overwrite(s, p, a), q, b)[i..j] == s[i..j]
  {
    Overwritten(s, p, a, i, j);
    Overwritten(Overwrite(s, p, a), q, b, i, j);
  }

  /** Any sequence of images, each sent in any pieces: the server sees one SET for each, with exactly
      the bytes of the image. */
  method SendImages(key: seq<byte>, delay: nat, images: seq<seq<seq<byte>>>) returns (commands: seq<seq<byte>>)
    requires |key| < TWO_64 && delay < TWO_64
    requires forall i :: 0 <= i < |images| ==> FitsMemory(key, delay, Concat(images[i]))
    ensures |commands| == |images|
    ensures forall i :: 0 <= i < |images| ==>
                          ParseCommand(commands[i]) == Got([Set(), key, Concat(images[i]), Ex(), Decimal(delay)], [])
  {
    var cmd := new RedisCmdSet(key, delay);
    commands := [];
    for i := 0 to |images|
      invariant cmd.Valid() && fresh(cmd) && cmd.CurrentData() == [] && cmd.key == key && cmd.delay == delay
      invariant |commands| == i
      invariant forall j :: 0 <= j < i ==>
                              ParseCommand(commands[j]) == Got([Set(), key, Concat(images[j]), Ex(), Decimal(delay)], [])
    {
      AppendAll(cmd, images[i]);
      var view := cmd.BuildCommand();
      cmd.Clear();
      CommandRoundTrip([Set(), key, Concat(images[i]), Ex(), Decimal(delay)], []);
      assert view + [] == view;
      commands := commands + [view];
    }
  }

  /** The buffer of a command has a size that a vector can have. */
  predicate FitsMemory(key: seq<byte>, delay: nat, data: seq<byte>) {
    |ExpireOf(delay)| + 2 * |TemplateOf(key)| + NUMBER_ROOM + 2 + |data| < TWO_64
  }

  method AppendAll(cmd: RedisCmdSet, pieces: seq<seq<byte>>)
    requires cmd.Valid() && cmd.CurrentData() == []
    modifies cmd`cmdBuffer
    ensures cmd.Valid() && cmd.CurrentData() == Concat(pieces)
  {
    for i := 0 to |pieces|
      invariant cmd.Valid() && cmd.CurrentData() + Concat(pieces[i..]) == Concat(pieces)
    {
      ghost var before := cmd.CurrentData();
      assert pieces[i..][0] == pieces[i] && pieces[i..][1..] == pieces[i + 1..];
      cmd.Append(pieces[i]);
      Regroup(before, pieces[i], Concat(pieces[i + 1..]));
    }
    assert pieces[|pieces|..] == [] && cmd.CurrentData() + [] == cmd.CurrentData();
  }
}
