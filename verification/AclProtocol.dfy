/** The messages exchanged with the access control list: their encoding, and how bytes are taken
    back apart. */
module AclProtocol {
  import opened Bytes

  const ASK: byte := 63 // '?'
  const VALUE: byte := 33 // '!'
  const MAX_VALUE: nat := 0x10_0000

  datatype Field = Ask(name: seq<byte>) | Value(name: seq<byte>, value: seq<byte>)

  /** What fits the widths of the format. */
  predicate Sendable(f: Field) {
    |f.name| < 256 && (f.Value? ==> |f.value| < TWO_32)
  }

  predicate SendableMessage(m: seq<Field>) {
    0 < |m| < TWO_16 && AllSendable(m)
  }

  predicate AllSendable(m: seq<Field>) {
    forall i :: 0 <= i < |m| ==> Sendable(m[i])
  }

  predicate AllMessages(ms: seq<seq<Field>>) {
    forall i :: 0 <= i < |ms| ==> SendableMessage(ms[i])
  }

  function EncodeField(f: Field): (r: seq<byte>)
    requires Sendable(f)
  {
    match f
    case Ask(name) => [ASK, |name|] + name
    case Value(name, value) => [VALUE, |name|] + name + Be(|value|, 4) + value
  }

  function EncodeFields(m: seq<Field>): (r: seq<byte>)
    requires AllSendable(m)
  {
    if m == [] then [] else EncodeField(m[0]) + EncodeFields(m[1..])
  }

  function EncodeMessage(m: seq<Field>): (r: seq<byte>)
    requires SendableMessage(m)
  {
    Be(|m|, 2) + EncodeFields(m)
  }

  function EncodeMessages(ms: seq<seq<Field>>): (r: seq<byte>)
    requires AllMessages(ms)
  {
    if ms == [] then [] else EncodeMessage(ms[0]) + EncodeMessages(ms[1..])
  }

  /** Ended early, or a value of more than one MiB. */
  datatype Parsed<T> = Got(value: T, rest: seq<byte>) | Short | TooBig

  function ParseValue(name: seq<byte>, s: seq<byte>): Parsed<Field> {
    if |s| < 4 then Short
    else
      var n := FromBe(s[..4]);
      if n > MAX_VALUE then TooBig
      else if |s| < 4 + n then Short
      else Got(Value(name, s[4..4 + n]), s[4 + n..])
  }

  /** A name that the configuration does not know is always followed by a value. */
  function ParseField(known: set<seq<byte>>, s: seq<byte>): Parsed<Field> {
    if |s| < 2 || |s| - 2 < s[1] then Short
    else
      var n: nat := s[1];
      var (name, rest) := (s[2..2 + n], s[2 + n..]);
      if name in known && s[0] == ASK then Got(Ask(name), rest) else ParseValue(name, rest)
  }

  function Prepend<T>(done: seq<T>, p: Parsed<seq<T>>): Parsed<seq<T>> {
    match p
    case Got(more, rest) => Got(done + more, rest)
    case _ => p
  }

  function ParseFields(known: set<seq<byte>>, n: nat, s: seq<byte>): Parsed<seq<Field>> {
    if n == 0 then Got([], s)
    else
      match ParseField(known, s)
      case Short => Short
      case TooBig => TooBig
      case Got(f, rest) => Prepend([f], ParseFields(known, n - 1, rest))
  }

  /** The number of fields is only looked at once four bytes are there. */
  function ParseMessage(known: set<seq<byte>>, s: seq<byte>): Parsed<seq<Field>> {
    if |s| < 4 then Short else ParseFields(known, FromBe(s[..2]), s[2..])
  }

  function ParseMessages(known: set<seq<byte>>, n: nat, s: seq<byte>): Parsed<seq<Field>> {
    if n == 0 then Got([], s)
    else
      match ParseMessage(known, s)
      case Short => Short
      case TooBig => TooBig
      case Got(m, rest) => Prepend(m, ParseMessages(known, n - 1, rest))
  }

  /** What a reader can take back: small enough values, and questions about known names only. */
  predicate Readable(known: set<seq<byte>>, f: Field) {
    match f
    case Ask(name) => name in known
    case Value(_, value) => |value| <= MAX_VALUE
  }

  predicate ReadableMessage(known: set<seq<byte>>, m: seq<Field>) {
    forall i :: 0 <= i < |m| ==> Readable(known, m[i])
  }

  predicate AllReadable(known: set<seq<byte>>, ms: seq<seq<Field>>) {
    forall i :: 0 <= i < |ms| ==> ReadableMessage(known, ms[i])
  }

  lemma ValueRoundTrip(name: seq<byte>, value: seq<byte>, rest: seq<byte>)
    requires |value| < TWO_32
    ensures ParseValue(name, Be(|value|, 4) + value + rest)
            == if |value| <= MAX_VALUE then Got(Value(name, value), rest) else TooBig
  {
    var (n, tail) := (Be(|value|, 4), value + rest);
    BeWidths(|value|);
    Regroup(n, value, rest);
    TakeDrop(n, tail);
    TakeDrop(value, rest);
    LongValue(name, n + tail);
  }

  /** The bytes of a value are those after its length. */
  lemma LongValue(name: seq<byte>, s: seq<byte>)
    ensures |s| >= 4 && FromBe(s[..4]) <= |s[4..]| ==>
              ParseValue(name, s)
              == var (n, t) := (FromBe(s[..4]), s[4..]);
                 if n > MAX_VALUE then TooBig else Got(Value(name, t[..n]), t[n..])
  {
    if |s| >= 4 && FromBe(s[..4]) <= |s[4..]| {
      var (n, t) := (FromBe(s[..4]), s[4..]);
      assert t[..n] == s[4..4 + n] && t[n..] == s[4 + n..];
    }
  }

  lemma FieldRoundTrip(known: set<seq<byte>>, f: Field, rest: seq<byte>)
    requires Sendable(f) && Readable(known, f)
    ensures ParseField(known, EncodeField(f) + rest) == Got(f, rest)
  {
    var s := EncodeField(f) + rest;
    var n := |f.name|;
    assert s[0] == (if f.Ask? then ASK else VALUE) && s[1] == n;
    assert s[2..2 + n] == f.name;
    match f
    case Ask(_) =>
      assert s[2 + n..] == rest;
    case Value(_, value) =>
      assert s[2 + n..] == Be(|value|, 4) + value + rest;
      ValueRoundTrip(f.name, value, rest);
  }

  lemma {:induction false} FieldsRoundTrip(known: set<seq<byte>>, m: seq<Field>, rest: seq<byte>)
    requires AllSendable(m)
    requires ReadableMessage(known, m)
    ensures ParseFields(known, |m|, EncodeFields(m) + rest) == Got(m, rest)
  {
    if m == [] {
      assert EncodeFields(m) + rest == rest;
    } else {
      var after := EncodeFields(m[1..]) + rest;
      assert EncodeFields(m) + rest == EncodeField(m[0]) + after;
      FieldRoundTrip(known, m[0], after);
      FieldsRoundTrip(known, m[1..], rest);
      FieldsStep(known, |m|, EncodeField(m[0]) + after, m[0], after);
      assert [m[0]] + m[1..] == m;
    }
  }

  lemma FieldsStep(known: set<seq<byte>>, n: nat, s: seq<byte>, f: Field, rest: seq<byte>)
    requires n > 0 && ParseField(known, s) == Got(f, rest)
    ensures ParseFields(known, n, s) == Prepend([f], ParseFields(known, n - 1, rest))
  {
  }

  lemma MessageBytes(m: seq<Field>, rest: seq<byte>)
    requires SendableMessage(m)
    ensures var s := EncodeMessage(m) + rest;
            |s| >= 4 && FromBe(s[..2]) == |m| && s[2..] == EncodeFields(m) + rest
  {
    BeWidths(|m|);
    NotEmpty(m);
    var s := EncodeMessage(m) + rest;
    assert s == Be(|m|, 2) + (EncodeFields(m) + rest);
  }

  lemma NotEmpty(m: seq<Field>)
    requires m != [] && AllSendable(m)
    ensures |EncodeFields(m)| >= 2
  {
  }

  /** Whatever comes out of the parser is readable. */
  lemma {:induction false} ParsedReadable(known: set<seq<byte>>, n: nat, s: seq<byte>)
    ensures var p := ParseFields(known, n, s); p.Got? ==> ReadableMessage(known, p.value)
  {
    if n > 0 && ParseField(known, s).Got? {
      ParsedReadable(known, n - 1, ParseField(known, s).rest);
    }
  }

  /** A message is taken back as it was sent, whatever follows it, exactly when it is readable: when
      it asks about known names only and no value is over one MiB. */
  lemma MessageRoundTrip(known: set<seq<byte>>, m: seq<Field>, rest: seq<byte>)
    requires SendableMessage(m)
    ensures ParseMessage(known, EncodeMessage(m) + rest) == Got(m, rest) <==> ReadableMessage(known, m)
  {
    var s := EncodeMessage(m) + rest;
    MessageBytes(m, rest);
    if ReadableMessage(known, m) {
      FieldsRoundTrip(known, m, rest);
    }
    ParsedReadable(known, |m|, s[2..]);
  }

  /** A question about an unknown name swallows the field after it. */
  lemma UnknownAskMisread()
    ensures var m := [Ask([120]), Value([121], [])];
            && SendableMessage(m) && ParseMessage({[121]}, EncodeMessage(m)) == TooBig
  {
    var m := [Ask([120]), Value([121], [])];
    var tail := [VALUE, 1, 121, 0, 0, 0, 0];
    assert Be(0, 4) == [0, 0, 0, 0] by {
      assert Be(0, 1) == [0] && Be(0, 2) == [0, 0] && Be(0, 3) == [0, 0, 0];
    }
    assert EncodeField(m[1]) == tail;
    assert m[1..] == [m[1]] && m[1..][1..] == [];
    assert EncodeFields(m[1..]) == tail + EncodeFields([]);
    assert EncodeFields(m) == [ASK, 1, 120] + tail;
    var s := EncodeMessage(m);
    BeWidths(2);
    assert s == Be(2, 2) + ([ASK, 1, 120] + tail);
    assert s[..2] == Be(2, 2);
    var t := s[2..];
    assert t == [ASK, 1, 120] + tail;
    assert t[2..3] == [120] && [120] != [121] by { assert [120][0] == 120; }
    assert t[3..] == tail;
    var head := tail[..4];
    assert head == [VALUE, 1, 121, 0];
    assert head[..3] == [VALUE, 1, 121] && head[..3][..2] == [VALUE, 1] && head[..3][..2][..1] == [VALUE];
    assert FromBe(head) == 256 * FromBe(head[..3]) + 0;
    assert FromBe(head[..3]) == 256 * FromBe(head[..3][..2]) + 121;
    assert FromBe(head[..3][..2]) >= 256 * 33;
    assert ParseField({[121]}, t) == TooBig;
  }

  lemma {:induction false} MessagesRoundTrip(known: set<seq<byte>>, ms: seq<seq<Field>>, k: nat)
    requires AllMessages(ms) && AllReadable(known, ms)
    requires k <= |ms|
    ensures ParseMessages(known, k, EncodeMessages(ms)) == Got(Flat(ms[..k]), EncodeMessages(ms[k..]))
  {
    if k == 0 {
      assert ms[0..] == ms;
    } else {
      MessageRoundTrip(known, ms[0], EncodeMessages(ms[1..]));
      MessagesRoundTrip(known, ms[1..], k - 1);
      assert ms[..k][1..] == ms[1..][..k - 1];
      assert ms[1..][k - 1..] == ms[k..];
    }
  }

  function Flat(ms: seq<seq<Field>>): seq<Field> {
    if ms == [] then [] else ms[0] + Flat(ms[1..])
  }

  lemma {:induction false} MessagesEnd(known: set<seq<byte>>, ms: seq<seq<Field>>, n: nat)
    requires AllMessages(ms) && AllReadable(known, ms)
    requires n > |ms|
    ensures ParseMessages(known, n, EncodeMessages(ms)) == Short
    decreases n
  {
    if ms != [] {
      MessageRoundTrip(known, ms[0], EncodeMessages(ms[1..]));
      MessagesEnd(known, ms[1..], n - 1);
    }
  }

  lemma {:induction false} NextMessage(known: set<seq<byte>>, k: nat, s: seq<byte>)
    requires ParseMessages(known, k, s).Got?
    ensures ParseMessages(known, k + 1, s)
            == var p := ParseMessages(known, k, s); Prepend(p.value, ParseMessage(known, p.rest))
  {
    if k == 0 {
      var p := ParseMessage(known, s);
      if p.Got? {
        assert ParseMessages(known, 0, p.rest) == Got([], p.rest);
        assert p.value + [] == p.value && [] + p.value == p.value;
      }
    } else {
      var p := ParseMessage(known, s);
      NextMessage(known, k - 1, p.rest);
      var q := ParseMessages(known, k - 1, p.rest);
      var r := ParseMessage(known, q.rest);
      if r.Got? {
        assert p.value + (q.value + r.value) == p.value + q.value + r.value;
      }
    }
  }
}
