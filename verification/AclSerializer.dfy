/** The two ends of the connection with the access control list: a writer with a fixed buffer, and a
    reader that has to cope with however the transport cuts the bytes. */
module AclSerializer {
  import opened Bytes
  import opened AclProtocol

  const BUF_LEN: nat := 65536

  class OutTransport {
    var sent: seq<byte>

    constructor ()
      ensures sent == []
    {
      sent := [];
    }

    method Send(data: seq<byte>)
      modifies this
      ensures sent == old(sent) + data
    {
      sent := sent + data;
    }
  }

  method Copy(a: array<byte>, p: nat, data: seq<byte>)
    requires p + |data| <= a.Length
    modifies a
    ensures a[..p + |data|] == old(a[..p]) + data
    ensures forall k :: 0 <= k < a.Length && !(p <= k < p + |data|) ==> a[k] == old(a[k])
  {
    for i := 0 to |data|
      invariant forall k :: 0 <= k < i ==> a[p + k] == data[k]
      invariant forall k :: 0 <= k < a.Length && !(p <= k < p + i) ==> a[k] == old(a[k])
    {
      a[p + i] := data[i];
    }
  }

  class Writer {
    const trans: OutTransport
    const buf: array<byte>
    var pos: nat

    ghost predicate Valid()
      reads this
    {
      buf.Length == BUF_LEN && pos <= BUF_LEN
    }

    /** Everything pushed so far, sent or not. */
    ghost function Pushed(): seq<byte>
      requires Valid()
      reads this, trans, buf
    {
      trans.sent + buf[..pos]
    }

    constructor (trans: OutTransport, n: nat)
      ensures Valid() && this.trans == trans && fresh(buf)
      ensures Pushed() == trans.sent + Be(n, 2)
    {
      this.trans := trans;
      buf := new byte[BUF_LEN];
      pos := 0;
      new;
      Out(Be(n, 2));
      assert buf[..2] == Be(n, 2);
    }

    /** The out_ functions of the stream, which do not check the room. */
    method Out(data: seq<byte>)
      requires Valid() && pos + |data| <= BUF_LEN
      modifies this, buf
      ensures Valid() && pos == old(pos) + |data| && buf[..pos] == old(buf[..pos]) + data
    {
      Copy(buf, pos, data);
      pos := pos + |data|;
    }

    method SendBuffer()
      requires Valid()
      modifies trans
      ensures trans.sent == old(Pushed())
    {
      trans.Send(buf[..pos]);
    }

    method SendMultiBuffer()
      requires Valid()
      modifies this, trans
      ensures Valid() && pos == 0 && Pushed() == old(Pushed()) == trans.sent
    {
      SendBuffer();
      pos := 0;
    }

    method PushAsk(name: seq<byte>)
      requires Valid() && |name| < 256
      modifies this, buf, trans
      ensures Valid() && Pushed() == old(Pushed()) + EncodeField(Ask(name))
    {
      if pos + 2 + |name| > BUF_LEN {
        SendMultiBuffer();
      }
      Out([ASK]);
      Out([|name|]);
      Out(name);
      assert Pushed() == old(Pushed()) + ([ASK, |name|] + name);
    }

    method PushValue(name: seq<byte>, value: seq<byte>)
      requires Valid() && |name| < 256 && |value| < TWO_32
      modifies this, buf, trans
      ensures Valid() && Pushed() == old(Pushed()) + EncodeField(Value(name, value))
    {
      if pos + 2 + |name| + 4 + |value| > BUF_LEN {
        SendMultiBuffer();
      }
      PushHeader(name, |value|);
      PushBytes(value);
      ghost var head := [VALUE, |name|] + name + Be(|value|, 4);
      assert Pushed() == old(Pushed()) + (head + value);
    }

    method Push(f: Field)
      requires Valid() && Sendable(f)
      modifies this, buf, trans
      ensures Valid() && Pushed() == old(Pushed()) + EncodeField(f)
    {
      match f
      case Ask(name) =>
        PushAsk(name);
      case Value(name, value) =>
        PushValue(name, value);
    }

    method PushAll(fields: seq<Field>)
      requires Valid() && AllSendable(fields)
      modifies this, buf, trans
      ensures Valid() && Pushed() == old(Pushed()) + EncodeFields(fields)
    {
      for i := 0 to |fields|
        invariant Valid() && Pushed() + EncodeFields(fields[i..]) == old(Pushed()) + EncodeFields(fields)
      {
        ghost var before := Pushed();
        Push(fields[i]);
        EncodeNext(before, fields, i);
      }
      assert fields[|fields|..] == [];
      assert Pushed() + [] == Pushed();
    }

    method PushHeader(name: seq<byte>, n: nat)
      requires Valid() && |name| < 256 && pos + 6 + |name| <= BUF_LEN
      modifies this, buf
      ensures Valid() && Pushed() == old(Pushed()) + ([VALUE, |name|] + name + Be(n, 4))
    {
      Out([VALUE]);
      Out([|name|]);
      Out(name);
      Out(Be(n, 4));
      assert Pushed() == old(Pushed()) + ([VALUE, |name|] + name + Be(n, 4));
    }

    method PushBytes(value: seq<byte>)
      requires Valid()
      modifies this, buf, trans
      ensures Valid() && Pushed() == old(Pushed()) + value
    {
      if pos + |value| <= BUF_LEN {
        Out(value);
      } else {
        var tailroom := BUF_LEN - pos;
        var min := if tailroom < |value| then tailroom else |value|;
        Out(value[..min]);
        SendMultiBuffer();
        trans.Send(value[min..]);
        assert value == value[..min] + value[min..];
      }
    }
  }

  lemma EncodeNext(before: seq<byte>, fields: seq<Field>, i: nat)
    requires i < |fields| && AllSendable(fields)
    ensures before + EncodeField(fields[i]) + EncodeFields(fields[i + 1..]) == before + EncodeFields(fields[i..])
  {
    assert fields[i..][0] == fields[i] && fields[i..][1..] == fields[i + 1..];
  }

  /** send_acl_data: one message for all the changed fields. */
  method SendAclData(fields: seq<Field>, trans: OutTransport)
    requires |fields| < TWO_16 && AllSendable(fields)
    modifies trans
    ensures trans.sent == old(trans.sent) + if fields == [] then [] else EncodeMessage(fields)
  {
    if fields != [] {
      var writer := new Writer(trans, |fields|);
      writer.PushAll(fields);
      writer.SendBuffer();
      Regroup(old(trans.sent), Be(|fields|, 2), EncodeFields(fields));
    }
  }

  class InTransport {
    /** The bytes that are still to come. */
    var rest: seq<byte>

    constructor (bytes: seq<byte>)
      ensures rest == bytes
    {
      rest := bytes;
    }

    /** Fills a part of a[p..] of its own choice; nothing is left only at the end of the connection. */
    method PartialRead(a: array<byte>, p: nat) returns (n: nat)
      requires p < a.Length
      modifies this, a
      ensures p + n <= a.Length && n <= |old(rest)| && (n == 0 <==> old(rest) == [])
      ensures rest == old(rest)[n..] && a[..p + n] == old(a[..p]) + old(rest)[..n]
    {
      var most := if a.Length - p < |rest| then a.Length - p else |rest|;
      n :| 0 <= n <= most && (n == 0 <==> most == 0);
      Copy(a, p, rest[..n]);
      rest := rest[n..];
    }
  }

  datatype Outcome = Done | UnexpectedEnd | MessageTooBig

  /** The outcome and the result of a step agree with what the parser makes of the bytes. */
  predicate Agrees<T(==)>(outcome: Outcome, value: T, rest: seq<byte>, p: Parsed<T>) {
    match p
    case Short => outcome == UnexpectedEnd
    case TooBig => outcome == MessageTooBig
    case Got(v, r) => outcome == Done && value == v && rest == r
  }

  class Reader {
    const trans: InTransport
    const buf: array<byte>
    var nfield: nat
    var kind: byte
    // the part of buf that is not consumed yet
    var cur: nat
    var end: nat

    ghost predicate Valid()
      reads this
    {
      buf.Length == BUF_LEN && cur <= end <= BUF_LEN
    }

    /** What is buffered and what is still to come. */
    ghost function Pending(): seq<byte>
      requires Valid()
      reads this, trans, buf
    {
      buf[cur..end] + trans.rest
    }

    constructor (trans: InTransport)
      ensures Valid() && this.trans == trans && fresh(buf) && Pending() == trans.rest && cur == end
    {
      this.trans := trans;
      buf := new byte[BUF_LEN];
      nfield, kind, cur, end := 0, 0, 0, 0;
    }

    /** memmove of the remaining bytes to the front. */
    method MoveToFront()
      requires Valid()
      modifies buf
      ensures buf[..end - cur] == old(buf[cur..end])
    {
      for i := 0 to end - cur
        invariant forall k :: 0 <= k < i ==> buf[k] == old(buf[cur + k])
        invariant forall k :: i <= k < buf.Length ==> buf[k] == old(buf[k])
      {
        buf[i] := buf[cur + i];
      }
    }

    /** Makes at least min bytes available. */
    method Read(min: nat) returns (ok: bool)
      requires Valid() && min <= BUF_LEN
      modifies this`cur, this`end, buf, trans
      ensures Valid()
      ensures ok <==> |old(Pending())| >= min
      ensures ok ==> end - cur >= min && Pending() == old(Pending())
    {
      var remaining := end - cur;
      if remaining < min {
        MoveToFront();
        while remaining < min
          invariant 0 <= remaining <= BUF_LEN && cur == old(cur) && end == old(end)
          invariant buf[..remaining] + trans.rest == old(Pending())
          decreases |trans.rest|
        {
          ghost var (held, rest) := (buf[..remaining], trans.rest);
          var n := trans.PartialRead(buf, remaining);
          if n == 0 {
            return false;
          }
          remaining := remaining + n;
          assert rest == rest[..n] + rest[n..];
          assert held + rest[..n] + rest[n..] == held + rest;
        }
        cur, end := 0, remaining;
      }
      ok := true;
    }

    /** The in_ functions of the stream: the next n bytes. */
    method Skip(n: nat) returns (s: seq<byte>)
      requires Valid() && n <= end - cur
      modifies this`cur
      ensures Valid() && end == old(end) && cur == old(cur) + n
      ensures |s| == n && old(Pending()) == s + Pending()
    {
      s := buf[cur..cur + n];
      assert buf[cur..end] == s + buf[cur + n..end];
      cur := cur + n;
    }

    /** Read, then the next n bytes. */
    method Take(n: nat) returns (ok: bool, s: seq<byte>)
      requires Valid() && n <= BUF_LEN
      modifies this`cur, this`end, buf, trans
      ensures Valid()
      ensures ok <==> |old(Pending())| >= n
      ensures ok ==> s == old(Pending())[..n] && Pending() == old(Pending())[n..]
    {
      s := [];
      ok := Read(n);
      if ok {
        s := Skip(n);
      }
    }

    method ReadNfield() returns (ok: bool)
      requires Valid()
      modifies this, buf, trans
      ensures Valid()
      ensures ok <==> |old(Pending())| >= 4
      ensures ok ==> nfield == FromBe(old(Pending())[..2]) && Pending() == old(Pending())[2..]
    {
      ok := Read(4);
      if ok {
        var s := Skip(2);
        nfield := FromBe(s);
      }
    }

    method ReadKey() returns (ok: bool, key: seq<byte>)
      requires Valid() && nfield > 0
      modifies this, buf, trans
      ensures Valid() && nfield == old(nfield) - 1
      ensures var s := old(Pending());
              && (ok <==> |s| >= 2 && |s| - 2 >= s[1])
              && (ok ==> kind == s[0] && key == s[2..2 + s[1] as nat] && Pending() == s[2 + s[1] as nat..])
    {
      nfield := nfield - 1;
      key := [];
      ghost var s := Pending();
      ok := Read(2);
      if ok {
        var head := Skip(2);
        kind := head[0];
        assert Pending() == s[2..];
        ok, key := Take(head[1]);
      }
    }

    /** Reads until a is full from p on. */
    method ReadUntilFull(a: array<byte>, p0: nat) returns (ok: bool)
      requires p0 < a.Length
      modifies trans, a
      ensures ok <==> |old(trans.rest)| >= a.Length - p0
      ensures ok ==> a[..] + trans.rest == old(a[..p0] + trans.rest)
    {
      var p := p0;
      while p < a.Length
        invariant 0 <= p <= a.Length && a[..p] + trans.rest == old(a[..p0] + trans.rest)
        decreases |trans.rest|
      {
        ghost var (held, rest) := (a[..p], trans.rest);
        var got := trans.PartialRead(a, p);
        if got == 0 {
          return false;
        }
        p := p + got;
        assert rest == rest[..got] + rest[got..];
        assert held + rest[..got] + rest[got..] == held + rest;
      }
      assert a[..p] == a[..];
      ok := true;
    }

    /** A value that the buffer does not hold, straight into an array of its size. */
    method ReadLong(n: nat) returns (ok: bool, value: seq<byte>)
      requires Valid() && n > end - cur
      modifies this`cur, this`end, buf, trans
      ensures Valid() && (ok <==> |old(Pending())| >= n)
      ensures ok ==> value == old(Pending())[..n] && Pending() == old(Pending())[n..]
    {
      ghost var s := Pending();
      var dynamic := new byte[n];
      var buffered := Skip(end - cur);
      Copy(dynamic, 0, buffered);
      assert Pending() == trans.rest && dynamic[..|buffered|] == buffered;
      ok := ReadUntilFull(dynamic, |buffered|);
      value := dynamic[..];
      assert ok ==> value + trans.rest == s;
    }

    method ReadValue(key: seq<byte>) returns (r: Outcome, f: Field)
      requires Valid()
      modifies this`cur, this`end, buf, trans
      ensures Valid()
      ensures Agrees(r, f, Pending(), ParseValue(key, old(Pending())))
    {
      f := Value(key, []);
      ghost var s := Pending();
      var ok, head := Take(4);
      if !ok {
        return UnexpectedEnd, f;
      }
      var n := FromBe(head);
      var value;
      assert Pending() == s[4..];
      if end - cur >= n {
        value := Skip(n);
        assert value == s[4..][..n] && Pending() == s[4..][n..];
      } else {
        if n < 256 {
          ok, value := Take(n);
        } else {
          if n > MAX_VALUE {
            return MessageTooBig, f;
          }
          ok, value := ReadLong(n);
        }
        if !ok {
          return UnexpectedEnd, f;
        }
      }
      assert s[4..][..n] == s[4..4 + n] && s[4..][n..] == s[4 + n..];
      return Done, Value(key, value);
    }

    /** One field, as the loop of read_acl_fields takes it. */
    method ReadField(known: set<seq<byte>>) returns (r: Outcome, f: Field)
      requires Valid() && nfield > 0
      modifies this, buf, trans
      ensures Valid() && nfield == old(nfield) - 1
      ensures Agrees(r, f, Pending(), ParseField(known, old(Pending())))
    {
      var ok, key := ReadKey();
      f := Ask(key);
      if !ok {
        r := UnexpectedEnd;
      } else if key in known && kind == ASK {
        r := Done;
      } else {
        r, f := ReadValue(key);
      }
    }

    /** One message. */
    method ReadMessage(known: set<seq<byte>>) returns (r: Outcome, m: seq<Field>)
      requires Valid()
      modifies this, buf, trans
      ensures Valid()
      ensures Agrees(r, m, Pending(), ParseMessage(known, old(Pending())))
    {
      m := [];
      ghost var s := Pending();
      var ok := ReadNfield();
      if !ok {
        return UnexpectedEnd, m;
      }
      r, m := ReadFields(known);
    }

    /** The fields of a message. */
    method ReadFields(known: set<seq<byte>>) returns (r: Outcome, m: seq<Field>)
      requires Valid()
      modifies this, buf, trans
      ensures Valid()
      ensures Agrees(r, m, Pending(), ParseFields(known, old(nfield), old(Pending())))
    {
      m := [];
      ghost var all := ParseFields(known, nfield, Pending());
      PrependNone(all);
      while nfield > 0
        invariant Valid() && all == Prepend(m, ParseFields(known, nfield, Pending()))
      {
        ghost var p := ParseFields(known, nfield, Pending());
        var f;
        r, f := ReadField(known);
        if r != Done {
          return;
        }
        PrependTwice(m, f, p, ParseFields(known, nfield, Pending()));
        m := m + [f];
      }
      r := Done;
      assert m + [] == m;
    }
  }

  lemma PrependNone(p: Parsed<seq<Field>>)
    ensures Prepend([], p) == p
  {
    if p.Got? {
      assert [] + p.value == p.value;
    }
  }

  lemma PrependTwice(m: seq<Field>, f: Field, p: Parsed<seq<Field>>, q: Parsed<seq<Field>>)
    requires p == Prepend([f], q)
    ensures Prepend(m, p) == Prepend(m + [f], q)
  {
    if q.Got? {
      assert m + ([f] + q.value) == m + [f] + q.value;
    }
  }

  /** read_acl_fields: reads whole messages until the buffer is empty, and counts them in k. However
      the transport cut the bytes, the fields are those of the first k messages, and nothing else was
      taken from the connection. */
  method ReadAclFields(known: set<seq<byte>>, trans: InTransport)
    returns (r: Outcome, fields: seq<Field>, ghost k: nat)
    modifies trans
    ensures r == Done ==> k > 0 && ParseMessages(known, k, old(trans.rest)) == Got(fields, trans.rest)
    ensures r != Done ==> var p := ParseMessages(known, k, old(trans.rest));
                          && p.Got? && fields == p.value && (k == 0 || p.rest != [])
                          && ParseMessage(known, p.rest) == (if r == UnexpectedEnd then Short else TooBig)
  {
    var reader := new Reader(trans);
    ghost var s := trans.rest;
    fields, k := [], 0;
    var first := true;
    while first || reader.end > reader.cur
      invariant reader.Valid() && reader.trans == trans && fresh(reader) && fresh(reader.buf)
      invariant ParseMessages(known, k, s) == Got(fields, reader.Pending())
      invariant first <==> k == 0
      decreases |reader.Pending()|, first
    {
      first := false;
      ghost var before := reader.Pending();
      var m;
      r, m := reader.ReadMessage(known);
      NextMessage(known, k, s);
      if r != Done {
        return;
      }
      MessageShrinks(known, before);
      fields := fields + m;
      k := k + 1;
    }
    r := Done;
    assert reader.Pending() == trans.rest;
  }

  lemma {:induction false} FieldsShrink(known: set<seq<byte>>, n: nat, s: seq<byte>)
    ensures var p := ParseFields(known, n, s); p.Got? ==> |p.rest| <= |s|
    decreases n
  {
    if n > 0 && ParseField(known, s).Got? {
      FieldsShrink(known, n - 1, ParseField(known, s).rest);
    }
  }

  lemma MessageShrinks(known: set<seq<byte>>, s: seq<byte>)
    ensures var p := ParseMessage(known, s); p.Got? ==> |p.rest| < |s|
  {
    if |s| >= 4 {
      FieldsShrink(known, FromBe(s[..2]), s[2..]);
    }
  }

  method SendMessages(ms: seq<seq<Field>>) returns (bytes: seq<byte>)
    requires AllMessages(ms)
    ensures bytes == EncodeMessages(ms)
  {
    var out := new OutTransport();
    for i := 0 to |ms|
      invariant fresh(out) && out.sent + EncodeMessages(ms[i..]) == EncodeMessages(ms)
    {
      SendNext(out.sent, ms, i);
      SendAclData(ms[i], out);
    }
    assert ms[|ms|..] == [];
    bytes := out.sent;
  }

  lemma SendNext(before: seq<byte>, ms: seq<seq<Field>>, i: nat)
    requires i < |ms| && AllMessages(ms)
    ensures before + EncodeMessage(ms[i]) + EncodeMessages(ms[i + 1..]) == before + EncodeMessages(ms[i..])
  {
    assert ms[i..][0] == ms[i] && ms[i..][1..] == ms[i + 1..];
  }

  /** Messages through the writer, any cutting of the bytes, and the reader: it returns the fields of
      the first messages, all of them and no others, and leaves the other messages whole. */
  method Exchange(known: set<seq<byte>>, ms: seq<seq<Field>>)
    returns (fields: seq<Field>, rest: seq<byte>)
    requires ms != [] && AllMessages(ms) && AllReadable(known, ms)
    ensures exists k :: 0 < k <= |ms| && fields == Flat(ms[..k]) && rest == EncodeMessages(ms[k..])
  {
    var bytes := SendMessages(ms);
    var trans := new InTransport(bytes);
    var r;
    ghost var k;
    r, fields, k := ReadAclFields(known, trans);
    rest := trans.rest;
    NothingMissing(known, ms, k);
  }

  /** While messages are left, the next one can be read. */
  lemma NothingMissing(known: set<seq<byte>>, ms: seq<seq<Field>>, k: nat)
    requires AllMessages(ms) && AllReadable(known, ms) && ms != []
    ensures var p := ParseMessages(known, k, EncodeMessages(ms));
            p.Got? ==> k <= |ms| && p == Got(Flat(ms[..k]), EncodeMessages(ms[k..]))
                       && (k == 0 || p.rest != [] ==> ParseMessage(known, p.rest).Got?)
  {
    if k > |ms| {
      MessagesEnd(known, ms, k);
    } else {
      MessagesRoundTrip(known, ms, k);
      if k < |ms| {
        assert ms[k..][0] == ms[k];
        MessageRoundTrip(known, ms[k], EncodeMessages(ms[k..][1..]));
      }
    }
  }
}
