/** The ring that keeps the last typed characters for the report of a forbidden pattern. */
module Utf8KbdBuffer {
  import opened Bytes

  const BUF_LEN: nat := 128

  /** How much of a history of n bytes is kept for a match. */
  function Kept(n: nat, matchLen: nat): (k: nat)
    ensures k <= n && k <= matchLen
  {
    var kept := if n < BUF_LEN then n else BUF_LEN;
    if matchLen < kept then matchLen else kept
  }

  /** What a report is meant to show: the last matchLen bytes, as far as they are kept. */
  function Last(history: seq<byte>, matchLen: nat): (r: seq<byte>)
    ensures |r| == Kept(|history|, matchLen)
  {
    history[|history| - Kept(|history|, matchLen)..]
  }

  /** The ring holds all of the history, or its end cut in two at p. */
  predicate Ring(history: seq<byte>, ring: seq<byte>, p: nat)
    requires p <= |ring| == BUF_LEN
  {
    if |history| <= BUF_LEN then p == |history| && ring[..p] == history
    else history[|history| - BUF_LEN..] == ring[p..] + ring[..p]
  }

  class Utf8KbdBuffer {
    const data: array<byte>
    var totalLen: nat
    var p: nat
    // everything that was pushed
    ghost var history: seq<byte>

    ghost predicate Valid()
      reads this, data
    {
      && data.Length == BUF_LEN && p <= BUF_LEN
      && (if |history| <= BUF_LEN then totalLen == |history| else totalLen <= |history|)
      && Ring(history, data[..], p)
    }

    constructor ()
      ensures Valid() && history == [] && fresh(data)
    {
      data := new byte[BUF_LEN](_ => 0);
      totalLen, p, history := 0, 0, [];
    }

    method Put(q: nat, s: seq<byte>)
      requires q + |s| <= data.Length
      modifies data
      ensures data[..] == old(data[..q]) + s + old(data[q + |s|..])
    {
      for i := 0 to |s|
        invariant forall k :: 0 <= k < i ==> data[q + k] == s[k]
        invariant forall k :: 0 <= k < data.Length && !(q <= k < q + i) ==> data[k] == old(data[k])
      {
        data[q + i] := s[i];
      }
    }

    method Push(utf8Char: seq<byte>)
      requires Valid() && |utf8Char| <= BUF_LEN
      modifies this, data
      ensures Valid() && history == old(history) + utf8Char
      ensures var left := BUF_LEN - old(p);
              if left < |utf8Char| then p == |utf8Char| - left && totalLen == old(totalLen) + |utf8Char| - left
              else p == old(p) + |utf8Char| && totalLen == old(totalLen) + |utf8Char|
    {
      ghost var (before, at, ring) := (history, p, data[..]);
      var remaining := BUF_LEN - p;
      var rest := utf8Char;
      if remaining < |utf8Char| {
        Put(p, utf8Char[..remaining]);
        p := 0;
        rest := utf8Char[remaining..];
        Put(0, rest);
        Wrapped(before, ring, at, utf8Char);
        assert data[..] == rest + (ring[..at] + utf8Char[..remaining])[|rest|..];
      } else {
        Put(p, rest);
        InPlace(before, ring, at, utf8Char);
      }
      p := p + |rest|;
      totalLen := totalLen + |rest|;
      history := history + utf8Char;
    }

    /** std::rotate: the oldest byte comes first again. */
    method Rotate()
      requires Valid() && |history| > BUF_LEN
      modifies this`p, data
      ensures Valid() && p == BUF_LEN && data[..] == old(data[p..] + data[..p])
    {
      var rotated := data[p..] + data[..p];
      Put(0, rotated);
      assert data[..] == rotated;
      p := BUF_LEN;
    }

    /** The text of a report. It is too short exactly when the ring went round but the counted length,
        which misses the part of a character that filled the end, does not tell. */
    method LastChars(matchLen: nat) returns (r: seq<byte>)
      requires Valid()
      modifies this`p, data
      ensures Valid()
      ensures r == Last(history, matchLen)
              <==> !(|history| > BUF_LEN && totalLen <= BUF_LEN && old(p) < BUF_LEN && old(p) < matchLen)
    {
      if p >= matchLen {
        LastOfRing(history, data[..], p, matchLen);
        return data[p - matchLen..p];
      }
      if p != BUF_LEN && totalLen > BUF_LEN {
        Rotate();
        var n := if matchLen < BUF_LEN then matchLen else BUF_LEN;
        WholeRing(history, data[..], matchLen);
        return data[p - n..p];
      }
      FrontOfRing(history, data[..], p, matchLen);
      return data[..p];
    }
  }

  /** What is before p is the end of the history. */
  lemma LastOfRing(history: seq<byte>, ring: seq<byte>, p: nat, m: nat)
    requires m <= p <= |ring| == BUF_LEN && Ring(history, ring, p)
    ensures p <= |history| && Last(history, m) == ring[p - m..p]
  {
    var t := ring[p..] + ring[..p];
    assert t[BUF_LEN - m..] == ring[p - m..p];
    if |history| > BUF_LEN {
      Drop(history, |history| - BUF_LEN, BUF_LEN - m);
    }
  }

  lemma WholeRing(history: seq<byte>, ring: seq<byte>, m: nat)
    requires |ring| == BUF_LEN && Ring(history, ring, BUF_LEN)
    ensures Last(history, m) == ring[BUF_LEN - (if m < BUF_LEN then m else BUF_LEN)..BUF_LEN]
  {
    var n := if m < BUF_LEN then m else BUF_LEN;
    LastOfRing(history, ring, BUF_LEN, n);
    assert Kept(|history|, n) == Kept(|history|, m);
  }

  lemma FrontOfRing(history: seq<byte>, ring: seq<byte>, p: nat, m: nat)
    requires p <= |ring| == BUF_LEN && Ring(history, ring, p) && p < m
    ensures ring[..p] == Last(history, m) <==> |history| <= BUF_LEN || p == BUF_LEN
  {
    LastOfRing(history, ring, p, p);
    assert Kept(|history|, p) == p;
    if |history| <= BUF_LEN || p == BUF_LEN {
      assert Kept(|history|, m) == p;
    }
  }

  lemma Drop(s: seq<byte>, i: nat, j: nat)
    requires i + j <= |s|
    ensures s[i..][j..] == s[i + j..]
  {
  }

  lemma Wrapped(before: seq<byte>, ring: seq<byte>, p: nat, s: seq<byte>)
    requires p <= |ring| == BUF_LEN && BUF_LEN - p < |s| <= BUF_LEN && Ring(before, ring, p)
    ensures var rest := s[BUF_LEN - p..];
            var after := rest + (ring[..p] + s[..BUF_LEN - p])[|rest|..];
            |after| == BUF_LEN && |before + s| > BUF_LEN && Ring(before + s, after, |rest|)
  {
    var rest := s[BUF_LEN - p..];
    var after := rest + (ring[..p] + s[..BUF_LEN - p])[|rest|..];
    assert before[|before| - p..] == ring[..p];
    assert before + s == before[..|before| - p] + (ring[..p] + s[..BUF_LEN - p] + rest);
    assert after[|rest|..] + after[..|rest|] == (before + s)[|before| + |s| - BUF_LEN..];
  }

  lemma InPlace(before: seq<byte>, ring: seq<byte>, p: nat, s: seq<byte>)
    requires p + |s| <= |ring| == BUF_LEN && Ring(before, ring, p)
    ensures var after := ring[..p] + s + ring[p + |s|..];
            |after| == BUF_LEN && Ring(before + s, after, p + |s|)
  {
    var after := ring[..p] + s + ring[p + |s|..];
    if |before| <= BUF_LEN {
      assert before + s == after[..p + |s|];
    } else {
      assert (before + s)[|before| + |s| - BUF_LEN..] == before[|before| - BUF_LEN..][|s|..] + s;
      assert after[p + |s|..] + after[..p + |s|] == (ring[p..] + ring[..p])[|s|..] + s;
    }
  }

  /** A four-byte character on the last three bytes of the first round. */
  method TooShortReport(s: seq<byte>, c: seq<byte>) returns (r: seq<byte>)
    requires |s| == 125 && |c| == 4
    ensures r != Last(s + c, 10)
  {
    var b := new Utf8KbdBuffer();
    b.Push(s);
    assert [] + s == s;
    b.Push(c);
    r := b.LastChars(10);
  }
}
