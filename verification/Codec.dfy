/**
 The byte form of a file's offsets (common/state/src/state.rs:170-205 and 318-337).

 A row is a run of big-endian 64-bit words: the end of the first span, then the
 start and the end of every span. The decoder skips the first word and then
 reads a span at *every* word, not at every second one.
 */
module Codec {
  import opened Prelude
  import opened Spans
  import opened SpanVecs

  type Byte = x: int | 0 <= x < 256

  datatype DecodeError = InvalidSpan | Malformed

  // ----- 64-bit words, eight bytes each

  function Power256(n: nat): nat { if n == 0 then 1 else 256 * Power256(n - 1) }

  function ToBigEndian(x: nat, n: nat): (b: seq<Byte>)
    ensures |b| == n
    decreases x, n
  {
    if n == 0 then [] else ToBigEndian(x / 256, n - 1) + [x % 256]
  }

  function FromBigEndian(b: seq<Byte>): (x: nat)
    ensures x < Power256(|b|)
  {
    if b == [] then 0 else 256 * FromBigEndian(b[..|b| - 1]) + b[|b| - 1]
  }

  lemma {:induction false} BigEndianRoundTrip(x: nat, n: nat)
    requires x < Power256(n)
    ensures FromBigEndian(ToBigEndian(x, n)) == x
  {
    if n > 0 {
      var high := ToBigEndian(x / 256, n - 1);
      BigEndianRoundTrip(x / 256, n - 1);
      assert (high + [x % 256])[..n - 1] == high;
    }
  }

  lemma WordRange()
    ensures Power256(8) == U64_MAX + 1
  {
    assert Power256(4) == 256 * (256 * (256 * 256));
    assert Power256(8) == 256 * (256 * (256 * (256 * Power256(4))));
  }

  lemma WordRoundTrip(x: nat)
    requires x <= U64_MAX
    ensures FromBigEndian(ToBigEndian(x, 8)) == x
  {
    WordRange();
    BigEndianRoundTrip(x, 8);
  }

  // ----- rows

  function Bytes(words: seq<nat>): (b: seq<Byte>)
    ensures |b| == 8 * |words|
  {
    if words == [] then [] else ToBigEndian(words[0], 8) + Bytes(words[1..])
  }

  /** Start, end, start, end, ... */
  function Bounds(v: seq<Span>): (w: seq<nat>)
    ensures |w| == 2 * |v|
    ensures forall k :: 0 <= k < |v| ==> w[2 * k] == v[k].start && w[2 * k + 1] == v[k].end
  {
    if v == [] then [] else [v[0].start, v[0].end] + Bounds(v[1..])
  }

  function Encode(v: seq<Span>): seq<Byte>
    requires v != []
  {
    Bytes([v[0].end] + Bounds(v))
  }

  lemma {:induction false} BytesConcat(a: seq<nat>, b: seq<nat>)
    ensures Bytes(a + b) == Bytes(a) + Bytes(b)
  {
    if a == [] {
      assert a + b == b;
    } else {
      BytesConcat(a[1..], b);
      assert (a + b)[1..] == a[1..] + b && (a + b)[0] == a[0];
      assert ToBigEndian(a[0], 8) + (Bytes(a[1..]) + Bytes(b)) == ToBigEndian(a[0], 8) + Bytes(a[1..]) + Bytes(b);
    }
  }

  lemma {:induction false} BoundsConcat(a: seq<Span>, b: seq<Span>)
    ensures Bounds(a + b) == Bounds(a) + Bounds(b)
  {
    if a == [] {
      assert a + b == b;
    } else {
      BoundsConcat(a[1..], b);
      BoundsOfConcat(a, b);
    }
  }

  lemma BoundsOfConcat(a: seq<Span>, b: seq<Span>)
    requires a != []
    ensures Bounds(a + b) == [a[0].start, a[0].end] + Bounds(a[1..] + b)
    ensures [a[0].start, a[0].end] + (Bounds(a[1..]) + Bounds(b)) == Bounds(a) + Bounds(b)
  {
    assert (a + b)[1..] == a[1..] + b && (a + b)[0] == a[0];
  }

  method EncodeRow(v: seq<Span>) returns (buf: seq<Byte>)
    requires v != []
    ensures buf == Encode(v)
  {
    buf := ToBigEndian(v[0].end, 8);
    assert buf == Bytes([v[0].end] + Bounds(v[..0])) by {
      assert Bounds(v[..0]) == [];
      assert [v[0].end] + [] == [v[0].end];
      assert Bytes([v[0].end]) == ToBigEndian(v[0].end, 8) + Bytes([]);
    }
    for i := 0 to |v|
      invariant buf == Bytes([v[0].end] + Bounds(v[..i]))
    {
      buf := buf + ToBigEndian(v[i].start, 8);
      buf := buf + ToBigEndian(v[i].end, 8);
      assert v[..i + 1] == v[..i] + [v[i]];
      BoundsConcat(v[..i], [v[i]]);
      var word := [v[i].start, v[i].end];
      assert Bounds([v[i]]) == word;
      assert Bytes(word) == ToBigEndian(v[i].start, 8) + ToBigEndian(v[i].end, 8) by {
        assert word[1..] == [v[i].end] && word[1..][1..] == [];
      }
      BytesConcat([v[0].end] + Bounds(v[..i]), word);
      assert [v[0].end] + Bounds(v[..i]) + word == [v[0].end] + Bounds(v[..i + 1]);
    }
    assert v[..|v|] == v;
  }

  // ----- decoding, with the window that slides one word at a time

  /** `Span::new`, restricted to ends a span can have here. */
  function NewSpan(start: nat, end: nat): Option<Span> {
    if start <= end < U64_MAX then Some(Interval(start, end)) else None
  }

  /** The decoder's walk: a span at each word, as long as more than one word is left. */
  function Pairs(rem: seq<Byte>, v: seq<Span>): Result<seq<Span>, DecodeError> {
    if |rem| <= 8 then Ok(v)
    else if |rem| < 16 then Err(Malformed)
    else match NewSpan(FromBigEndian(rem[..8]), FromBigEndian(rem[8..16]))
      case None => Err(InvalidSpan)
      case Some(s) => Pairs(rem[8..], Inserted(v, s))
  }

  /** What a row means to the decoder; `Malformed` where slicing the row panics. */
  function Decode(row: seq<Byte>): Result<seq<Span>, DecodeError> {
    if |row| < 8 then Err(Malformed)
    else if |row| == 8 then
      match NewSpan(0, FromBigEndian(row))
      case None => Err(InvalidSpan)
      case Some(s) => Ok([s])
    else Pairs(row[8..], [])
  }

  method DecodeRow(row: seq<Byte>) returns (r: Result<seq<Span>, DecodeError>)
    ensures r == Decode(row)
  {
    if |row| < 8 {
      return Err(Malformed);
    }
    if |row| == 8 {
      var s := NewSpan(0, FromBigEndian(row));
      if s.None? {
        return Err(InvalidSpan);
      }
      var offsets := new SpanVec();
      assert Inserted([], s.value) == [s.value];
      offsets.Insert(s.value);
      return Ok(offsets.spans);
    }
    var offsets := new SpanVec();
    var rem := row[8..];
    while |rem| > 8
      invariant StrictStarts(offsets.spans)
      invariant Pairs(rem, offsets.spans) == Decode(row)
      decreases |rem|
    {
      if |rem| < 16 {
        return Err(Malformed);
      }
      var s := NewSpan(FromBigEndian(rem[..8]), FromBigEndian(rem[8..16]));
      rem := rem[8..];
      if s.None? {
        return Err(InvalidSpan);
      }
      offsets.Insert(s.value);
    }
    return Ok(offsets.spans);
  }

  // ----- what survives a round trip

  lemma FirstWord(w: seq<nat>)
    requires w != [] && w[0] <= U64_MAX
    ensures FromBigEndian(Bytes(w)[..8]) == w[0]
    ensures Bytes(w)[8..] == Bytes(w[1..])
  {
    var head, tail := ToBigEndian(w[0], 8), Bytes(w[1..]);
    assert Bytes(w) == head + tail;
    assert (head + tail)[..8] == head && (head + tail)[8..] == tail;
    WordRoundTrip(w[0]);
  }

  lemma SecondSlice(b: seq<Byte>)
    requires |b| >= 16
    ensures b[8..16] == b[8..][..8]
  {
  }

  lemma FirstWords(w: seq<nat>)
    requires |w| > 1 && w[0] <= U64_MAX && w[1] <= U64_MAX
    ensures FromBigEndian(Bytes(w)[..8]) == w[0]
    ensures FromBigEndian(Bytes(w)[8..16]) == w[1]
    ensures Bytes(w)[8..] == Bytes(w[1..])
  {
    FirstWord(w);
    SecondSlice(Bytes(w));
    FirstWord(w[1..]);
  }

  /** No span starts before the previous one ends. */
  ghost predicate Orderly(v: seq<Span>) {
    forall k :: 0 <= k < |v| - 1 ==> v[k].end <= v[k + 1].start
  }

  /** Each word extends the single span read so far. */
  lemma ExtendByWord(a: nat, b: nat, c: nat)
    requires a <= b <= c < U64_MAX
    ensures Inserted([Interval(a, b)], Interval(b, c)) == [Interval(a, c)]
  {
    var s := [Interval(a, b)];
    if a < b {
      assert Rank(s, b) == 1 by { assert s[1..] == []; }
      assert Touches(s[0], Interval(b, c));
    }
  }

  ghost predicate Nondecreasing(w: seq<nat>) {
    forall k :: 0 <= k < |w| - 1 ==> w[k] <= w[k + 1]
  }

  ghost predicate InRange(w: seq<nat>) {
    forall i :: 0 <= i < |w| ==> w[i] < U64_MAX
  }

  /** Once at least one pair has been read, from `a` up to the word before `w`. */
  lemma {:induction false} PairsHull(a: nat, w: seq<nat>)
    requires w != [] && InRange(w) && Nondecreasing(w) && a <= w[0]
    ensures a <= w[|w| - 1]
    ensures Pairs(Bytes(w), [Interval(a, w[0])]) == Ok([Interval(a, w[|w| - 1])])
  {
    if |w| > 1 {
      FirstWords(w);
      ExtendByWord(a, w[0], w[0 + 1]);
      assert Nondecreasing(w[1..]) by {
        forall k | 0 <= k < |w[1..]| - 1 ensures w[1..][k] <= w[1..][k + 1] { assert w[k + 1] <= w[k + 1 + 1]; }
      }
      PairsHull(a, w[1..]);
    }
  }

  lemma {:induction false} PairsFail(w: seq<nat>, v: seq<Span>, bad: nat)
    requires bad + 1 < |w| && InRange(w)
    requires w[bad] > w[bad + 1]
    ensures Pairs(Bytes(w), v) == Err(InvalidSpan)
    decreases bad
  {
    FirstWords(w);
    var s := NewSpan(w[0], w[1]);
    if s.Some? {
      PairsFail(w[1..], Inserted(v, s.value), bad - 1);
    }
  }

  lemma BoundsNondecreasing(v: seq<Span>)
    ensures Nondecreasing(Bounds(v)) <==> Orderly(v)
  {
    var w := Bounds(v);
    if Orderly(v) {
      forall k | 0 <= k < |w| - 1 ensures w[k] <= w[k + 1] {
        var j := k / 2;
        assert w[2 * j] == v[j].start && w[2 * j + 1] == v[j].end;
        if k == 2 * j + 1 { assert w[2 * (j + 1)] == v[j + 1].start; }
      }
    } else {
      var k :| 0 <= k < |v| - 1 && v[k].end > v[k + 1].start;
      assert w[2 * k + 1] == v[k].end && w[2 * (k + 1)] == v[k + 1].start;
      assert w[2 * k + 1] > w[2 * k + 1 + 1];
    }
  }

  lemma EncodeBody(v: seq<Span>)
    requires v != []
    ensures |Encode(v)| == 8 * (2 * |v| + 1) && Encode(v)[8..] == Bytes(Bounds(v))
  {
    var w := Bounds(v);
    BytesConcat([v[0].end], w);
    assert Bytes([v[0].end]) == ToBigEndian(v[0].end, 8) + Bytes([]) by { assert [v[0].end][1..] == []; }
  }

  /**
   Persisting then reloading keeps the two outer ends and nothing else, and it
   does so exactly for the vectors in which no span starts inside the previous one.
   */
  lemma RoundTripIsHull(v: seq<Span>)
    requires v != []
    ensures Orderly(v) ==> v[0].start <= v[|v| - 1].end
    ensures Decode(Encode(v)) ==
            if Orderly(v) then Ok([Interval(v[0].start, v[|v| - 1].end)]) else Err(InvalidSpan)
  {
    var w := Bounds(v);
    EncodeBody(v);
    BoundsInRange(v);
    BoundsNondecreasing(v);
    assert w[0] == w[2 * 0] == v[0].start && w[|w| - 1] == w[2 * (|v| - 1) + 1] == v[|v| - 1].end;
    if Orderly(v) {
      ReadsHull(w);
    } else {
      var k :| 0 <= k < |w| - 1 && w[k] > w[k + 1];
      PairsFail(w, [], k);
    }
  }

  lemma ReadsHull(w: seq<nat>)
    requires |w| > 1 && Nondecreasing(w) && InRange(w)
    ensures w[0] <= w[|w| - 1]
    ensures Pairs(Bytes(w), []) == Ok([Interval(w[0], w[|w| - 1])])
  {
    FirstWords(w);
    assert w[0] <= w[0 + 1];
    assert Inserted([], Interval(w[0], w[1])) == [Interval(w[0], w[1])];
    assert Nondecreasing(w[1..]) by {
      forall k | 0 <= k < |w[1..]| - 1 ensures w[1..][k] <= w[1..][k + 1] { assert w[k + 1] <= w[k + 1 + 1]; }
    }
    PairsHull(w[0], w[1..]);
  }

  lemma BoundsInRange(v: seq<Span>)
    ensures InRange(Bounds(v))
  {
    if v != [] { BoundsInRange(v[1..]); }
  }

  /** A row of one word stands for everything from 0 up to that word. */
  lemma OneWordRow(end: nat)
    requires end <= U64_MAX
    ensures Decode(ToBigEndian(end, 8)) == if end < U64_MAX then Ok([Interval(0, end)]) else Err(InvalidSpan)
  {
    WordRoundTrip(end);
  }

  /** A row is its file's exact offsets only when there was a single span. */
  lemma RoundTripExact(v: seq<Span>)
    requires v != [] && Canonical(v)
    ensures Decode(Encode(v)) == Ok(v) <==> |v| == 1
  {
    RoundTripIsHull(v);
    if |v| == 1 { assert v == [v[0]]; }
  }
}
