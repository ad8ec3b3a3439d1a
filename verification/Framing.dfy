/** A byte stream cut into packets: the reference against which the resumable receiver is measured. */
module Framing {
  import opened Bytes
  import opened FixedHeader
  import opened Wire

  /** The fixed header is all there: a length byte below 128 has been seen. */
  predicate HeaderDone(s: seq<byte>) {
    |s| >= 2 && LenBytes(s[1..]) >= 1 && s[LenBytes(s[1..])] < 128
  }

  /** A whole packet with a legal first byte and at most four length bytes. */
  predicate Frame(f: seq<byte>) {
    HeaderDone(f) && LenBytes(f[1..]) <= 4 && TotalLen(f) == |f| && ValidHeader(f[0])
  }

  /** The simple splitter: take packets off the front as long as a whole one is there. */
  function Split(s: seq<byte>): (frames: seq<seq<byte>>)
    decreases |s|
  {
    if HeaderDone(s) && TotalLen(s) <= |s| then [s[..TotalLen(s)]] + Split(s[TotalLen(s)..]) else []
  }

  function Concat(frames: seq<seq<byte>>): seq<byte> {
    if frames == [] then [] else frames[0] + Concat(frames[1..])
  }

  /** What comes behind a complete header does not change what the header says. */
  lemma HeaderPrefix(s: seq<byte>, t: seq<byte>)
    requires s <= t && HeaderDone(s)
    ensures HeaderDone(t) && FixedLen(t) == FixedLen(s) && TotalLen(t) == TotalLen(s)
  {
    assert s[1..] <= t[1..];
    LenPrefix(s[1..], t[1..]);
  }

  /** The first `FixedLen` bytes of a packet already tell its length. */
  lemma HeaderEnough(f: seq<byte>, b: seq<byte>)
    requires HeaderDone(f) && |b| >= FixedLen(f) && b[..FixedLen(f)] == f[..FixedLen(f)]
    ensures HeaderDone(b) && FixedLen(b) == FixedLen(f) && TotalLen(b) == TotalLen(f)
  {
    var h := f[..FixedLen(f)];
    CutLength(f[1..]);
    assert h[1..] == f[1..][..LenBytes(f[1..])];
    HeaderPrefix(h, f);
    HeaderPrefix(h, b);
  }

  lemma {:induction false} CutLength(s: seq<byte>)
    requires LenBytes(s) >= 1 && s[LenBytes(s) - 1] < 128
    ensures var h := s[..LenBytes(s)]; LenBytes(h) == |h| && LenValue(h) == LenValue(s)
  {
    if s[0] >= 128 {
      CutLength(s[1..]);
      assert s[..LenBytes(s)][1..] == s[1..][..LenBytes(s[1..])];
    }
  }

  /** Only the last byte of a complete header's length is below 128. */
  lemma {:induction false} LengthBytesHigh(s: seq<byte>)
    requires LenBytes(s) >= 1
    ensures forall i :: 0 <= i < LenBytes(s) - 1 ==> s[i] >= 128
  {
    if s[0] >= 128 && LenBytes(s) > 1 {
      LengthBytesHigh(s[1..]);
      assert forall i :: 1 <= i < LenBytes(s) - 1 ==> s[i] == s[1..][i - 1];
    }
  }

  lemma SplitFirst(f: seq<byte>, rest: seq<byte>)
    requires Frame(f)
    ensures Split(f + rest) == [f] + Split(rest)
  {
    var s := f + rest;
    HeaderPrefix(f, s);
    assert s[..|f|] == f && s[|f|..] == rest;
  }

  /** Splitting undoes concatenation, whatever follows. */
  lemma {:induction false} SplitConcat(frames: seq<seq<byte>>, tail: seq<byte>)
    requires forall i :: 0 <= i < |frames| ==> Frame(frames[i])
    ensures Split(Concat(frames) + tail) == frames + Split(tail)
  {
    if frames == [] {
      assert Concat(frames) + tail == tail;
    } else {
      var f, more, c := frames[0], frames[1..], Concat(frames[1..]);
      SplitConcat(more, tail);
      SplitFirst(f, c + tail);
      Regroup(f, c, tail);
      Regroup([f], more, Split(tail));
      assert [f] + more == frames;
    }
  }

  lemma Regroup<T>(a: seq<T>, b: seq<T>, c: seq<T>)
    ensures (a + b) + c == a + (b + c)
  {
  }

  /** The packets cover the front of the stream, and what is left does not hold another one. */
  lemma {:induction false} ConcatSplit(s: seq<byte>)
    ensures Concat(Split(s)) <= s
    ensures Split(s[|Concat(Split(s))|..]) == []
    decreases |s|
  {
    hide LenBytes, LenValue;
    if HeaderDone(s) && TotalLen(s) <= |s| {
      var f, t := s[..TotalLen(s)], s[TotalLen(s)..];
      ConcatSplit(t);
      assert Split(s)[1..] == Split(t);
      assert s == f + t;
      assert s[|f| + |Concat(Split(t))|..] == t[|Concat(Split(t))|..];
    }
  }

  lemma {:induction false} ConcatAppend(a: seq<seq<byte>>, b: seq<seq<byte>>)
    ensures Concat(a + b) == Concat(a) + Concat(b)
  {
    if a == [] {
      assert a + b == b;
    } else {
      assert (a + b)[1..] == a[1..] + b;
      ConcatAppend(a[1..], b);
    }
  }

  /** Where packet `k` sits in the stream. */
  lemma PacketAt(frames: seq<seq<byte>>, k: nat)
    requires k < |frames|
    ensures var at := |Concat(frames[..k])|; var s := Concat(frames);
      at + |frames[k]| <= |s| && s[at..at + |frames[k]|] == frames[k]
      && |Concat(frames[..k + 1])| == at + |frames[k]| && Concat(frames[..k]) == s[..at]
  {
    ConcatAppend(frames[..k], frames[k..]);
    assert frames == frames[..k] + frames[k..];
    assert Concat(frames[k..]) == frames[k] + Concat(frames[k..][1..]);
    ConcatAppend(frames[..k], [frames[k]]);
    assert frames[..k + 1] == frames[..k] + [frames[k]];
    assert Concat([frames[k]]) == frames[k] + Concat([]);
  }
}
