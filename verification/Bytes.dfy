/** Bytes, big-endian fields and the MQTT variable byte integer.
    Section 2.2.3 of MQTT 3.1.1 and section 1.5.5 of MQTT 5.0. */
module Bytes {

  type byte = x: int | 0 <= x < 256

  datatype Option<+T> = None | Some(value: T)

  /** Remaining lengths from here on need more than four length bytes. */
  const REMAINING_LIMIT := 0x1000_0000

  /** A 16-bit field, most significant byte first; wider values lose their high part. */
  function U16(v: nat): (s: seq<byte>) {
    [v / 256 % 256, v % 256]
  }

  /** A string with its 16-bit length in front. */
  function Str16(s: seq<byte>): (r: seq<byte>) {
    U16(|s|) + s
  }

  function Word(hi: nat, lo: nat): nat {
    256 * hi + lo
  }

  lemma WordU16(v: nat)
    ensures Word(U16(v)[0], U16(v)[1]) == v % 65536
  {
  }

  /** Reads back a length-prefixed string at the start of `s`: the string and what follows it. */
  function TakeStr16(s: seq<byte>): (r: Option<(seq<byte>, seq<byte>)>) {
    if |s| < 2 || |s| < 2 + Word(s[0], s[1]) then None
    else
      var n := Word(s[0], s[1]);
      Some((s[2..2 + n], s[2 + n..]))
  }

  /** The length field holds 16 bits, so a string survives exactly when it is shorter than 65536 bytes. */
  lemma Str16RoundTrip(s: seq<byte>, rest: seq<byte>)
    ensures TakeStr16(Str16(s) + rest) == Some((s, rest)) <==> |s| < 65536
  {
    var w := Str16(s) + rest;
    WordU16(|s|);
    if |s| < 65536 {
      assert w[2..2 + |s|] == s;
      assert w[2 + |s|..] == rest;
    }
  }

  /** Every step emits the low seven bits; the high bit says more follow. */
  function EncodeLen(n: nat): (s: seq<byte>)
    ensures |s| >= 1
  {
    if n < 128 then [n] else [128 + n % 128] + EncodeLen(n / 128)
  }

  /** How many bytes a reader consumes: up to and with the first byte below 128, or all of them. */
  function LenBytes(s: seq<byte>): (k: nat)
    ensures k <= |s|
  {
    if s == [] then 0 else if s[0] < 128 then 1 else 1 + LenBytes(s[1..])
  }

  function LenValue(s: seq<byte>): nat {
    if s == [] then 0
    else if s[0] < 128 then s[0]
    else s[0] - 128 + 128 * LenValue(s[1..])
  }

  /** A byte string that is one whole variable byte integer and nothing more. */
  predicate WholeLen(s: seq<byte>) {
    s != [] && LenBytes(s) == |s| && s[|s| - 1] < 128
  }

  lemma {:induction false} LenRoundTrip(n: nat, rest: seq<byte>)
    ensures LenBytes(EncodeLen(n) + rest) == |EncodeLen(n)|
    ensures LenValue(EncodeLen(n) + rest) == n
    decreases n
  {
    if n >= 128 {
      LenRoundTrip(n / 128, rest);
      assert (EncodeLen(n) + rest)[1..] == EncodeLen(n / 128) + rest;
    }
  }

  /** All but the last byte of an encoding have the high bit. */
  lemma {:induction false} EncodeLenShape(n: nat)
    ensures EncodeLen(n)[|EncodeLen(n)| - 1] < 128
    ensures forall i :: 0 <= i < |EncodeLen(n)| - 1 ==> EncodeLen(n)[i] >= 128
    decreases n
  {
    if n >= 128 { EncodeLenShape(n / 128); }
  }

  /** No other byte string of the same value is shorter: section 1.5.5 of MQTT 5.0 asks for the minimum. */
  lemma {:induction false} EncodeLenShortest(s: seq<byte>)
    requires WholeLen(s)
    ensures |EncodeLen(LenValue(s))| <= |s|
  {
    if s[0] >= 128 {
      var t := s[1..];
      assert t != [] && t[|t| - 1] == s[|s| - 1];
      EncodeLenShortest(t);
      var n := LenValue(s);
      assert n / 128 == LenValue(t);
    }
  }

  /** The four thresholds of the encoding, both ways. */
  lemma EncodeLenSize(n: nat)
    ensures |EncodeLen(n)| <= 1 <==> n < 0x80
    ensures |EncodeLen(n)| <= 2 <==> n < 0x4000
    ensures |EncodeLen(n)| <= 3 <==> n < 0x20_0000
    ensures |EncodeLen(n)| <= 4 <==> n < REMAINING_LIMIT
  {
    if n >= 128 {
      var m := n / 128;
      if m >= 128 {
        var k := m / 128;
        if k >= 128 {
          assert EncodeLen(k) == [128 + k % 128] + EncodeLen(k / 128);
          if k / 128 >= 128 {
            assert |EncodeLen(k / 128)| >= 2;
          }
        }
      }
    }
  }

  /** What a reader sees depends only on the bytes it consumes. */
  lemma {:induction false} LenPrefix(s: seq<byte>, t: seq<byte>)
    requires s <= t && LenBytes(s) > 0 && s[LenBytes(s) - 1] < 128
    ensures LenBytes(t) == LenBytes(s) && LenValue(t) == LenValue(s)
  {
    if s[0] >= 128 {
      assert s[1..] <= t[1..];
      LenPrefix(s[1..], t[1..]);
    }
  }
}

/** The first byte of every packet, section 2.2 of MQTT 3.1.1: type, DUP, QoS, RETAIN. */
module FixedHeader {
  import opened Bytes

  const CONNECT := 1
  const CONNACK := 2
  const PUBLISH := 3
  const PUBACK := 4
  const PUBREC := 5
  const PUBREL := 6
  const PUBCOMP := 7
  const SUBSCRIBE := 8
  const SUBACK := 9
  const UNSUBSCRIBE := 10
  const UNSUBACK := 11
  const PINGREQ := 12
  const PINGRESP := 13
  const DISCONNECT := 14

  function Header(mtype: nat, dup: nat, qos: nat, retain: nat): byte
    requires mtype < 16 && dup < 2 && qos < 4 && retain < 2
  {
    16 * mtype + 8 * dup + 2 * qos + retain
  }

  function TypeOf(h: byte): nat { h / 16 }
  function DupOf(h: byte): nat { h / 8 % 2 }
  function QosOf(h: byte): nat { h / 2 % 4 }
  function RetainOf(h: byte): nat { h % 2 }

  function WithDup(h: byte): byte {
    if DupOf(h) == 1 then h else h + 8
  }

  /** Section 2.2.2 of MQTT 3.1.1: which flag bits each type may carry. */
  predicate ValidHeader(h: byte) {
    var t := TypeOf(h);
    if t == PUBLISH then QosOf(h) < 3 && (QosOf(h) > 0 || DupOf(h) == 0)
    else if t == PUBREL || t == SUBSCRIBE || t == UNSUBSCRIBE then h % 16 == 2
    else 1 <= t <= 14 && h % 16 == 0
  }

  /** Division by a constant, one fact at a time. */
  lemma SplitAt16(x: nat, hi: nat, lo: nat)
    requires lo < 16 && x == 16 * hi + lo
    ensures x / 16 == hi
  {
  }

  lemma SplitAt8(x: nat, hi: nat, lo: nat)
    requires lo < 8 && x == 8 * hi + lo
    ensures x / 8 == hi
  {
  }

  lemma SplitAt4(x: nat, hi: nat, lo: nat)
    requires lo < 4 && x == 4 * hi + lo
    ensures x % 4 == lo
  {
  }

  lemma SplitAt2(x: nat, hi: nat, lo: nat)
    requires lo < 2 && x == 2 * hi + lo
    ensures x / 2 == hi && x % 2 == lo
  {
  }

  /** The four fields do not disturb each other, and setting DUP touches DUP alone. */
  lemma HeaderFields(mtype: nat, dup: nat, qos: nat, retain: nat)
    requires mtype < 16 && dup < 2 && qos < 4 && retain < 2
    ensures var h := Header(mtype, dup, qos, retain);
      && TypeOf(h) == mtype && DupOf(h) == dup && QosOf(h) == qos && RetainOf(h) == retain
      && WithDup(h) == Header(mtype, 1, qos, retain)
  {
    var h := Header(mtype, dup, qos, retain);
    SplitAt16(h, mtype, 8 * dup + 2 * qos + retain);
    SplitAt8(h, 2 * mtype + dup, 2 * qos + retain);
    SplitAt2(2 * mtype + dup, mtype, dup);
    SplitAt2(h, 8 * mtype + 4 * dup + qos, retain);
    SplitAt4(8 * mtype + 4 * dup + qos, 2 * mtype + dup, qos);
  }

  /** Every byte is the header of its own fields. */
  lemma HeaderOfFields(h: byte)
    ensures TypeOf(h) < 16
    ensures h == Header(TypeOf(h), DupOf(h), QosOf(h), RetainOf(h))
  {
    var a: int, b: int := h / 2, h / 8;
    assert h == 2 * a + RetainOf(h);
    assert a == 4 * b + QosOf(h) by {
      SplitAt8(h, a / 4, 2 * (a % 4) + h % 2);
    }
    assert b == 2 * TypeOf(h) + DupOf(h) by {
      SplitAt16(h, b / 2, 8 * (b % 2) + h % 8);
    }
  }

  // The program writes these with masks and shifts; the next lemmas are the bridge.

  lemma HeaderMasks(t: bv8, d: bv8, q: bv8, r: bv8)
    requires t < 16 && d < 2 && q < 4 && r < 2
    ensures (((t & 0x0f) << 4) | ((d & 1) << 3) | ((q & 3) << 1) | (r & 1)) as int
         == Header(t as int, d as int, q as int, r as int)
  {
    assert (((t & 0x0f) << 4) | ((d & 1) << 3) | ((q & 3) << 1) | (r & 1)) == 16 * t + 8 * d + 2 * q + r;
  }

  lemma DupMask(b: bv8)
    ensures (b | 0x08) as int == WithDup(b as int)
  {
  }

  lemma TypeMask(b: bv8)
    ensures ((b & 0xf0) >> 4) as int == TypeOf(b as int)
  {
    assert (b & 0xf0) >> 4 == b / 16;
  }

  lemma QosMask(b: bv8)
    ensures ((b & 0x06) >> 1) as int == QosOf(b as int)
  {
    var h := b >> 1;
    assert h as int == b as int / 2;
    assert (b & 0x06) >> 1 == h & 3;
    assert (h & 3) as int == h as int % 4;
  }

  lemma DupReadMask(b: bv8)
    ensures ((b & 0x08) >> 3) as int == DupOf(b as int)
  {
    var h := b >> 3;
    assert h as int == b as int / 8;
    assert (b & 0x08) >> 3 == h & 1;
    assert (h & 1) as int == h as int % 2;
  }

  lemma RetainMask(b: bv8)
    ensures (b & 0x01) as int == RetainOf(b as int)
  {
  }

  /** The accessors of the header byte, as the program writes them, are the four fields. */
  lemma AccessorMasks(b: bv8)
    ensures ((b & 0xf0) >> 4) as int == TypeOf(b as int)
    ensures ((b & 0x08) >> 3) as int == DupOf(b as int)
    ensures ((b & 0x06) >> 1) as int == QosOf(b as int)
    ensures (b & 0x01) as int == RetainOf(b as int)
  {
    TypeMask(b);
    DupReadMask(b);
    QosMask(b);
    RetainMask(b);
  }

  /** The check of the first byte as the program writes it, case by case on the type. */
  lemma ValidHeaderMasks(b: bv8)
    ensures var t, q, d := (b & 0xf0) >> 4, (b & 0x06) >> 1, (b & 0x08) >> 3;
      ValidHeader(b as int) <==>
      || (t in {1, 2, 4, 5, 7, 9, 11, 12, 13, 14} && b & 0x0f == 0)
      || (t in {6, 8, 10} && b & 0x0f == 0x02)
      || (t == 3 && q < 3 && (q > 0 || d == 0))
  {
    AccessorMasks(b);
    assert (b & 0x0f) as int == b as int % 16;
  }

  /** Which first bytes are legal, one by one. */
  lemma ValidHeaderBytes(b: bv8)
    ensures ValidHeader(b as int) <==> b in {
      0x10, 0x20, 0x30, 0x31, 0x32, 0x33, 0x34, 0x35, 0x3A, 0x3B, 0x3C, 0x3D, 0x40, 0x50, 0x62, 0x70,
      0x82, 0x90, 0xA2, 0xB0, 0xC0, 0xD0, 0xE0}
  {
    ValidHeaderMasks(b);
  }

  lemma LengthMask(b: bv8)
    ensures (b & 0x7f) as int == b as int % 128
    ensures b & 0x80 != 0 <==> b as int >= 128
  {
  }

  /** One step of the length loops, as the program writes it: seven bits of value, and the eighth says that more follow. */
  lemma LengthStep(b: bv8, rest: seq<byte>)
    ensures var s := [b as int] + rest;
      && LenValue(s) == (b & 0x7f) as int + (if b & 0x80 != 0 then 128 * LenValue(rest) else 0)
      && LenBytes(s) == 1 + (if b & 0x80 != 0 then LenBytes(rest) else 0)
  {
    LengthMask(b);
    assert ([b as int] + rest)[1..] == rest;
  }
}
