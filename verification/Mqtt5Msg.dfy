/** The MQTT 5.0 builders for properties and PUBLISH, and the parsing loops, working in place on the same
    outbound buffer as the 3.1.1 ones. */
module Mqtt5Msg {
  import opened Bytes
  import opened FixedHeader
  import opened Wire
  import opened Mqtt5Wire
  import opened MqttMsg
  import MqttReaders

  // ---- fields of one to four bytes -----------------------------------------------------------

  function Shift8(v: nat, k: nat): nat {
    if k == 0 then v else Shift8(v / 256, k - 1)
  }

  function BigEndian(v: nat, width: nat): (s: seq<byte>)
    ensures |s| == width
  {
    if width == 0 then [] else BigEndian(v / 256, width - 1) + [v % 256]
  }

  lemma {:induction false} BigEndianAt(v: nat, width: nat, i: nat)
    requires i < width
    ensures BigEndian(v, width)[i] == Shift8(v, width - 1 - i) % 256
  {
    if i < width - 1 { BigEndianAt(v / 256, width - 1, i); }
  }

  lemma BigEndianOne(v: nat)
    ensures BigEndian(v, 1) == [v % 256]
  {
    assert BigEndian(v, 1) == BigEndian(v / 256, 0) + [v % 256];
  }

  lemma BigEndianWord(v: nat)
    ensures BigEndian(v, 2) == U16(v)
  {
    BigEndianTwo(v, 0);
    assert BigEndian(v / 0x1_0000, 0) == [];
  }

  lemma BigEndianLong(v: nat)
    ensures BigEndian(v, 4) == U32(v)
  {
    BigEndianTwo(v, 2);
    BigEndianWord(v / 0x1_0000);
    LowWord(v);
    hide BigEndian, U16;
  }

  lemma BigEndianTwo(v: nat, width: nat)
    ensures BigEndian(v, width + 2) == BigEndian(v / 0x1_0000, width) + U16(v)
  {
    assert v / 256 / 256 == v / 0x1_0000;
    assert BigEndian(v, width + 2) == BigEndian(v / 256, width + 1) + [v % 256];
    assert BigEndian(v / 256, width + 1) == BigEndian(v / 256 / 256, width) + [v / 256 % 256];
  }

  lemma LowWord(v: nat)
    ensures U16(v % 0x1_0000) == U16(v)
  {
    assert v == v / 0x1_0000 * 0x1_0000 + v % 0x1_0000;
    var low := v % 0x1_0000;
    assert v / 256 == v / 0x1_0000 * 256 + low / 256;
  }

  function Tagged(tag: byte, field: seq<byte>): seq<byte> {
    (if tag != 0 then [tag] else []) + field
  }

  // ---- writing properties ----------------------------------------------------------------------

  /** `append_property` with a field of fixed width; `value` is the number in it, the length of `data` if there is some. */
  method AppendProperty(c: Connection, tag: byte, width: nat, data: Option<seq<byte>>, value: nat) returns (r: int)
    requires 1 <= width <= 4 && (data.Some? ==> value == |data.value|)
    modifies c`length, c.buffer
    ensures var s := Tagged(tag, BigEndian(value, width) + Payload(data)); var was := old(c.length);
      if was + |s| > c.buffer.Length then r == -1 && c.length == was && c.buffer[..] == old(c.buffer[..])
      else r == |s| && c.length == was + |s| && c.buffer[..c.length] == old(c.buffer[..])[..was] + s
  {
    var was := c.length;
    ghost var before := c.buffer[..];
    var extra := if data.Some? then |data.value| else 0;
    if c.length + width + extra + (if tag != 0 then 1 else 0) > c.buffer.Length {
      return -1;
    }
    if tag != 0 {
      c.buffer[c.length] := tag;
      c.length := c.length + 1;
    }
    ghost var at := c.length;
    assert c.buffer[..at] == before[..was] + Tagged(tag, []);
    AppendField(c, width, value);
    assert c.buffer[..c.length] == before[..was] + Tagged(tag, BigEndian(value, width));
    AppendData(c, Payload(data));
    assert c.buffer[..c.length] == before[..was] + Tagged(tag, BigEndian(value, width) + Payload(data));
    r := c.length - was;
  }

  method AppendField(c: Connection, width: nat, value: nat)
    requires c.length + width <= c.buffer.Length
    modifies c`length, c.buffer
    ensures c.length == old(c.length) + width && c.buffer[..c.length] == old(c.buffer[..c.length]) + BigEndian(value, width)
  {
    ghost var at := c.length;
    for i := 1 to width + 1
      invariant c.length == at + i - 1
      invariant c.buffer[..c.length] == old(c.buffer[..c.length]) + BigEndian(value, width)[..i - 1]
    {
      BigEndianAt(value, width, i - 1);
      c.buffer[c.length] := Shift8(value, width - i) % 256;
      c.length := c.length + 1;
    }
  }

  method AppendData(c: Connection, data: seq<byte>)
    requires c.length + |data| <= c.buffer.Length
    modifies c`length, c.buffer
    ensures c.length == old(c.length) + |data| && c.buffer[..c.length] == old(c.buffer[..c.length]) + data
  {
    forall k | 0 <= k < |data| {
      c.buffer[c.length + k] := data[k];
    }
    c.length := c.length + |data|;
  }

  /** `update_property_len_value`: one byte was reserved in front of n bytes of properties. The properties move up, last
      byte first, by as many places as the length needs beyond that byte, and the length takes the room. */
  method UpdatePropertyLen(c: Connection, n: nat, at: nat) returns (r: int)
    requires at + 1 + n == c.length && n < REMAINING_LIMIT && (n > 0 ==> c.length <= c.buffer.Length)
    modifies c`length, c.buffer
    ensures var e := EncodeLen(n); var was := old(c.buffer[..]);
      && c.length == old(c.length) + |e| - 1
      && if c.length > c.buffer.Length then r == -1 && c.buffer[..] == was
         else r == |e| - 1 && c.buffer[..] == was[..at] + e + was[at + 1..at + 1 + n] + was[c.length..]
  {
    hide EncodeLen;
    ghost var was := c.buffer[..];
    var lens := EncodeRemaining(n);
    EncodeLenSize(n);
    var offset := |lens| - 1;
    c.length := c.length + offset;
    if c.length > c.buffer.Length {
      return -1;
    }
    if offset > 0 {
      ShiftUp(c, n, at, offset);
    }
    ghost var moved := c.buffer[..];
    WriteLens(c.buffer, at, lens);
    Patched(was, moved, c.buffer[..], at, n, lens);
    r := offset;
  }

  lemma Patched(was: seq<byte>, moved: seq<byte>, now: seq<byte>, at: nat, n: nat, e: seq<byte>)
    requires at + |e| + n <= |was| == |moved| == |now| && e != []
    requires moved[..at] == was[..at] && moved[at + |e|..at + |e| + n] == was[at + 1..at + 1 + n]
    requires moved[at + |e| + n..] == was[at + |e| + n..]
    requires now[..at] == moved[..at] && now[at..at + |e|] == e && now[at + |e|..] == moved[at + |e|..]
    ensures now == was[..at] + e + was[at + 1..at + 1 + n] + was[at + |e| + n..]
  {
    Upper(now, moved, at + |e|, at + |e| + n);
    Assemble(now, at, |e|, at + |e| + n);
  }

  method WriteLens(b: array<byte>, at: nat, lens: seq<byte>)
    requires at + |lens| <= b.Length
    modifies b
    ensures b[..at] == old(b[..at]) && b[at..at + |lens|] == lens && b[at + |lens|..] == old(b[at + |lens|..])
  {
    for i := 0 to |lens|
      invariant b[..at] == old(b[..at]) && b[at..at + i] == lens[..i] && b[at + |lens|..] == old(b[at + |lens|..])
    {
      b[at + i] := lens[i];
    }
  }

  /** The overlapping copy. */
  method ShiftUp(c: Connection, n: nat, at: nat, offset: nat)
    requires 0 < offset && at + 1 + n + offset <= c.buffer.Length
    modifies c.buffer
    ensures c.buffer[..at] == old(c.buffer[..])[..at]
    ensures c.buffer[at + 1 + offset..at + 1 + offset + n] == old(c.buffer[..])[at + 1..at + 1 + n]
    ensures c.buffer[at + 1 + offset + n..] == old(c.buffer[..])[at + 1 + offset + n..]
  {
    var from := at + n;
    for i := 0 to n
      invariant from == at + n - i
      invariant forall k :: 0 <= k <= from + offset ==> c.buffer[k] == old(c.buffer[k])
      invariant forall k :: from < k <= at + n ==> c.buffer[k + offset] == old(c.buffer[k])
      invariant forall k :: at + n + offset < k < c.buffer.Length ==> c.buffer[k] == old(c.buffer[k])
    {
      c.buffer[from + offset] := c.buffer[from];
      from := from - 1;
    }
    ghost var moved, before := c.buffer[at + 1 + offset..at + 1 + offset + n], old(c.buffer[..])[at + 1..at + 1 + n];
    forall k | 0 <= k < n
      ensures moved[k] == before[k]
    {
      assert c.buffer[at + 1 + k + offset] == old(c.buffer[at + 1 + k]);
    }
  }

  lemma Upper(b: seq<byte>, a: seq<byte>, from: nat, end: nat)
    requires from <= end <= |a| == |b| && b[from..] == a[from..]
    ensures b[from..end] == a[from..end] && b[end..] == a[end..]
  {
    assert b[from..][..end - from] == b[from..end] && a[from..][..end - from] == a[from..end];
    assert b[from..][end - from..] == b[end..] && a[from..][end - from..] == a[end..];
  }

  lemma Assemble(b: seq<byte>, at: nat, n: nat, end: nat)
    requires at + n <= end <= |b|
    ensures b == b[..at] + b[at..at + n] + b[at + n..end] + b[end..]
  {
  }

  // ---- PUBLISH ---------------------------------------------------------------------------------

  /** The buffer starts with `kept`; behind it one byte is reserved, possibly the one past the end, and then comes `ps`. */
  ghost predicate Laid(c: Connection, kept: seq<byte>, ps: seq<byte>)
    reads c, c.buffer
  {
    && |kept| <= c.buffer.Length && c.buffer[..|kept|] == kept && c.length == |kept| + 1 + |ps|
    && (ps == [] || (c.length <= c.buffer.Length && c.buffer[|kept| + 1..c.length] == ps))
  }

  method Add(c: Connection, ghost kept: seq<byte>, ghost ps: seq<byte>, tag: byte, width: nat, data: Option<seq<byte>>, value: nat)
    returns (ok: bool)
    requires 1 <= width <= 4 && (data.Some? ==> value == |data.value|) && Laid(c, kept, ps)
    modifies c`length, c.buffer
    ensures var s := Tagged(tag, BigEndian(value, width) + Payload(data));
      && (ok <==> |kept| + 1 + |ps + s| <= c.buffer.Length)
      && Laid(c, kept, if ok then ps + s else ps)
  {
    hide Tagged, BigEndian;
    TaggedSome(tag, width, data, value);
    ghost var was, before := c.length, c.buffer[..];
    ghost var s := Tagged(tag, BigEndian(value, width) + Payload(data));
    var r := AppendProperty(c, tag, width, data, value);
    ok := r != -1;
    if ok {
      assert c.buffer[..c.length] == before[..was] + s;
      Extended(c.buffer[..c.length], before, |kept|, was, s);
      assert c.buffer[..|kept|] == c.buffer[..c.length][..|kept|];
      assert c.buffer[|kept| + 1..c.length] == c.buffer[..c.length][|kept| + 1..];
    }
  }

  lemma TaggedSome(tag: byte, width: nat, data: Option<seq<byte>>, value: nat)
    requires width > 0
    ensures Tagged(tag, BigEndian(value, width) + Payload(data)) != []
  {
  }

  lemma Extended(now: seq<byte>, before: seq<byte>, from: nat, was: nat, s: seq<byte>)
    requires from + 1 <= was <= |before| && now == before[..was] + s
    ensures now[..from] == before[..from] && now[from + 1..] == before[from + 1..was] + s
  {
  }

  /** One property, if it is to be sent. */
  method AppendIf(c: Connection, ghost kept: seq<byte>, ghost done: seq<Property>, present: bool, ghost p: Property,
                  tag: byte, width: nat, data: Option<seq<byte>>, value: nat) returns (ok: bool)
    requires 1 <= width <= 4 && (data.Some? ==> value == |data.value|) && Laid(c, kept, EncodeAll(done))
    requires present ==> Encode(p) == Tagged(tag, BigEndian(value, width) + Payload(data))
    modifies c`length, c.buffer
    ensures var l := done + if present then [p] else [];
      if ok then Laid(c, kept, EncodeAll(l)) else TooLong(c, kept, l)
  {
    hide Encode, Laid, Tagged;
    ok := true;
    if present {
      assert (done + [p])[..|done|] == done;
      ok := Add(c, kept, EncodeAll(done), tag, width, data, value);
    } else {
      assert done + [] == done;
    }
  }

  ghost predicate TooLong(c: Connection, kept: seq<byte>, l: seq<Property>) {
    l != [] && |kept| + 1 + |EncodeAll(l)| > c.buffer.Length
  }

  lemma TooLongToo(c: Connection, kept: seq<byte>, l: seq<Property>, all: seq<Property>)
    requires TooLong(c, kept, l) && l <= all
    ensures TooLong(c, kept, all)
  {
    EncodeConcat(l, all[|l|..]);
    assert l + all[|l|..] == all;
  }

  lemma {:induction false} EncodeSome(l: seq<Property>)
    ensures EncodeAll(l) == [] <==> l == []
  {
  }

  /** The user properties, in the order of the list. */
  method AppendUsers(c: Connection, ghost kept: seq<byte>, ghost done: seq<Property>, user: seq<Pair>) returns (ok: bool)
    requires Laid(c, kept, EncodeAll(done))
    modifies c`length, c.buffer
    ensures var l := done + Users(user);
      if ok then Laid(c, kept, EncodeAll(l)) else TooLong(c, kept, l)
  {
    hide Encode, EncodeAll, Laid, Tagged, TooLong;
    assert done + Users(user[..0]) == done;
    for i := 0 to |user|
      invariant Laid(c, kept, EncodeAll(done + Users(user[..i])))
    {
      ghost var l := done + Users(user[..i]);
      assert l + [User(user[i])] == done + Users(user[..i + 1]);
      ok := AppendUser(c, kept, l, user[i]);
      if !ok {
        TooLongToo(c, kept, done + Users(user[..i + 1]), done + Users(user));
        return;
      }
    }
    assert user[..|user|] == user;
    ok := true;
  }

  method AppendUser(c: Connection, ghost kept: seq<byte>, ghost done: seq<Property>, u: Pair) returns (ok: bool)
    requires Laid(c, kept, EncodeAll(done))
    modifies c`length, c.buffer
    ensures var l := done + [User(u)];
      if ok then Laid(c, kept, EncodeAll(l)) else TooLong(c, kept, l)
  {
    hide Laid, BigEndian, U16;
    BigEndianWord(|u.key|);
    BigEndianWord(|u.value|);
    ghost var e := EncodeAll(done);
    ghost var l := done + [User(u)];
    assert l[..|done|] == done;
    ghost var k, v := [USER] + Str16(u.key), Str16(u.value);
    assert EncodeAll(l) == e + (k + v) == e + k + v;
    assert Tagged(USER, U16(|u.key|) + u.key) == k && Tagged(0, U16(|u.value|) + u.value) == v;
    hide Encode, EncodeAll, Str16, Tagged;
    ok := Add(c, kept, e, USER, 2, Some(u.key), |u.key|);
    if ok {
      ok := Add(c, kept, e + k, 0, 2, Some(u.value), |u.value|);
    }
  }

  /** All that a publisher has set, in the order of `mqtt5_msg_publish`. */
  method AppendProperties(c: Connection, ghost kept: seq<byte>, p: Props) returns (ok: bool)
    requires Laid(c, kept, []) && Sendable(p)
    modifies c`length, c.buffer
    ensures if ok then Laid(c, kept, EncodeAll(Listed(p))) else TooLong(c, kept, Listed(p))
  {
    hide Laid, BigEndian, EncodeAll, TooLong;
    ghost var all := Listed(p);
    var text := Payload(p.responseTopic);
    var data := Payload(p.correlation);
    var name := Payload(p.contentType);
    ghost var d0: seq<Property> := [];
    EncodeSome(d0);
    ghost var d1 := d0 + if p.format then [Format(1)] else [];
    ghost var d2 := d1 + if p.expiry != 0 then [Expiry(p.expiry)] else [];
    ghost var d3 := d2 + if p.alias != 0 then [Alias(p.alias)] else [];
    ghost var d4 := d3 + if p.responseTopic.Some? then [ResponseTopic(text)] else [];
    ghost var d5 := d4 + if p.correlation.Some? then [Correlation(data)] else [];
    ghost var d6 := d5 + Users(p.user);
    ListedChain(p, d1, d2, d3, d4, d5, d6);
    FieldsAre(p);
    hide Listed, Encode, U16, U32, Str16, Tagged;
    ok := AppendIf(c, kept, d0, p.format, Format(1), PAYLOAD_FORMAT, 1, None, 1);
    if !ok { TooLongToo(c, kept, d1, all); return; }
    ok := AppendIf(c, kept, d1, p.expiry != 0, Expiry(p.expiry), EXPIRY, 4, None, p.expiry);
    if !ok { TooLongToo(c, kept, d2, all); return; }
    ok := AppendIf(c, kept, d2, p.alias != 0, Alias(p.alias), ALIAS, 2, None, p.alias);
    if !ok { TooLongToo(c, kept, d3, all); return; }
    ok := AppendIf(c, kept, d3, p.responseTopic.Some?, ResponseTopic(text), RESPONSE_TOPIC, 2, Some(text), |text|);
    if !ok { TooLongToo(c, kept, d4, all); return; }
    ok := AppendIf(c, kept, d4, p.correlation.Some?, Correlation(data), CORRELATION, 2, Some(data), |data|);
    if !ok { TooLongToo(c, kept, d5, all); return; }
    ok := AppendUsers(c, kept, d5, p.user);
    if !ok { TooLongToo(c, kept, d6, all); return; }
    ok := AppendIf(c, kept, d6, p.contentType.Some?, ContentType(name), CONTENT_TYPE, 2, Some(name), |name|);
  }

  lemma ListedChain(p: Props, d1: seq<Property>, d2: seq<Property>, d3: seq<Property>, d4: seq<Property>, d5: seq<Property>, d6: seq<Property>)
    requires d1 == [] + if p.format then [Format(1)] else []
    requires d2 == d1 + if p.expiry != 0 then [Expiry(p.expiry)] else []
    requires d3 == d2 + if p.alias != 0 then [Alias(p.alias)] else []
    requires d4 == d3 + if p.responseTopic.Some? then [ResponseTopic(Payload(p.responseTopic))] else []
    requires d5 == d4 + if p.correlation.Some? then [Correlation(Payload(p.correlation))] else []
    requires d6 == d5 + Users(p.user)
    ensures Listed(p) == d6 + if p.contentType.Some? then [ContentType(Payload(p.contentType))] else []
    ensures d1 <= Listed(p) && d2 <= Listed(p) && d3 <= Listed(p) && d4 <= Listed(p) && d5 <= Listed(p) && d6 <= Listed(p)
  {
    hide Users;
    var l1 := if p.format then [Format(1)] else [];
    assert d1 == l1;
    assert Listed(p) == d6 + if p.contentType.Some? then [ContentType(Payload(p.contentType))] else [];
    hide Listed;
    PrefixTrans(d5, d6, Listed(p));
    PrefixTrans(d4, d5, Listed(p));
    PrefixTrans(d3, d4, Listed(p));
    PrefixTrans(d2, d3, Listed(p));
    PrefixTrans(d1, d2, Listed(p));
  }

  lemma PrefixTrans(a: seq<Property>, b: seq<Property>, c: seq<Property>)
    requires a <= b && b <= c
    ensures a <= c
  {
  }

  lemma FieldsAre(p: Props)
    ensures Encode(Format(1)) == Tagged(PAYLOAD_FORMAT, BigEndian(1, 1) + Payload(None))
    ensures Encode(Expiry(p.expiry)) == Tagged(EXPIRY, BigEndian(p.expiry, 4) + Payload(None))
    ensures Encode(Alias(p.alias)) == Tagged(ALIAS, BigEndian(p.alias, 2) + Payload(None))
    ensures var t := Payload(p.responseTopic); Encode(ResponseTopic(t)) == Tagged(RESPONSE_TOPIC, BigEndian(|t|, 2) + Payload(Some(t)))
    ensures var t := Payload(p.correlation); Encode(Correlation(t)) == Tagged(CORRELATION, BigEndian(|t|, 2) + Payload(Some(t)))
    ensures var t := Payload(p.contentType); Encode(ContentType(t)) == Tagged(CONTENT_TYPE, BigEndian(|t|, 2) + Payload(Some(t)))
  {
    BigEndianOne(1);
    BigEndianLong(p.expiry);
    BigEndianWord(p.alias);
    BigEndianWord(|Payload(p.responseTopic)|);
    BigEndianWord(|Payload(p.correlation)|);
    BigEndianWord(|Payload(p.contentType)|);
  }

  const SLASH: byte := 0x2F

  /** Response information the server has given goes behind the response topic, printed into room for one byte less than
      that takes; the room is counted in 16 bits and sent whole. */
  function JoinedTopic(topic: seq<byte>, info: seq<byte>): seq<byte> {
    var size := (|topic| + |info| + 1) % 0x1_0000;
    if size == 0 then [] else (topic + [SLASH] + info)[..size - 1] + [0]
  }

  function WithInfo(p: Props, info: seq<byte>): Props {
    if p.responseTopic.Some? && info != [] then p.(responseTopic := Some(JoinedTopic(p.responseTopic.value, info))) else p
  }

  /** So the topic sent is never the one that was meant: its last byte has given way to a zero. */
  lemma JoinedTopicCut(topic: seq<byte>, info: seq<byte>)
    requires info != [] && 0 !in info
    ensures JoinedTopic(topic, info) != topic + [SLASH] + info
    ensures |topic| + |info| + 1 < 0x1_0000 ==>
      var meant := topic + [SLASH] + info; JoinedTopic(topic, info) == meant[..|meant| - 1] + [0]
  {
    var meant, sent := topic + [SLASH] + info, JoinedTopic(topic, info);
    assert meant[|meant| - 1] == info[|info| - 1] && info[|info| - 1] in info;
    if sent != [] { assert sent[|sent| - 1] == 0; }
  }

  /** Whether a PUBLISH can be built in a buffer of `size` bytes; the payload need not fit. */
  predicate Buildable5(size: nat, topic: seq<byte>, data: Option<seq<byte>>, len: nat, qos: nat, p: Props) {
    && (topic != [] || p.alias != 0) && (data.None? ==> len == 0)
    && HeadFits(size, topic, qos, p)
    && |Head5(topic, qos, 0, EncodeAll(Listed(p)))| + len < REMAINING_LIMIT
  }

  predicate HeadFits(size: nat, topic: seq<byte>, qos: nat, p: Props) {
    MAX_FIXED_HEADER + |Head5(topic, qos, 0, EncodeAll(Listed(p)))| <= size
  }

  /** `mqtt5_msg_publish` */
  method Publish(c: Connection, topic: seq<byte>, data: Option<seq<byte>>, dataLength: nat, qos: nat, retain: nat,
                 p: Props, info: seq<byte>, drawn: nat)
    returns (id: nat)
    requires c.Valid() && qos < 4 && retain < 2 && drawn > 0 && (data.Some? ==> dataLength == |data.value|)
    requires Sendable(p) && |EncodeAll(Listed(WithInfo(p, info)))| < REMAINING_LIMIT
    modifies c, c.buffer
    ensures c.Valid()
    ensures !Buildable5(c.buffer.Length, topic, data, dataLength, qos, WithInfo(p, info)) ==> c.length == 0
    ensures Buildable5(c.buffer.Length, topic, data, dataLength, qos, WithInfo(p, info)) ==>
      && id == (if qos > 0 then drawn else 0)
      && c.length > 0
      && var sent, payload := WithInfo(p, info), Payload(data);
         var D := MAX_FIXED_HEADER + |Head5(topic, qos, id, EncodeAll(Listed(sent)))|;
         && c.Holds(Publish5(qos, retain, topic, id, sent, payload), payload, D, old(c.fragOffset))
         && c.fragTotal == if D + |payload| > c.buffer.Length then D + |payload| else 0
  {
    hide EncodeAll, Listed, Head5, Connection.Holds, PublishHead, Publish5, JoinedTopic;
    var ok;
    var sent := WithInfo(p, info);
    ok, id := AppendAll(c, topic, data.None? && dataLength > 0, qos, sent, drawn);
    HeadLength(topic, qos, id, EncodeAll(Listed(sent)));
    if !ok { return; }
    c.AppendPayload(Payload(data));
    FinishPublish5(c, topic, Payload(data), qos, retain, id, sent, old(c.fragOffset));
  }

  /** Topic, identifier and properties: all of the message that comes before the payload. */
  method AppendAll(c: Connection, topic: seq<byte>, noData: bool, qos: nat, sent: Props, drawn: nat) returns (ok: bool, id: nat)
    requires c.Valid() && drawn > 0 && Sendable(sent) && |EncodeAll(Listed(sent))| < REMAINING_LIMIT
    modifies c`start, c`length, c.buffer
    ensures ok <==> (topic != [] || sent.alias != 0) && !noData && HeadFits(c.buffer.Length, topic, qos, sent)
    ensures ok ==> c.Building() && id == (if qos > 0 then drawn else 0) && c.Body() == Head5(topic, qos, id, EncodeAll(Listed(sent)))
    ensures !ok ==> c.Valid() && c.length == 0
  {
    hide EncodeAll, Listed, Head5, PublishHead, EncodeLen;
    ok, id := AppendHead(c, topic, noData, qos, sent.alias != 0, drawn);
    HeadLength(topic, qos, id, EncodeAll(Listed(sent)));
    if !ok { return; }
    HeadIs(topic, qos, id, EncodeAll(Listed(sent)));
    ok := AppendAllProperties(c, PublishHead(topic, qos, id), sent);
  }

  method FinishPublish5(c: Connection, ghost topic: seq<byte>, ghost payload: seq<byte>, qos: nat, retain: nat, ghost id: nat,
                        ghost sent: Props, ghost offsetBefore: int)
    requires c.Building() && qos < 4 && retain < 2
    requires var head := Head5(topic, qos, id, EncodeAll(Listed(sent))); var D := MAX_FIXED_HEADER + |head|;
      && D <= c.buffer.Length
      && if D + |payload| > c.buffer.Length then
           && c.length == c.buffer.Length && c.Body() == head + payload[..c.buffer.Length - D]
           && c.fragOffset == D && c.fragTotal == D + |payload|
         else
           c.Body() == head + payload && c.fragOffset == offsetBefore && c.fragTotal == 0
    modifies c`start, c`length, c`fragOffset, c.buffer
    ensures c.Valid()
    ensures var head := Head5(topic, qos, id, EncodeAll(Listed(sent)));
      if |head| + |payload| >= REMAINING_LIMIT then c.length == 0
      else
        && c.length > 0
        && c.Holds(Publish5(qos, retain, topic, id, sent, payload), payload, MAX_FIXED_HEADER + |head|, offsetBefore)
  {
    hide EncodeAll, Listed, Head5, Connection.Holds, Header, EncodeLen;
    c.FinishPublish(Head5(topic, qos, id, EncodeAll(Listed(sent))), payload, qos, retain, offsetBefore);
  }

  lemma HeadLength(topic: seq<byte>, qos: nat, id: nat, ps: seq<byte>)
    ensures |Head5(topic, qos, id, ps)| == |Head5(topic, qos, 0, ps)| == |PublishHead(topic, qos, id)| + |EncodeLen(|ps|)| + |ps|
    ensures |PublishHead(topic, qos, id)| == |PublishHead(topic, qos, 0)|
  {
  }

  lemma HeadIs(topic: seq<byte>, qos: nat, id: nat, ps: seq<byte>)
    ensures Head5(topic, qos, id, ps) == PublishHead(topic, qos, id) + EncodeLen(|ps|) + ps
  {
  }

  /** Topic and identifier. */
  method AppendHead(c: Connection, topic: seq<byte>, noData: bool, qos: nat, hasAlias: bool, drawn: nat)
    returns (ok: bool, id: nat)
    requires c.Valid() && drawn > 0
    modifies c`start, c`length, c.buffer
    ensures ok <==> (topic != [] || hasAlias) && !noData && MAX_FIXED_HEADER + |PublishHead(topic, qos, 0)| <= c.buffer.Length
    ensures ok ==> c.Building() && c.Body() == PublishHead(topic, qos, id) && id == if qos > 0 then drawn else 0
    ensures !ok ==> c.Valid() && c.length == 0
  {
    hide BigEndian;
    ok, id := false, 0;
    c.SetHeaderSize();
    if topic == [] && !hasAlias {
      c.Fail();
      return;
    }
    BigEndianWord(|topic|);
    ghost var before := c.buffer[..];
    var r := AppendProperty(c, 0, 2, Some(topic), |topic|);
    if r == -1 {
      c.Fail();
      return;
    }
    assert c.Body() == c.buffer[..c.length][MAX_FIXED_HEADER..] == Str16(topic);
    if noData {
      c.Fail();
      return;
    }
    if qos > 0 {
      id := c.AppendId(0, drawn);
      if id == 0 {
        c.Fail();
        return;
      }
    }
    ok := true;
  }

  /** The properties behind a reserved byte, and their length put in front of them. */
  method AppendAllProperties(c: Connection, ghost head: seq<byte>, p: Props) returns (ok: bool)
    requires c.Building() && c.Body() == head && Sendable(p) && |EncodeAll(Listed(p))| < REMAINING_LIMIT
    modifies c`start, c`length, c.buffer
    ensures var ps := EncodeAll(Listed(p));
      && (ok <==> MAX_FIXED_HEADER + |head| + |EncodeLen(|ps|)| + |ps| <= c.buffer.Length)
      && (ok ==> c.Building() && c.Body() == head + EncodeLen(|ps|) + ps)
      && (!ok ==> c.Valid() && c.length == 0)
  {
    hide EncodeAll, Listed, EncodeLen;
    var at := c.length;
    ghost var kept, ps := c.buffer[..at], EncodeAll(Listed(p));
    c.length := c.length + 1;
    ok := AppendProperties(c, kept, p);
    if !ok {
      c.Fail();
      return;
    }
    ghost var was := c.buffer[..];
    assert ps != [] ==> was[at + 1..at + 1 + |ps|] == ps;
    var r := UpdatePropertyLen(c, c.length - at - 1, at);
    if r == -1 {
      c.Fail();
      ok := false;
      return;
    }
    BodyPatched(was, c.buffer[..], at, ps, EncodeLen(|ps|), c.length);
  }

  lemma BodyPatched(was: seq<byte>, now: seq<byte>, at: nat, ps: seq<byte>, e: seq<byte>, end: nat)
    requires MAX_FIXED_HEADER <= at && e != [] && at + |e| + |ps| == end <= |was| == |now|
    requires now == was[..at] + e + was[at + 1..at + 1 + |ps|] + was[end..]
    requires ps != [] ==> was[at + 1..at + 1 + |ps|] == ps
    ensures now[MAX_FIXED_HEADER..end] == was[MAX_FIXED_HEADER..at] + e + ps
  {
  }

  // ---- reading ---------------------------------------------------------------------------------

  /** `mqtt5_get_publish_property_payload` */
  method GetPublishPropertyPayload(b: seq<byte>) returns (r: Parsed<Received>)
    requires b != []
    ensures r == ParsePublish(b)
  {
    hide LenValue, LenBytes, ParseFrom;
    var offset, value := MqttReaders.ScanLength(b, 1);
    var total := value + offset;
    if offset + 2 > |b| { return Lost; }
    var topicLen := Word(b[offset], b[offset + 1]);
    offset := offset + 2;
    if offset + topicLen > |b| { return Rejected; }
    r := GetFrom(b, b[offset..offset + topicLen], offset + topicLen, total);
  }

  /** The same from the end of the topic. */
  method GetFrom(b: seq<byte>, topic: seq<byte>, from: nat, total: nat) returns (r: Parsed<Received>)
    requires b != [] && total == TotalLen(b)
    ensures r == ParseFrom(b, topic, from)
  {
    hide LenValue, LenBytes, ParseProps, QosOf, TotalLen;
    var offset := from;
    if offset >= |b| { return Rejected; }
    if QosOf(b[0]) > 0 {
      if offset + 2 >= |b| { return Rejected; }
      offset := offset + 2;
    }
    var start, value := MqttReaders.ScanLength(b, offset);
    var propertyLen := value % 0x1_0000;
    var res := GetProperties(b, start, propertyLen);
    match res {
      case Rejected => return Rejected;
      case Lost => return Lost;
      case Done((props, end)) =>
        return Done(Received(topic, propertyLen, props, end, (if total <= |b| then total else |b|) - end));
    }
  }

  /** The loop over the properties. */
  method GetProperties(b: seq<byte>, start: nat, propertyLen: nat) returns (r: Parsed<(Props, nat)>)
    requires start <= |b|
    ensures r == ParseProps(b, start, start, start + propertyLen, NoProps)
  {
    hide PropertyAt, Apply;
    var resp, off := NoProps, start;
    while off < start + propertyLen
      invariant start <= off <= |b|
      invariant ParseProps(b, start, start, start + propertyLen, NoProps) == ParseProps(b, start, off, start + propertyLen, resp)
      decreases |b| - off
    {
      var p := PropertyAt(b, off);
      if p.Unknown? { return Rejected; }
      if p.Astray? || p.next - start >= 0x1_0000 { return Lost; }
      resp, off := Apply(resp, p.p), p.next;
    }
    r := Done((resp, off));
  }
}
