/** PUBLISH of MQTT 5.0 with its properties, sections 2.2.2 and 3.3: the layout, and what the client's
    parser makes of a received byte string. */
module Mqtt5Wire {
  import opened Bytes
  import opened FixedHeader
  import opened Wire

  const PAYLOAD_FORMAT: byte := 0x01
  const EXPIRY: byte := 0x02
  const CONTENT_TYPE: byte := 0x03
  const RESPONSE_TOPIC: byte := 0x08
  const CORRELATION: byte := 0x09
  const SUBSCRIPTION_ID: byte := 0x0B
  const REASON: byte := 0x1F
  const ALIAS: byte := 0x23
  const USER: byte := 0x26

  datatype Pair = Pair(key: seq<byte>, value: seq<byte>)

  datatype Property =
    | Format(b: byte)
    | Expiry(seconds: nat)
    | Alias(alias: nat)
    | ResponseTopic(topic: seq<byte>)
    | Correlation(data: seq<byte>)
    | SubscriptionId(id: nat)
    | ContentType(name: seq<byte>)
    | User(pair: Pair)
    | Reason(text: seq<byte>)

  /** What a publisher sets, and what the parser fills in; absent fields are null pointers or zero. */
  datatype Props = Props(format: bool, expiry: nat, alias: nat, responseTopic: Option<seq<byte>>,
                         correlation: Option<seq<byte>>, subscriptionId: nat, contentType: Option<seq<byte>>, user: seq<Pair>)

  const NoProps := Props(false, 0, 0, None, None, 0, None, [])

  // ---- layout ----------------------------------------------------------------------------------

  function U32(v: nat): seq<byte> {
    U16(v / 0x1_0000) + U16(v % 0x1_0000)
  }

  function Encode(p: Property): (s: seq<byte>)
    ensures s != []
  {
    match p
    case Format(b) => [PAYLOAD_FORMAT, b]
    case Expiry(seconds) => [EXPIRY] + U32(seconds)
    case Alias(alias) => [ALIAS] + U16(alias)
    case ResponseTopic(topic) => [RESPONSE_TOPIC] + Str16(topic)
    case Correlation(data) => [CORRELATION] + Str16(data)
    case SubscriptionId(id) => [SUBSCRIPTION_ID] + EncodeLen(id)
    case ContentType(name) => [CONTENT_TYPE] + Str16(name)
    case User(pair) => [USER] + Str16(pair.key) + Str16(pair.value)
    case Reason(text) => [REASON] + Str16(text)
  }

  function EncodeAll(ps: seq<Property>): seq<byte> {
    if ps == [] then [] else EncodeAll(ps[..|ps| - 1]) + Encode(ps[|ps| - 1])
  }

  function Users(user: seq<Pair>): (ps: seq<Property>)
    ensures |ps| == |user| && forall i :: 0 <= i < |ps| ==> ps[i] == User(user[i])
  {
    seq(|user|, i requires 0 <= i < |user| => User(user[i]))
  }

  /** The properties a publisher sends, in the order it sends them. */
  function Listed(p: Props): seq<Property> {
      (if p.format then [Format(1)] else [])
    + (if p.expiry != 0 then [Expiry(p.expiry)] else [])
    + (if p.alias != 0 then [Alias(p.alias)] else [])
    + (if p.responseTopic.Some? then [ResponseTopic(p.responseTopic.value)] else [])
    + (if p.correlation.Some? then [Correlation(p.correlation.value)] else [])
    + Users(p.user)
    + (if p.contentType.Some? then [ContentType(p.contentType.value)] else [])
  }

  function Head5(topic: seq<byte>, qos: nat, id: nat, properties: seq<byte>): seq<byte> {
    PublishHead(topic, qos, id) + EncodeLen(|properties|) + properties
  }

  function Publish5(qos: nat, retain: nat, topic: seq<byte>, id: nat, p: Props, payload: seq<byte>): seq<byte>
    requires qos < 4 && retain < 2
  {
    Packet(Header(PUBLISH, 0, qos, retain), Head5(topic, qos, id, EncodeAll(Listed(p))) + payload)
  }

  // ---- the parser --------------------------------------------------------------------------------

  /** One property read at an offset. `Astray` stands for reading past the end of the buffer. */
  datatype Read = Unknown | Astray | Got(p: Property, next: nat)

  /** A length-prefixed string at an offset, and the offset behind it. */
  function StringAt(b: seq<byte>, off: nat): (r: Option<(seq<byte>, nat)>)
    ensures r.Some? ==> off + 2 <= r.value.1 <= |b|
  {
    if off + 2 > |b| then None
    else
      var n := Word(b[off], b[off + 1]);
      if off + 2 + n > |b| then None else Some((b[off + 2..off + 2 + n], off + 2 + n))
  }

  function TextAt(b: seq<byte>, off: nat, make: seq<byte> -> Property): (r: Read)
    ensures r.Got? ==> off + 2 <= r.next <= |b|
  {
    var s := StringAt(b, off);
    if s.None? then Astray else Got(make(s.value.0), s.value.1)
  }

  function PropertyAt(b: seq<byte>, off: nat): (r: Read)
    ensures r.Got? ==> off < r.next <= |b|
  {
    if off >= |b| then Astray
    else
      var at := off + 1;
      match b[off]
      case 0x01 => if at + 1 > |b| then Astray else Got(Format(b[at]), at + 1)
      case 0x02 =>
        if at + 4 > |b| then Astray
        else Got(Expiry(0x1_0000 * Word(b[at], b[at + 1]) + Word(b[at + 2], b[at + 3])), at + 4)
      case 0x23 => if at + 2 > |b| then Astray else Got(Alias(Word(b[at], b[at + 1])), at + 2)
      case 0x08 => TextAt(b, at, s => ResponseTopic(s))
      case 0x09 => TextAt(b, at, s => Correlation(s))
      case 0x0B =>
        var n := LenBytes(b[at..]);
        if n == 0 || b[at + n - 1] >= 128 then Astray else Got(SubscriptionId(LenValue(b[at..])), at + n)
      case 0x03 => TextAt(b, at, s => ContentType(s))
      case 0x26 =>
        var k := StringAt(b, at);
        if k.None? then Astray else TextAt(b, k.value.1, s => User(Pair(k.value.0, s)))
      case 0x1F => TextAt(b, at, s => Reason(s))
      case _ => Unknown
  }

  /** What reading a property does to the record being filled in; the last one of a kind wins. */
  function Apply(r: Props, p: Property): Props {
    match p
    case Format(b) => r.(format := b != 0)
    case Expiry(seconds) => r.(expiry := seconds)
    case Alias(alias) => r.(alias := alias)
    case ResponseTopic(topic) => r.(responseTopic := Some(topic))
    case Correlation(data) => r.(correlation := Some(data))
    case SubscriptionId(id) => r.(subscriptionId := id)
    case ContentType(name) => r.(contentType := Some(name))
    case User(pair) => r.(user := r.user + [pair])
    case Reason(_) => r
  }

  function ApplyAll(r: Props, ps: seq<Property>): Props
    decreases |ps|
  {
    if ps == [] then r else ApplyAll(Apply(r, ps[0]), ps[1..])
  }

  /** `Rejected` is a null result; `Lost` is reading outside the buffer or past 65535 bytes of properties. */
  datatype Parsed<T> = Rejected | Lost | Done(value: T)

  function ParseProps(b: seq<byte>, start: nat, off: nat, end: nat, r: Props): (res: Parsed<(Props, nat)>)
    requires start <= off <= |b|
    ensures res.Done? ==> off <= res.value.1 <= |b|
    ensures res.Done? ==> res.value.1 == off || res.value.1 - start < 0x1_0000
    decreases |b| - off
  {
    if off >= end then Done((r, off))
    else
      match PropertyAt(b, off)
      case Unknown => Rejected
      case Astray => Lost
      case Got(p, next) => if next - start >= 0x1_0000 then Lost else ParseProps(b, start, next, end, Apply(r, p))
  }

  /** A received PUBLISH; a negative payload length stands for one that wraps around. */
  datatype Received = Received(topic: seq<byte>, propertyLen: nat, props: Props, payloadAt: nat, payloadLen: int)

  function IdEnd(b: seq<byte>, off: nat): (r: Option<nat>)
    requires b != []
    ensures r.Some? ==> r.value < |b|
  {
    if off >= |b| then None
    else if QosOf(b[0]) > 0 then (if off + 2 >= |b| then None else Some(off + 2))
    else Some(off)
  }

  function ParsePublish(b: seq<byte>): Parsed<Received>
    requires b != []
  {
    if FixedLen(b) + 2 > |b| then Lost
    else
      var topic := StringAt(b, FixedLen(b));
      if topic.None? then Rejected else ParseFrom(b, topic.value.0, topic.value.1)
  }

  /** The rest of a PUBLISH, from the end of its topic. */
  function ParseFrom(b: seq<byte>, topic: seq<byte>, off: nat): Parsed<Received>
    requires b != []
  {
    var at := IdEnd(b, off);
    if at.None? then Rejected
    else
      var plen := LenValue(b[at.value..]) % 0x1_0000;
      var start := at.value + LenBytes(b[at.value..]);
      match ParseProps(b, start, start, start + plen, NoProps)
      case Rejected => Rejected
      case Lost => Lost
      case Done((props, off)) =>
        Done(Received(topic, plen, props, off, (if TotalLen(b) <= |b| then TotalLen(b) else |b|) - off))
  }

  // ---- round trips ---------------------------------------------------------------------------------

  /** `s` stands at offset `off` of `b`. */
  predicate HasAt(b: seq<byte>, off: nat, s: seq<byte>) {
    off + |s| <= |b| && b[off..off + |s|] == s
  }

  lemma HasSplit(b: seq<byte>, off: nat, s: seq<byte>, t: seq<byte>)
    ensures HasAt(b, off, s + t) <==> HasAt(b, off, s) && HasAt(b, off + |s|, t)
  {
    if off + |s + t| <= |b| {
      var c, d := b[off..off + |s|], b[off + |s|..off + |s| + |t|];
      assert b[off..off + |s + t|] == c + d;
      assert (c + d)[..|s|] == c && (c + d)[|s|..] == d && (s + t)[..|s|] == s && (s + t)[|s|..] == t;
    }
  }

  lemma HasByte(b: seq<byte>, off: nat, s: seq<byte>, k: nat)
    requires HasAt(b, off, s) && k < |s|
    ensures b[off + k] == s[k]
  {
    assert b[off..off + |s|][k] == b[off + k];
  }

  lemma StringReads(b: seq<byte>, off: nat, s: seq<byte>)
    requires HasAt(b, off, Str16(s)) && |s| < 65536
    ensures StringAt(b, off) == Some((s, off + |Str16(s)|))
  {
    HasSplit(b, off, U16(|s|), s);
    HasByte(b, off, U16(|s|), 0);
    HasByte(b, off, U16(|s|), 1);
    WordU16(|s|);
  }

  /** Values the wire can carry. */
  predicate Sized(p: Property) {
    match p
    case Expiry(seconds) => seconds < 0x1_0000_0000
    case Alias(alias) => alias < 65536
    case ResponseTopic(topic) => |topic| < 65536
    case Correlation(data) => |data| < 65536
    case ContentType(name) => |name| < 65536
    case User(pair) => |pair.key| < 65536 && |pair.value| < 65536
    case Reason(text) => |text| < 65536
    case _ => true
  }

  lemma ExpiryReads(b: seq<byte>, off: nat, seconds: nat)
    requires HasAt(b, off, Encode(Expiry(seconds))) && seconds < 0x1_0000_0000
    ensures PropertyAt(b, off) == Got(Expiry(seconds), off + |Encode(Expiry(seconds))|)
  {
    var hi, lo := seconds / 0x1_0000, seconds % 0x1_0000;
    HasByte(b, off, Encode(Expiry(seconds)), 0);
    HasSplit(b, off, [EXPIRY], U16(hi) + U16(lo));
    HasSplit(b, off + 1, U16(hi), U16(lo));
    WordHere(b, off + 1, hi);
    WordHere(b, off + 3, lo);
  }

  lemma WordHere(b: seq<byte>, off: nat, v: nat)
    requires HasAt(b, off, U16(v)) && v < 65536
    ensures off + 2 <= |b| && Word(b[off], b[off + 1]) == v
  {
    HasByte(b, off, U16(v), 0);
    HasByte(b, off, U16(v), 1);
    WordU16(v);
  }

  lemma SubscriptionReads(b: seq<byte>, off: nat, id: nat)
    requires HasAt(b, off, Encode(SubscriptionId(id)))
    ensures PropertyAt(b, off) == Got(SubscriptionId(id), off + |Encode(SubscriptionId(id))|)
  {
    var e := EncodeLen(id);
    HasByte(b, off, Encode(SubscriptionId(id)), 0);
    HasSplit(b, off, [SUBSCRIPTION_ID], e);
    LenRoundTrip(id, b[off + 1 + |e|..]);
    EncodeLenShape(id);
    HasByte(b, off + 1, e, |e| - 1);
    assert b[off + 1..] == e + b[off + 1 + |e|..];
  }

  lemma UserReads(b: seq<byte>, off: nat, pair: Pair)
    requires HasAt(b, off, Encode(User(pair))) && Sized(User(pair))
    ensures PropertyAt(b, off) == Got(User(pair), off + |Encode(User(pair))|)
  {
    HasByte(b, off, Encode(User(pair)), 0);
    HasSplit(b, off, [USER] + Str16(pair.key), Str16(pair.value));
    HasSplit(b, off, [USER], Str16(pair.key));
    StringReads(b, off + 1, pair.key);
    StringReads(b, off + 1 + |Str16(pair.key)|, pair.value);
  }

  lemma TextReads(b: seq<byte>, off: nat, tag: byte, s: seq<byte>)
    requires HasAt(b, off, [tag] + Str16(s)) && |s| < 65536
    ensures b[off] == tag && StringAt(b, off + 1) == Some((s, off + 1 + |Str16(s)|))
  {
    HasByte(b, off, [tag] + Str16(s), 0);
    HasSplit(b, off, [tag], Str16(s));
    StringReads(b, off + 1, s);
  }

  /** Every encoded property is read back, whatever stands around it. */
  lemma PropertyReads(b: seq<byte>, off: nat, p: Property)
    requires HasAt(b, off, Encode(p)) && Sized(p)
    ensures PropertyAt(b, off) == Got(p, off + |Encode(p)|)
  {
    match p
    case Format(v) =>
      HasByte(b, off, Encode(p), 0);
      HasByte(b, off, Encode(p), 1);
    case Expiry(seconds) => ExpiryReads(b, off, seconds);
    case Alias(alias) =>
      HasByte(b, off, Encode(p), 0);
      HasByte(b, off, Encode(p), 1);
      HasByte(b, off, Encode(p), 2);
      WordU16(alias);
    case ResponseTopic(topic) => TextReads(b, off, RESPONSE_TOPIC, topic);
    case Correlation(data) => TextReads(b, off, CORRELATION, data);
    case SubscriptionId(id) => SubscriptionReads(b, off, id);
    case ContentType(name) => TextReads(b, off, CONTENT_TYPE, name);
    case User(pair) => UserReads(b, off, pair);
    case Reason(text) => TextReads(b, off, REASON, text);
  }

  lemma {:induction false} EncodeFirst(ps: seq<Property>)
    requires ps != []
    ensures EncodeAll(ps) == Encode(ps[0]) + EncodeAll(ps[1..])
  {
    hide Encode;
    var last := ps[|ps| - 1];
    if |ps| > 1 {
      var front := ps[..|ps| - 1];
      EncodeFirst(front);
      assert front[1..] == ps[1..][..|ps| - 2];
      assert EncodeAll(ps) == EncodeAll(front) + Encode(last);
      assert EncodeAll(ps[1..]) == EncodeAll(front[1..]) + Encode(last);
    } else {
      assert ps[..0] == [] && ps[1..] == [];
    }
  }

  lemma {:induction false} EncodeConcat(ps: seq<Property>, qs: seq<Property>)
    ensures EncodeAll(ps + qs) == EncodeAll(ps) + EncodeAll(qs)
  {
    hide Encode;
    if qs == [] {
      assert ps + qs == ps;
    } else {
      EncodeConcat(ps, qs[..|qs| - 1]);
      assert (ps + qs)[..|ps + qs| - 1] == ps + qs[..|qs| - 1];
    }
  }

  /** A property list of at most 65535 bytes is read back in order, up to its very end. */
  lemma {:induction false} PropsRead(b: seq<byte>, start: nat, off: nat, ps: seq<Property>, r: Props)
    requires start <= off && HasAt(b, off, EncodeAll(ps)) && off + |EncodeAll(ps)| - start < 65536
    requires forall i :: 0 <= i < |ps| ==> Sized(ps[i])
    ensures ParseProps(b, start, off, off + |EncodeAll(ps)|, r) == Done((ApplyAll(r, ps), off + |EncodeAll(ps)|))
    decreases |ps|
  {
    hide Encode, PropertyAt, Apply, Sized, HasAt;
    HasWithin(b, off, EncodeAll(ps));
    if ps != [] {
      EncodeFirst(ps);
      HasSplit(b, off, Encode(ps[0]), EncodeAll(ps[1..]));
      PropertyReads(b, off, ps[0]);
      PropsRead(b, start, off + |Encode(ps[0])|, ps[1..], Apply(r, ps[0]));
    }
  }

  lemma HasWithin(b: seq<byte>, off: nat, s: seq<byte>)
    requires HasAt(b, off, s)
    ensures off + |s| <= |b|
  {
  }

  lemma {:induction false} ApplyConcat(r: Props, ps: seq<Property>, qs: seq<Property>)
    ensures ApplyAll(r, ps + qs) == ApplyAll(ApplyAll(r, ps), qs)
    decreases |ps|
  {
    hide Apply;
    if ps == [] {
      assert ps + qs == qs;
    } else {
      assert (ps + qs)[1..] == ps[1..] + qs;
      ApplyConcat(Apply(r, ps[0]), ps[1..], qs);
    }
  }

  lemma {:induction false} ApplyUsers(r: Props, user: seq<Pair>)
    ensures ApplyAll(r, Users(user)) == r.(user := r.user + user)
    decreases |user|
  {
    if user == [] {
      assert r.user + user == r.user;
    } else {
      assert Users(user)[1..] == Users(user[1..]);
      ApplyUsers(Apply(r, User(user[0])), user[1..]);
      assert r.user + [user[0]] + user[1..] == r.user + user;
    }
  }

  lemma ApplyOne(r: Props, p: Property)
    ensures ApplyAll(r, [p]) == Apply(r, p) && ApplyAll(r, []) == r
  {
    assert [p][1..] == [];
  }

  /** A publisher sends no subscription identifier, and correlation data only if there is some. */
  predicate Sendable(p: Props) {
    p.subscriptionId == 0 && p.correlation != Some([]) && p.expiry < 0x1_0000_0000 && p.alias < 65536
  }

  /** Reading the listed properties into an empty record gives back the publisher's. */
  lemma ListedReads(p: Props)
    requires Sendable(p)
    ensures ApplyAll(NoProps, Listed(p)) == p
  {
    hide ApplyAll, Apply;
    var l1 := if p.format then [Format(1)] else [];
    var l2 := if p.expiry != 0 then [Expiry(p.expiry)] else [];
    var l3 := if p.alias != 0 then [Alias(p.alias)] else [];
    var l4 := if p.responseTopic.Some? then [ResponseTopic(p.responseTopic.value)] else [];
    var l5 := if p.correlation.Some? then [Correlation(p.correlation.value)] else [];
    var l7 := if p.contentType.Some? then [ContentType(p.contentType.value)] else [];
    var front := l1 + l2 + l3 + l4 + l5;
    HeadReads(p, l1, l2, l3);
    TextsRead(p, l1 + l2 + l3, l4, l5);
    var r5 := p.(user := [], contentType := None);
    ApplyConcat(NoProps, front, Users(p.user));
    ApplyUsers(r5, p.user);
    assert [] + p.user == p.user;
    ApplyConcat(NoProps, front + Users(p.user), l7);
    ContentReads(p, l7);
  }

  lemma HeadReads(p: Props, l1: seq<Property>, l2: seq<Property>, l3: seq<Property>)
    requires l1 == if p.format then [Format(1)] else []
    requires l2 == if p.expiry != 0 then [Expiry(p.expiry)] else []
    requires l3 == if p.alias != 0 then [Alias(p.alias)] else []
    ensures ApplyAll(NoProps, l1 + l2 + l3) == NoProps.(format := p.format, expiry := p.expiry, alias := p.alias)
  {
    hide ApplyAll;
    var r1 := NoProps.(format := p.format);
    var r2 := r1.(expiry := p.expiry);
    ApplyOne(NoProps, Format(1));
    ApplyOne(r1, Expiry(p.expiry));
    ApplyOne(r2, Alias(p.alias));
    ApplyConcat(NoProps, l1, l2);
    ApplyConcat(NoProps, l1 + l2, l3);
  }

  lemma TextsRead(p: Props, l: seq<Property>, l4: seq<Property>, l5: seq<Property>)
    requires ApplyAll(NoProps, l) == NoProps.(format := p.format, expiry := p.expiry, alias := p.alias)
    requires Sendable(p)
    requires l4 == if p.responseTopic.Some? then [ResponseTopic(p.responseTopic.value)] else []
    requires l5 == if p.correlation.Some? then [Correlation(p.correlation.value)] else []
    ensures ApplyAll(NoProps, l + l4 + l5) == p.(user := [], contentType := None)
  {
    hide ApplyAll;
    var r3 := NoProps.(format := p.format, expiry := p.expiry, alias := p.alias);
    var r4 := r3.(responseTopic := p.responseTopic);
    ApplyNone(r3);
    ApplyNone(r4);
    if p.responseTopic.Some? { ApplyOne(r3, ResponseTopic(p.responseTopic.value)); }
    if p.correlation.Some? { ApplyOne(r4, Correlation(p.correlation.value)); }
    ApplyConcat(NoProps, l, l4);
    ApplyConcat(NoProps, l + l4, l5);
  }

  lemma ContentReads(p: Props, l7: seq<Property>)
    requires l7 == if p.contentType.Some? then [ContentType(p.contentType.value)] else []
    ensures ApplyAll(p.(contentType := None), l7) == p
  {
    hide ApplyAll;
    ApplyNone(p);
    if p.contentType.Some? { ApplyOne(p.(contentType := None), ContentType(p.contentType.value)); }
  }

  lemma ApplyNone(r: Props)
    ensures ApplyAll(r, []) == r
  {
  }

  lemma {:induction false} EncodeBound(ps: seq<Property>, i: nat)
    requires i < |ps|
    ensures |Encode(ps[i])| <= |EncodeAll(ps)|
  {
    hide Encode;
    if i < |ps| - 1 { EncodeBound(ps[..|ps| - 1], i); }
  }

  lemma ListedSized(p: Props)
    requires Sendable(p) && |EncodeAll(Listed(p))| < 65536
    ensures forall i :: 0 <= i < |Listed(p)| ==> Sized(Listed(p)[i])
  {
    hide EncodeAll;
    var l := Listed(p);
    forall i | 0 <= i < |l|
      ensures Sized(l[i])
    {
      EncodeBound(l, i);
      ListedKinds(p, l[i]);
    }
  }

  lemma ListedKinds(p: Props, q: Property)
    requires q in Listed(p)
    ensures q.Expiry? ==> q.seconds == p.expiry
    ensures q.Alias? ==> q.alias == p.alias
  {
  }

  /** The parser on a built PUBLISH: topic, properties with their order, and payload come back, for every topic,
      payload and property list of at most 65535 bytes. */
  lemma Publish5Reads(qos: nat, retain: nat, topic: seq<byte>, id: nat, p: Props, payload: seq<byte>)
    requires qos < 3 && retain < 2 && |topic| < 65536 && id < 65536
    requires Sendable(p) && |EncodeAll(Listed(p))| < 65536
    ensures var b := Publish5(qos, retain, topic, id, p, payload);
      && ParsePublish(b) == Done(Received(topic, |EncodeAll(Listed(p))|, p, |b| - |payload|, |payload|))
      && b[|b| - |payload|..] == payload
      && QosOf(b[0]) == qos && TypeOf(b[0]) == PUBLISH && RetainOf(b[0]) == retain
  {
    hide EncodeAll, EncodeLen, Listed, FixedLen, TotalLen, Head5, Publish5, ParsePublish, Header, TypeOf, RetainOf, QosOf, Sendable;
    var ps := EncodeAll(Listed(p));
    var body := Head5(topic, qos, id, ps) + payload;
    HeaderFields(PUBLISH, 0, qos, retain);
    Publish5Is(qos, retain, topic, id, p, payload);
    BodyParses(Publish5(qos, retain, topic, id, p, payload), 1 + |EncodeLen(|body|)|, qos, topic, id, p, payload);
  }

  lemma Publish5Is(qos: nat, retain: nat, topic: seq<byte>, id: nat, p: Props, payload: seq<byte>)
    requires qos < 3 && retain < 2
    ensures var b := Publish5(qos, retain, topic, id, p, payload); var body := Head5(topic, qos, id, EncodeAll(Listed(p))) + payload;
      var i := 1 + |EncodeLen(|body|)|;
      b != [] && b[0] == Header(PUBLISH, 0, qos, retain) && FixedLen(b) == i <= |b| && TotalLen(b) == |b| && b[i..] == body
  {
    hide EncodeAll, EncodeLen, Listed, FixedLen, TotalLen, Head5;
    var body := Head5(topic, qos, id, EncodeAll(Listed(p))) + payload;
    var b := Packet(Header(PUBLISH, 0, qos, retain), body);
    PacketReads(Header(PUBLISH, 0, qos, retain), body, |b|);
    assert b[..|b|] == b;
    assert body[..|body|] == body;
  }

  lemma BodyParses(b: seq<byte>, i: nat, qos: nat, topic: seq<byte>, id: nat, p: Props, payload: seq<byte>)
    requires b != [] && FixedLen(b) == i && TotalLen(b) == |b| && QosOf(b[0]) == qos && |topic| < 65536
    requires Sendable(p) && |EncodeAll(Listed(p))| < 65536
    requires b[i..] == Head5(topic, qos, id, EncodeAll(Listed(p))) + payload
    ensures ParsePublish(b) == Done(Received(topic, |EncodeAll(Listed(p))|, p, |b| - |payload|, |payload|))
    ensures b[|b| - |payload|..] == payload
  {
    hide EncodeAll, EncodeLen, Listed, FixedLen, TotalLen, ParseProps, StringAt, LenValue, LenBytes, HasAt, QosOf, Head5;
    var at, start := BodyStands(b, i, topic, qos, id, EncodeAll(Listed(p)), payload);
    StringReads(b, i, topic);
    PropertiesStand(b, at, start, p, payload);
  }

  /** Where the parts of the body stand behind a fixed header of i bytes. */
  lemma BodyStands(b: seq<byte>, i: nat, topic: seq<byte>, qos: nat, id: nat, ps: seq<byte>, payload: seq<byte>)
    returns (at: nat, start: nat)
    requires i <= |b| && b[i..] == Head5(topic, qos, id, ps) + payload
    ensures HasAt(b, i, Str16(topic)) && at == i + |Str16(topic)| + (if qos > 0 then 2 else 0)
    ensures start == at + |EncodeLen(|ps|)| && start + |ps| + |payload| == |b|
    ensures b[at..] == EncodeLen(|ps|) + (ps + payload)
    ensures HasAt(b, start, ps) && b[start + |ps|..] == payload
  {
    hide EncodeLen;
    var head, lens := PublishHead(topic, qos, id), EncodeLen(|ps|);
    at := i + |head|;
    start := at + |lens|;
    assert Head5(topic, qos, id, ps) + payload == head + (lens + (ps + payload));
    Behind(b, i, head, lens + (ps + payload));
    Behind(b, at, lens, ps + payload);
    Behind(b, start, ps, payload);
    HasSplit(b, i, Str16(topic), IdField(qos, id));
  }

  lemma Behind(b: seq<byte>, i: nat, s: seq<byte>, t: seq<byte>)
    requires i <= |b| && b[i..] == s + t
    ensures |b| == i + |s| + |t| && HasAt(b, i, s) && b[i + |s|..] == t
  {
    assert b[i..][..|s|] == s && b[i..][|s|..] == t;
    assert b[i..i + |s|] == b[i..][..|s|] && b[i + |s|..] == b[i..][|s|..];
  }

  lemma PropertiesStand(b: seq<byte>, at: nat, start: nat, p: Props, payload: seq<byte>)
    requires Sendable(p) && |EncodeAll(Listed(p))| < 65536
    requires var ps := EncodeAll(Listed(p));
      && at <= |b| && b[at..] == EncodeLen(|ps|) + (ps + payload) && start == at + |EncodeLen(|ps|)| && HasAt(b, start, ps)
    ensures LenValue(b[at..]) == |EncodeAll(Listed(p))| && LenBytes(b[at..]) == start - at > 0
    ensures start <= |b|
    ensures var n := |EncodeAll(Listed(p))|; ParseProps(b, start, start, start + n, NoProps) == Done((p, start + n))
  {
    hide EncodeAll, Listed, ParseProps, LenValue, LenBytes;
    var ps := EncodeAll(Listed(p));
    LenRoundTrip(|ps|, ps + payload);
    ListedSized(p);
    PropsRead(b, start, start, Listed(p), NoProps);
    ListedReads(p);
  }

  /** The parser finds the payload exactly if the properties take at most 65535 bytes: their length is kept in 16 bits. */
  lemma PayloadFoundIff(qos: nat, retain: nat, topic: seq<byte>, id: nat, p: Props, payload: seq<byte>)
    requires qos < 3 && retain < 2 && |topic| < 65536 && id < 65536 && Sendable(p)
    ensures var b := Publish5(qos, retain, topic, id, p, payload); var r := ParsePublish(b);
      r.Done? && r.value.payloadAt == |b| - |payload| <==> |EncodeAll(Listed(p))| < 65536
  {
    var ps := EncodeAll(Listed(p));
    if |ps| < 65536 {
      Publish5Reads(qos, retain, topic, id, p, payload);
    } else {
      hide EncodeAll, EncodeLen, Listed, FixedLen, TotalLen, Head5, Publish5, ParsePublish, Header, TypeOf, RetainOf, QosOf;
      var body := Head5(topic, qos, id, ps) + payload;
      HeaderFields(PUBLISH, 0, qos, retain);
      Publish5Is(qos, retain, topic, id, p, payload);
      PayloadLost(Publish5(qos, retain, topic, id, p, payload), 1 + |EncodeLen(|body|)|, qos, topic, id, ps, payload);
    }
  }

  lemma PayloadLost(b: seq<byte>, i: nat, qos: nat, topic: seq<byte>, id: nat, ps: seq<byte>, payload: seq<byte>)
    requires b != [] && FixedLen(b) == i && QosOf(b[0]) == qos && |topic| < 65536 && |ps| >= 65536
    requires b[i..] == Head5(topic, qos, id, ps) + payload
    ensures var r := ParsePublish(b); r.Done? ==> r.value.payloadAt < |b| - |payload|
  {
    hide EncodeLen, FixedLen, TotalLen, ParseProps, StringAt, LenValue, LenBytes, HasAt, QosOf, Head5;
    var at, start := BodyStands(b, i, topic, qos, id, ps, payload);
    StringReads(b, i, topic);
    LenRoundTrip(|ps|, ps + payload);
    assert LenBytes(b[at..]) == start - at;
  }
}
