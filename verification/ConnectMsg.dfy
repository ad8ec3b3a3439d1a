/** CONNECT of MQTT 3.1 and 3.1.1: the builder, whose flag byte is patched as the fields are added, and a decoder
    written from section 3.1 of MQTT 3.1.1. */
module ConnectMsg {
  import opened Bytes
  import opened FixedHeader
  import opened Wire
  import opened MqttMsg

  datatype Will = Will(topic: seq<byte>, message: seq<byte>, qos: nat, retain: bool)

  /** What the client is configured with; empty strings count as absent. */
  datatype Info = Info(v31: bool, keepalive: nat, clean: bool, clientId: seq<byte>, will: Will, username: seq<byte>, password: seq<byte>)

  const MQTT: seq<byte> := [77, 81, 84, 84]
  const MQISDP: seq<byte> := [77, 81, 73, 115, 100, 112]

  const CLEAN_SESSION: byte := 2
  const WILL: byte := 4
  const WILL_RETAIN: byte := 32
  const PASSWORD: byte := 64
  const USERNAME: byte := 128

  // ---- layout ----------------------------------------------------------------------------------

  function ProtocolName(v31: bool): seq<byte> {
    if v31 then MQISDP else MQTT
  }

  function ProtocolLevel(v31: bool): byte {
    if v31 then 3 else 4
  }

  function VariableHeader(v31: bool, flags: byte, keepalive: nat): seq<byte> {
    Str16(ProtocolName(v31)) + [ProtocolLevel(v31), flags] + U16(keepalive)
  }

  /** Section 3.1.2.3: user name, password, will retain, will QoS in two bits, will, clean session, one zero. */
  function Flags(user: bool, pass: bool, retain: bool, qos: nat, will: bool, clean: bool): byte
    requires qos < 4
  {
    (if user then 128 else 0) + (if pass then 64 else 0) + (if retain then 32 else 0) + 8 * qos
    + (if will then 4 else 0) + (if clean then 2 else 0)
  }

  function InfoFlags(info: Info): byte {
    var w := info.will.topic != [];
    Flags(info.username != [] || info.password != [], info.password != [], w && info.will.retain,
          if w then info.will.qos % 4 else 0, w, info.clean)
  }

  function WillFields(will: Will): seq<byte> {
    if will.topic != [] then Str16(will.topic) + Str16(will.message) else []
  }

  /** A password without a user name brings an empty one along. */
  function UserField(info: Info): seq<byte> {
    if info.username != [] || info.password != [] then Str16(info.username) else []
  }

  function PasswordField(info: Info): seq<byte> {
    if info.password != [] then Str16(info.password) else []
  }

  function Fields(info: Info): seq<byte> {
    Str16(info.clientId) + WillFields(info.will) + UserField(info) + PasswordField(info)
  }

  function ConnectBody(info: Info): seq<byte> {
    VariableHeader(info.v31, InfoFlags(info), info.keepalive) + Fields(info)
  }

  function ConnectPacket(info: Info): seq<byte> {
    Packet(Header(CONNECT, 0, 0, 0), ConnectBody(info))
  }

  // ---- a decoder, from the standard ---------------------------------------------------------------

  datatype Decoded = Decoded(v31: bool, keepalive: nat, clean: bool, clientId: seq<byte>, will: Option<Will>,
                             username: Option<seq<byte>>, password: Option<seq<byte>>)

  /** The reserved bit is zero, a will QoS is 0, 1 or 2 and comes with a will only, as does will retain, and a
      password comes with a user name only. */
  predicate FlagsAllowed(f: byte) {
    var s := SaysOf(f);
    f % 2 == 0 && s.qos < 3 && (!s.will ==> s.qos == 0 && !s.retain) && (s.pass ==> s.user)
  }

  function TakeIf(present: bool, s: seq<byte>): Option<(Option<seq<byte>>, seq<byte>)> {
    if !present then Some((None, s))
    else
      var t := TakeStr16(s);
      if t.None? then None else Some((Some(t.value.0), t.value.1))
  }

  /** What a flag byte says. */
  datatype Says = Says(user: bool, pass: bool, retain: bool, qos: nat, will: bool, clean: bool)

  function SaysOf(f: byte): Says {
    Says(f / 128 == 1, f / 64 % 2 == 1, f / 32 % 2 == 1, f / 8 % 4, f / 4 % 2 == 1, f / 2 % 2 == 1)
  }

  function DecodeWill(f: Says, s: seq<byte>): Option<(Option<Will>, seq<byte>)> {
    if !f.will then Some((None, s))
    else
      var topic := TakeStr16(s);
      if topic.None? then None else
      var message := TakeStr16(topic.value.1);
      if message.None? then None
      else Some((Some(Will(topic.value.0, message.value.0, f.qos, f.retain)), message.value.1))
  }

  /** User name and password, and nothing behind them. */
  function DecodeCredentials(f: Says, s: seq<byte>): Option<(Option<seq<byte>>, Option<seq<byte>>)> {
    var user := TakeIf(f.user, s);
    if user.None? then None else
    var pass := TakeIf(f.pass, user.value.1);
    if pass.None? || pass.value.1 != [] then None else Some((user.value.0, pass.value.0))
  }

  function DecodeFields(v31: bool, f: Says, keepalive: nat, s: seq<byte>): Option<Decoded> {
    var id := TakeStr16(s);
    if id.None? then None else
    var will := DecodeWill(f, id.value.1);
    if will.None? then None else
    var c := DecodeCredentials(f, will.value.1);
    if c.None? then None
    else Some(Decoded(v31, keepalive, f.clean, id.value.0, will.value.0, c.value.0, c.value.1))
  }

  function DecodeBody(b: seq<byte>): Option<Decoded> {
    var name := TakeStr16(b);
    if name.None? || |name.value.1| < 4 then None
    else
      var r := name.value.1;
      var v31 := name.value.0 == MQISDP;
      if (v31 || name.value.0 == MQTT) && r[0] == ProtocolLevel(v31) && FlagsAllowed(r[1])
      then DecodeFields(v31, SaysOf(r[1]), Word(r[2], r[3]), r[4..])
      else None
  }

  function DecodeConnect(p: seq<byte>): Option<Decoded> {
    if p == [] || p[0] != Header(CONNECT, 0, 0, 0) || TotalLen(p) != |p| then None else DecodeBody(p[FixedLen(p)..])
  }

  /** What a server should learn. */
  function Meant(info: Info): Decoded {
    Decoded(info.v31, info.keepalive, info.clean, info.clientId,
            if info.will.topic != [] then Some(info.will) else None,
            if info.username != [] || info.password != [] then Some(info.username) else None,
            if info.password != [] then Some(info.password) else None)
  }

  predicate Short(info: Info) {
    && |info.clientId| < 65536 && |info.will.topic| < 65536 && |info.will.message| < 65536
    && |info.username| < 65536 && |info.password| < 65536 && info.keepalive < 65536
  }

  lemma FlagsFields(user: bool, pass: bool, retain: bool, qos: nat, will: bool, clean: bool)
    requires qos < 4
    ensures var f := Flags(user, pass, retain, qos, will, clean);
      && f % 2 == 0 && SaysOf(f) == Says(user, pass, retain, qos, will, clean)
  {
    FlagsLow(user, pass, retain, qos, will, clean);
    FlagsHigh(user, pass, retain, qos, will, clean);
    hide Flags;
  }

  lemma FlagsLow(user: bool, pass: bool, retain: bool, qos: nat, will: bool, clean: bool)
    requires qos < 4
    ensures var f := Flags(user, pass, retain, qos, will, clean);
      && f % 2 == 0 && (f / 2 % 2 == 1 <==> clean) && (f / 4 % 2 == 1 <==> will) && f / 8 % 4 == qos
  {
    var f: int := Flags(user, pass, retain, qos, will, clean);
    var high := (if user then 4 else 0) + (if pass then 2 else 0) + (if retain then 1 else 0);
    var w, c := if will then 1 else 0, if clean then 1 else 0;
    assert f == 32 * high + 8 * qos + 4 * w + 2 * c;
    assert f / 8 == 4 * high + qos && f / 4 == 8 * high + 2 * qos + w && f / 2 == 16 * high + 4 * qos + 2 * w + c;
  }

  lemma FlagsHigh(user: bool, pass: bool, retain: bool, qos: nat, will: bool, clean: bool)
    requires qos < 4
    ensures var f := Flags(user, pass, retain, qos, will, clean);
      (f / 32 % 2 == 1 <==> retain) && (f / 64 % 2 == 1 <==> pass) && (f / 128 == 1 <==> user)
  {
    var f: int := Flags(user, pass, retain, qos, will, clean);
    var u, p, r := if user then 1 else 0, if pass then 1 else 0, if retain then 1 else 0;
    var low := 8 * qos + (if will then 4 else 0) + if clean then 2 else 0;
    assert f == 128 * u + 64 * p + 32 * r + low && 0 <= low < 32;
    assert f / 32 == 4 * u + 2 * p + r && f / 64 == 2 * u + p && f / 128 == u;
  }

  lemma TakeIfReads(present: bool, s: seq<byte>, rest: seq<byte>)
    requires |s| < 65536
    ensures TakeIf(present, (if present then Str16(s) else []) + rest) == Some((if present then Some(s) else None, rest))
  {
    Str16RoundTrip(s, rest);
    assert [] + rest == rest;
  }

  /** The fields behind the variable header come back one by one. */
  lemma FieldsRead(info: Info, f: Says)
    requires Short(info)
    requires f == Says(info.username != [] || info.password != [], info.password != [], info.will.topic != [] && info.will.retain,
                       if info.will.topic != [] then info.will.qos % 4 else 0, info.will.topic != [], info.clean)
    ensures var will := info.will;
      DecodeFields(info.v31, f, info.keepalive, Fields(info)) == Some(Meant(info).(will :=
        if will.topic != [] then Some(will.(qos := will.qos % 4)) else None))
  {
    var rest := UserField(info) + PasswordField(info);
    FieldsSplit(info);
    hide Fields, Str16, TakeStr16, WillFields, UserField, PasswordField, DecodeWill, DecodeCredentials;
    Str16RoundTrip(info.clientId, WillFields(info.will) + rest);
    WillReads(info.will, f, rest);
    CredentialsRead(info, f);
  }

  lemma FieldsSplit(info: Info)
    ensures Fields(info) == Str16(info.clientId) + (WillFields(info.will) + (UserField(info) + PasswordField(info)))
  {
    hide Str16, WillFields, UserField, PasswordField;
  }

  lemma WillReads(will: Will, f: Says, rest: seq<byte>)
    requires |will.topic| < 65536 && |will.message| < 65536
    requires f.will == (will.topic != []) && (f.will ==> f.qos == will.qos % 4 && f.retain == will.retain)
    ensures DecodeWill(f, WillFields(will) + rest)
         == Some((if will.topic != [] then Some(will.(qos := will.qos % 4)) else None, rest))
  {
    hide Str16, TakeStr16;
    if f.will {
      Str16RoundTrip(will.message, rest);
      Str16RoundTrip(will.topic, Str16(will.message) + rest);
      assert WillFields(will) + rest == Str16(will.topic) + (Str16(will.message) + rest);
    } else {
      assert [] + rest == rest;
    }
  }

  lemma CredentialsRead(info: Info, f: Says)
    requires Short(info) && f.pass == (info.password != []) && f.user == (info.username != [] || info.password != [])
    ensures DecodeCredentials(f, UserField(info) + PasswordField(info))
         == Some((if f.user then Some(info.username) else None, if f.pass then Some(info.password) else None))
  {
    hide Str16, TakeStr16, TakeIf;
    TakeIfReads(f.pass, info.password, []);
    TakeIfReads(f.user, info.username, PasswordField(info));
    assert PasswordField(info) + [] == PasswordField(info);
  }

  lemma HeaderReads(v31: bool, f: byte, keepalive: nat, rest: seq<byte>)
    requires keepalive < 65536
    ensures DecodeBody(VariableHeader(v31, f, keepalive) + rest)
         == if FlagsAllowed(f) then DecodeFields(v31, SaysOf(f), keepalive, rest) else None
  {
    hide DecodeFields, FlagsAllowed, SaysOf, TakeStr16;
    var name := ProtocolName(v31);
    var tail := [ProtocolLevel(v31), f] + U16(keepalive) + rest;
    assert VariableHeader(v31, f, keepalive) + rest == Str16(name) + tail;
    Str16RoundTrip(name, tail);
    WordU16(keepalive);
    assert tail[4..] == rest && tail[2] == U16(keepalive)[0] && tail[3] == U16(keepalive)[1];
    assert MQTT[2] != MQISDP[2];
    hide VariableHeader, Str16, U16;
  }

  /** A server following the standard learns exactly what the client was configured with, unless a will asks for a QoS
      there is no such thing as. */
  lemma ConnectReads(info: Info)
    requires Short(info)
    ensures DecodeConnect(ConnectPacket(info)) == Some(Meant(info)) <==> (info.will.topic != [] ==> info.will.qos < 3)
  {
    hide VariableHeader, Flags, SaysOf, DecodeConnect, DecodeBody, DecodeFields, Fields, Packet, Header;
    var f := InfoFlags(info);
    var w := info.will.topic != [];
    FlagsFields(info.username != [] || info.password != [], info.password != [], w && info.will.retain,
                if w then info.will.qos % 4 else 0, w, info.clean);
    var body := VariableHeader(info.v31, f, info.keepalive) + Fields(info);
    PacketDecodes(body);
    HeaderReads(info.v31, f, info.keepalive, Fields(info));
    FieldsRead(info, SaysOf(f));
  }

  lemma PacketDecodes(body: seq<byte>)
    ensures DecodeConnect(Packet(Header(CONNECT, 0, 0, 0), body)) == DecodeBody(body)
  {
    hide DecodeBody, FixedLen, TotalLen, EncodeLen;
    var p := Packet(Header(CONNECT, 0, 0, 0), body);
    PacketReads(Header(CONNECT, 0, 0, 0), body, |p|);
    assert p[..|p|] == p && body[..|body|] == body;
  }

  // ---- the builder -----------------------------------------------------------------------------------

  /** Or with a mask of one bit. */
  function Or(a: byte, m: byte): byte
    requires m == 2 || m == 4 || m == 8 || m == 16 || m == 32 || m == 64 || m == 128
  {
    if a / m % 2 == 1 then a else a + m
  }

  /** Or with the two bits of a QoS. */
  function OrQos(a: byte, q: nat): byte
    requires q < 4
  {
    var b := if q % 2 == 1 then Or(a, 8) else a;
    if q / 2 == 1 then Or(b, 16) else b
  }

  lemma OrHigh(a: byte)
    requires a < 64
    ensures Or(a, 128) == a + 128 && Or(a + 128, 64) == a + 192
  {
  }

  lemma OrLow(a: byte)
    requires a == 0 || a == 2
    ensures Or(0, 2) == 2 && Or(a, 4) == a + 4 && Or(a + 4, 32) == a + 36
  {
  }

  lemma OrQosAdds(a: byte, q: nat)
    requires q < 4 && (a == 4 || a == 6 || a == 36 || a == 38)
    ensures OrQos(a, q) == a + 8 * q
  {
    assert q == 0 || q == 1 || q == 2 || q == 3;
  }

  /** The message so far: a variable header with these flags, then `s`. */
  ghost predicate Built(c: Connection, v31: bool, f: byte, keepalive: nat, s: seq<byte>)
    reads c, c.buffer
  {
    c.Building() && c.Body() == VariableHeader(v31, f, keepalive) + s
  }

  lemma FlagsPlace(v31: bool, f: byte, keepalive: nat)
    ensures var h := VariableHeader(v31, f, keepalive);
      && |h| == (if v31 then 12 else 10) && h[|h| - 3] == f
      && forall g: byte :: h[|h| - 3 := g] == VariableHeader(v31, g, keepalive)
  {
  }

  /** Rewrites the flag byte in place. */
  method SetFlags(c: Connection, v31: bool, g: byte, ghost f: byte, ghost keepalive: nat, ghost s: seq<byte>)
    requires Built(c, v31, f, keepalive, s)
    modifies c.buffer
    ensures Built(c, v31, g, keepalive, s)
  {
    hide VariableHeader;
    FlagsPlace(v31, f, keepalive);
    var at := FlagsAt(v31);
    ghost var h := VariableHeader(v31, f, keepalive);
    ghost var was := c.Body();
    c.buffer[at] := g;
    assert c.Body() == was[|h| - 3 := g] == h[|h| - 3 := g] + s;
  }

  function FlagsAt(v31: bool): nat {
    MAX_FIXED_HEADER + (if v31 then 12 else 10) - 3
  }

  /** The flag byte, read back from the buffer. */
  function FlagsIn(c: Connection, v31: bool, ghost f: byte, ghost keepalive: nat, ghost s: seq<byte>): (r: byte)
    requires Built(c, v31, f, keepalive, s)
    reads c, c.buffer
    ensures r == f
  {
    FlagsPlace(v31, f, keepalive);
    assert c.Body()[FlagsAt(v31) - MAX_FIXED_HEADER] == f;
    c.buffer[FlagsAt(v31)]
  }

  method OrFlag(c: Connection, v31: bool, mask: byte, ghost f: byte, ghost keepalive: nat, ghost s: seq<byte>)
    requires mask in {2, 4, 32, 64, 128} && Built(c, v31, f, keepalive, s)
    modifies c.buffer
    ensures Built(c, v31, Or(f, mask), keepalive, s)
  {
    hide Or, Built;
    var g := FlagsIn(c, v31, f, keepalive, s);
    SetFlags(c, v31, Or(g, mask), f, keepalive, s);
  }

  method AppendText(c: Connection, text: seq<byte>, ghost v31: bool, ghost f: byte, ghost keepalive: nat, ghost s: seq<byte>) returns (ok: bool)
    requires Built(c, v31, f, keepalive, s)
    modifies c`length, c.buffer
    ensures c.Building()
    ensures ok <==> old(c.length) + 2 + |text| <= c.buffer.Length
    ensures ok ==> Built(c, v31, f, keepalive, s + Str16(text)) && c.length == old(c.length) + |Str16(text)|
  {
    hide VariableHeader;
    var r := c.AppendString(text);
    ok := r >= 0;
    if ok {
      ghost var h := VariableHeader(v31, f, keepalive);
      assert h + s + Str16(text) == h + (s + Str16(text));
    }
  }

  method AppendWill(c: Connection, info: Info, ghost f: byte, ghost s: seq<byte>) returns (ok: bool)
    requires Built(c, info.v31, f, info.keepalive, s) && f == Flags(false, false, false, 0, false, info.clean)
    modifies c`length, c.buffer
    ensures c.Building()
    ensures ok <==> old(c.length) + |WillFields(info.will)| <= c.buffer.Length
    ensures ok ==> Built(c, info.v31, WillFlags(info), info.keepalive, s + WillFields(info.will))
    ensures ok ==> c.length == old(c.length) + |WillFields(info.will)|
  {
    hide VariableHeader, Or, Str16;
    ok := true;
    assert s + [] == s;
    if info.will.topic == [] { return; }
    TextLength(info.will.topic);
    TextLength(info.will.message);
    ok := AppendText(c, info.will.topic, info.v31, f, info.keepalive, s);
    if !ok { return; }
    ok := AppendText(c, info.will.message, info.v31, f, info.keepalive, s + Str16(info.will.topic));
    if !ok { return; }
    ghost var t := s + Str16(info.will.topic) + Str16(info.will.message);
    assert t == s + WillFields(info.will);
    OrLow(f);
    OrFlag(c, info.v31, WILL, f, info.keepalive, t);
    if info.will.retain {
      OrFlag(c, info.v31, WILL_RETAIN, f + 4, info.keepalive, t);
    }
    ghost var g: byte := if info.will.retain then f + 36 else f + 4;
    OrQosAdds(g, info.will.qos % 4);
    var was := FlagsIn(c, info.v31, g, info.keepalive, t);
    SetFlags(c, info.v31, OrQos(was, info.will.qos % 4), g, info.keepalive, t);
  }

  /** The flags once the will has been dealt with. */
  function WillFlags(info: Info): byte {
    var w := info.will.topic != [];
    Flags(false, false, w && info.will.retain, if w then info.will.qos % 4 else 0, w, info.clean)
  }

  lemma TextLength(s: seq<byte>)
    ensures |Str16(s)| == |s| + 2
  {
  }

  method AppendCredentials(c: Connection, info: Info, ghost s: seq<byte>) returns (ok: bool)
    requires Built(c, info.v31, WillFlags(info), info.keepalive, s)
    modifies c`length, c.buffer
    ensures c.Building()
    ensures ok <==> old(c.length) + |UserField(info)| + |PasswordField(info)| <= c.buffer.Length
    ensures ok ==> Built(c, info.v31, InfoFlags(info), info.keepalive, s + UserField(info) + PasswordField(info))
  {
    hide VariableHeader, Or, Str16;
    TextLength(info.username);
    TextLength(info.password);
    ghost var f := WillFlags(info);
    OrHigh(f);
    ok := true;
    assert s + [] == s;
    if info.username != [] {
      ok := AppendText(c, info.username, info.v31, f, info.keepalive, s);
      if !ok { return; }
      OrFlag(c, info.v31, USERNAME, f, info.keepalive, s + UserField(info));
    }
    if info.password == [] {
      assert s + UserField(info) + PasswordField(info) == s + UserField(info);
      return;
    }
    if info.username == [] {
      ok := AppendText(c, [], info.v31, f, info.keepalive, s);
      if !ok { return; }
      OrFlag(c, info.v31, USERNAME, f, info.keepalive, s + UserField(info));
    }
    ok := AppendText(c, info.password, info.v31, f + 128, info.keepalive, s + UserField(info));
    if !ok { return; }
    OrFlag(c, info.v31, PASSWORD, f + 128, info.keepalive, s + UserField(info) + PasswordField(info));
  }

  /** `mqtt_msg_connect` */
  method Connect(c: Connection, info: Info)
    requires c.Valid()
    modifies c`start, c`length, c`fragOffset, c.buffer
    ensures c.Valid()
    ensures var body := ConnectBody(info); var n := Announced(|body|, c.fragTotal);
      if MAX_FIXED_HEADER + |body| <= c.buffer.Length && n < REMAINING_LIMIT then
        && c.Message() == Announcing(Header(CONNECT, 0, 0, 0), n, body)
        && (c.Message() == ConnectPacket(info) <==> c.fragTotal == 0 || c.fragTotal == MAX_FIXED_HEADER + |body|)
      else c.length == 0
  {
    hide Announcing, Packet, Header, VariableHeader, Or, Str16, WillFields, UserField, PasswordField, InfoFlags, WillFlags;
    c.SetHeaderSize();
    var headerLen := if info.v31 then 12 else 10;
    FlagsPlace(info.v31, 0, info.keepalive);
    FlagsPlace(info.v31, InfoFlags(info), info.keepalive);
    if c.length + headerLen > c.buffer.Length {
      c.Fail();
      return;
    }
    c.Append(VariableHeader(info.v31, 0, info.keepalive));
    ghost var f: byte := if info.clean then 2 else 0;
    assert c.Body() == VariableHeader(info.v31, 0, info.keepalive) + [];
    if info.clean {
      OrLow(0);
      OrFlag(c, info.v31, CLEAN_SESSION, 0, info.keepalive, []);
    }
    var ok := AppendFields(c, info, f);
    if !ok {
      c.Fail();
      return;
    }
    HeaderChoice(Header(CONNECT, 0, 0, 0), ConnectBody(info), Announced(|ConnectBody(info)|, c.fragTotal));
    c.Finish(CONNECT, 0, 0, 0);
  }

  method AppendFields(c: Connection, info: Info, ghost f: byte) returns (ok: bool)
    requires Built(c, info.v31, f, info.keepalive, []) && f == if info.clean then 2 else 0
    modifies c`length, c.buffer
    ensures c.Building()
    ensures ok <==> old(c.length) + |Fields(info)| <= c.buffer.Length
    ensures ok ==> Built(c, info.v31, InfoFlags(info), info.keepalive, Fields(info))
  {
    hide VariableHeader, Str16, WillFields, UserField, PasswordField, InfoFlags, WillFlags;
    TextLength(info.clientId);
    ok := AppendText(c, info.clientId, info.v31, f, info.keepalive, []);
    if !ok { return; }
    ghost var id := Str16(info.clientId);
    assert [] + id == id;
    ok := AppendWill(c, info, f, id);
    if !ok { return; }
    ok := AppendCredentials(c, info, id + WillFields(info.will));
  }
}
