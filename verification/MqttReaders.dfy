/** The loops with which the client reads fields out of a received byte string. */
module MqttReaders {
  import opened Bytes
  import opened FixedHeader
  import opened Wire

  /** The length loop of every reader, 3.1.1 and 5.0: the index after the length bytes, and their value. */
  method ScanLength(b: seq<byte>, from: nat) returns (i: nat, value: nat)
    requires from <= |b|
    ensures i == from + LenBytes(b[from..]) && value == LenValue(b[from..])
  {
    hide LenBytes, LenValue, Weighed;
    i, value := from, 0;
    var weight: nat := 1;
    WeighedOne(LenValue(b[i..]));
    while i < |b|
      invariant from <= i <= |b|
      invariant from + LenBytes(b[from..]) == i + LenBytes(b[i..])
      invariant LenValue(b[from..]) == value + Weighed(weight, LenValue(b[i..]))
    {
      LenFirst(b, i);
      var low := b[i] % 128;
      WeighedSplit(weight, low, LenValue(b[i + 1..]));
      value := value + weight * low;
      if b[i] < 128 {
        i := i + 1;
        return;
      }
      weight := weight * 128;
      i := i + 1;
    }
    LenEnd(b, weight);
  }

  ghost function Weighed(w: nat, x: nat): nat {
    w * x
  }

  lemma WeighedOne(x: nat)
    ensures Weighed(1, x) == x
  {
  }

  lemma WeighedSplit(w: nat, x: nat, y: nat)
    ensures Weighed(w, x) == w * x
    ensures Weighed(w, x + 128 * y) == w * x + Weighed(w * 128, y)
  {
  }

  lemma LenFirst(b: seq<byte>, i: nat)
    requires i < |b|
    ensures LenBytes(b[i..]) == if b[i] < 128 then 1 else 1 + LenBytes(b[i + 1..])
    ensures LenValue(b[i..]) == if b[i] < 128 then b[i] % 128 else b[i] % 128 + 128 * LenValue(b[i + 1..])
  {
    assert b[i..][1..] == b[i + 1..];
  }

  lemma LenEnd(b: seq<byte>, w: nat)
    ensures LenBytes(b[|b|..]) == LenValue(b[|b|..]) == Weighed(w, 0) == 0
  {
  }

  /** `mqtt_get_total_length` */
  method GetTotalLength(b: seq<byte>) returns (total: nat, fixedLen: nat)
    requires b != []
    ensures total == TotalLen(b) && fixedLen == FixedLen(b)
  {
    var i, value := ScanLength(b, 1);
    total, fixedLen := value + i, i;
  }

  /** `mqtt_get_publish_topic` */
  method GetPublishTopic(b: seq<byte>) returns (topic: Option<seq<byte>>)
    requires b != []
    ensures topic == TopicOf(b)
  {
    var i, _ := ScanLength(b, 1);
    if i + 2 >= |b| {
      return None;
    }
    var topicLen := Word(b[i], b[i + 1]);
    if i + 2 + topicLen > |b| {
      return None;
    }
    return Some(b[i + 2..i + 2 + topicLen]);
  }

  /** `mqtt_get_publish_data` */
  method GetPublishData(b: seq<byte>) returns (data: Option<(nat, nat)>)
    requires b != []
    ensures data == DataOf(b)
  {
    var i, value := ScanLength(b, 1);
    var total := value + i;
    if i + 2 >= |b| {
      return None;
    }
    var topicLen := Word(b[i], b[i + 1]);
    i := i + 2;
    if i + topicLen >= |b| {
      return None;
    }
    i := i + topicLen;
    if QosOf(b[0]) > 0 {
      if i + 2 >= |b| {
        return None;
      }
      i := i + 2;
    }
    if total < i {
      return None;
    }
    if total <= |b| {
      return Some((i, total - i));
    }
    return Some((i, |b| - i));
  }

  /** `mqtt_get_id` */
  method GetId(b: seq<byte>) returns (id: nat)
    ensures id == IdOf(b)
  {
    if |b| < 1 {
      return 0;
    }
    var t := TypeOf(b[0]);
    if t == PUBLISH {
      var i, _ := ScanLength(b, 1);
      if i + 2 >= |b| {
        return 0;
      }
      var topicLen := Word(b[i], b[i + 1]);
      i := i + 2;
      if i + topicLen > |b| {
        return 0;
      }
      i := i + topicLen;
      if QosOf(b[0]) == 0 || i + 2 > |b| {
        return 0;
      }
      return Word(b[i], b[i + 1]);
    } else if t in {PUBACK, PUBREC, PUBREL, PUBCOMP, SUBACK, UNSUBACK, SUBSCRIBE, UNSUBSCRIBE} {
      if |b| >= 4 && b[1] < 128 {
        return Word(b[2], b[3]);
      }
      return 0;
    } else {
      return 0;
    }
  }
}
