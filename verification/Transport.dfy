/** The network connection as the client sees it: how much of a request one call serves is up to
    the peer, so both calls are nondeterministic within what their contracts say. */
module Transport {
  import opened Bytes

  class Connection {
    /** Every byte handed to the peer. */
    var sent: seq<byte>
    /** Every byte the peer will ever send, and how many of them have been read. */
    const incoming: seq<byte>
    var pos: nat
    /** How many reads came back with nothing: timeouts, errors, end of stream. */
    ghost var stalls: nat
    /** And how many writes took nothing. */
    ghost var refusals: nat

    ghost predicate Valid()
      reads this
    {
      pos <= |incoming|
    }

    /** A positive result is a number of bytes written; 0 is a timeout, a negative number an error. */
    method Write(data: seq<byte>) returns (w: int)
      modifies this`sent, this`refusals
      ensures w <= |data| && refusals == old(refusals) + if w > 0 then 0 else 1
      ensures sent == old(sent) + data[..if w > 0 then w else 0]
    {
      w :| w <= |data|;
      sent := sent + data[..if w > 0 then w else 0];
      refusals := refusals + if w > 0 then 0 else 1;
    }

    /** Reads at most `n` bytes; 0 is a timeout, a negative number an error or end of stream. */
    method Read(n: nat) returns (r: int, data: seq<byte>)
      requires Valid()
      modifies this`pos, this`stalls
      ensures Valid() && r <= n && stalls == old(stalls) + if r > 0 then 0 else 1
      ensures r > 0 ==> pos == old(pos) + r && data == incoming[old(pos)..pos]
      ensures r <= 0 ==> pos == old(pos) && data == []
    {
      r :| r <= n && pos + r <= |incoming|;
      data := [];
      if r > 0 {
        data := incoming[pos..pos + r];
        pos := pos + r;
      } else {
        stalls := stalls + 1;
      }
    }

    /** `esp_mqtt_write`: short writes are resumed until the message is out or a call fails. */
    method WriteAll(data: seq<byte>) returns (ok: bool, ghost written: nat)
      modifies this`sent, this`refusals
      ensures refusals >= old(refusals) && (ok <==> refusals == old(refusals))
      ensures written <= |data| && sent == old(sent) + data[..written]
      ensures ok <==> written == |data|
    {
      var widx, len := 0, |data|;
      written := 0;
      while len > 0
        invariant 0 <= widx <= |data| && widx + len == |data| && written == widx
        invariant sent == old(sent) + data[..widx] && refusals == old(refusals)
      {
        var wlen := Write(data[widx..]);
        if wlen <= 0 {
          return false, widx;
        }
        assert data[..widx] + data[widx..][..wlen] == data[..widx + wlen];
        widx := widx + wlen;
        len := len - wlen;
        written := widx;
      }
      ok := true;
    }
  }
}
