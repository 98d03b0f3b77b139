/** The socket loops that write and read one serialised packet, over an unreliable system call. */
module Transport {
  import opened Sequences
  import opened Crypto

  const MAX_MESSAGE_SIZE := 1024 * 1024

  /** Why a `recv` call brought no bytes. */
  datatype Pause = WouldBlock | Closed | Broken

  /** What one `recv` call brought. */
  datatype Arrival = Chunk(bytes: seq<Byte>) | Stop(pause: Pause)

  /** What a receive loop made of the bytes it took. */
  datatype Verdict = Complete | TooLarge | Failed

  /** What became of a send; an overrun would read past the end of the buffer. */
  datatype SendResult = Sent(bytes: nat) | SendFailed | Overrun

  /** All bytes that a series of calls brought. */
  function Bytes(calls: seq<Arrival>): seq<Byte> {
    if calls == [] then []
    else
      var last := calls[|calls| - 1];
      Bytes(calls[..|calls| - 1]) + if last.Chunk? then last.bytes else []
  }

  lemma BytesSnoc(calls: seq<Arrival>, a: Arrival)
    ensures Bytes(calls + [a]) == Bytes(calls) + if a.Chunk? then a.bytes else []
  {
    assert (calls + [a])[..|calls|] == calls;
  }

  /** Calls after which the loop goes on: all of them brought bytes, and the buffer has room. */
  predicate Running(calls: seq<Arrival>) {
    (forall i :: 0 <= i < |calls| ==> calls[i].Chunk? && calls[i].bytes != []) && |Bytes(calls)| < MAX_MESSAGE_SIZE
  }

  /** The calls of one whole loop: it stops at the first pause, or with a full buffer. */
  predicate OneLoop(calls: seq<Arrival>) {
    && calls != [] && Running(calls[..|calls| - 1])
    && (calls[|calls| - 1].Chunk? ==> |Bytes(calls)| == MAX_MESSAGE_SIZE)
  }

  function Judge(calls: seq<Arrival>): Verdict
    requires calls != []
  {
    if |Bytes(calls)| >= MAX_MESSAGE_SIZE then TooLarge
    else if calls[|calls| - 1] == Stop(Broken) then Failed
    else Complete
  }

  /**
   One direction of a connection. `unread` is the rest of the byte stream, in order: some of
   it has arrived and some has not, so each read finds any part of it, or nothing yet. Only a
   stream read to its end is found closed. `stalls` bounds how often `send` may report that
   it moved nothing, and `calls` records what the reads brought.
   */
  class Wire {
    var unread: seq<Byte>
    ghost var stalls: nat
    ghost var calls: seq<Arrival>

    constructor (ghost stalls: nat)
      ensures unread == [] && this.stalls == stalls && calls == []
    {
      this.unread, this.stalls, this.calls := [], stalls, [];
    }

    method Send(buf: array<Byte>, offset: nat, n: nat) returns (r: int)
      requires 0 < n && offset + n <= buf.Length
      modifies this`unread, this`stalls
      ensures r <= n
      ensures r < 0 ==> unread == old(unread)
      ensures r >= 0 ==> unread == old(unread) + buf[offset..offset + r]
      ensures stalls <= old(stalls) && (r == 0 ==> stalls < old(stalls))
    {
      if * {
        return -1;
      }
      var k: nat :| 0 < k <= n;
      unread := unread + buf[offset..offset + k];
      return k;
    }

    /** At most `n` bytes into the buffer: the return value, and `errno` if it is negative. */
    method Recv(buf: array<Byte>, offset: nat, n: nat) returns (r: int, pause: Pause)
      requires 0 < n && offset + n <= buf.Length
      modifies this`unread, this`calls, buf
      ensures |calls| == |old(calls)| + 1 && calls == old(calls) + [calls[|old(calls)|]]
      ensures match calls[|old(calls)|]
              case Chunk(bytes) => 0 < r == |bytes| <= n && old(unread) == bytes + unread
                                   && buf[..offset + r] == old(buf[..offset]) + bytes
              case Stop(why) => r == (if why == Closed then 0 else -1) && pause == why
                                && (why == Closed ==> unread == [])
                                && unread == old(unread) && buf[..offset] == old(buf[..offset])
    {
      if {
        case unread == [] => r, pause := 0, Closed;
        case true => r, pause := -1, WouldBlock;
        case true => r, pause := -1, Broken;
        case unread != [] =>
          var k: nat :| 0 < k <= n && k <= |unread|;
          forall i | 0 <= i < k {
            buf[offset + i] := unread[i];
          }
          assert buf[..offset + k] == old(buf[..offset]) + unread[..k];
          calls := calls + [Chunk(unread[..k])];
          unread := unread[k..];
          return k, WouldBlock;
      }
      calls := calls + [Stop(pause)];
    }
  }

  /**
   Writes a serialised packet. One that does not fit the buffer is not serialised at all, and
   the first system call would be given a range that leaves the buffer: `Overrun`. Within the
   buffer every index is in range.
   */
  method SendMesg(wire: Wire, packet: seq<Byte>) returns (ret: SendResult)
    modifies wire`unread, wire`stalls
    ensures ret == Overrun <==> |packet| > 1048576
    ensures ret == Overrun ==> wire.unread == old(wire.unread)
    ensures ret.Sent? ==> ret.bytes == |packet| && wire.unread == old(wire.unread) + packet
    ensures ret == SendFailed ==> exists k: nat :: k < |packet| && wire.unread == old(wire.unread) + packet[..k]
  {
    var buf := new Byte[MAX_MESSAGE_SIZE](_ => 0);
    if |packet| <= buf.Length {
      forall i | 0 <= i < |packet| {
        buf[i] := packet[i];
      }
    }
    var bytes := 0;
    var len := |packet|;
    assert wire.unread == old(wire.unread) + packet[..0];
    while bytes < len
      invariant 0 <= bytes <= len
      invariant len <= buf.Length ==> buf[..len] == packet
      invariant bytes > 0 ==> len <= buf.Length
      invariant wire.unread == old(wire.unread) + packet[..bytes]
      decreases len - bytes, wire.stalls
    {
      if bytes + (len - bytes) > buf.Length {
        return Overrun;
      }
      var sent := wire.Send(buf, bytes, len - bytes);
      if sent < 0 {
        return SendFailed;
      }
      assert buf[bytes..bytes + sent] == packet[bytes..bytes + sent];
      assert packet[..bytes + sent] == packet[..bytes] + packet[bytes..bytes + sent];
      bytes := bytes + sent;
    }
    assert packet[..len] == packet;
    return Sent(bytes);
  }

  /** Between `before` and `now` a loop has run so far, and brought `data`. */
  ghost predicate Going(before: seq<Arrival>, now: seq<Arrival>, data: seq<Byte>) {
    before <= now && Running(now[|before|..]) && data == Bytes(now[|before|..])
  }

  /** Between `before` and `now` one whole loop has run, and made `verdict` of `data`. */
  ghost predicate Finished(before: seq<Arrival>, now: seq<Arrival>, verdict: Verdict, data: seq<Byte>) {
    before <= now && OneLoop(now[|before|..]) && data == Bytes(now[|before|..]) && verdict == Judge(now[|before|..])
  }

  /** The loop goes on after a chunk that leaves room, and is over after anything else. */
  lemma OneMoreCall(before: seq<Arrival>, now: seq<Arrival>, data: seq<Byte>, a: Arrival)
    requires Going(before, now, data) && (a.Chunk? ==> a.bytes != [] && |data| + |a.bytes| <= MAX_MESSAGE_SIZE)
    ensures a.Stop? ==> Finished(before, now + [a], if a.pause == Broken then Failed else Complete, data)
    ensures a.Chunk? ==> if |data + a.bytes| < MAX_MESSAGE_SIZE then Going(before, now + [a], data + a.bytes)
                         else Finished(before, now + [a], TooLarge, data + a.bytes)
  {
    var calls := now[|before|..];
    assert (now + [a])[|before|..] == calls + [a];
    BytesSnoc(calls, a);
    assert (calls + [a])[..|calls|] == calls;
  }

  /**
   Reads until the first pause or a full buffer, and judges by that alone: what has not
   arrived by then is left for the next read, and what was there before is taken along.
   */
  method RecvMesg(wire: Wire) returns (verdict: Verdict, data: seq<Byte>)
    modifies wire`unread, wire`calls
    ensures Finished(old(wire.calls), wire.calls, verdict, data)
    ensures old(wire.unread) == data + wire.unread
    ensures wire.calls[|wire.calls| - 1] == Stop(Closed) ==> wire.unread == []
  {
    var bytes := 0;
    var buf := new Byte[MAX_MESSAGE_SIZE];
    ghost var before := wire.calls;
    while true
      invariant 0 <= bytes < MAX_MESSAGE_SIZE
      invariant Going(before, wire.calls, buf[..bytes])
      invariant old(wire.unread) == buf[..bytes] + wire.unread
      decreases |wire.unread|
    {
      ghost var now, taken := wire.calls, buf[..bytes];
      var ret, pause := wire.Recv(buf, bytes, MAX_MESSAGE_SIZE - bytes);
      OneMoreCall(before, now, taken, wire.calls[|now|]);
      if ret < 0 {
        if pause == WouldBlock {
          break;
        } else {
          return Failed, buf[..bytes];
        }
      } else if ret == 0 {
        break;
      } else {
        bytes := bytes + ret;
        if bytes >= MAX_MESSAGE_SIZE {
          return TooLarge, buf[..bytes];
        }
      }
    }
    return Complete, buf[..bytes];
  }

  /**
   When a packet arrives as itself: with `before` unread in front of it and `after` behind, a
   receive loop hands the parser exactly this packet if and only if its first pause, no
   failure, comes when precisely as many bytes as the packet has were taken, fewer than the
   buffer holds, and those bytes read the same.
   */
  lemma ReceivedAsItselfIff(calls: seq<Arrival>, before: seq<Byte>, packet: seq<Byte>, after: seq<Byte>)
    requires OneLoop(calls) && Bytes(calls) <= before + packet + after
    ensures Judge(calls) == Complete && Bytes(calls) == packet
            <==> && calls[|calls| - 1].Stop? && calls[|calls| - 1].pause != Broken
                 && |Bytes(calls)| == |packet| < 1048576 && packet <= before + packet
  {
    var stream := before + packet + after;
    if |Bytes(calls)| == |packet| {
      assert Bytes(calls) == stream[..|packet|] == (before + packet)[..|packet|];
      assert packet <= before + packet <==> (before + packet)[..|packet|] == packet;
    }
  }

  /**
   What is refused as too large: exactly what fills the buffer before the first pause. A
   packet as long as the buffer, or longer, is never received as itself.
   */
  lemma FullBufferIsRefused(calls: seq<Arrival>, packet: seq<Byte>)
    requires OneLoop(calls)
    ensures Judge(calls) == TooLarge <==> calls[|calls| - 1].Chunk?
    ensures Judge(calls) == TooLarge <==> |Bytes(calls)| == 1048576
    ensures Judge(calls) == Failed <==> calls[|calls| - 1] == Stop(Broken)
    ensures |packet| >= 1048576 ==> !(Judge(calls) == Complete && Bytes(calls) == packet)
  {
    var init, last := calls[..|calls| - 1], calls[|calls| - 1];
    assert calls == init + [last];
    BytesSnoc(init, last);
  }

  /** How the stream is cut into chunks does not matter: only where the first pause comes. */
  lemma ChunkingIsIrrelevant(a: seq<Arrival>, b: seq<Arrival>, stream: seq<Byte>)
    requires OneLoop(a) && OneLoop(b) && Bytes(a) <= stream && Bytes(b) <= stream
    requires |Bytes(a)| == |Bytes(b)| && a[|a| - 1].Stop? && a[|a| - 1] == b[|b| - 1]
    ensures Bytes(a) == Bytes(b) && Judge(a) == Judge(b)
  {
    assert Bytes(a) == stream[..|Bytes(a)|] == Bytes(b);
  }

  lemma OneChunk(bytes: seq<Byte>)
    requires bytes != [] && |bytes| < MAX_MESSAGE_SIZE
    ensures var calls := [Chunk(bytes), Stop(WouldBlock)];
            OneLoop(calls) && Bytes(calls) == bytes && Judge(calls) == Complete
  {
    BytesSnoc([], Chunk(bytes));
    BytesSnoc([Chunk(bytes)], Stop(WouldBlock));
    assert [] + [Chunk(bytes)] == [Chunk(bytes)];
    assert [Chunk(bytes)] + [Stop(WouldBlock)] == [Chunk(bytes), Stop(WouldBlock)];
    assert [Chunk(bytes), Stop(WouldBlock)][..1] == [Chunk(bytes)];
  }

  /** A pause inside a packet of any size truncates it: the part that had arrived is taken for the whole. */
  lemma PauseInsideTruncates(head: seq<Byte>, tail: seq<Byte>) returns (calls: seq<Arrival>)
    requires head != [] && tail != [] && |head| < 1048576
    ensures OneLoop(calls) && Bytes(calls) <= head + tail
    ensures Judge(calls) == Complete && Bytes(calls) == head != head + tail
  {
    calls := [Chunk(head), Stop(WouldBlock)];
    OneChunk(head);
  }

  /** Unread bytes in front of a packet are glued to it. */
  lemma UnreadBytesAreGlued(before: seq<Byte>, packet: seq<Byte>) returns (calls: seq<Arrival>)
    requires before != [] && |before + packet| < MAX_MESSAGE_SIZE
    ensures OneLoop(calls) && Bytes(calls) <= before + packet
    ensures Judge(calls) == Complete && Bytes(calls) == before + packet != packet
  {
    calls := [Chunk(before + packet), Stop(WouldBlock)];
    OneChunk(before + packet);
    assert |before + packet| > |packet|;
  }

  /** The serialiser and parser of the packet library, of which only the round trip is assumed. */
  datatype Codec<!P> = Codec(serialize: P -> seq<Byte>, parse: seq<Byte> -> Option<P>)

  ghost predicate Faithful<P(!new)>(codec: Codec<P>) {
    forall p :: codec.parse(codec.serialize(p)) == Some(p)
  }

  const SIZE_T_LIMIT: nat := 0x1_0000_0000_0000_0000

  /** The byte counters around the loops; `size_t` counters wrap around. */
  class Van {
    var sendBytes: nat
    var recvBytes: nat

    constructor ()
      ensures sendBytes == 0 && recvBytes == 0
    {
      sendBytes, recvBytes := 0, 0;
    }

    /** A packet is counted in full or not at all: the prefix a failed send leaves is not counted. */
    method Send<P>(wire: Wire, codec: Codec<P>, p: P) returns (ret: SendResult)
      modifies wire`unread, wire`stalls, this`sendBytes
      ensures ret == Overrun <==> |codec.serialize(p)| > 1048576
      ensures ret.Sent? ==> wire.unread == old(wire.unread) + codec.serialize(p)
      ensures sendBytes == if ret.Sent? then (old(sendBytes) + |codec.serialize(p)|) % SIZE_T_LIMIT else old(sendBytes)
      ensures ret == SendFailed ==> exists k: nat ::
        k < |codec.serialize(p)| && wire.unread == old(wire.unread) + codec.serialize(p)[..k]
    {
      ret := SendMesg(wire, codec.serialize(p));
      if ret.Sent? {
        sendBytes := (sendBytes + ret.bytes) % SIZE_T_LIMIT;
      }
    }

    /** What was read is counted exactly when it parsed. */
    method Recv<P>(wire: Wire, codec: Codec<P>) returns (ret: int, p: Option<P>)
      modifies wire`unread, wire`calls, this`recvBytes
      ensures old(wire.calls) <= wire.calls
      ensures var calls := wire.calls[|old(wire.calls)|..];
              && OneLoop(calls) && old(wire.unread) == Bytes(calls) + wire.unread
              && p == (if Judge(calls) == Complete then codec.parse(Bytes(calls)) else None)
              && ret == if p.Some? then |Bytes(calls)| else -1
      ensures recvBytes == if ret == -1 then old(recvBytes) else (old(recvBytes) + ret) % SIZE_T_LIMIT
    {
      var verdict, data := RecvMesg(wire);
      if verdict != Complete {
        return -1, None;
      }
      p := codec.parse(data);
      if p.None? {
        return -1, None;
      }
      ret := |data|;
      recvBytes := (recvBytes + ret) % SIZE_T_LIMIT;
    }
  }

  /**
   One packet over a wire that may hold unread bytes and may pause anywhere: the receiver is
   handed exactly this packet if and only if its first pause comes when precisely its bytes
   have been taken, fewer than the buffer holds; then it gets the packet itself.
   */
  method Exchange<P(!new)>(van: Van, wire: Wire, codec: Codec<P>, p: P) returns (sent: SendResult, got: Option<P>)
    requires Faithful(codec)
    modifies van, wire
    ensures old(wire.calls) <= wire.calls
    ensures var calls, packet := wire.calls[|old(wire.calls)|..], codec.serialize(p);
            && OneLoop(calls)
            && got == (if Judge(calls) == Complete then codec.parse(Bytes(calls)) else None)
            && (sent.Sent? ==>
                  && Bytes(calls) <= old(wire.unread) + packet
                  && (Judge(calls) == Complete && Bytes(calls) == packet
                      <==> && calls[|calls| - 1].Stop? && calls[|calls| - 1].pause != Broken
                           && |Bytes(calls)| == |packet| < 1048576 && packet <= old(wire.unread) + packet))
            && (Judge(calls) == Complete && Bytes(calls) == packet ==> got == Some(p))
  {
    sent := van.Send(wire, codec, p);
    ghost var stream := wire.unread;
    ghost var before := wire.calls;
    var ret;
    ret, got := van.Recv(wire, codec);
    ghost var calls := wire.calls[|before|..];
    if sent.Sent? {
      assert stream == old(wire.unread) + codec.serialize(p) + [];
      ReceivedAsItselfIff(calls, old(wire.unread), codec.serialize(p), []);
    }
  }
}
