/** The state of one keep-alive channel and what its queue and sender thread do to it. */
module Channels {
  import opened Sequences
  import opened Protocol

  /** One packet sent on a descriptor: whether that worked, and whether an answer could be read. */
  datatype Attempt = Attempt(fd: int, packet: Packet, sent: bool, acked: bool)
  {
    /** Each of the two failures closes the descriptor, so it may be closed twice. */
    function Closes(): seq<int> {
      (if sent then [] else [fd]) + (if acked then [] else [fd])
    }
  }

  /** `hand` is the packet the sender thread has popped and not yet sent; `attempts` is history. */
  datatype Channel = Channel(fd: int, queue: seq<Packet>, hand: Option<Packet>, attempts: seq<Attempt>)
  {
    function SetFd(fd: int): Channel {
      this.(fd := fd)
    }

    function Clear(): Channel {
      this.(queue := [])
    }

    function Push(p: Packet): Channel {
      this.(queue := queue + [p])
    }

    /** `WaitAndPop` by the sender thread: one packet at a time. */
    function Take(): Channel {
      if hand.Some? || queue == [] then this
      else this.(queue := queue[1..], hand := Some(queue[0]))
    }

    /** The sender thread sends what it holds on the current descriptor, and drops it whatever happens. */
    function Send(sent: bool, acked: bool): Channel {
      if hand.None? then this
      else this.(hand := None, attempts := attempts + [Attempt(fd, hand.value, sent, acked)])
    }

    function Held(): seq<Packet> {
      if hand.Some? then [hand.value] else []
    }

    function Attempted(): seq<Packet> {
      seq(|attempts|, i requires 0 <= i < |attempts| => attempts[i].packet)
    }

    /** Everything the channel has sent, is sending, or will send if left alone. */
    function Flow(): seq<Packet> {
      Attempted() + Held() + queue
    }
  }

  function Open(fd: int): Channel {
    Channel(fd, [], None, [])
  }

  /** Taking and sending move packets along the channel without changing their order. */
  lemma MovesKeepFlow(c: Channel, sent: bool, acked: bool)
    ensures c.Take().Flow() == c.Flow()
    ensures c.Send(sent, acked).Flow() == c.Flow()
  {
    if c.hand.None? && c.queue != [] {
      assert c.queue == [c.queue[0]] + c.queue[1..];
    }
    if c.hand.Some? {
      assert c.Send(sent, acked).Attempted() == c.Attempted() + [c.hand.value];
    }
  }

  lemma PushExtendsFlow(c: Channel, p: Packet)
    ensures c.Push(p).Flow() == c.Flow() + [p]
  {
  }

  /** A reconnect drops the queue: what is left was sent before, or is the one packet in hand. */
  lemma ReconnectCutsFlow(c: Channel, fd: int)
    ensures c.SetFd(fd).Clear().Flow() == c.Attempted() + c.Held()
    ensures c.Attempted() + c.Held() == c.Flow()[..|c.attempts| + |c.Held()|]
    ensures |c.Held()| <= 1
  {
    assert c.SetFd(fd).Clear().Flow() == c.Attempted() + c.Held();
  }
}
