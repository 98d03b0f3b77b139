/**
 The blocking queue and the keep-alive sender as the objects the server shares, and the pools of
 the running server: challenges, tokens, deferred messages and senders.
 */
module UserManager {
  import opened Sequences
  import opened Protocol
  import opened Channels
  import opened Handlers

  /** Each method is one critical section of the queue's mutex. */
  class ThreadsafeQueue<T> {
    var queue: seq<T>

    constructor ()
      ensures queue == []
    {
      queue := [];
    }

    method Push(x: T)
      modifies this
      ensures queue == old(queue) + [x]
    {
      queue := queue + [x];
    }

    /** One wake-up: an item if there is any, otherwise the caller goes on waiting. */
    method WaitAndPop() returns (x: Option<T>)
      modifies this
      ensures x.None? <==> old(queue) == []
      ensures x.None? ==> queue == []
      ensures x.Some? ==> old(queue) == [x.value] + queue
    {
      if queue == [] {
        return None;
      }
      x := Some(queue[0]);
      queue := queue[1..];
    }

    method Clear()
      modifies this
      ensures queue == []
    {
      while queue != [] {
        queue := queue[1..];
      }
    }
  }

  class KeepAliveMsgSender {
    const uid: int
    const msgQueue: ThreadsafeQueue<Packet>
    var fd: int
    var hand: Option<Packet>
    ghost var attempts: seq<Attempt>

    ghost function View(): Channel
      reads this, msgQueue
    {
      Channel(fd, msgQueue.queue, hand, attempts)
    }

    constructor (uid: int, fd: int)
      ensures this.uid == uid && fresh(msgQueue)
      ensures View() == Open(fd)
    {
      this.uid, this.fd, this.hand, this.attempts := uid, fd, None, [];
      this.msgQueue := new ThreadsafeQueue();
    }

    method SetFd(fd: int)
      modifies this`fd
      ensures View() == old(View()).SetFd(fd)
    {
      this.fd := fd;
    }

    method AddSendTask(p: Packet)
      modifies msgQueue
      ensures View() == old(View()).Push(p)
    {
      msgQueue.Push(p);
    }

    method Clear()
      modifies msgQueue
      ensures View() == old(View()).Clear()
    {
      msgQueue.Clear();
    }

    /** The first half of the sender loop: wait for a packet and take it. */
    method TakeNext()
      modifies this`hand, msgQueue
      ensures View() == old(View()).Take()
    {
      if hand.None? {
        hand := msgQueue.WaitAndPop();
      }
    }

    /**
     The second half, under the descriptor's mutex: send, then read the acknowledgement, each
     of which closes the descriptor if it fails. The packet is dropped in any case, and the
     descriptor stays in use.
     */
    method SendHeld(sent: bool, acked: bool) returns (closes: seq<int>)
      modifies this`hand, this`attempts
      ensures View() == old(View()).Send(sent, acked)
      ensures closes == if old(hand).None? then [] else attempts[|attempts| - 1].Closes()
    {
      closes := [];
      if hand.None? {
        return;
      }
      if !sent {
        closes := closes + [fd];
      }
      if !acked {
        closes := closes + [fd];
      }
      attempts := attempts + [Attempt(fd, hand.value, sent, acked)];
      hand := None;
    }
  }

  /** Pointers to senders that were handed out stay good: nobody's sender is replaced or removed. */
  predicate SendersKept(a: map<int, KeepAliveMsgSender>, b: map<int, KeepAliveMsgSender>) {
    forall u :: u in a ==> u in b && b[u] == a[u]
  }

  class UM {
    var challengePool: map<int, string>
    var tokenPool: map<string, int>
    var fileMsgPool: map<string, Deferred>
    var senders: map<int, KeepAliveMsgSender>
    ghost var channels: map<int, Channel>  // what the senders hold

    ghost function Queues(): set<ThreadsafeQueue<Packet>>
      reads this`senders
    {
      set u | u in senders :: senders[u].msgQueue
    }

    /** Every sender is filed under its own user, no two share a queue, and `channels` is accurate. */
    ghost predicate Valid()
      reads this`senders, this`channels, senders.Values, Queues()
    {
      && channels.Keys == senders.Keys
      && (forall u :: u in senders ==> senders[u].uid == u && channels[u] == senders[u].View())
      && (forall u, v :: u in senders && v in senders && u != v ==> senders[u].msgQueue != senders[v].msgQueue)
    }

    constructor ()
      ensures Valid() && channels == map[]
      ensures challengePool == map[] && tokenPool == map[] && fileMsgPool == map[]
    {
      challengePool, tokenPool, fileMsgPool, senders, channels := map[], map[], map[], map[], map[];
    }

    method SetChallengeMp(id: int, challenge: string)
      modifies this`challengePool
      ensures challengePool == old(challengePool)[id := challenge]
      ensures old(Valid()) ==> Valid()
    {
      challengePool := challengePool[id := challenge];
    }

    method GetChallengeMp(id: int) returns (challenge: string)
      ensures challenge == ChallengeOf(challengePool, id)
    {
      if id in challengePool {
        return challengePool[id];
      } else {
        return "";
      }
    }

    method DelChallengeMp(id: int)
      modifies this`challengePool
      ensures challengePool == old(challengePool) - {id}
      ensures old(Valid()) ==> Valid()
    {
      if id in challengePool {
        challengePool := challengePool - {id};
      }
    }

    method GetUserIdByToken(token: string) returns (uid: int)
      ensures uid == UserOf(tokenPool, token)
    {
      if token == "" {
        return 0;
      }
      if token in tokenPool {
        return tokenPool[token];
      } else {
        return 0;
      }
    }

    method SetUserIdByToken(token: string, uid: int)
      modifies this`tokenPool
      ensures tokenPool == old(tokenPool)[token := uid]
      ensures old(Valid()) ==> Valid()
    {
      tokenPool := tokenPool[token := uid];
    }

    /** A second setup reuses the sender object, so pointers handed out earlier stay good. */
    method SetKpAliveSender(uid: int, fd: int)
      requires Valid()
      modifies this`senders, this`channels, senders.Values, Queues()
      ensures Valid()
      ensures channels == Reconnect(old(channels), uid, fd)
      ensures SendersKept(old(senders), senders) && (uid in old(senders) ==> senders == old(senders))
      ensures uid in senders && senders == old(senders)[uid := senders[uid]]
      ensures uid !in old(senders) ==> fresh(senders[uid]) && fresh(senders[uid].msgQueue)
    {
      if uid in senders {
        senders[uid].SetFd(fd);
        senders[uid].Clear();
      } else {
        var sender := new KeepAliveMsgSender(uid, fd);
        senders := senders[uid := sender];
      }
      channels := Reconnect(channels, uid, fd);
    }

    method GetSender(id: int) returns (sender: KeepAliveMsgSender?)
      ensures sender == if id != 0 && id in senders then senders[id] else null
    {
      if id == 0 {
        return null;
      }
      if id in senders {
        return senders[id];
      } else {
        return null;
      }
    }

    method IsOnline(uid: int) returns (online: bool)
      ensures online <==> uid != 0 && uid in senders
    {
      var sender := GetSender(uid);
      return sender != null;
    }

    /** Queues a packet on the sender of `uid` and on no other. */
    method AddSendTask(uid: int, p: Packet)
      requires Valid() && uid in senders
      modifies this`channels, senders[uid].msgQueue
      ensures Valid() && channels == old(channels)[uid := old(channels)[uid].Push(p)]
    {
      senders[uid].AddSendTask(p);
      channels := channels[uid := channels[uid].Push(p)];
    }

    /** The sender thread of `uid` takes the next packet. */
    method TakeNext(uid: int)
      requires Valid() && uid in senders
      modifies this`channels, senders[uid], senders[uid].msgQueue
      ensures Valid() && channels == old(channels)[uid := old(channels)[uid].Take()]
    {
      senders[uid].TakeNext();
      channels := channels[uid := channels[uid].Take()];
    }

    /** The sender thread of `uid` sends the packet it holds. */
    method SendHeld(uid: int, sent: bool, acked: bool) returns (closes: seq<int>)
      requires Valid() && uid in senders
      modifies this`channels, senders[uid]
      ensures Valid() && channels == old(channels)[uid := old(channels)[uid].Send(sent, acked)]
      ensures closes == if old(senders[uid].hand).None? then [] else
                        Attempt(senders[uid].fd, old(senders[uid].hand).value, sent, acked).Closes()
    {
      closes := senders[uid].SendHeld(sent, acked);
      channels := channels[uid := channels[uid].Send(sent, acked)];
    }

    method SetFileMsg(fileId: string, uid: int, m: Message)
      modifies this`fileMsgPool
      ensures fileMsgPool == old(fileMsgPool)[fileId := Deferred(uid, m)]
      ensures old(Valid()) ==> Valid()
    {
      fileMsgPool := fileMsgPool[fileId := Deferred(uid, m)];
    }

    method DelFileMsg(fileId: string)
      modifies this`fileMsgPool
      ensures fileMsgPool == old(fileMsgPool) - {fileId}
      ensures old(Valid()) ==> Valid()
    {
      if fileId in fileMsgPool {
        fileMsgPool := fileMsgPool - {fileId};
      }
    }

    /** Receiver 0 and an empty message stand for "no such file message". */
    method GetFileMsg(fileId: string) returns (receiver: int, m: Message)
      ensures fileId in fileMsgPool ==> Deferred(receiver, m) == fileMsgPool[fileId]
      ensures fileId !in fileMsgPool ==> receiver == 0 && m == NO_DEFERRED
    {
      if fileId in fileMsgPool {
        return fileMsgPool[fileId].receiver, fileMsgPool[fileId].message;
      } else {
        return 0, NO_DEFERRED;
      }
    }
  }
}
