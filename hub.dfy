/**
 * Membership and fan-out of the broadcast hub (backend/hub.go). The three
 * arms of the hub's event loop become the methods Register, Unregister and
 * Broadcast; the channels feeding them become direct calls. A client's
 * outbound channel is its mailbox: a bounded sequence of batches and a
 * closed flag.
 */
module Broadcast {
  import opened Pixels
  import Queue

  /** Capacity of every client's outbound channel (backend/server.go:109). */
  const SendBufferSize: nat := 256

  /** One consumer connection, seen through its outbound channel. */
  class Client {
    var mailbox: seq<seq<PixelUpdate>>
    var closed: bool

    /** A freshly upgraded connection: an empty, open channel. */
    constructor ()
      ensures mailbox == [] && !closed
    {
      mailbox := [];
      closed := false;
    }

    /**
     * A non-blocking send: the batch is buffered when the channel has room
     * and refused otherwise. Sending on a closed channel is an error in the
     * source, hence the precondition.
     */
    method TrySend(batch: seq<PixelUpdate>) returns (sent: bool)
      requires !closed
      modifies this
      ensures sent <==> old(|mailbox|) < SendBufferSize
      ensures mailbox == if sent then old(mailbox) + [batch] else old(mailbox)
      ensures !closed
    {
      sent := |mailbox| < SendBufferSize;
      if sent {
        mailbox := mailbox + [batch];
      }
    }

    /** Closes the channel; closing it twice is an error in the source. */
    method Close()
      requires !closed
      modifies this
      ensures closed && mailbox == old(mailbox)
    {
      closed := true;
    }
  }

  class Hub {
    var clients: set<Client>
    const queue: Queue.PixelQueue

    /** Every registered client has an open mailbox within capacity. */
    ghost predicate Valid()
      reads this, clients
    {
      forall c :: c in clients ==> !c.closed && |c.mailbox| <= SendBufferSize
    }

    /** NewHub: no clients yet. */
    constructor (queue: Queue.PixelQueue)
      ensures Valid()
      ensures clients == {} && this.queue == queue
    {
      clients := {};
      this.queue := queue;
    }

    /**
     * The register arm. Its only caller hands it a newly created connection,
     * hence an open, within-capacity mailbox; registering a client twice
     * leaves the set as it was.
     */
    method Register(c: Client)
      requires Valid()
      requires !c.closed && |c.mailbox| <= SendBufferSize
      modifies this
      ensures Valid()
      ensures clients == old(clients) + {c}
      ensures old(c in clients) ==> clients == old(clients)
    {
      clients := clients + {c};
    }

    /**
     * The unregister arm: a registered client is removed and its mailbox
     * closed; any other client, one already evicted included, changes nothing.
     */
    method Unregister(c: Client)
      requires Valid()
      modifies this, c
      ensures Valid()
      ensures old(c in clients) ==> clients == old(clients) - {c} && c.closed && c.mailbox == old(c.mailbox)
      ensures old(c !in clients) ==> clients == old(clients) && c.closed == old(c.closed) && c.mailbox == old(c.mailbox)
    {
      if c in clients {
        clients := clients - {c};
        c.Close();
      }
    }

    /**
     * The broadcast arm: every registered client with room gets the batch at
     * the tail of its mailbox; every client whose mailbox is full is removed
     * and closed with its mailbox untouched. Each client's fate depends on
     * its own mailbox only.
     */
    method Broadcast(batch: seq<PixelUpdate>)
      requires Valid()
      modifies this, clients
      ensures Valid()
      ensures clients == set c | c in old(clients) && old(|c.mailbox|) < SendBufferSize
      ensures forall c :: c in old(clients) && old(|c.mailbox|) < SendBufferSize ==>
        !c.closed && c.mailbox == old(c.mailbox) + [batch]
      ensures forall c :: c in old(clients) && old(|c.mailbox|) >= SendBufferSize ==>
        c.closed && c.mailbox == old(c.mailbox)
    {
      var pending := clients;
      while pending != {}
        invariant pending <= clients <= old(clients)
        invariant forall c :: c in pending ==> c.mailbox == old(c.mailbox) && !c.closed
        invariant forall c :: c in old(clients) && c !in pending ==>
          if old(|c.mailbox|) < SendBufferSize
          then c in clients && !c.closed && c.mailbox == old(c.mailbox) + [batch]
          else c !in clients && c.closed && c.mailbox == old(c.mailbox)
        decreases pending
      {
        var c :| c in pending;
        var sent := c.TrySend(batch);
        if !sent {
          c.Close();
          clients := clients - {c};
        }
        pending := pending - {c};
      }
    }
  }
}
