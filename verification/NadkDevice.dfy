/** An open NADK port: its two rings, and the calls fp_nadk_recv and fp_nadk_send with their batch
    operations. What the card and the allocator would return is passed in. */
module NadkDevice {
  import opened Wrappers
  import opened FifoRing
  import opened NadkQueues

  class NadkPort {
    const rx: Ring
    const tx: Ring
    var records: map<Ptr, Packet>  // the packet records in memory

    ghost predicate Valid()
      reads this, rx, rx.ring, tx, tx.ring
    {
      rx != tx && rx.ring != tx.ring && rx.num == SLOTS && tx.num == SLOTS
      && rx.Valid() && tx.Valid()
      && Sound(RxQueue()) && Sound(TxQueue())
      && forall p | p in rx.Contents() :: p !in tx.Contents()
    }

    ghost function RxQueue(): Queue
      requires rx.Valid()
      reads this, rx, rx.ring
    {
      Queue(records, rx.Contents())
    }

    ghost function TxQueue(): Queue
      requires tx.Valid()
      reads this, tx, tx.ring
    {
      Queue(records, tx.Contents())
    }

    /** fp_nadk_open, over records that exist already. */
    constructor (records: map<Ptr, Packet>)
      requires NULL !in records
      ensures Valid() && RxQueue() == Queue(records, []) && TxQueue() == Queue(records, [])
    {
      rx := new Ring(SLOTS);
      tx := new Ring(SLOTS);
      this.records := records;
    }

    // ---------- Receiving ----------

    /** fp_packet_create for every frame. */
    method CreatePackets(frames: seq<Mbuf>, addrs: seq<Ptr>)
      requires |addrs| == |frames|
      modifies this
      ensures records == Create(old(records), addrs, FromMbufs(frames))
      ensures Unused(old(records), addrs) ==>
        forall i | 0 <= i < |frames| :: addrs[i] in records && IsFrame(records[addrs[i]], frames[i])
    {
      ghost var ps := FromMbufs(frames);
      for i := 0 to |frames|
        invariant records == Create(old(records), addrs[..i], ps[..i])
      {
        records := records[addrs[i] := FromMbuf(frames[i])];
        CreateOneMore(old(records), addrs[..i + 1], ps[..i + 1]);
        assert addrs[..i + 1][..i] == addrs[..i] && ps[..i + 1][..i] == ps[..i];
      }
      assert addrs[..|frames|] == addrs && ps[..|frames|] == ps;
      if Unused(old(records), addrs) {
        CreatedFrames(old(records), addrs, frames);
      }
    }

    /** One request to the card, which hands over `frames`. */
    method RecvBatch(frames: seq<Mbuf>, addrs: seq<Ptr>) returns (r: int)
      requires Valid() && |addrs| == |frames| && Unused(records, addrs)
      modifies this, rx, rx.ring
      ensures Valid() && RxQueue() == NadkQueues.RecvBatch(old(RxQueue()), frames, addrs)
      ensures tx.Contents() == old(tx.Contents())
      ensures r == if |frames| <= 31 - |old(rx.Contents())| then |frames| else 31 - |old(rx.Contents())|
      ensures rx.Contents() == old(rx.Contents()) + addrs[..r]
      ensures forall i | 0 <= i < |frames| :: addrs[i] in records && IsFrame(records[addrs[i]], frames[i])
      ensures forall x | x in old(records) :: x in records && records[x] == old(records)[x]
    {
      hide Create, rx.Contents;
      RecvBatchSound(RxQueue(), frames, addrs);
      CreateAt(records, addrs, FromMbufs(frames));
      CreatedFrames(records, addrs, frames);
      if |frames| == 0 {
        assert addrs == [] && rx.Contents() + addrs == rx.Contents();
        return 0;
      }
      CreatePackets(frames, addrs);
      r := rx.PushN(addrs, |frames|);
    }

    method Recv(frames: seq<Mbuf>, addrs: seq<Ptr>) returns (p: Ptr)
      requires Valid() && |addrs| == |frames| && Unused(records, addrs)
      modifies this, rx, rx.ring
      ensures Valid() && (RxQueue(), p) == NadkQueues.Recv(old(RxQueue()), frames, addrs)
      ensures tx.Contents() == old(tx.Contents())
      ensures p == if old(rx.Contents()) != [] then old(rx.Contents())[0] else if frames == [] then NULL else addrs[0]
      ensures |old(rx.Contents())| >= 16 ==> records == old(records)
      ensures |old(rx.Contents())| < 16 ==>
        forall i | 0 <= i < |frames| :: addrs[i] in records && IsFrame(records[addrs[i]], frames[i])
      ensures forall x | x in old(records) :: x in records && records[x] == old(records)[x]
    {
      hide rx.Contents, Sound;
      var count := rx.Count();
      if count < BUDGET {
        var r := RecvBatch(frames, addrs);
      }
      PoppedSound(RxQueue());
      p := rx.Pop();
    }

    lemma {:induction false} PoppedSound(q: Queue)
      requires Sound(q)
      ensures Sound(q.(items := Popped(q.items).0))
      ensures forall x | x in Popped(q.items).0 :: x in q.items
    {
      if q.items != [] {
        TakeFirst(q);
      }
    }

    // ---------- Sending ----------

    /** Puts the packets of the batch in card buffers, up to the first that gets none. */
    method Prepare(batch: seq<Ptr>, made: seq<Option<nat>>) returns (bufs: seq<nat>)
      requires (forall p | p in batch :: p in records) && |made| >= |batch|
      ensures |bufs| == Prepared(Packets(records, batch), made)
      ensures |bufs| <= |batch| && StopsAt(Packets(records, batch), made, |bufs|)
      ensures forall i | 0 <= i < |bufs| ::
        if records[batch[i]].dev == NadkBuf then bufs[i] == records[batch[i]].handle else made[i] == Some(bufs[i])
    {
      hide Prepared;
      ghost var ps := Packets(records, batch);
      PreparedStops(ps, made, Prepared(ps, made));
      bufs := [];
      for i := 0 to |batch|
        invariant |bufs| == i && i + Prepared(ps[i..], made[i..]) == Prepared(ps, made)
        invariant forall j | 0 <= j < i ::
          if records[batch[j]].dev == NadkBuf then bufs[j] == records[batch[j]].handle else made[j] == Some(bufs[j])
      {
        PreparedTurn(ps, made, i);
        if records[batch[i]].dev == NadkBuf {
          bufs := bufs + [records[batch[i]].handle];
        } else if made[i].None? {
          return;
        } else {
          bufs := bufs + [made[i].value];
        }
      }
    }

    /** fp_packet_delete for every packet taken by the card. */
    method DeletePackets(sent: seq<Ptr>)
      modifies this
      ensures records == old(records) - ItemSet(sent)
    {
      for i := 0 to |sent|
        invariant records == old(records) - ItemSet(sent[..i])
      {
        records := records - {sent[i]};
        assert sent[..i + 1] == sent[..i] + [sent[i]];
      }
      assert sent[..|sent|] == sent;
    }

    /** Offers the card a batch, of which it takes the first `accept`, or fewer if there are fewer.
        Returns how many, and the buffers they went out in. A negative answer to an offer is taken for a
        count like any other and moves the head of the queue back. */
    method SendBatch(made: seq<Option<nat>>, accept: int) returns (sent: int, wire: seq<nat>)
      requires Valid() && |made| >= BUDGET
      modifies this, tx`head
      ensures rx.Contents() == old(rx.Contents())
      ensures accept >= 0 ==>
        Valid() && TxQueue() == NadkQueues.SendBatch(old(TxQueue()), made, accept)
        && |wire| == sent == Accepted(old(TxQueue()), made, accept)
      ensures GoesOut(old(TxQueue()), made, accept, wire)
      ensures accept < 0 ==> records == old(records) && wire == []
      ensures accept < 0 && Accepted(old(TxQueue()), made, BUDGET) == 0 ==> sent == 0 && tx.head == old(tx.head)
      ensures accept < 0 && Accepted(old(TxQueue()), made, BUDGET) != 0 ==>
        sent == accept && tx.head == old(tx.head) + accept
    {
      hide tx.Contents, Packets, Prepared, Accepted, NadkQueues.SendBatch, Sound, GoesOut, StopsAt;
      ghost var q := TxQueue();
      var slots := new Ptr[BUDGET];
      var num := tx.TopN(slots, BUDGET);
      var batch := slots[..num];
      assert batch == q.items[..Moved(BUDGET, |q.items|)];
      ghost var n := BatchPlan(q, batch, made, if accept < 0 then BUDGET else accept);
      var bufs := Prepare(batch, made);
      PreparedGoesOut(q, batch, made, accept, bufs);
      if |bufs| == 0 {
        return 0, bufs;
      }
      sent := if accept <= |bufs| then accept else |bufs|;
      if sent < 0 {
        var removed := tx.RemoveN(sent);
        return sent, bufs[..0];
      }
      wire := bufs[..sent];
      Discard(batch[..sent]);
    }

    /** What a batch comes to, once its prepared packets have been offered to the card. */
    lemma {:induction false} BatchPlan(q: Queue, batch: seq<Ptr>, made: seq<Option<nat>>, accept: nat) returns (n: nat)
      requires Sound(q) && |made| >= BUDGET && batch == q.items[..Moved(BUDGET, |q.items|)]
      ensures n == Accepted(q, made, accept) == Moved(accept, Prepared(Packets(q.records, batch), made))
      ensures n <= |batch| && batch[..n] <= q.items && forall p | p in batch :: p in q.records
      ensures NadkQueues.SendBatch(q, made, accept)
           == Queue(q.records - ItemSet(batch[..n]), q.items[n..])
      ensures Sound(NadkQueues.SendBatch(q, made, accept))
      ensures n == 0 ==> NadkQueues.SendBatch(q, made, accept) == q
      ensures forall i | 0 <= i < |batch| :: batch[i] == q.items[i]
    {
      n := Accepted(q, made, accept);
      assert batch[..n] == q.items[..n];
      SendBatchSound(q, made, accept);
      if n == 0 {
        NothingSent(q, made, accept);
      }
    }

    /** Deletes the packets the card took and removes them from the queue. */
    method Discard(taken: seq<Ptr>)
      requires Valid() && taken <= tx.Contents()
      requires Sound(Queue(records - ItemSet(taken), tx.Contents()[|taken|..]))
      modifies this, tx`head
      ensures Valid() && rx.Contents() == old(rx.Contents())
      ensures TxQueue() == Queue(old(records) - ItemSet(taken), old(tx.Contents())[|taken|..])
    {
      hide tx.Contents;
      RestApart(tx.Contents(), |taken|, rx.Contents());
      DeletePackets(taken);
      var removed := tx.RemoveN(|taken|);
    }

    lemma {:induction false} NothingSent(q: Queue, made: seq<Option<nat>>, accept: nat)
      requires Sound(q) && |made| >= BUDGET && Accepted(q, made, accept) == 0
      ensures NadkQueues.SendBatch(q, made, accept) == q
    {
      assert q.items[..0] == [] && q.items[0..] == q.items;
      assert q.records - {} == q.records;
    }

    /** What is not sent is still apart from what is received. */
    lemma {:induction false} RestApart(items: seq<Ptr>, n: nat, others: seq<Ptr>)
      requires n <= |items| && forall p | p in others :: p !in items
      ensures forall p | p in others :: p !in items[n..] && p !in items[..n]
    {
      assert items == items[..n] + items[n..];
    }

    /** A packet that does not fit is not accepted, and stays with the caller. A negative answer of the
        card is passed on to the ring. */
    method Send(p: Ptr, made: seq<Option<nat>>, accept: int) returns (num: int, ghost wire: seq<nat>)
      requires Valid() && |made| >= BUDGET
      requires p in records && p !in tx.Contents() && p !in rx.Contents()
      modifies this, tx, tx.ring
      ensures Sound(Enqueue(old(TxQueue()), p)) && rx.Contents() == old(rx.Contents())
      ensures num == if |old(tx.Contents())| < 31 then 1 else 0
      ensures if |Enqueue(old(TxQueue()), p).items| < 16 then wire == []
              else GoesOut(Enqueue(old(TxQueue()), p), made, accept, wire)
      ensures accept >= 0 || |Enqueue(old(TxQueue()), p).items| < BUDGET ==>
        Valid() && TxQueue() == NadkQueues.Send(old(TxQueue()), p, made, if accept < 0 then 0 else accept)
      ensures accept < 0 ==> records == old(records)
      ensures accept < 0 && |Enqueue(old(TxQueue()), p).items| >= BUDGET ==>
        tx.head == old(tx.head) + if Accepted(Enqueue(old(TxQueue()), p), made, BUDGET) == 0 then 0 else accept
    {
      EnqueueSound(TxQueue(), p);
      num := tx.Push(p);
      wire := [];
      assert TxQueue() == Enqueue(old(TxQueue()), p);
      var count := tx.Count();
      if count >= BUDGET {
        var sent, bufs := SendBatch(made, accept);
        wire := bufs;
      }
    }
  }
}
