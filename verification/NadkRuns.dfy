/** Whole runs of one NADK port, receiving and sending interleaved. The two rings share the packet
    records in memory, so neither side may lose or delete what the other holds. */
module NadkRuns {
  import opened Wrappers
  import opened FifoRing
  import opened NadkQueues

  /** A port, with what the card handed over and took, what callers were returned and had accepted, and
      the records that callers hold. */
  datatype Port = Port(
    records: map<Ptr, Packet>, rx: seq<Ptr>, tx: seq<Ptr>, held: set<Ptr>,
    handed: seq<Packet>, returned: seq<Packet>, accepted: seq<Packet>, sent: seq<Packet>)

  datatype Event =
    | RecvCall(frames: seq<Mbuf>, addrs: seq<Ptr>)
    | SendCall(p: Ptr, made: seq<Option<nat>>, accept: nat)
    | Make(p: Ptr, packet: Packet)
    | Delete(p: Ptr)

  function RxQueue(s: Port): Queue { Queue(s.records, s.rx) }

  function TxQueue(s: Port): Queue { Queue(s.records, s.tx) }

  /** The receiving side: what is queued for sending is held outside of it. */
  function RxSide(s: Port): RxLog { RxLog(RxQueue(s), s.handed, s.returned, s.held + ItemSet(s.tx)) }

  /** The sending side: what is queued for receiving is held outside of it. */
  function TxSide(s: Port): TxLog { TxLog(TxQueue(s), s.accepted, s.sent, s.held + ItemSet(s.rx)) }

  /** Both sides are conserved, and every record is held by a caller or queued on one of the rings. */
  ghost predicate Conserved(s: Port) {
    RxConserved(RxSide(s)) && TxConserved(TxSide(s)) && s.held !! ItemSet(s.rx) && s.held !! ItemSet(s.tx)
  }

  /** An open port, over records that callers already hold. */
  ghost function Start(records: map<Ptr, Packet>): (s: Port)
    requires NULL !in records
    ensures Conserved(s)
  {
    var s := Port(records, [], [], records.Keys, [], [], [], []);
    assert s.held + {} == s.held && ItemSet([]) == {} && Packets(records, []) == [];
    s
  }

  predicate Allowed(s: Port, e: Event) {
    match e
    case RecvCall(frames, addrs) => |addrs| == |frames| <= BUDGET && Unused(s.records, addrs)
    case SendCall(p, made, _) => p in s.held && |made| >= BUDGET
    case Make(p, _) => p != NULL && p !in s.records
    case Delete(p) => p in s.held
  }

  /** One call of fp_nadk_recv or fp_nadk_send, or a caller making or deleting a packet of its own. */
  ghost function Step(s: Port, e: Event): (r: Port)
    requires Conserved(s) && Allowed(s, e)
  {
    match e
    case Make(p, packet) => s.(records := s.records[p := packet], held := s.held + {p})
    case Delete(p) => s.(records := s.records - {p}, held := s.held - {p})
    case RecvCall(frames, addrs) =>
      var (q, p) := Recv(RxQueue(s), frames, addrs);
      s.(records := q.records, rx := q.items,
         held := s.held + (if p in q.records then {p} else {}),
         handed := s.handed + (if |s.rx| < BUDGET then FromMbufs(frames) else []),
         returned := s.returned + (if p in q.records then [q.records[p]] else []))
    case SendCall(p, made, accept) =>
      HeldIsNotQueued(s, p);
      EnqueueSound(TxQueue(s), p);
      var q0, q := Enqueue(TxQueue(s), p), Send(TxQueue(s), p, made, accept);
      var room := |s.tx| < CAPACITY;
      s.(records := q.records, tx := q.items,
         held := s.held - (if room then {p} else {}),
         accepted := s.accepted + (if room then [s.records[p]] else []),
         sent := s.sent + (if |q0.items| >= BUDGET
                           then Packets(q0.records, q0.items[..Accepted(q0, made, accept)]) else []))
  }

  lemma {:induction false} HeldIsNotQueued(s: Port, p: Ptr)
    requires Conserved(s) && p in s.held
    ensures p in s.records && p !in s.tx && p !in s.rx
  {
    assert p in s.tx ==> p in ItemSet(s.tx);
    assert p in s.rx ==> p in ItemSet(s.rx);
  }

  // ---------- Receiving leaves the sending side alone ----------

  /** A receive call keeps every record there was, and adds records under unused addresses only. */
  lemma {:induction false} RecvKeeps(q: Queue, frames: seq<Mbuf>, addrs: seq<Ptr>)
    requires |addrs| == |frames| && Unused(q.records, addrs)
    ensures var r := Recv(q, frames, addrs).0.records;
      forall p | p in q.records :: p in r && r[p] == q.records[p]
  {
    CreateAt(q.records, addrs, FromMbufs(frames));
  }

  lemma {:induction false} ReceiveConserves(s: Port, frames: seq<Mbuf>, addrs: seq<Ptr>)
    requires Conserved(s) && Allowed(s, RecvCall(frames, addrs))
    ensures Conserved(Step(s, RecvCall(frames, addrs)))
  {
    hide Recv, Packets, Unused, Create;
    var e := Receive(frames, addrs);
    var r := Step(s, RecvCall(frames, addrs));
    RxStepConserves(RxSide(s), e);
    RecvKeeps(RxQueue(s), frames, addrs);
    PacketsSame(s.records, r.records, s.tx);
    ReturnedIsNotSending(s, frames, addrs);
    assert RxSide(r) == RxStep(RxSide(s), e) by {
      assert RxSide(r).held == RxStep(RxSide(s), e).held;
    }
    Shares(r);
  }

  /** What a receive call returns or queues is not queued for sending, nor held already. */
  lemma {:induction false} ReturnedIsNotSending(s: Port, frames: seq<Mbuf>, addrs: seq<Ptr>)
    requires Conserved(s) && Allowed(s, RecvCall(frames, addrs))
    ensures var (q, p) := Recv(RxQueue(s), frames, addrs);
      p !in ItemSet(s.tx) && p !in s.held && p !in ItemSet(q.items)
      && s.held !! ItemSet(q.items) && ItemSet(s.tx) !! ItemSet(q.items)
      && s.held !! ItemSet(s.tx)
  {
    hide Create, Packets;
    var q0 := RxQueue(s);
    var q' := if |s.rx| < BUDGET then RecvBatch(q0, frames, addrs) else q0;
    RecvBatchSound(q0, frames, addrs);
    assert Sound(q');
    forall x | x in q'.items ensures x !in s.held && x !in s.tx {
      if x in s.rx {
        assert x in ItemSet(s.rx) && x !in s.held + ItemSet(s.tx);
        assert x in s.tx ==> x in ItemSet(s.tx);
      } else {
        assert x in addrs && x !in s.records;
      }
    }
    if q'.items != [] {
      assert q'.items[0] in q'.items;
      forall x | x in q'.items[1..] ensures x in q'.items && x != q'.items[0] {
        var j :| 0 <= j < |q'.items[1..]| && q'.items[1..][j] == x;
        assert q'.items[j + 1] == x;
      }
    }
  }

  /** With the receiving side accounted for and the sets apart, the sending side is as well. */
  lemma {:induction false} Shares(r: Port)
    requires Accounted(RxQueue(r), r.held + ItemSet(r.tx))
    requires r.held !! ItemSet(r.tx) && r.held !! ItemSet(r.rx) && ItemSet(r.tx) !! ItemSet(r.rx)
    ensures Accounted(TxQueue(r), r.held + ItemSet(r.rx))
  {}

  lemma {:induction false} SharesBack(r: Port)
    requires Accounted(TxQueue(r), r.held + ItemSet(r.rx))
    requires r.held !! ItemSet(r.tx) && r.held !! ItemSet(r.rx) && ItemSet(r.tx) !! ItemSet(r.rx)
    ensures Accounted(RxQueue(r), r.held + ItemSet(r.tx))
  {}

  // ---------- Sending leaves the receiving side alone ----------

  /** A send call deletes only records that were queued for sending or are the packet sent. */
  lemma {:induction false} SendSpares(q: Queue, p: Ptr, made: seq<Option<nat>>, accept: nat, x: Ptr)
    requires Sound(Enqueue(q, p)) && |made| >= BUDGET && x in q.records && x !in Enqueue(q, p).items
    ensures var r := Send(q, p, made, accept).records; x in r && r[x] == q.records[x]
    ensures x !in Send(q, p, made, accept).items
  {
    hide Accepted, Sound;
    var q' := Enqueue(q, p);
    var n := Accepted(q', made, accept);
    assert q'.items == q'.items[..n] + q'.items[n..];
  }

  lemma {:induction false} SendConserves(s: Port, p: Ptr, made: seq<Option<nat>>, accept: nat)
    requires Conserved(s) && Allowed(s, SendCall(p, made, accept))
    ensures Conserved(Step(s, SendCall(p, made, accept)))
    ensures forall x | x in s.rx :: var r := Step(s, SendCall(p, made, accept)).records;
      x in r && r[x] == s.records[x]
  {
    hide Send, Packets, Accepted;
    var e := Transmit(p, made, accept);
    var r := Step(s, SendCall(p, made, accept));
    HeldIsNotQueued(s, p);
    EnqueueSound(TxQueue(s), p);
    TxStepConserves(TxSide(s), e);
    RxNotTx(s);
    forall x | x in s.rx
      ensures x in r.records && r.records[x] == s.records[x] && x !in r.tx
    {
      SendSpares(TxQueue(s), p, made, accept, x);
    }
    PacketsSame(s.records, r.records, s.rx);
    assert ItemSet(r.tx) !! ItemSet(r.rx) && p !in ItemSet(r.rx);
    assert TxSide(r) == TxStep(TxSide(s), e) by {
      assert TxSide(r).held == TxStep(TxSide(s), e).held;
    }
    SharesBack(r);
  }

  lemma {:induction false} RxNotTx(s: Port)
    requires Conserved(s)
    ensures forall x | x in s.rx :: x in s.records && x !in s.tx
  {
    forall x | x in s.rx ensures x !in s.tx {
      assert x in ItemSet(s.rx);
      assert x in s.tx ==> x in ItemSet(s.tx);
    }
  }

  /** A packet is accepted exactly while fewer than 31 are queued. */
  lemma {:induction false} AcceptedBelow31(s: Port, p: Ptr, made: seq<Option<nat>>, accept: nat)
    requires Conserved(s) && Allowed(s, SendCall(p, made, accept))
    ensures var r := Step(s, SendCall(p, made, accept));
      if |s.tx| < 31 then r.accepted == s.accepted + [s.records[p]] && r.held == s.held - {p}
      else r.accepted == s.accepted && r.held == s.held
  {
    HeldIsNotQueued(s, p);
  }

  // ---------- Runs ----------

  lemma {:induction false} StepConserves(s: Port, e: Event)
    requires Conserved(s) && Allowed(s, e)
    ensures Conserved(Step(s, e))
  {
    match e
    case RecvCall(frames, addrs) => ReceiveConserves(s, frames, addrs);
    case SendCall(p, made, accept) => SendConserves(s, p, made, accept);
    case Make(p, packet) => MakeConserves(s, p, packet);
    case Delete(p) => DeleteConserves(s, p);
  }

  lemma {:induction false} MakeConserves(s: Port, p: Ptr, packet: Packet)
    requires Conserved(s) && Allowed(s, Make(p, packet))
    ensures Conserved(Step(s, Make(p, packet)))
  {
    var r := Step(s, Make(p, packet));
    NewSound(RxQueue(s), p, packet, s.held + ItemSet(s.tx));
    NewSound(TxQueue(s), p, packet, s.held + ItemSet(s.rx));
    assert r.held + ItemSet(s.tx) == s.held + ItemSet(s.tx) + {p};
    assert r.held + ItemSet(s.rx) == s.held + ItemSet(s.rx) + {p};
  }

  lemma {:induction false} DeleteConserves(s: Port, p: Ptr)
    requires Conserved(s) && Allowed(s, Delete(p))
    ensures Conserved(Step(s, Delete(p)))
  {
    var r := Step(s, Delete(p));
    HeldIsNotQueued(s, p);
    ReleaseSound(RxQueue(s), p);
    ReleaseSound(TxQueue(s), p);
    assert Accounted(RxQueue(r), s.held + ItemSet(s.tx) - {p});
    assert Accounted(TxQueue(r), s.held + ItemSet(s.rx) - {p});
    assert r.held + ItemSet(s.tx) == s.held + ItemSet(s.tx) - {p};
    assert r.held + ItemSet(s.rx) == s.held + ItemSet(s.rx) - {p};
  }

  ghost predicate RunAllowed(s: Port, es: seq<Event>)
    requires Conserved(s)
    decreases es
  {
    es == []
    || (Allowed(s, es[0]) && (StepConserves(s, es[0]); RunAllowed(Step(s, es[0]), es[1..])))
  }

  ghost function Run(s: Port, es: seq<Event>): (r: Port)
    requires Conserved(s) && RunAllowed(s, es)
    ensures Conserved(r)
    decreases es
  {
    if es == [] then s
    else
      StepConserves(s, es[0]);
      Run(Step(s, es[0]), es[1..])
  }

  /** Over every run of an open port, its calls interleaved in any way: the packets handed over are those
      returned followed by those queued, the packets accepted are those sent followed by those queued, in
      order; and each record in memory is held by a caller, queued for receiving or queued for sending,
      in one place only and once. */
  lemma {:induction false} PortConservation(records: map<Ptr, Packet>, es: seq<Event>)
    requires NULL !in records && RunAllowed(Start(records), es)
    ensures var s := Run(Start(records), es);
      Sound(RxQueue(s)) && Sound(TxQueue(s))
      && s.handed == s.returned + Packets(s.records, s.rx)
      && s.accepted == s.sent + Packets(s.records, s.tx)
      && s.records.Keys == s.held + ItemSet(s.rx) + ItemSet(s.tx)
      && s.held !! ItemSet(s.rx) && s.held !! ItemSet(s.tx) && ItemSet(s.rx) !! ItemSet(s.tx)
      && |s.rx| <= 31 && |s.tx| <= 31
  {
    var s := Run(Start(records), es);
    assert s.held + ItemSet(s.tx) + ItemSet(s.rx) == s.held + ItemSet(s.rx) + ItemSet(s.tx);
  }
}
