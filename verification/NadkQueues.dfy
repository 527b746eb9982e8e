/** The receive and transmit queues of a NADK port (flowpath/port_nadk.c), as state machines over a
    bounded queue of packet records. The network card is the environment: it hands over up to a
    budget of frames, and accepts any prefix of what it is offered. */
module NadkQueues {
  import opened Wrappers
  import opened FifoRing
  import opened Sequences

  const BUDGET: nat := 16           // NADK_FP_RX_BUDGET
  const SLOTS: nat := 2 * BUDGET    // slots of each ring
  const CAPACITY: nat := SLOTS - 1  // of which one stays free

  /** A frame buffer of the card. */
  datatype Mbuf = Mbuf(data: nat, length: nat, timestamp: nat, handle: nat)

  datatype Device = NadkBuf | OtherBuf

  /** A packet record; `handle` is the card's buffer when the packet came from the card. */
  datatype Packet = Packet(data: nat, size: nat, timestamp: nat, handle: nat, dev: Device)

  function FromMbuf(m: Mbuf): Packet { Packet(m.data, m.length, m.timestamp, m.handle, NadkBuf) }

  function FromMbufs(ms: seq<Mbuf>): seq<Packet> { seq(|ms|, i requires 0 <= i < |ms| => FromMbuf(ms[i])) }

  /** The packet is the frame, field by field, in the card's own buffer. */
  predicate IsFrame(p: Packet, m: Mbuf) {
    p.data == m.data && p.size == m.length && p.timestamp == m.timestamp && p.handle == m.handle
    && p.dev == NadkBuf
  }

  /** The packet records in memory, and the queue of pointers to them. */
  datatype Queue = Queue(records: map<Ptr, Packet>, items: seq<Ptr>)

  /** What is queued is in memory, and nothing is queued twice. */
  ghost predicate Sound(q: Queue) {
    |q.items| <= CAPACITY
    && NULL !in q.records.Keys
    && (forall p | p in q.items :: p in q.records)
    && forall i, j | 0 <= i < j < |q.items| :: q.items[i] != q.items[j]
  }

  function ItemSet(ps: seq<Ptr>): set<Ptr> { set p | p in ps }

  function Packets(records: map<Ptr, Packet>, ps: seq<Ptr>): (r: seq<Packet>)
    requires forall p | p in ps :: p in records
    ensures |r| == |ps| && forall i | 0 <= i < |ps| :: r[i] == records[ps[i]]
  {
    if ps == [] then [] else [records[ps[0]]] + Packets(records, ps[1..])
  }

  /** Memory the allocator may return: addresses in no use. */
  predicate Unused(records: map<Ptr, Packet>, addrs: seq<Ptr>) {
    NULL !in addrs && (forall p | p in addrs :: p !in records)
    && forall i, j | 0 <= i < j < |addrs| :: addrs[i] != addrs[j]
  }

  function Create(records: map<Ptr, Packet>, addrs: seq<Ptr>, ps: seq<Packet>): (r: map<Ptr, Packet>)
    requires |addrs| == |ps|
    decreases addrs
  {
    if addrs == [] then records else Create(records[addrs[0] := ps[0]], addrs[1..], ps[1..])
  }

  lemma {:induction false} CreateAt(records: map<Ptr, Packet>, addrs: seq<Ptr>, ps: seq<Packet>)
    requires |addrs| == |ps| && Unused(records, addrs)
    ensures Create(records, addrs, ps).Keys == records.Keys + ItemSet(addrs)
    ensures forall p | p in records :: Create(records, addrs, ps)[p] == records[p]
    ensures forall i | 0 <= i < |addrs| :: Create(records, addrs, ps)[addrs[i]] == ps[i]
    decreases addrs
  {
    if addrs != [] {
      var r := records[addrs[0] := ps[0]];
      assert Unused(r, addrs[1..]);
      CreateAt(r, addrs[1..], ps[1..]);
      assert addrs == [addrs[0]] + addrs[1..];
    }
  }

  /** Each record made holds its frame. */
  lemma {:induction false} CreatedFrames(records: map<Ptr, Packet>, addrs: seq<Ptr>, frames: seq<Mbuf>)
    requires |addrs| == |frames| && Unused(records, addrs)
    ensures var r := Create(records, addrs, FromMbufs(frames));
      (forall i | 0 <= i < |addrs| :: addrs[i] in r && IsFrame(r[addrs[i]], frames[i]))
      && forall p | p in records :: p in r && r[p] == records[p]
  {
    CreateAt(records, addrs, FromMbufs(frames));
    assert forall i | 0 <= i < |addrs| :: addrs[i] in ItemSet(addrs);
  }

  lemma {:induction false} CreateOneMore(records: map<Ptr, Packet>, addrs: seq<Ptr>, ps: seq<Packet>)
    requires |addrs| == |ps| && addrs != []
    ensures var n := |addrs| - 1;
      Create(records, addrs, ps) == Create(records, addrs[..n], ps[..n])[addrs[n] := ps[n]]
    decreases addrs
  {
    var n := |addrs| - 1;
    if n > 0 {
      CreateOneMore(records[addrs[0] := ps[0]], addrs[1..], ps[1..]);
      assert addrs[1..][..n - 1] == addrs[..n][1..] && ps[1..][..n - 1] == ps[..n][1..];
    } else {
      assert addrs[..0] == [] && addrs[1..] == [];
    }
  }

  lemma {:induction false} PacketsSame(r1: map<Ptr, Packet>, r2: map<Ptr, Packet>, ps: seq<Ptr>)
    requires forall p | p in ps :: p in r1 && p in r2 && r1[p] == r2[p]
    ensures Packets(r1, ps) == Packets(r2, ps)
  {}

  lemma {:induction false} PacketsConcat(r: map<Ptr, Packet>, a: seq<Ptr>, b: seq<Ptr>)
    requires (forall p | p in a :: p in r) && (forall p | p in b :: p in r)
    ensures forall p | p in a + b :: p in r
    ensures Packets(r, a + b) == Packets(r, a) + Packets(r, b)
  {
    hide Packets;
    forall i | 0 <= i < |a + b| ensures Packets(r, a + b)[i] == (Packets(r, a) + Packets(r, b))[i] {
      assert (a + b)[i] == if i < |a| then a[i] else b[i - |a|];
    }
  }

  // ---------- Receiving ----------

  /** Records for as many frames as the queue has room for are queued; all are created. */
  function RecvBatch(q: Queue, frames: seq<Mbuf>, addrs: seq<Ptr>): Queue
    requires |addrs| == |frames|
  {
    var n := Taken(Moved(|frames|, CAPACITY - |q.items|));
    Queue(Create(q.records, addrs, FromMbufs(frames)), q.items + addrs[..n])
  }

  /** fp_nadk_recv: refill when fewer than a budget are left, then take the first. */
  function Recv(q: Queue, frames: seq<Mbuf>, addrs: seq<Ptr>): (Queue, Ptr)
    requires |addrs| == |frames|
  {
    var q' := if |q.items| < BUDGET then RecvBatch(q, frames, addrs) else q;
    (q'.(items := Popped(q'.items).0), Popped(q'.items).1)
  }

  /** A batch fits whole exactly when the queue has that many free slots. */
  lemma {:induction false} BatchFitsIff(q: Queue, frames: seq<Mbuf>, addrs: seq<Ptr>)
    requires Sound(q) && |addrs| == |frames|
    ensures RecvBatch(q, frames, addrs).items == q.items + addrs <==> |q.items| + |frames| <= CAPACITY
  {
    var n := Taken(Moved(|frames|, CAPACITY - |q.items|));
    if n < |addrs| {
      assert |q.items + addrs[..n]| < |q.items + addrs|;
    } else {
      assert addrs[..n] == addrs;
    }
  }

  lemma {:induction false} RecvBatchSound(q: Queue, frames: seq<Mbuf>, addrs: seq<Ptr>)
    requires Sound(q) && |addrs| == |frames| && Unused(q.records, addrs)
    ensures Sound(RecvBatch(q, frames, addrs))
  {
    CreateAt(q.records, addrs, FromMbufs(frames));
    var r := RecvBatch(q, frames, addrs);
    forall i, j | 0 <= i < j < |r.items| ensures r.items[i] != r.items[j] {
      if i < |q.items| <= j {
        assert q.items[i] in q.records && addrs[j - |q.items|] !in q.records;
      }
    }
  }

  lemma {:induction false} RecvBatchPackets(q: Queue, frames: seq<Mbuf>, addrs: seq<Ptr>)
    requires Sound(q) && |addrs| == |frames| <= BUDGET && Unused(q.records, addrs) && |q.items| < BUDGET
    ensures Sound(RecvBatch(q, frames, addrs))
    ensures var r := RecvBatch(q, frames, addrs);
      Packets(r.records, r.items) == Packets(q.records, q.items) + FromMbufs(frames)
  {
    RecvBatchSound(q, frames, addrs);
    BatchFitsIff(q, frames, addrs);
    CreateAt(q.records, addrs, FromMbufs(frames));
    var r := RecvBatch(q, frames, addrs);
    PacketsConcat(r.records, q.items, addrs);
    PacketsSame(q.records, r.records, q.items);
    assert Packets(r.records, addrs) == FromMbufs(frames);
  }

  lemma {:induction false} TakeFirst(q: Queue)
    requires Sound(q) && q.items != []
    ensures Sound(q.(items := q.items[1..]))
    ensures Packets(q.records, q.items) == [q.records[q.items[0]]] + Packets(q.records, q.items[1..])
  {
    var t := q.items[1..];
    forall i, j | 0 <= i < j < |t| ensures t[i] != t[j] {
      assert t[i] == q.items[i + 1] && t[j] == q.items[j + 1];
    }
  }

  /** What the card and the rest of the system do to the receiving side. */
  datatype RxEvent =
    | Receive(frames: seq<Mbuf>, addrs: seq<Ptr>)  // a call, and what card and allocator would return
    | Release(p: Ptr)                              // the holder of a returned packet deletes it

  /** The receiving side, with the packets handed over by the card and returned to callers so far, and
      the records that callers hold. */
  datatype RxLog = RxLog(q: Queue, handed: seq<Packet>, returned: seq<Packet>, held: set<Ptr>)

  predicate RxAllowed(s: RxLog, e: RxEvent) {
    match e
    case Receive(frames, addrs) => |addrs| == |frames| <= BUDGET && Unused(s.q.records, addrs)
    case Release(p) => p in s.held
  }

  function RxStep(s: RxLog, e: RxEvent): RxLog
    requires RxAllowed(s, e)
  {
    match e
    case Release(p) => s.(q := s.q.(records := s.q.records - {p}), held := s.held - {p})
    case Receive(frames, addrs) =>
      var (q, p) := Recv(s.q, frames, addrs);
      RxLog(q,
            s.handed + (if |s.q.items| < BUDGET then FromMbufs(frames) else []),
            s.returned + (if p in q.records then [q.records[p]] else []),
            s.held + (if p in q.records then {p} else {}))
  }

  /** Every record in memory is either held outside or queued, and not both: none leaks. */
  ghost predicate Accounted(q: Queue, held: set<Ptr>) {
    q.records.Keys == held + ItemSet(q.items) && held !! ItemSet(q.items)
  }

  /** Nothing is lost, made up or reordered between the card and the callers. */
  ghost predicate RxConserved(s: RxLog) {
    Sound(s.q) && Accounted(s.q, s.held)
    && s.handed == s.returned + Packets(s.q.records, s.q.items)
  }

  lemma {:induction false} ReleaseSound(q: Queue, p: Ptr)
    requires Sound(q) && p !in q.items
    ensures Sound(q.(records := q.records - {p}))
    ensures Packets(q.records - {p}, q.items) == Packets(q.records, q.items)
    ensures forall held | Accounted(q, held) :: Accounted(q.(records := q.records - {p}), held - {p})
  {
    PacketsSame(q.records, q.records - {p}, q.items);
  }

  lemma {:induction false} TakeFirstAccounted(q: Queue)
    requires Sound(q) && q.items != []
    ensures forall held | Accounted(q, held) ::
      Accounted(q.(items := q.items[1..]), held + {q.items[0]})
  {
    var rest := ItemSet(q.items[1..]);
    assert q.items == [q.items[0]] + q.items[1..];
    assert ItemSet(q.items) == {q.items[0]} + rest;
    forall p | p in rest ensures p != q.items[0] {
      var j :| 0 <= j < |q.items[1..]| && q.items[1..][j] == p;
      assert q.items[j + 1] == p;
    }
  }

  /** Taking the first packet moves it from the queue to the callers; an empty queue yields none. */
  lemma {:induction false} PopConserves(q: Queue, handed: seq<Packet>, returned: seq<Packet>)
    requires Sound(q) && handed == returned + Packets(q.records, q.items)
    ensures var (rest, p) := Popped(q.items);
      Sound(q.(items := rest))
      && (forall held | Accounted(q, held) ::
            Accounted(q.(items := rest), held + if p in q.records then {p} else {}))
      && handed == (returned + if p in q.records then [q.records[p]] else []) + Packets(q.records, rest)
  {
    if q.items == [] {
      assert NULL !in q.records;
      assert forall held: set<Ptr> :: held + {} == held;
    } else {
      TakeFirst(q);
      assert q.items[0] in q.records;
      TakeFirstAccounted(q);
      Regroup(returned, [q.records[q.items[0]]], Packets(q.records, q.items[1..]));
    }
  }

  lemma {:induction false} RecvBatchAccounted(q: Queue, frames: seq<Mbuf>, addrs: seq<Ptr>, held: set<Ptr>)
    requires Sound(q) && |addrs| == |frames| <= BUDGET && Unused(q.records, addrs) && |q.items| < BUDGET
    requires Accounted(q, held)
    ensures Accounted(RecvBatch(q, frames, addrs), held)
  {
    RecvBatchSound(q, frames, addrs);
    BatchFitsIff(q, frames, addrs);
    CreateAt(q.records, addrs, FromMbufs(frames));
    assert ItemSet(q.items + addrs) == ItemSet(q.items) + ItemSet(addrs);
  }

  lemma {:induction false} RefillConserves(s: RxLog, frames: seq<Mbuf>, addrs: seq<Ptr>)
    requires RxConserved(s) && RxAllowed(s, Receive(frames, addrs)) && |s.q.items| < BUDGET
    ensures var q := RecvBatch(s.q, frames, addrs);
      Sound(q) && Accounted(q, s.held) && s.handed + FromMbufs(frames) == s.returned + Packets(q.records, q.items)
  {
    RecvBatchPackets(s.q, frames, addrs);
    RecvBatchAccounted(s.q, frames, addrs, s.held);
    Regroup(s.returned, Packets(s.q.records, s.q.items), FromMbufs(frames));
  }

  lemma {:induction false} RxStepConserves(s: RxLog, e: RxEvent)
    requires RxConserved(s) && RxAllowed(s, e)
    ensures RxConserved(RxStep(s, e))
  {
    match e
    case Release(p) => ReleaseSound(s.q, p);
    case Receive(frames, addrs) =>
      if |s.q.items| < BUDGET {
        RefillConserves(s, frames, addrs);
        PopConserves(RecvBatch(s.q, frames, addrs), s.handed + FromMbufs(frames), s.returned);
      } else {
        PopConserves(s.q, s.handed, s.returned);
        assert s.handed + [] == s.handed;
      }
  }

  predicate RxRunAllowed(s: RxLog, es: seq<RxEvent>)
    decreases es
  {
    es == [] || (RxAllowed(s, es[0]) && RxRunAllowed(RxStep(s, es[0]), es[1..]))
  }

  function RxRun(s: RxLog, es: seq<RxEvent>): RxLog
    requires RxRunAllowed(s, es)
    decreases es
  {
    if es == [] then s else RxRun(RxStep(s, es[0]), es[1..])
  }

  /** Over any run, whatever the card hands over: the packets it handed over are those returned
      followed by those still queued, in order. */
  lemma {:induction false} ReceiveConservation(s: RxLog, es: seq<RxEvent>)
    requires RxConserved(s) && RxRunAllowed(s, es)
    ensures RxConserved(RxRun(s, es))
    decreases es
  {
    if es != [] {
      RxStepConserves(s, es[0]);
      ReceiveConservation(RxStep(s, es[0]), es[1..]);
    }
  }

  // ---------- Sending ----------

  /** The card buffer a packet goes out in: its own, or a new one unless allocating or filling it
      fails. */
  function OutBuffer(p: Packet, made: Option<nat>): Option<nat> {
    if p.dev == NadkBuf then Some(p.handle) else made
  }

  /** How many packets of a batch get a buffer before the first failure. */
  function Prepared(ps: seq<Packet>, made: seq<Option<nat>>): (n: nat)
    requires |made| >= |ps|
    ensures n <= |ps|
    ensures forall i | 0 <= i < n :: OutBuffer(ps[i], made[i]).Some?
    ensures n < |ps| ==> OutBuffer(ps[n], made[n]).None?
  {
    if ps == [] || OutBuffer(ps[0], made[0]).None? then 0 else 1 + Prepared(ps[1..], made[1..])
  }

  /** A batch stops at n: before it every packet is in a card buffer or got a new one, and the packet at
      n, if there is one, is not and did not. */
  predicate StopsAt(ps: seq<Packet>, made: seq<Option<nat>>, n: nat) {
    n <= |ps| <= |made|
    && (forall i | 0 <= i < n :: ps[i].dev == NadkBuf || made[i].Some?)
    && (n < |ps| ==> ps[n].dev == OtherBuf && made[n].None?)
  }

  lemma {:induction false} PreparedStops(ps: seq<Packet>, made: seq<Option<nat>>, n: nat)
    requires |made| >= |ps|
    ensures n == Prepared(ps, made) <==> StopsAt(ps, made, n)
  {
    hide Prepared;
    var k := Prepared(ps, made);
    assert forall i | 0 <= i < k :: OutBuffer(ps[i], made[i]).Some?;
    assert forall i | 0 <= i < k :: ps[i].dev == NadkBuf || made[i].Some?;
  }

  lemma {:induction false} PreparedTurn(ps: seq<Packet>, made: seq<Option<nat>>, i: nat)
    requires i < |ps| <= |made|
    ensures Prepared(ps[i..], made[i..])
         == if OutBuffer(ps[i], made[i]).None? then 0 else 1 + Prepared(ps[i + 1..], made[i + 1..])
  {
    assert ps[i..][1..] == ps[i + 1..] && made[i..][1..] == made[i + 1..];
  }

  /** How many packets the card takes of a batch: it may stop anywhere. */
  function Accepted(q: Queue, made: seq<Option<nat>>, accept: nat): (n: nat)
    requires Sound(q) && |made| >= BUDGET
    ensures n <= |q.items|
  {
    var batch := q.items[..Moved(BUDGET, |q.items|)];
    Moved(accept, Prepared(Packets(q.records, batch), made))
  }

  /** The packets of the next batch: the oldest 16, or all if there are fewer. */
  function NextBatch(q: Queue): (ps: seq<Packet>)
    requires Sound(q)
    ensures |ps| == if |q.items| < 16 then |q.items| else 16
    ensures forall i | 0 <= i < |ps| :: ps[i] == q.records[q.items[i]]
  {
    Packets(q.records, q.items[..Moved(BUDGET, |q.items|)])
  }

  /** The card takes as many as it accepts of the packets before the batch stops. */
  lemma {:induction false} AcceptedIs(q: Queue, made: seq<Option<nat>>, accept: nat, n: nat)
    requires Sound(q) && |made| >= 16 && StopsAt(NextBatch(q), made, n)
    ensures Accepted(q, made, accept) == if accept <= n then accept else n
  {
    PreparedStops(NextBatch(q), made, n);
  }

  /** Of packets that all came from the card, it takes what it accepts, whatever buffers can be made. */
  lemma {:induction false} OwnBuffersSuffice(q: Queue, made: seq<Option<nat>>, accept: nat)
    requires Sound(q) && |made| >= 16 && forall i | 0 <= i < |NextBatch(q)| :: q.records[q.items[i]].dev == NadkBuf
    ensures var n := if |q.items| < 16 then |q.items| else 16;
      Accepted(q, made, accept) == if accept <= n then accept else n
  {
    AcceptedIs(q, made, accept, |NextBatch(q)|);
  }

  /** The buffers that go out for a batch: as many as the card accepts before the batch stops, each packet
      in its own buffer if it has one of the card's, and in the new one otherwise. */
  ghost predicate GoesOut(q: Queue, made: seq<Option<nat>>, accept: int, wire: seq<nat>)
    requires Sound(q) && |made| >= 16
  {
    |wire| <= |NextBatch(q)|
    && (forall n | accept >= 0 && StopsAt(NextBatch(q), made, n) :: |wire| == if accept <= n then accept else n)
    && forall i | 0 <= i < |wire| ::
         var p := q.records[q.items[i]];
         if p.dev == NadkBuf then wire[i] == p.handle else made[i] == Some(wire[i])
  }

  /** Of the buffers prepared for a batch, those go out that the card accepts. */
  lemma {:induction false} PreparedGoesOut(
    q: Queue, batch: seq<Ptr>, made: seq<Option<nat>>, accept: int, bufs: seq<nat>)
    requires Sound(q) && |made| >= 16 && batch == q.items[..Moved(BUDGET, |q.items|)] && |bufs| <= |batch|
    requires forall p | p in batch :: p in q.records
    requires StopsAt(Packets(q.records, batch), made, |bufs|)
    requires forall i | 0 <= i < |bufs| ::
      if q.records[batch[i]].dev == NadkBuf then bufs[i] == q.records[batch[i]].handle else made[i] == Some(bufs[i])
    ensures GoesOut(q, made, accept, bufs[..if accept < 0 then 0 else if accept <= |bufs| then accept else |bufs|])
  {
    hide StopsAt, Packets;
    PreparedStops(NextBatch(q), made, |bufs|);
    forall n | StopsAt(NextBatch(q), made, n) ensures n == |bufs| {
      PreparedStops(NextBatch(q), made, n);
    }
  }

  /** fp_nadk_send_batch: what the card took is deleted and removed. */
  function SendBatch(q: Queue, made: seq<Option<nat>>, accept: nat): Queue
    requires Sound(q) && |made| >= BUDGET
  {
    var n := Accepted(q, made, accept);
    Queue(q.records - ItemSet(q.items[..n]), q.items[n..])
  }

  function Enqueue(q: Queue, p: Ptr): Queue { q.(items := Pushed(q.items, CAPACITY, p)) }

  /** fp_nadk_send: queue the packet, and send a batch once there are enough. */
  function Send(q: Queue, p: Ptr, made: seq<Option<nat>>, accept: nat): Queue
    requires Sound(Enqueue(q, p)) && |made| >= BUDGET
  {
    var q' := Enqueue(q, p);
    if |q'.items| >= BUDGET then SendBatch(q', made, accept) else q'
  }

  datatype TxEvent =
    | Transmit(p: Ptr, made: seq<Option<nat>>, accept: nat)  // a call, and what card and allocator do
    | New(p: Ptr, packet: Packet)                            // a sender makes a packet
    | Drop(p: Ptr)                                           // a sender deletes one it still holds

  /** The sending side, with the packets accepted from senders and taken by the card so far, and the
      records that senders hold. */
  datatype TxLog = TxLog(q: Queue, accepted: seq<Packet>, sent: seq<Packet>, held: set<Ptr>)

  predicate TxAllowed(s: TxLog, e: TxEvent) {
    match e
    case Transmit(p, made, _) => p in s.held && |made| >= BUDGET
    case New(p, _) => p != NULL && p !in s.q.records
    case Drop(p) => p in s.held
  }

  lemma {:induction false} EnqueueSound(q: Queue, p: Ptr)
    requires Sound(q) && p in q.records && p !in q.items
    ensures Sound(Enqueue(q, p))
  {}

  ghost function TxStep(s: TxLog, e: TxEvent): (r: TxLog)
    requires Sound(s.q) && Accounted(s.q, s.held) && TxAllowed(s, e)
    ensures Sound(r.q) && Accounted(r.q, r.held)
  {
    match e
    case New(p, packet) =>
      NewSound(s.q, p, packet, s.held);
      s.(q := s.q.(records := s.q.records[p := packet]), held := s.held + {p})
    case Drop(p) =>
      ReleaseSound(s.q, p);
      s.(q := s.q.(records := s.q.records - {p}), held := s.held - {p})
    case Transmit(p, made, accept) =>
      EnqueueSound(s.q, p);
      EnqueueAccounted(s.q, p, s.held);
      var q := Enqueue(s.q, p);
      SendBatchSound(q, made, accept);
      var room := |s.q.items| < CAPACITY;
      var held := s.held - if room then {p} else {};
      SendBatchAccounted(q, made, accept, held);
      TxLog(Send(s.q, p, made, accept),
            s.accepted + (if room then [s.q.records[p]] else []),
            s.sent + (if |q.items| >= BUDGET then Packets(q.records, q.items[..Accepted(q, made, accept)]) else []),
            held)
  }

  /** What was accepted has been sent or is still queued, in order; and exactly what was sent has been
      deleted: memory holds the queued records and those of the senders, each once. */
  ghost predicate TxConserved(s: TxLog) {
    Sound(s.q) && Accounted(s.q, s.held)
    && s.accepted == s.sent + Packets(s.q.records, s.q.items)
  }

  lemma {:induction false} SendBatchSound(q: Queue, made: seq<Option<nat>>, accept: nat)
    requires Sound(q) && |made| >= BUDGET
    ensures Sound(SendBatch(q, made, accept))
  {
    hide Accepted;
    var n := Accepted(q, made, accept);
    var r := SendBatch(q, made, accept);
    forall i, j | 0 <= i < j < |r.items| ensures r.items[i] != r.items[j] {
      assert r.items[i] == q.items[n + i] && r.items[j] == q.items[n + j];
    }
    forall p | p in r.items ensures p in r.records {
      var i :| 0 <= i < |r.items| && r.items[i] == p;
      assert q.items[n + i] == p;
    }
  }

  lemma {:induction false} SendBatchPackets(q: Queue, made: seq<Option<nat>>, accept: nat)
    requires Sound(q) && |made| >= BUDGET
    ensures Sound(SendBatch(q, made, accept))
    ensures var r := SendBatch(q, made, accept);
      Packets(q.records, q.items)
      == Packets(q.records, q.items[..Accepted(q, made, accept)]) + Packets(r.records, r.items)
  {
    hide Accepted;
    SendBatchSound(q, made, accept);
    var n := Accepted(q, made, accept);
    var r := SendBatch(q, made, accept);
    assert q.items == q.items[..n] + q.items[n..];
    PacketsConcat(q.records, q.items[..n], q.items[n..]);
    PacketsSame(q.records, r.records, r.items);
  }

  lemma {:induction false} EnqueuePackets(q: Queue, p: Ptr)
    requires Sound(q) && p in q.records && p !in q.items
    ensures Sound(Enqueue(q, p))
    ensures Packets(q.records, Enqueue(q, p).items)
         == Packets(q.records, q.items) + if |q.items| < CAPACITY then [q.records[p]] else []
  {
    EnqueueSound(q, p);
    if |q.items| < CAPACITY {
      PacketsConcat(q.records, q.items, [p]);
      assert Packets(q.records, [p]) == [q.records[p]];
    }
  }

  lemma {:induction false} SendBatchAccounted(q: Queue, made: seq<Option<nat>>, accept: nat, held: set<Ptr>)
    requires Sound(q) && |made| >= BUDGET && Accounted(q, held)
    ensures Accounted(SendBatch(q, made, accept), held)
  {
    hide Accepted, Sound;
    var n := Accepted(q, made, accept);
    var out, rest := ItemSet(q.items[..n]), ItemSet(q.items[n..]);
    SplitSets(q, n);
    assert (q.records - out).Keys == q.records.Keys - out;
    TakeOut(q.records.Keys, held, out, rest);
  }

  lemma {:induction false} TakeOut(keys: set<Ptr>, held: set<Ptr>, out: set<Ptr>, rest: set<Ptr>)
    requires keys == held + (out + rest) && held !! (out + rest) && out !! rest
    ensures keys - out == held + rest && held !! rest
  {}

  lemma {:induction false} SplitSets(q: Queue, n: nat)
    requires Sound(q) && n <= |q.items|
    ensures ItemSet(q.items) == ItemSet(q.items[..n]) + ItemSet(q.items[n..])
    ensures ItemSet(q.items[..n]) !! ItemSet(q.items[n..])
  {
    assert q.items == q.items[..n] + q.items[n..];
    forall p, p' | p in q.items[..n] && p' in q.items[n..] ensures p != p' {
      var i :| 0 <= i < n && q.items[..n][i] == p;
      var j :| 0 <= j < |q.items[n..]| && q.items[n..][j] == p';
      assert q.items[i] == p && q.items[n + j] == p';
    }
  }

  lemma {:induction false} EnqueueAccounted(q: Queue, p: Ptr, held: set<Ptr>)
    requires Accounted(q, held) && p in held
    ensures Accounted(Enqueue(q, p), held - if |q.items| < CAPACITY then {p} else {})
  {
    if |q.items| < CAPACITY {
      assert ItemSet(q.items + [p]) == ItemSet(q.items) + {p};
    } else {
      assert held - {} == held;
    }
  }

  lemma {:induction false} NewSound(q: Queue, p: Ptr, packet: Packet, held: set<Ptr>)
    requires Sound(q) && p != NULL && p !in q.records && Accounted(q, held)
    ensures Sound(q.(records := q.records[p := packet]))
    ensures Accounted(q.(records := q.records[p := packet]), held + {p})
    ensures Packets(q.records[p := packet], q.items) == Packets(q.records, q.items)
  {
    PacketsSame(q.records, q.records[p := packet], q.items);
  }

  lemma {:induction false} TransmitConserves(s: TxLog, p: Ptr, made: seq<Option<nat>>, accept: nat)
    requires TxConserved(s) && TxAllowed(s, Transmit(p, made, accept))
    ensures TxConserved(TxStep(s, Transmit(p, made, accept)))
  {
    var q := Enqueue(s.q, p);
    var room := |s.q.items| < CAPACITY;
    var taken := if room then [s.q.records[p]] else [];
    var held := s.held - if room then {p} else {};
    EnqueuePackets(s.q, p);
    EnqueueAccounted(s.q, p, s.held);
    assert q.records == s.q.records;
    if |q.items| >= BUDGET {
      SendBatchPackets(q, made, accept);
      SendBatchAccounted(q, made, accept, held);
    }
    Regroup(s.sent, Packets(s.q.records, s.q.items), taken);
    if |q.items| >= BUDGET {
      var r := SendBatch(q, made, accept);
      Regroup(s.sent, Packets(q.records, q.items[..Accepted(q, made, accept)]), Packets(r.records, r.items));
    } else {
      assert s.sent + [] == s.sent;
    }
  }

  lemma {:induction false} TxStepConserves(s: TxLog, e: TxEvent)
    requires TxConserved(s) && TxAllowed(s, e)
    ensures TxConserved(TxStep(s, e))
  {
    match e
    case New(p, packet) => NewSound(s.q, p, packet, s.held);
    case Drop(p) => ReleaseSound(s.q, p);
    case Transmit(p, made, accept) => TransmitConserves(s, p, made, accept);
  }

  ghost predicate TxRunAllowed(s: TxLog, es: seq<TxEvent>)
    requires Sound(s.q) && Accounted(s.q, s.held)
    decreases es
  {
    es == [] || (TxAllowed(s, es[0]) && TxRunAllowed(TxStep(s, es[0]), es[1..]))
  }

  ghost function TxRun(s: TxLog, es: seq<TxEvent>): TxLog
    requires Sound(s.q) && Accounted(s.q, s.held) && TxRunAllowed(s, es)
    decreases es
  {
    if es == [] then s else TxRun(TxStep(s, es[0]), es[1..])
  }

  /** Over any run, whatever the card accepts and whichever buffers cannot be made: the packets
      accepted are those sent followed by those still queued, in order, and nothing queued has been
      deleted. */
  lemma {:induction false} TransmitConservation(s: TxLog, es: seq<TxEvent>)
    requires TxConserved(s) && TxRunAllowed(s, es)
    ensures TxConserved(TxRun(s, es))
    decreases es
  {
    if es != [] {
      TxStepConserves(s, es[0]);
      TransmitConservation(TxStep(s, es[0]), es[1..]);
    }
  }
}
