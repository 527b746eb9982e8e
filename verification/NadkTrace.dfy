/** What becomes of the frames of the card, followed through a port: the packets returned to callers are
    the frames handed over, and a frame that is forwarded goes out in the buffer it came in. */
module NadkTrace {
  import opened Wrappers
  import opened FifoRing
  import opened NadkQueues
  import opened NadkRuns

  /** A port, with the frames handed over and the buffers gone out themselves; `origin` says of a record
      from the card which frame it holds, and `source` of each packet accepted for sending which frame it
      came in as, if any. */
  datatype Trace = Trace(
    port: Port, frames: seq<Mbuf>, buffers: seq<nat>, origin: map<Ptr, nat>, source: seq<Option<nat>>)

  ghost function Opened(records: map<Ptr, Packet>): (t: Trace)
    requires NULL !in records
    ensures Faithful(t)
  {
    Trace(Start(records), [], [], map[], [])
  }

  /** The buffers that packets go out in. */
  function Buffers(ps: seq<Packet>, made: seq<Option<nat>>): (bs: seq<nat>)
    requires |ps| <= |made| && forall i | 0 <= i < |ps| :: OutBuffer(ps[i], made[i]).Some?
    ensures |bs| == |ps| && forall i | 0 <= i < |ps| :: OutBuffer(ps[i], made[i]) == Some(bs[i])
  {
    seq(|ps|, i requires 0 <= i < |ps| => OutBuffer(ps[i], made[i]).value)
  }

  /** What a send call puts on the wire: the packets taken, and their buffers. */
  ghost function Taken(s: Port, p: Ptr, made: seq<Option<nat>>, accept: nat): (r: (seq<Packet>, seq<nat>))
    requires Conserved(s) && Allowed(s, SendCall(p, made, accept))
    ensures |r.0| == |r.1| && Step(s, SendCall(p, made, accept)).sent == s.sent + r.0
    ensures forall i | 0 <= i < |r.0| :: r.0[i].dev == NadkBuf ==> r.1[i] == r.0[i].handle
  {
    HeldIsNotQueued(s, p);
    EnqueueSound(TxQueue(s), p);
    var q := Enqueue(TxQueue(s), p);
    if |q.items| < BUDGET then ([], [])
    else
      var ps := Packets(q.records, q.items[..Accepted(q, made, accept)]);
      TakenHaveBuffers(q, made, accept);
      (ps, Buffers(ps, made))
  }

  lemma {:induction false} TakenHaveBuffers(q: Queue, made: seq<Option<nat>>, accept: nat)
    requires Sound(q) && |made| >= BUDGET
    ensures var ps := Packets(q.records, q.items[..Accepted(q, made, accept)]);
      |ps| <= |made| && forall i | 0 <= i < |ps| :: OutBuffer(ps[i], made[i]).Some?
  {
    hide OutBuffer;
    var batch := q.items[..Moved(BUDGET, |q.items|)];
    var n := Accepted(q, made, accept);
    assert n <= Prepared(Packets(q.records, batch), made);
    assert forall i | 0 <= i < n :: q.items[..n][i] == batch[i];
  }

  ghost function Next(t: Trace, e: Event): (r: Trace)
    requires Conserved(t.port) && Allowed(t.port, e)
    ensures r.port == Step(t.port, e)
  {
    var port := Step(t.port, e);
    match e
    case Make(_, _) => t.(port := port)
    case Delete(p) => t.(port := port, origin := t.origin - {p})
    case RecvCall(frames, addrs) =>
      var (q, p) := Recv(RxQueue(t.port), frames, addrs);
      t.(port := port,
         frames := t.frames + (if |t.port.rx| < 16 then frames else []),
         origin := if p in q.records then t.origin[p := |t.port.returned|] else t.origin)
    case SendCall(p, made, accept) =>
      var room := |t.port.tx| < 31;
      t.(port := port,
         buffers := t.buffers + Taken(t.port, p, made, accept).1,
         origin := if room then t.origin - {p} else t.origin,
         source := t.source + (if !room then [] else if p in t.origin then [Some(t.origin[p])] else [None]))
  }

  // ---------- What a trace keeps ----------

  ghost predicate FramesHanded(t: Trace) {
    |t.frames| == |t.port.handed| && forall i | 0 <= i < |t.frames| :: IsFrame(t.port.handed[i], t.frames[i])
  }

  ghost predicate OriginsHold(t: Trace) {
    forall p | p in t.origin ::
      p in t.port.held && p in t.port.records && t.origin[p] < |t.port.returned|
      && t.port.records[p] == t.port.returned[t.origin[p]]
  }

  ghost predicate SourcesHold(t: Trace) {
    |t.source| == |t.port.accepted|
    && forall j | 0 <= j < |t.source| && t.source[j].Some? ::
         t.source[j].value < |t.port.returned| && t.port.accepted[j] == t.port.returned[t.source[j].value]
  }

  ghost predicate BuffersOwn(t: Trace) {
    |t.buffers| == |t.port.sent|
    && forall j | 0 <= j < |t.buffers| :: t.port.sent[j].dev == NadkBuf ==> t.buffers[j] == t.port.sent[j].handle
  }

  ghost predicate Faithful(t: Trace) {
    Conserved(t.port) && FramesHanded(t) && OriginsHold(t) && SourcesHold(t) && BuffersOwn(t)
  }

  lemma {:induction false} RecvFaithful(t: Trace, frames: seq<Mbuf>, addrs: seq<Ptr>)
    requires Faithful(t) && Allowed(t.port, RecvCall(frames, addrs))
    ensures Faithful(Next(t, RecvCall(frames, addrs)))
  {
    hide Conserved, Packets, Recv, Unused;
    var s, r := t.port, Next(t, RecvCall(frames, addrs));
    StepConserves(s, RecvCall(frames, addrs));
    ConservedParts(s);
    RecvKeeps(RxQueue(s), frames, addrs);
    forall p | p in t.origin ensures p in r.port.records && r.port.records[p] == s.records[p] {}
    NewIsHeld(s, frames, addrs);
  }

  lemma {:induction false} ConservedParts(s: Port)
    requires Conserved(s)
    ensures Sound(RxQueue(s)) && Sound(TxQueue(s)) && forall p | p in s.held :: p in s.records
  {}

  /** The record a receive call returns is one that no caller held. */
  lemma {:induction false} NewIsHeld(s: Port, frames: seq<Mbuf>, addrs: seq<Ptr>)
    requires Conserved(s) && Allowed(s, RecvCall(frames, addrs))
    ensures Recv(RxQueue(s), frames, addrs).1 !in s.held
  {
    ReturnedIsNotSending(s, frames, addrs);
  }

  lemma {:induction false} SendFaithful(t: Trace, p: Ptr, made: seq<Option<nat>>, accept: nat)
    requires Faithful(t) && Allowed(t.port, SendCall(p, made, accept))
    ensures Faithful(Next(t, SendCall(p, made, accept)))
  {
    hide Conserved, Packets, Send, Accepted, Taken;
    var e := SendCall(p, made, accept);
    var s, r := t.port, Next(t, e);
    StepConserves(s, e);
    ConservedParts(s);
    AcceptedBelow31(s, p, made, accept);
    HeldIsNotQueued(s, p);
    EnqueueSound(TxQueue(s), p);
    forall x | x in r.origin ensures x in r.port.records && r.port.records[x] == s.records[x] && x in r.port.held {
      HeldIsNotQueued(s, x);
      SendSpares(TxQueue(s), p, made, accept, x);
    }
    BuffersGrow(t, p, made, accept);
  }

  lemma {:induction false} BuffersGrow(t: Trace, p: Ptr, made: seq<Option<nat>>, accept: nat)
    requires Conserved(t.port) && Allowed(t.port, SendCall(p, made, accept)) && BuffersOwn(t)
    ensures BuffersOwn(Next(t, SendCall(p, made, accept)))
  {
    hide Conserved, Step, Taken;
  }

  lemma {:induction false} NextFaithful(t: Trace, e: Event)
    requires Faithful(t) && Allowed(t.port, e)
    ensures Faithful(Next(t, e))
  {
    match e
    case RecvCall(frames, addrs) => RecvFaithful(t, frames, addrs);
    case SendCall(p, made, accept) => SendFaithful(t, p, made, accept);
    case _ => StepConserves(t.port, e);
  }

  ghost predicate Traceable(t: Trace, es: seq<Event>)
    requires Faithful(t)
    decreases es
  {
    es == [] || (Allowed(t.port, es[0]) && (NextFaithful(t, es[0]); Traceable(Next(t, es[0]), es[1..])))
  }

  ghost function Followed(t: Trace, es: seq<Event>): (r: Trace)
    requires Faithful(t) && Traceable(t, es)
    ensures Faithful(r)
    decreases es
  {
    if es == [] then t
    else
      NextFaithful(t, es[0]);
      Followed(Next(t, es[0]), es[1..])
  }

  // ---------- What a run does with frames ----------

  /** Over every run of an open port, the packets returned, followed by those queued, are the frames the
      card handed over: as many, in order, field by field, each in the buffer it came in. */
  lemma {:induction false} FramesComeThrough(records: map<Ptr, Packet>, es: seq<Event>)
    requires NULL !in records && Traceable(Opened(records), es)
    ensures var t := Followed(Opened(records), es);
      var ps := t.port.returned + Packets(t.port.records, t.port.rx);
      |ps| == |t.frames|
      && forall i | 0 <= i < |ps| ::
           ps[i].data == t.frames[i].data && ps[i].size == t.frames[i].length
           && ps[i].timestamp == t.frames[i].timestamp && ps[i].handle == t.frames[i].handle
           && ps[i].dev == NadkBuf
  {
    hide Packets;
  }

  /** Over every run, a packet that came in as a frame and was sent went out with the frame's data in the
      frame's own buffer. */
  lemma {:induction false} ForwardedInItsOwnBuffer(records: map<Ptr, Packet>, es: seq<Event>, j: nat)
    requires NULL !in records && Traceable(Opened(records), es)
    requires var t := Followed(Opened(records), es); j < |t.port.sent| && j < |t.source| && t.source[j].Some?
    ensures var t := Followed(Opened(records), es);
      var i := t.source[j].value;
      i < |t.frames| && j < |t.buffers| && t.buffers[j] == t.frames[i].handle
      && t.port.sent[j].data == t.frames[i].data && t.port.sent[j].size == t.frames[i].length
  {
    hide Packets;
    var t := Followed(Opened(records), es);
    assert t.port.accepted[j] == t.port.sent[j];
    assert t.port.returned[t.source[j].value] == t.port.handed[t.source[j].value];
  }
}
