/** A data plane with a wire pipeline, as a value: its port table and the two ends of the wire
    (flowpath/dataplane.c, flowpath/pipelines/wire/wire.c). */
module WireSpec {
  import opened Wrappers
  import S = HashSpec
  import L = HashLaws
  import R = HashRuns

  const PORT_MAX_ID: nat := 0xffff_ff00
  const PORT_DROP: nat := 0xffff_fff7

  /** The table of ports starts with this many buckets. */
  const BUCKETS: nat := 17

  /** A pointer to a port: where the port is, and the id it keeps for its life. */
  datatype Port = Port(addr: nat, id: nat)

  // ---------- The wire ----------

  datatype Wire = Wire(first: Option<Port>, second: Option<Port>)

  predicate Full(w: Wire) { w.first.Some? && w.second.Some? }

  predicate OnWire(w: Wire, p: Port) { w.first == Some(p) || w.second == Some(p) }

  /** One port holds both ends, so that nothing it receives can leave on another. */
  predicate Looped(w: Wire) { Full(w) && w.first == w.second }

  /** How many ends the port holds. */
  function Ends(w: Wire, p: Port): nat {
    (if w.first == Some(p) then 1 else 0) + (if w.second == Some(p) then 1 else 0)
  }

  /** The port goes to the first free end. */
  function Attach(w: Wire, p: Port): (Wire, bool) {
    if w.first.None? then (w.(first := Some(p)), true)
    else if w.second.None? then (w.(second := Some(p)), true)
    else (w, false)
  }

  function Detach(w: Wire, p: Port): (Wire, bool) {
    if w.first == Some(p) then (w.(first := None), true)
    else if w.second == Some(p) then (w.(second := None), true)
    else (w, false)
  }

  /** The output port id for a packet that arrived on the given port. */
  function Route(w: Wire, inPort: nat): nat {
    if !Full(w) then PORT_DROP
    else if inPort == w.first.value.id then w.second.value.id
    else w.first.value.id
  }

  /** The port takes the first free end; the other end, and a wire with no free end, stay as they are. */
  lemma {:induction false} AttachTakesFirstFree(w: Wire, p: Port)
    ensures var r := Attach(w, p).0;
      if w.first == None then r.first == Some(p) && r.second == w.second
      else r.first == w.first && (r.second == if w.second == None then Some(p) else w.second)
    ensures Attach(w, p).1 <==> w.first == None || w.second == None
  {}

  /** The first end the port holds becomes free; everything else stays. */
  lemma {:induction false} DetachFreesFirstHeld(w: Wire, p: Port)
    ensures var r := Detach(w, p).0;
      if w.first == Some(p) then r.first == None && r.second == w.second
      else r.first == w.first && (r.second == if w.second == Some(p) then None else w.second)
    ensures Detach(w, p).1 <==> w.first == Some(p) || w.second == Some(p)
  {}

  // ---------- The data plane ----------

  datatype Plane = Plane(table: S.Table<nat, Port>, wire: Wire)

  /** When the port table forgets a port: the code compares the error pointer with FP_OK, which never
      holds; its comment, and the test it means to make, is that the pipeline let the port go. */
  datatype Removal = AsWritten | Documented

  function NewPlane(): (pl: Plane)
    ensures S.WellSized(pl.table)
  {
    Plane(S.New(BUCKETS), Wire(None, None))
  }

  function Add(load: S.Load, pl: Plane, p: Port): (r: Plane)
    requires S.WellSized(pl.table)
    ensures S.WellSized(r.table)
  {
    Plane(S.Insert(load, R.UintHash, pl.table, p.id, p), Attach(pl.wire, p).0)
  }

  function Remove(how: Removal, pl: Plane, p: Port): (r: Plane)
    requires S.WellSized(pl.table)
    ensures S.WellSized(r.table)
  {
    var (w, ok) := Detach(pl.wire, p);
    Plane(if ok && how == Documented then S.Remove(R.UintHash, pl.table, p.id) else pl.table, w)
  }

  function GetPort(pl: Plane, id: nat): Option<Port>
    requires S.WellSized(pl.table)
  {
    S.Find(R.UintHash, pl.table, id)
  }

  /** The port a packet goes out on; none means that the code dereferences a null port. */
  function Deliver(pl: Plane, inPort: nat): Option<Port>
    requires S.WellSized(pl.table)
  {
    GetPort(pl, Route(pl.wire, inPort))
  }

  // ---------- Runs ----------

  datatype Op = AddPort(port: Port) | RemovePort(port: Port)

  function Step(load: S.Load, how: Removal, pl: Plane, op: Op): (r: Plane)
    requires S.WellSized(pl.table)
    ensures S.WellSized(r.table)
  {
    match op
    case AddPort(p) => Add(load, pl, p)
    case RemovePort(p) => Remove(how, pl, p)
  }

  function Run(load: S.Load, how: Removal, pl: Plane, ops: seq<Op>): (r: Plane)
    requires S.WellSized(pl.table)
    ensures S.WellSized(r.table)
    decreases ops
  {
    if ops == [] then pl else Run(load, how, Step(load, how, pl, ops[0]), ops[1..])
  }

  /** The values the table holds for an id. Adding a port that it knows gives it one more. */
  function Known(pl: Plane, id: nat): seq<Port>
    requires S.WellSized(pl.table)
  {
    S.Bindings(R.UintHash, pl.table, id)
  }

  /** A port may be added whose id the table does not know as another port's; it may well know the port
      itself, being on the wire, from an earlier time on it, or from an attempt to add it to a full one.
      Ids are below the bound and not reserved. */
  predicate MayAdd(bound: nat, pl: Plane, p: Port)
    requires S.WellSized(pl.table)
  {
    (GetPort(pl, p.id) == None || GetPort(pl, p.id) == Some(p))
    && p.id < bound && p.id <= PORT_MAX_ID
  }

  /** Any port may be removed at any time. */
  predicate Lawful(load: S.Load, how: Removal, bound: nat, pl: Plane, ops: seq<Op>)
    requires S.WellSized(pl.table)
    decreases ops
  {
    ops == []
    || ((ops[0].AddPort? ==> MayAdd(bound, pl, ops[0].port))
        && Lawful(load, how, bound, Step(load, how, pl, ops[0]), ops[1..]))
  }

  /** All that the table holds for an id is one port with that id. */
  ghost predicate OnePort(known: seq<Port>, id: nat) {
    forall p, q | p in known && q in known :: p == q && p.id == id <= PORT_MAX_ID
  }

  /** Each end of the wire is the port that the table knows under its id, as many times as it holds ends. */
  ghost predicate Consistent(pl: Plane) {
    S.WellSized(pl.table) && L.Consistent(R.UintHash, pl.table)
    && (forall id :: OnePort(Known(pl, id), id))
    && (forall p | OnWire(pl.wire, p) :: p in Known(pl, p.id) && Ends(pl.wire, p) <= |Known(pl, p.id)|)
  }

  /** What a search of the table finds says all about what it holds. */
  lemma {:induction false} FoundIsKnown(pl: Plane, id: nat)
    requires Consistent(pl)
    ensures GetPort(pl, id) == None <==> Known(pl, id) == []
    ensures forall p :: GetPort(pl, id) == Some(p) <==> p in Known(pl, id)
  {
    var known := Known(pl, id);
    assert OnePort(known, id);
    if known != [] {
      assert known[0] in known;
    }
  }

  lemma {:induction false} AddConsistent(load: S.Load, bound: nat, pl: Plane, p: Port)
    requires Consistent(pl) && R.Ready(load, R.UintHash, bound, pl.table) && MayAdd(bound, pl, p)
    ensures Consistent(Add(load, pl, p)) && R.Ready(load, R.UintHash, bound, Add(load, pl, p).table)
  {
    hide S.Insert, S.Bindings, S.WellSized, L.Consistent, R.LoadBounded, R.Roomy, GetPort, OnePort;
    var r := Add(load, pl, p);
    R.InsertKeepsReady(load, R.UintHash, bound, pl.table, p.id, p);
    FoundIsKnown(pl, p.id);
    forall id
      ensures OnePort(Known(r, id), id) && (forall q | q in Known(pl, id) :: q in Known(r, id))
      ensures |Known(r, id)| == |Known(pl, id)| + if id == p.id then 1 else 0
    {
      assert OnePort(Known(pl, id), id);
      MoreKnown(Known(pl, id), Known(r, id), id, p);
    }
    MoreKnown(Known(pl, p.id), Known(r, p.id), p.id, p);
  }

  lemma {:induction false} MoreKnown(known: seq<Port>, known': seq<Port>, id: nat, p: Port)
    requires OnePort(known, id) && multiset(known') == multiset(known) + L.IfSame(p.id, id, p)
    requires id == p.id ==> p.id <= PORT_MAX_ID && (known == [] || p in known)
    ensures OnePort(known', id) && (id == p.id ==> p in known') && forall q | q in known :: q in known'
    ensures |known'| == |known| + if id == p.id then 1 else 0
  {
    assert |multiset(known')| == |known'| && |multiset(known)| == |known|;
    forall q | q in known' ensures q in known || (id == p.id && q == p) {
      assert q in multiset(known');
    }
    forall q | q in known ensures q in known' {
      assert q in multiset(known');
    }
    if id == p.id {
      assert p in multiset(known');
    }
  }

  lemma {:induction false} RemoveConsistent(load: S.Load, how: Removal, bound: nat, pl: Plane, p: Port)
    requires Consistent(pl) && R.Ready(load, R.UintHash, bound, pl.table)
    ensures Consistent(Remove(how, pl, p)) && R.Ready(load, R.UintHash, bound, Remove(how, pl, p).table)
  {
    hide S.Remove, S.Bindings, S.WellSized, L.Consistent, R.Ready, GetPort;
    var r := Remove(how, pl, p);
    if OnWire(pl.wire, p) && how == Documented {
      R.RemoveKeepsReady(load, R.UintHash, bound, pl.table, p.id);
      L.RemoveUnbinds(R.UintHash, pl.table, p.id);
      forall id
        ensures OnePort(Known(r, id), id)
        ensures Known(r, id) == if id == p.id then Known(pl, id)[1..] else Known(pl, id)
      {
        assert OnePort(Known(pl, id), id);
        forall q | q in Known(r, id) ensures q in Known(pl, id) {}
      }
      forall q | OnWire(r.wire, q) ensures q in Known(r, q.id) && Ends(r.wire, q) <= |Known(r, q.id)| {
        var known := Known(pl, p.id);
        assert OnePort(known, p.id) && p in known;
        assert OnWire(pl.wire, q) && q in Known(pl, q.id);
        if q == p {
          assert known[1..][0] == known[1] && known[1] in known;
        }
      }
    } else {
      assert r.table == pl.table;
      assert forall q | OnWire(r.wire, q) :: OnWire(pl.wire, q) && Ends(r.wire, q) <= Ends(pl.wire, q);
      assert forall id :: Known(r, id) == Known(pl, id);
    }
  }

  lemma {:induction false} StepConsistent(load: S.Load, how: Removal, bound: nat, pl: Plane, op: Op)
    requires Consistent(pl) && R.Ready(load, R.UintHash, bound, pl.table)
    requires op.AddPort? ==> MayAdd(bound, pl, op.port)
    ensures var r := Step(load, how, pl, op);
      Consistent(r) && R.Ready(load, R.UintHash, bound, r.table)
  {
    match op
    case AddPort(p) => AddConsistent(load, bound, pl, p);
    case RemovePort(p) => RemoveConsistent(load, how, bound, pl, p);
  }

  lemma {:induction false} RunConsistent(load: S.Load, how: Removal, bound: nat, pl: Plane, ops: seq<Op>)
    requires Consistent(pl) && R.Ready(load, R.UintHash, bound, pl.table)
    requires Lawful(load, how, bound, pl, ops)
    ensures Consistent(Run(load, how, pl, ops))
    decreases ops
  {
    hide R.Ready, MayAdd, OnePort, Known, L.Consistent;
    if ops != [] {
      StepConsistent(load, how, bound, pl, ops[0]);
      RunConsistent(load, how, bound, Step(load, how, pl, ops[0]), ops[1..]);
    }
  }

  /** What a removal does to the table's answers. As written it changes none, so a port is absent
      afterwards exactly when it was unknown before. As documented, it is absent when it was unknown, or
      was on the wire and had been added once: each removal takes back one addition. */
  lemma {:induction false} RemovedPort(how: Removal, pl: Plane, p: Port, id: nat)
    requires Consistent(pl)
    ensures how == AsWritten || id != p.id ==> GetPort(Remove(how, pl, p), id) == GetPort(pl, id)
    ensures GetPort(Remove(AsWritten, pl, p), p.id) == None <==> GetPort(pl, p.id) == None
    ensures GetPort(Remove(Documented, pl, p), p.id) == None
      <==> GetPort(pl, p.id) == None || (OnWire(pl.wire, p) && |Known(pl, p.id)| == 1)
  {
    L.RemoveUnbinds(R.UintHash, pl.table, p.id);
  }

  /** A port whose id is unknown, below the bound and not reserved may be added. */
  lemma {:induction false} UnknownMayBeAdded(bound: nat, pl: Plane, p: Port)
    requires S.WellSized(pl.table) && GetPort(pl, p.id) == None
    ensures MayAdd(bound, pl, p) <==> p.id < bound && p.id <= 0xffff_ff00
  {}

  /** A port that is taken off the wire may always be added again. */
  lemma {:induction false} RemovedMayReturn(how: Removal, bound: nat, pl: Plane, p: Port)
    requires Consistent(pl) && OnWire(pl.wire, p) && p.id < bound
    ensures MayAdd(bound, Remove(how, pl, p), p)
  {
    hide L.Consistent;
    FoundIsKnown(pl, p.id);
    assert OnePort(Known(pl, p.id), p.id);
    L.RemoveUnbinds(R.UintHash, pl.table, p.id);
  }

  // ---------- Delivery ----------

  /** A consistent plane outputs a packet exactly when both ends are attached; then, unless one port
      holds both, what arrives on one end leaves on the other, and sending it back returns it. */
  lemma {:induction false} ConsistentDelivers(pl: Plane, inPort: nat)
    requires Consistent(pl)
    ensures Deliver(pl, inPort).Some? <==> Full(pl.wire)
    ensures Full(pl.wire) && !Looped(pl.wire) ==>
      var a, b := pl.wire.first.value, pl.wire.second.value;
      a.id != b.id && Deliver(pl, a.id) == Some(b) && Deliver(pl, b.id) == Some(a)
      && Deliver(pl, Deliver(pl, a.id).value.id) == Some(a)
      && (inPort != a.id ==> Deliver(pl, inPort) == Some(a))
  {
    hide GetPort, Known, S.WellSized, L.Consistent;
    var w := pl.wire;
    forall id ensures forall p :: GetPort(pl, id) == Some(p) <==> p in Known(pl, id) {
      FoundIsKnown(pl, id);
    }
    FoundIsKnown(pl, PORT_DROP);
    assert OnePort(Known(pl, PORT_DROP), PORT_DROP);
    if Full(w) {
      var a, b := w.first.value, w.second.value;
      assert OnWire(w, a) && OnWire(w, b);
      assert OnePort(Known(pl, a.id), a.id);
    }
  }

  /** What a wire is for: a packet is output exactly when both ends are attached; what arrives on one
      end leaves on the other, which the table knows under its id. */
  ghost predicate Delivers(pl: Plane) {
    S.WellSized(pl.table)
    && (forall inPort :: Deliver(pl, inPort).Some? <==> Full(pl.wire))
    && (Full(pl.wire) ==>
          var a, b := pl.wire.first.value, pl.wire.second.value;
          a.id != b.id && Deliver(pl, a.id) == Some(b) && Deliver(pl, b.id) == Some(a)
          && GetPort(pl, a.id) == Some(a) && GetPort(pl, b.id) == Some(b))
  }

  lemma {:induction false} NewConsistent(load: S.Load, bound: nat)
    requires load == S.Documented || bound <= 97
    ensures Consistent(NewPlane()) && R.Ready(load, R.UintHash, bound, NewPlane().table)
  {
    hide S.New, L.Consistent, R.SafeBound, S.WellSized;
    R.PortTableBound(bound);
    R.NewAgrees<nat, Port>(load, R.UintHash, bound, BUCKETS);
  }

  /** Over every lawful run of additions and removals on a new data plane, the wire delivers unless one
      port holds both ends, provided that port ids are below 97 when the load test is the one written. */
  lemma {:induction false} WireDelivery(load: S.Load, how: Removal, bound: nat, ops: seq<Op>)
    requires load == S.Documented || bound <= 97
    requires Lawful(load, how, bound, NewPlane(), ops)
    ensures var pl := Run(load, how, NewPlane(), ops); Delivers(pl) <==> !Looped(pl.wire)
  {
    hide Delivers, Looped, Lawful;
    NewConsistent(load, bound);
    RunConsistent(load, how, bound, NewPlane(), ops);
    DeliversIff(Run(load, how, NewPlane(), ops));
  }

  lemma {:induction false} DeliversIff(pl: Plane)
    requires Consistent(pl)
    ensures Delivers(pl) <==> !Looped(pl.wire)
  {
    hide GetPort, Deliver, Known, OnePort, L.Consistent;
    forall inPort ensures Deliver(pl, inPort).Some? <==> Full(pl.wire) {
      ConsistentDelivers(pl, inPort);
    }
    ConsistentDelivers(pl, 0);
    if Full(pl.wire) {
      EndsKnown(pl);
    }
  }

  /** A port that finds the wire full is refused, and changes where no packet goes. */
  lemma {:induction false} RefusedChangesNothing(load: S.Load, bound: nat, pl: Plane, p: Port, inPort: nat)
    requires Consistent(pl) && R.Ready(load, R.UintHash, bound, pl.table) && MayAdd(bound, pl, p)
    requires pl.wire.first.Some? && pl.wire.second.Some?
    ensures Add(load, pl, p).wire == pl.wire && Deliver(Add(load, pl, p), inPort) == Deliver(pl, inPort)
  {
    hide S.Insert, GetPort, Known, L.Consistent, R.Ready, OnePort, MayAdd;
    var r, out := Add(load, pl, p), Route(pl.wire, inPort);
    AddConsistent(load, bound, pl, p);
    EndsKnown(pl);
    EndsKnown(r);
  }

  /** Taking a port off and adding it back puts it where it was. */
  lemma {:induction false} BackInPlace(load: S.Load, how: Removal, bound: nat, pl: Plane, p: Port)
    requires Consistent(pl) && R.Ready(load, R.UintHash, bound, pl.table)
    requires Full(pl.wire) && OnWire(pl.wire, p) && p.id < bound
    ensures var r := Add(load, Remove(how, pl, p), p);
      r.wire == pl.wire && (Delivers(r) <==> Delivers(pl))
  {
    hide S.Insert, S.Remove, L.Consistent, R.Ready, Delivers, GetPort, Known, OnePort;
    RemoveConsistent(load, how, bound, pl, p);
    RemovedMayReturn(how, bound, pl, p);
    AddConsistent(load, bound, Remove(how, pl, p), p);
    DeliversIff(pl);
    DeliversIff(Add(load, Remove(how, pl, p), p));
  }

  // ---------- The ends over a run ----------

  /** The ports at the ends, with multiplicity. */
  function AtEnds(w: Wire): multiset<Port> {
    AtEnd(w.first) + AtEnd(w.second)
  }

  function AtEnd(end: Option<Port>): multiset<Port> { if end.Some? then multiset{end.value} else multiset{} }

  /** The additions accepted and not yet removed: two at most are accepted at a time. */
  function Attached(m: multiset<Port>, ops: seq<Op>): multiset<Port>
    decreases ops
  {
    if ops == [] then m
    else match ops[0]
      case AddPort(p) => Attached(if |m| < 2 then m + multiset{p} else m, ops[1..])
      case RemovePort(p) => Attached(m - multiset{p}, ops[1..])
  }

  lemma {:induction false} AttachEnds(w: Wire, p: Port)
    ensures AtEnds(Attach(w, p).0) == if |AtEnds(w)| < 2 then AtEnds(w) + multiset{p} else AtEnds(w)
  {}

  lemma {:induction false} DetachEnds(w: Wire, p: Port)
    ensures AtEnds(Detach(w, p).0) == AtEnds(w) - multiset{p}
  {
    hide AtEnd;
    EndOf(w.first, p);
    EndOf(w.second, p);
    EndOf(None, p);
    if w.first == Some(p) {
      TakeBack(AtEnd(w.second), p);
    } else if w.second == Some(p) {
      TakeBack(AtEnd(w.first), p);
    } else {
      TakeNothing(AtEnd(w.first), AtEnd(w.second), p);
    }
  }

  lemma {:induction false} EndOf(end: Option<Port>, p: Port)
    ensures end == Some(p) ==> AtEnd(end) == multiset{p}
    ensures end != Some(p) ==> p !in AtEnd(end)
    ensures end == None ==> AtEnd(end) == multiset{}
  {}

  lemma {:induction false} TakeBack(m: multiset<Port>, p: Port)
    ensures m + multiset{p} - multiset{p} == m + multiset{} == multiset{} + m
    ensures multiset{p} + m == m + multiset{p}
  {}

  lemma {:induction false} TakeNothing(m: multiset<Port>, m': multiset<Port>, p: Port)
    requires p !in m && p !in m'
    ensures m + m' - multiset{p} == m + m'
  {}

  /** Over every run, lawful or not, the ends are the accepted additions not yet removed. */
  lemma {:induction false} EndsAreAttached(load: S.Load, how: Removal, pl: Plane, ops: seq<Op>)
    requires S.WellSized(pl.table)
    ensures AtEnds(Run(load, how, pl, ops).wire) == Attached(AtEnds(pl.wire), ops)
    decreases ops
  {
    hide S.Insert, S.Remove, AtEnds, Attach, Detach;
    if ops != [] {
      var r := Step(load, how, pl, ops[0]);
      match ops[0] {
        case AddPort(p) => AttachEnds(pl.wire, p);
        case RemovePort(p) => DetachEnds(pl.wire, p);
      }
      EndsAreAttached(load, how, r, ops[1..]);
    }
  }

  // ---------- Loops ----------

  function WireStep(w: Wire, op: Op): Wire {
    match op
    case AddPort(p) => Attach(w, p).0
    case RemovePort(p) => Detach(w, p).0
  }

  /** No port is added while it holds one end and the other is free. */
  predicate Careful(w: Wire, ops: seq<Op>)
    decreases ops
  {
    ops == []
    || ((ops[0].AddPort? && OnWire(w, ops[0].port) ==> Full(w)) && Careful(WireStep(w, ops[0]), ops[1..]))
  }

  lemma {:induction false} CarefulNeverLoops(load: S.Load, how: Removal, pl: Plane, ops: seq<Op>)
    requires S.WellSized(pl.table) && !Looped(pl.wire) && Careful(pl.wire, ops)
    ensures !Looped(Run(load, how, pl, ops).wire)
    decreases ops
  {
    if ops != [] {
      CarefulNeverLoops(load, how, Step(load, how, pl, ops[0]), ops[1..]);
    }
  }

  /** A port added while it is on the wire takes the other end too, if that is free. Delivery goes on
      exactly when the wire was full. */
  lemma {:induction false} AddTwiceIff(load: S.Load, bound: nat, pl: Plane, p: Port)
    requires Consistent(pl) && R.Ready(load, R.UintHash, bound, pl.table) && !Looped(pl.wire)
    requires OnWire(pl.wire, p) && p.id < bound
    ensures Delivers(Add(load, pl, p)) <==> Full(pl.wire)
  {
    hide S.Insert, GetPort, Deliver, L.Consistent, R.Ready, Delivers;
    FoundIsKnown(pl, p.id);
    assert OnePort(Known(pl, p.id), p.id);
    AddConsistent(load, bound, pl, p);
    DeliversIff(Add(load, pl, p));
  }

  /** A run on which the same port is added twice ends with a wire that does not deliver. */
  lemma {:induction false} AddedTwice(load: S.Load, p: Port)
    ensures var pl := Add(load, Add(load, NewPlane(), p), p);
      pl.wire == Wire(Some(p), Some(p)) && !Delivers(pl)
  {
    hide S.Insert, S.New, Deliver;
  }

  /** With the removal as written, a port that was added and removed is still looked up, on any plane. */
  lemma {:induction false} RemovedIsStillThere(load: S.Load, pl: Plane, p: Port)
    requires S.WellSized(pl.table)
    ensures GetPort(Remove(AsWritten, Add(load, pl, p), p), p.id) == Some(p)
  {
    hide S.Insert, S.Find;
    L.InsertFinds(load, R.UintHash, pl.table, p.id, p);
  }

  lemma {:induction false} EndsKnown(pl: Plane)
    requires Consistent(pl) && Full(pl.wire)
    ensures var a, b := pl.wire.first.value, pl.wire.second.value;
      GetPort(pl, a.id) == Some(a) && GetPort(pl, b.id) == Some(b)
  {
    var a, b := pl.wire.first.value, pl.wire.second.value;
    assert OnWire(pl.wire, a) && OnWire(pl.wire, b);
    FoundIsKnown(pl, a.id);
    FoundIsKnown(pl, b.id);
  }

  // ---------- The bound is exact ----------

  function TwoPorts(): seq<Op> { [AddPort(Port(1, 97)), AddPort(Port(2, 0))] }

  function TwoEnds(): (pl: Plane)
    ensures S.WellSized(pl.table)
  {
    Add(S.AsWritten, Add(S.AsWritten, NewPlane(), Port(1, 97)), Port(2, 0))
  }

  lemma {:induction false} EndIsLost()
    ensures GetPort(TwoEnds(), 97) == None
    ensures TwoEnds().wire == Wire(Some(Port(1, 97)), Some(Port(2, 0)))
  {
    hide S.Insert, S.Find, S.New, R.Run, S.NextPrime;
    R.SmallPrimes();
    R.WrittenTableLosesAKey(BUCKETS, Port(1, 97), Port(2, 0));
    R.RunTwo(BUCKETS, 97, Port(1, 97), 0, Port(2, 0));
  }

  lemma {:induction false} PortsUnknown()
    ensures GetPort(NewPlane(), 97) == None
    ensures GetPort(Add(S.AsWritten, NewPlane(), Port(1, 97)), 0) == None
  {
    hide S.Insert, S.New, S.NextPrime, S.Bindings;
    R.SmallPrimes();
    L.NewIsConsistent<nat, Port>(R.UintHash, BUCKETS);
    L.NewIsConsistent<nat, Port>(R.UintHash, 53);
    R.FirstInsert(BUCKETS, 97, Port(1, 97));
    L.PushBinds(R.UintHash, S.New<nat, Port>(53), 97, Port(1, 97), 0);
  }

  lemma {:induction false} TwoEndsByRun(how: Removal)
    ensures Lawful(S.AsWritten, how, 98, NewPlane(), TwoPorts())
    ensures Run(S.AsWritten, how, NewPlane(), TwoPorts()) == TwoEnds()
  {
    hide S.Insert, S.New, GetPort;
    PortsUnknown();
    var p, q, ops := Port(1, 97), Port(2, 0), TwoPorts();
    var pl1 := Add(S.AsWritten, NewPlane(), p);
    assert ops[1..] == [AddPort(q)] && ops[1..][1..] == [];
    assert Lawful(S.AsWritten, how, 98, pl1, ops[1..]);
    assert Run(S.AsWritten, how, pl1, ops[1..]) == TwoEnds();
  }

  /** With the load test as written, a wire between ports 97 and 0 is full but loses what arrives on
      port 0: the table no longer knows port 97. */
  lemma {:induction false} WireLosesAPort(how: Removal)
    ensures Lawful(S.AsWritten, how, 98, NewPlane(), TwoPorts())
    ensures var pl := Run(S.AsWritten, how, NewPlane(), TwoPorts()); Full(pl.wire) && !Looped(pl.wire) && !Delivers(pl)
  {
    hide Run, Lawful, GetPort, TwoEnds;
    TwoEndsByRun(how);
    EndIsLost();
    assert Deliver(TwoEnds(), 0) == None;
  }

  ghost predicate RunDelivers(how: Removal, ops: seq<Op>) {
    var pl := Run(S.AsWritten, how, NewPlane(), ops);
    Delivers(pl) <==> !Looped(pl.wire)
  }

  /** A wire delivers after every lawful run that does not leave one port at both ends. */
  ghost predicate AlwaysDelivers(how: Removal, bound: nat) {
    forall ops | Lawful(S.AsWritten, how, bound, NewPlane(), ops) :: RunDelivers(how, ops)
  }

  lemma {:induction false} LawfulAbove(
    how: Removal, bound: nat, bound': nat, pl: Plane, ops: seq<Op>)
    requires S.WellSized(pl.table) && bound <= bound' && Lawful(S.AsWritten, how, bound, pl, ops)
    ensures Lawful(S.AsWritten, how, bound', pl, ops)
    decreases ops
  {
    if ops != [] {
      LawfulAbove(how, bound, bound', Step(S.AsWritten, how, pl, ops[0]), ops[1..]);
    }
  }

  /** With the load test as written, wires between ports with ids below a bound always deliver exactly
      when the bound is at most 97. */
  lemma {:induction false} WireDeliveryIff(how: Removal, bound: nat)
    ensures AlwaysDelivers(how, bound) <==> bound <= 97
  {
    hide Lawful, Delivers, Looped, Run;
    if bound <= 97 {
      forall ops | Lawful(S.AsWritten, how, bound, NewPlane(), ops)
        ensures RunDelivers(how, ops)
      {
        WireDelivery(S.AsWritten, how, bound, ops);
      }
    } else {
      WireLosesAPort(how);
      LawfulAbove(how, 98, bound, NewPlane(), TwoPorts());
    }
  }
}
