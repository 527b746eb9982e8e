/** A data plane on the heap: its port table and its wire pipeline (flowpath/dataplane.c,
    flowpath/pipelines/wire/wire.c). */
module Dataplane {
  import opened Wrappers
  import S = HashSpec
  import R = HashRuns
  import opened HashTable
  import W = WireSpec

  /** FP_OK and FP_ERROR. */
  datatype Status = Ok | Error

  /** The pipeline object of a wire. */
  class WireEnds {
    var ports: seq<Option<W.Port>>  // struct fp_port* ports[2]

    ghost predicate Valid()
      reads this
    {
      |ports| == 2
    }

    ghost function State(): W.Wire
      requires Valid()
      reads this
    {
      W.Wire(ports[0], ports[1])
    }

    /** wire_load. */
    constructor ()
      ensures Valid() && State() == W.Wire(None, None)
    {
      ports := [None, None];
    }

    method AddPort(p: W.Port) returns (err: Status)
      requires Valid()
      modifies this
      ensures Valid() && State() == W.Attach(old(State()), p).0
      ensures old(ports[0]) != None && old(ports[1]) != None ==> err == Error && ports == old(ports)
      ensures old(ports[0]) == None ==> err == Ok && ports == [Some(p), old(ports[1])]
      ensures old(ports[0]) != None && old(ports[1]) == None ==> err == Ok && ports == [old(ports[0]), Some(p)]
    {
      if ports[0].None? {
        ports := ports[0 := Some(p)];
      } else if ports[1].None? {
        ports := ports[1 := Some(p)];
      } else {
        return Error;
      }
      err := Ok;
    }

    method DelPort(p: W.Port) returns (err: Status)
      requires Valid()
      modifies this
      ensures Valid() && State() == W.Detach(old(State()), p).0
      ensures old(ports[0]) == Some(p) ==> err == Ok && ports == [None, old(ports[1])]
      ensures old(ports[0]) != Some(p) && old(ports[1]) == Some(p) ==> err == Ok && ports == [old(ports[0]), None]
      ensures old(ports[0]) != Some(p) && old(ports[1]) != Some(p) ==> err == Error && ports == old(ports)
    {
      if ports[0] == Some(p) {
        ports := ports[0 := None];
      } else if ports[1] == Some(p) {
        ports := ports[1 := None];
      } else {
        return Error;
      }
      err := Ok;
    }

    /** Sets the output port of the context, and reports a wire that is not fully configured. */
    method Route(cxt: Context) returns (err: Status)
      requires Valid()
      modifies cxt
      ensures cxt.outPort == W.Route(old(State()), cxt.inPort)
      ensures ports[0] == None || ports[1] == None ==> err == Error && cxt.outPort == 0xffff_fff7
      ensures ports[0] != None && ports[1] != None ==>
        err == Ok
        && cxt.outPort == if cxt.inPort == ports[0].value.id then ports[1].value.id else ports[0].value.id
    {
      if ports[0].None? || ports[1].None? {
        cxt.outPort := W.PORT_DROP;
        return Error;
      }
      if cxt.inPort == ports[0].value.id {
        cxt.outPort := ports[1].value.id;
      } else {
        cxt.outPort := ports[0].value.id;
      }
      err := Ok;
    }
  }

  /** What a pipeline knows of one packet. */
  class Context {
    const packet: nat
    const inPort: nat
    var outPort: nat

    constructor (packet: nat, inPort: nat)
      ensures this.packet == packet && this.inPort == inPort
    {
      this.packet, this.inPort, outPort := packet, inPort, 0;
    }
  }

  class Dataplane {
    const id: nat       // its slot in the table of data planes
    const name: string
    const how: W.Removal
    const ports: Table<nat, W.Port>
    const wire: WireEnds

    ghost predicate Valid()
      reads this, ports, ports.Repr, wire
    {
      ports.Valid() && wire.Valid() && this !in ports.Repr && wire !in ports.Repr
      && ports.hash == R.UintHash
    }

    ghost function State(): (pl: W.Plane)
      requires Valid()
      reads this, ports, ports.Repr, wire
      ensures S.WellSized(pl.table)
    {
      W.Plane(ports.model, wire.State())
    }

    constructor (id: nat, name: string, load: S.Load, how: W.Removal)
      ensures Valid() && this.id == id && this.name == name && this.how == how && ports.load == load
      ensures fresh(ports) && fresh(ports.Repr) && fresh(wire)
      ensures State() == W.NewPlane()
    {
      this.id, this.name, this.how := id, name, how;
      ports := new Table<nat, W.Port>(W.BUCKETS, R.UintHash, load);
      wire := new WireEnds();
    }

    /** The table learns of the port whether or not the pipeline has room for it. */
    method AddPort(p: W.Port) returns (err: Status)
      requires Valid()
      modifies ports, ports.data, wire
      ensures Valid() && fresh(ports.Repr - old(ports.Repr))
      ensures State() == W.Add(ports.load, old(State()), p)
      ensures err == Error ==> wire.ports == old(wire.ports)
      ensures err == Ok <==> !W.Full(old(State()).wire)
    {
      var e := ports.Insert(p.id, p);
      err := wire.AddPort(p);
    }

    /** Under the test as written the port table is never told. */
    method RemovePort(p: W.Port) returns (err: Status)
      requires Valid()
      modifies ports.Repr, wire
      ensures Valid() && ports.Repr == old(ports.Repr)
      ensures State() == W.Remove(how, old(State()), p)
      ensures err == Ok <==> W.OnWire(old(State()).wire, p)
    {
      err := wire.DelPort(p);
      if err == Ok && how == W.Documented {
        ports.Remove(p.id);
      }
    }

    method GetPort(id: nat) returns (p: Option<W.Port>)
      requires Valid()
      ensures p == W.GetPort(State(), id)
    {
      var e := ports.Find(id);
      p := if e == null then None else Some(e.value);
    }

    /** wire_insert: ingress, route, egress. Returns the packet and the port it is output on; no port
        is a null pointer, on which the output function is called all the same. */
    method InsertPacket(packet: nat, inPort: nat) returns (out: (nat, Option<W.Port>))
      requires Valid()
      ensures Valid() && State() == old(State())
      ensures out == (packet, W.Deliver(State(), inPort))
    {
      var cxt := new Context(packet, inPort);
      var err := wire.Route(cxt);
      var port := GetPort(cxt.outPort);
      out := (cxt.packet, port);
    }
  }
}
