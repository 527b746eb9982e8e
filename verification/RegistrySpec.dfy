/** The table of data planes (flowpath/dataplane.c) as a value: a fixed row of slots, each empty or
    holding a named plane, seen as a map from names to slots. */
module RegistrySpec {
  import opened Wrappers

  const MAX: nat := 64

  type Slots = s: seq<Option<string>> | |s| == MAX witness seq(MAX, _ => None)

  datatype Outcome =
    | Created(slot: nat)
    | Exists          // FP_DATAPLANE_EXISTS
    | LimitExceeded   // FP_DATAPLANE_LIMIT_EXCEEED
    | BadPipeline     // whatever the failed load reported

  /** The first slot from i on that holds x. */
  function FirstAt(s: seq<Option<string>>, i: nat, x: Option<string>): (r: Option<nat>)
    requires i <= |s|
    ensures r.Some? ==> i <= r.value < |s| && s[r.value] == x && forall j | i <= j < r.value :: s[j] != x
    ensures r.None? ==> forall j | i <= j < |s| :: s[j] != x
    decreases |s| - i
  {
    if i == |s| then None else if s[i] == x then Some(i) else FirstAt(s, i + 1, x)
  }

  function Lookup(s: Slots, name: string): Option<nat> { FirstAt(s, 0, Some(name)) }

  function FirstFree(s: Slots): Option<nat> { FirstAt(s, 0, None) }

  /** A new plane takes the first empty slot; one whose pipeline does not load is deleted again. */
  function Create(s: Slots, name: string, loads: bool): (Slots, Outcome) {
    if Lookup(s, name).Some? then (s, Exists)
    else match FirstFree(s)
      case None => (s, LimitExceeded)
      case Some(i) => if loads then (s[i := Some(name)], Created(i)) else (Delete(s[i := Some(name)], i), BadPipeline)
  }

  function Delete(s: Slots, i: nat): Slots
    requires i < MAX
  {
    s[i := None]
  }

  // ---------- The name map ----------

  ghost predicate Distinct(s: seq<Option<string>>) {
    forall i, j | 0 <= i < j < |s| && s[i].Some? :: s[i] != s[j]
  }

  /** m maps exactly the names in the slots, each to its slot. */
  ghost predicate Names(s: seq<Option<string>>, m: map<string, nat>) {
    (forall name | name in m :: m[name] < |s| && s[m[name]] == Some(name))
    && forall i | 0 <= i < |s| && s[i].Some? :: s[i].value in m && m[s[i].value] == i
  }

  function Occupied(s: seq<Option<string>>): nat {
    if s == [] then 0 else (if s[0].Some? then 1 else 0) + Occupied(s[1..])
  }

  lemma {:induction false} OccupiedUpdate(s: seq<Option<string>>, i: nat, x: Option<string>)
    requires i < |s|
    ensures Occupied(s[i := x])
         == Occupied(s) + (if x.Some? then 1 else 0) - (if s[i].Some? then 1 else 0)
  {
    if i == 0 {
      assert s[i := x][1..] == s[1..];
    } else {
      assert s[i := x][1..] == s[1..][i - 1 := x];
      OccupiedUpdate(s[1..], i - 1, x);
    }
  }

  lemma {:induction false} OccupiedBound(s: seq<Option<string>>)
    ensures Occupied(s) <= |s|
    ensures Occupied(s) == |s| <==> forall i | 0 <= i < |s| :: s[i].Some?
  {
    if s != [] {
      OccupiedBound(s[1..]);
      assert s == [s[0]] + s[1..];
      assert forall i | 0 < i < |s| :: s[i] == s[1..][i - 1];
      assert forall i | 0 <= i < |s[1..]| :: s[1..][i] == s[i + 1];
    }
  }

  /** The registry refines the name map: as many planes as names, and no name twice. */
  ghost predicate Refines(s: Slots, m: map<string, nat>) {
    Names(s, m) && |m| == Occupied(s)
  }

  lemma {:induction false} RefinesFacts(s: Slots, m: map<string, nat>, name: string)
    requires Refines(s, m)
    ensures Distinct(s) && |m| <= MAX
    ensures Lookup(s, name) == if name in m then Some(m[name]) else None
    ensures FirstFree(s).None? <==> |m| == MAX
  {
    OccupiedBound(s);
    if name in m {
      assert s[m[name]] == Some(name);
    }
    if FirstFree(s).Some? {
      assert s[FirstFree(s).value].None?;
    }
  }

  // ---------- Runs ----------

  datatype Op = CreateOp(name: string, loads: bool) | DeleteOp(slot: nat)

  function Step(s: Slots, op: Op): Slots {
    match op
    case CreateOp(name, loads) => Create(s, name, loads).0
    case DeleteOp(i) => if i < MAX then Delete(s, i) else s
  }

  /** The least slot from i on that no name is mapped to. */
  function FreeSlot(m: map<string, nat>, i: nat): nat
    requires i <= MAX
    decreases MAX - i
  {
    if i < MAX && i in m.Values then FreeSlot(m, i + 1) else i
  }

  lemma {:induction false} FreeSlotIsLeast(m: map<string, nat>, i: nat)
    requires i <= MAX
    ensures i <= FreeSlot(m, i) <= MAX && (FreeSlot(m, i) < MAX ==> FreeSlot(m, i) !in m.Values)
    ensures forall j | i <= j < FreeSlot(m, i) :: j in m.Values
    decreases MAX - i
  {
    if i < MAX && i in m.Values { FreeSlotIsLeast(m, i + 1); }
  }

  /** Creating succeeds exactly for a new name, while fewer than the maximum exist, if the pipeline
      loads, and every failure leaves the map as it was; deleting forgets the name of the slot. */
  function StepMap(m: map<string, nat>, op: Op): map<string, nat> {
    match op
    case CreateOp(name, loads) => if name !in m && |m| < MAX && loads then m[name := FreeSlot(m, 0)] else m
    case DeleteOp(i) => map name | name in m && m[name] != i :: m[name]
  }

  lemma {:induction false} FreeSlotIsFirstFree(s: Slots, m: map<string, nat>, i: nat)
    requires Names(s, m) && i <= MAX
    ensures FirstAt(s, i, None) == if FreeSlot(m, i) < MAX then Some(FreeSlot(m, i)) else None
    decreases MAX - i
  {
    if i < MAX {
      if s[i].Some? {
        assert s[i].value in m && m[s[i].value] == i;
        assert i in m.Values;
      } else {
        assert i !in m.Values;
      }
      FreeSlotIsFirstFree(s, m, i + 1);
    }
  }

  lemma {:induction false} NewNameNames(s: seq<Option<string>>, m: map<string, nat>, name: string, i: nat)
    requires Names(s, m) && i < |s| && s[i].None? && name !in m
    ensures Names(s[i := Some(name)], m[name := i])
  {
    var s', m' := s[i := Some(name)], m[name := i];
    assert forall x | x in m :: x != name && m[x] != i && m'[x] == m[x] && s'[m[x]] == Some(x);
    assert forall j | 0 <= j < |s| && s[j].Some? :: j != i && s'[j] == s[j] && s[j].value in m;
  }

  lemma {:induction false} NewNameRefines(s: Slots, m: map<string, nat>, name: string, i: nat)
    requires Refines(s, m) && i < MAX && s[i].None? && name !in m
    ensures Refines(s[i := Some(name)], m[name := i])
  {
    hide Occupied, Names;
    NewNameNames(s, m, name, i);
    OccupiedUpdate(s, i, Some(name));
    var m' := m[name := i];
    assert m'.Keys == m.Keys + {name} && |m'| == |m'.Keys| && |m| == |m.Keys|;
  }

  lemma {:induction false} CreateRefines(s: Slots, m: map<string, nat>, name: string, loads: bool)
    requires Refines(s, m)
    ensures Refines(Create(s, name, loads).0, StepMap(m, CreateOp(name, loads)))
    ensures Create(s, name, loads).1.Created? <==> name !in m && |m| < MAX && loads
    ensures !Create(s, name, loads).1.Created? ==> Create(s, name, loads).0 == s
    ensures var err := Create(s, name, loads).1;
      (err == Exists <==> name in m)
      && (err == LimitExceeded <==> name !in m && |m| == 64)
      && (err == BadPipeline <==> name !in m && |m| < 64 && !loads)
      && (name !in m && |m| < 64 && loads ==>
            err.Created? && err.slot !in m.Values && forall i | 0 <= i < err.slot :: i in m.Values)
  {
    hide Lookup, Occupied, Names, FreeSlot;
    RefinesFacts(s, m, name);
    FreeSlotIsFirstFree(s, m, 0);
    FreeSlotIsLeast(m, 0);
    if name !in m && FirstFree(s).Some? {
      var i := FirstFree(s).value;
      assert s[i := Some(name)][i := None] == s;
      NewNameRefines(s, m, name, i);
    }
  }

  lemma {:induction false} DeleteRefines(s: Slots, m: map<string, nat>, i: nat)
    requires Refines(s, m) && i < MAX
    ensures Refines(Delete(s, i), StepMap(m, DeleteOp(i)))
  {
    hide Occupied;
    OccupiedUpdate(s, i, None);
    var m' := StepMap(m, DeleteOp(i));
    if s[i].Some? {
      assert m'.Keys == m.Keys - {s[i].value} && |m'| == |m'.Keys| && |m| == |m.Keys|;
    } else {
      assert m' == m;
    }
  }

  function Run(s: Slots, ops: seq<Op>): Slots
    decreases ops
  {
    if ops == [] then s else Run(Step(s, ops[0]), ops[1..])
  }

  function RunMap(m: map<string, nat>, ops: seq<Op>): map<string, nat>
    decreases ops
  {
    if ops == [] then m else RunMap(StepMap(m, ops[0]), ops[1..])
  }

  lemma {:induction false} RunRefines(s: Slots, m: map<string, nat>, ops: seq<Op>)
    requires Refines(s, m)
    ensures Refines(Run(s, ops), RunMap(m, ops))
    decreases ops
  {
    if ops != [] {
      match ops[0] {
        case CreateOp(name, loads) => CreateRefines(s, m, name, loads);
        case DeleteOp(i) =>
          if i < MAX {
            DeleteRefines(s, m, i);
          } else {
            assert StepMap(m, ops[0]) == m;
          }
      }
      RunRefines(Step(s, ops[0]), StepMap(m, ops[0]), ops[1..]);
    }
  }

  function NoPlanes(): Slots { seq(MAX, _ => None) }

  lemma {:induction false} NothingOccupied(s: seq<Option<string>>)
    requires forall i | 0 <= i < |s| :: s[i].None?
    ensures Occupied(s) == 0
  {
    if s != [] { NothingOccupied(s[1..]); }
  }

  /** Over every run of creations and deletions, names are pairwise distinct, there are at most the
      maximum of planes, and lookup is the name map's. */
  lemma {:induction false} RegistryIsANameMap(ops: seq<Op>, name: string)
    ensures var s, m := Run(NoPlanes(), ops), RunMap(map[], ops);
      Refines(s, m) && Distinct(s) && |s| == 64 && |m| <= 64
      && Lookup(s, name) == if name in m then Some(m[name]) else None
  {
    NothingOccupied(NoPlanes());
    RunRefines(NoPlanes(), map[], ops);
    RefinesFacts(Run(NoPlanes(), ops), RunMap(map[], ops), name);
  }
}
