/** The table of data planes on the heap (flowpath/dataplane.c). */
module Registry {
  import opened Wrappers
  import opened Dataplane
  import H = HashSpec
  import W = WireSpec
  import S = RegistrySpec

  class Registry {
    const planes: array<Dataplane?>  // dps_

    /** Each plane's id is the slot it is in. */
    ghost predicate Valid()
      reads this, planes
    {
      planes.Length == S.MAX
      && forall i | 0 <= i < S.MAX && planes[i] != null :: planes[i].id == i
    }

    ghost function Slots(): (s: S.Slots)
      requires Valid()
      reads this, planes
    {
      seq(S.MAX, i requires 0 <= i < S.MAX reads this, planes requires Valid() =>
        if planes[i] == null then None else Some(planes[i].name))
    }

    constructor ()
      ensures Valid() && fresh(planes) && Slots() == S.NoPlanes()
    {
      planes := new Dataplane?[S.MAX](_ => null);
    }

    /** Puts a new plane in the first empty slot. */
    method Allocate(name: string, load: H.Load, how: W.Removal) returns (dp: Dataplane?)
      requires Valid()
      modifies planes
      ensures Valid()
      ensures dp == null <==> S.FirstFree(old(Slots())).None?
      ensures dp == null ==> planes[..] == old(planes[..]) && Slots() == old(Slots())
      ensures dp != null ==>
          fresh(dp) && fresh(dp.ports) && fresh(dp.ports.Repr) && fresh(dp.wire)
          && dp.name == name && dp.how == how && dp.ports.load == load
          && S.FirstFree(old(Slots())) == Some(dp.id) && planes[..] == old(planes[..])[dp.id := dp]
          && Slots() == old(Slots())[dp.id := Some(name)]
          && dp.Valid() && dp.State() == W.NewPlane()
    {
      for i := 0 to S.MAX
        invariant planes[..] == old(planes[..])
        invariant S.FirstAt(Slots(), i, None) == S.FirstFree(Slots())
      {
        if planes[i] == null {
          planes[i] := new Dataplane(i, name, load, how);
          return planes[i];
        }
      }
      dp := null;
    }

    /** The plane with the given name, if any. */
    method Find(name: string) returns (dp: Dataplane?)
      requires Valid()
      ensures dp == match S.Lookup(Slots(), name) case None => null case Some(i) => planes[i]
      ensures dp != null <==> S.Lookup(Slots(), name).Some?
      ensures dp != null ==> dp.name == name
    {
      for i := 0 to S.MAX
        invariant S.FirstAt(Slots(), i, Some(name)) == S.Lookup(Slots(), name)
      {
        if planes[i] != null && planes[i].name == name {
          return planes[i];
        }
      }
      dp := null;
    }

    /** Gives up the slot of a plane. */
    method Delete(dp: Dataplane)
      requires Valid() && dp.id < S.MAX && planes[dp.id] == dp
      modifies planes
      ensures Valid() && planes[..] == old(planes[..])[dp.id := null]
      ensures Slots() == S.Delete(old(Slots()), dp.id)
    {
      planes[dp.id] := null;
    }

    /** Creates a plane under a name that no other has. Whether its pipeline loads is for the caller to
        say; a plane that gets none is deleted again. A creation that fails changes no slot. */
    method Create(name: string, loads: bool, load: H.Load, how: W.Removal)
      returns (dp: Dataplane?, err: S.Outcome)
      requires Valid()
      modifies planes
      ensures Valid() && (Slots(), err) == S.Create(old(Slots()), name, loads)
      ensures err == S.Exists <==> Some(name) in old(Slots())
      ensures err == S.LimitExceeded <==> Some(name) !in old(Slots()) && None !in old(Slots())
      ensures err == S.BadPipeline <==> Some(name) !in old(Slots()) && None in old(Slots()) && !loads
      ensures dp == null ==> !err.Created? && planes[..] == old(planes[..])
      ensures dp != null ==>
          err == S.Created(dp.id) && fresh(dp) && fresh(dp.ports) && fresh(dp.ports.Repr) && fresh(dp.wire)
          && dp.name == name && planes[..] == old(planes[..])[dp.id := dp]
          && dp.Valid() && dp.State() == W.NewPlane()
    {
      var same := Find(name);
      if same != null {
        return null, S.Exists;
      }
      dp := Allocate(name, load, how);
      if dp == null {
        return null, S.LimitExceeded;
      }
      if !loads {
        Delete(dp);
        assert planes[..] == old(planes[..]);
        return null, S.BadPipeline;
      }
      err := S.Created(dp.id);
    }
  }
}
