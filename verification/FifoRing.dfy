/** The circular FIFO of flowpath/util.c. One slot always stays free, so that head == tail means
    empty. */
module FifoRing {
  /** A void*; the FIFO stores the pointers and never follows them. */
  type Ptr = nat

  const NULL: Ptr := 0

  // ---------- The bounded queue that a ring stands for ----------

  /** How many items a batch operation asked for n moves, when at most `most` can be. A negative
      request moves none, but is what the operation returns. */
  function Moved(n: int, most: int): int { if n <= most then n else most }

  function Taken(n: int): nat { if n < 0 then 0 else n }

  function Pushed(s: seq<Ptr>, capacity: int, x: Ptr): seq<Ptr> {
    if |s| < capacity then s + [x] else s
  }

  function Popped(s: seq<Ptr>): (seq<Ptr>, Ptr) {
    if s == [] then (s, NULL) else (s[1..], s[0])
  }

  function PushedMany(s: seq<Ptr>, capacity: int, xs: seq<Ptr>): seq<Ptr>
    decreases xs
  {
    if xs == [] then s else PushedMany(Pushed(s, capacity, xs[0]), capacity, xs[1..])
  }

  function PoppedMany(s: seq<Ptr>, n: nat): seq<Ptr> {
    if n == 0 then s else PoppedMany(Popped(s).0, n - 1)
  }

  /** A batch push is as many single pushes, cut off at the capacity. */
  lemma {:induction false} PushManyIsPushes(s: seq<Ptr>, capacity: int, xs: seq<Ptr>)
    requires |s| <= capacity
    ensures PushedMany(s, capacity, xs) == s + xs[..Moved(|xs|, capacity - |s|)]
    decreases xs
  {
    if xs != [] {
      var s' := Pushed(s, capacity, xs[0]);
      PushManyIsPushes(s', capacity, xs[1..]);
      var n := Moved(|xs|, capacity - |s|);
      if n > 0 {
        assert xs[..n] == [xs[0]] + xs[1..][..n - 1];
      }
    }
  }

  /** A batch pop is as many single pops, cut off at the count. */
  lemma {:induction false} PopManyIsPops(s: seq<Ptr>, n: nat)
    ensures PoppedMany(s, n) == s[Moved(n, |s|)..]
    decreases n
  {
    if n > 0 && s != [] {
      PopManyIsPops(s[1..], n - 1);
    } else if n > 0 {
      PopManyIsPops(s, n - 1);
    }
  }

  // ---------- A stretch of a circular array ----------

  /** The items of s from head on, around the end, up to tail. */
  function View(s: seq<Ptr>, head: int, tail: int): (v: seq<Ptr>)
    requires 0 <= head <= |s| && 0 <= tail <= |s|
    ensures |v| == tail - head + if head <= tail then 0 else |s|
  {
    if head <= tail then s[head..tail] else s[head..] + s[..tail]
  }

  /** The slot n after i. */
  function Around(i: int, n: int, num: int): int { if i + n >= num then i + n - num else i + n }

  lemma {:induction false} ViewStore(s: seq<Ptr>, head: int, tail: int, x: Ptr)
    requires 0 <= head < |s| && 0 <= tail < |s| && |View(s, head, tail)| < |s| - 1
    ensures View(s[tail := x], head, Around(tail, 1, |s|)) == View(s, head, tail) + [x]
  {
    var s' := s[tail := x];
    if head <= tail {
      assert s'[head..tail + 1] == s[head..tail] + [x];
      if tail + 1 == |s| {
        assert s'[head..] + s'[..0] == s'[head..tail + 1];
      }
    } else {
      assert s'[..tail + 1] == s[..tail] + [x] && s'[head..] == s[head..];
    }
  }

  lemma {:induction false} ViewRemove(s: seq<Ptr>, head: int, tail: int, n: nat)
    requires 0 <= head < |s| && 0 <= tail < |s| && n <= |View(s, head, tail)|
    ensures 0 <= Around(head, n, |s|) < |s|
    ensures View(s, Around(head, n, |s|), tail) == View(s, head, tail)[n..]
  {
    if head <= tail {
      assert s[head..tail][n..] == s[head + n..tail];
    } else if head + n < |s| {
      assert (s[head..] + s[..tail])[n..] == s[head + n..] + s[..tail];
    } else {
      assert (s[head..] + s[..tail])[n..] == s[..tail][head + n - |s|..] == s[head + n - |s|..tail];
    }
  }

  lemma {:induction false} ViewAt(s: seq<Ptr>, head: int, tail: int, j: nat)
    requires 0 <= head < |s| && 0 <= tail < |s| && j < |View(s, head, tail)|
    ensures 0 <= Around(head, j, |s|) < |s| && View(s, head, tail)[j] == s[Around(head, j, |s|)]
  {}

  /** A buffer whose first t items were overwritten by those of s. */
  lemma {:induction false} Overwritten(now: seq<Ptr>, s: seq<Ptr>, before: seq<Ptr>, t: nat)
    requires |now| == |before| && t <= |s| && t <= |now|
    requires forall j | 0 <= j < t :: now[j] == s[j]
    requires forall j | t <= j < |now| :: now[j] == before[j]
    ensures now == s[..t] + before[t..]
  {}

  // ---------- The ring ----------

  class Ring {
    var head: int
    var tail: int
    const num: nat
    const ring: array<Ptr>

    ghost predicate Valid()
      reads this
    {
      ring.Length == num
      && if num == 0 then head == 0 && tail == 0 else 0 <= head < num && 0 <= tail < num
    }

    /** The queued items, first to leave first. */
    ghost function Contents(): (s: seq<Ptr>)
      requires Valid()
      reads this, ring
      ensures num > 0 ==> |s| < num
    {
      View(ring[..], head, tail)
    }

    /** What the queue can hold; with no slots at all it cannot even hold nothing plus the free slot. */
    function Capacity(): int { num - 1 }

    constructor (num: nat)
      ensures Valid() && fresh(ring) && this.num == num && Contents() == []
    {
      this.num := num;
      ring := new Ptr[num];
      head, tail := 0, 0;
    }

    /** fp_ring_init. */
    method Reset()
      requires ring.Length == num
      modifies this
      ensures Valid() && Contents() == []
    {
      head, tail := 0, 0;
    }

    method Count() returns (count: int)
      requires Valid()
      ensures count == |Contents()|
    {
      count := tail - head;
      if count < 0 {
        count := count + num;
      }
    }

    method Free() returns (free: int)
      requires Valid()
      ensures free == num - |Contents()|
    {
      var count := Count();
      free := num - count;
    }

    /** Stores x at the tail, which is free, and advances the tail around the array. */
    method Store(x: Ptr)
      requires Valid() && |Contents()| < Capacity()
      modifies this, ring
      ensures Valid() && Contents() == old(Contents()) + [x] && head == old(head)
    {
      hide View;
      ViewStore(ring[..], head, tail, x);
      ring[tail] := x;
      tail := tail + 1;
      if tail == num {
        tail := 0;
      }
    }

    method Push(x: Ptr) returns (r: int)
      requires Valid()
      modifies this, ring
      ensures Valid() && Contents() == Pushed(old(Contents()), Capacity(), x) && head == old(head)
      ensures r == if |old(Contents())| < Capacity() then 1 else 0
    {
      var count := Count();
      if count < num - 1 {
        Store(x);
        return 1;
      }
      return 0;
    }

    method PushN(x: seq<Ptr>, n: int) returns (items: int)
      requires Valid() && n <= |x|
      modifies this, ring
      ensures Valid() && items == Moved(n, Capacity() - |old(Contents())|)
      ensures Contents() == old(Contents()) + x[..Taken(items)]
    {
      hide Contents;
      var free := Free();
      free := free - 1;
      items := if n <= free then n else free;
      var i := 0;
      while i < items
        invariant Valid() && 0 <= i <= Taken(items)
        invariant Contents() == old(Contents()) + x[..i]
      {
        Store(x[i]);
        assert x[..i] + [x[i]] == x[..i + 1];
        i := i + 1;
      }
    }

    /** Fetches the head item and advances the head around the array. */
    method Fetch() returns (x: Ptr)
      requires Valid() && Contents() != []
      modifies this`head
      ensures Valid() && x == old(Contents())[0] && Contents() == old(Contents())[1..]
    {
      hide View;
      ViewAt(ring[..], head, tail, 0);
      ViewRemove(ring[..], head, tail, 1);
      x := ring[head];
      head := head + 1;
      if head == num {
        head := 0;
      }
    }

    method Pop() returns (x: Ptr)
      requires Valid()
      modifies this`head
      ensures Valid() && (Contents(), x) == Popped(old(Contents()))
    {
      if head != tail {
        x := Fetch();
        return;
      }
      return NULL;
    }

    method PopN(x: array<Ptr>, n: int) returns (items: int)
      requires Valid() && n <= x.Length && x != ring
      modifies this`head, x
      ensures Valid() && items == Moved(n, |old(Contents())|)
      ensures x[..] == old(Contents())[..Taken(items)] + old(x[..])[Taken(items)..]
      ensures Contents() == old(Contents())[Taken(items)..]
    {
      hide Contents;
      ghost var was := Contents();
      var count := Count();
      items := if n <= count then n else count;
      var i := 0;
      while i < items
        invariant Valid() && 0 <= i <= Taken(items)
        invariant forall j | 0 <= j < i :: x[j] == was[j]
        invariant forall j | i <= j < x.Length :: x[j] == old(x[j])
        invariant Contents() == was[i..]
      {
        x[i] := Fetch();
        i := i + 1;
      }
      Overwritten(x[..], was, old(x[..]), i);
    }

    method Top() returns (x: Ptr)
      requires Valid()
      ensures x == Popped(Contents()).1
    {
      var count := Count();
      x := if count > 0 then ring[head] else NULL;
    }

    lemma {:induction false} ItemAt(j: nat)
      requires Valid() && j < |Contents()|
      ensures num > 0 && 0 <= Around(head, j, num) < num && Contents()[j] == ring[Around(head, j, num)]
    {
      hide View;
      ViewAt(ring[..], head, tail, j);
    }

    method TopN(x: array<Ptr>, n: int) returns (items: int)
      requires Valid() && n <= x.Length && x != ring
      modifies x
      ensures items == Moved(n, |Contents()|)
      ensures x[..] == Contents()[..Taken(items)] + old(x[..])[Taken(items)..]
    {
      hide Contents;
      var count := Count();
      items := if n <= count then n else count;
      var at := head;
      var i := 0;
      ghost var was := Contents();
      while i < items
        invariant 0 <= i <= Taken(items) && Contents() == was
        invariant at == Around(head, i, num)
        invariant forall j | 0 <= j < i :: x[j] == was[j]
        invariant forall j | i <= j < x.Length :: x[j] == old(x[j])
      {
        ItemAt(i);
        x[i] := ring[at];
        at := at + 1;
        if at == num {
          at := 0;
        }
        i := i + 1;
      }
      Overwritten(x[..], was, old(x[..]), i);
    }

    /** A negative count moves the head back, over slots that were emptied or out of the array. */
    method RemoveN(n: int) returns (items: int)
      requires Valid()
      modifies this`head
      ensures items == Moved(n, |old(Contents())|)
      ensures n >= 0 ==> Valid() && Contents() == old(Contents())[items..]
      ensures n < 0 ==> head == old(head) + n && (Valid() <==> old(head) + n >= 0)
    {
      hide View;
      var count := Count();
      items := if n <= count then n else count;
      if items > 0 {
        ViewRemove(ring[..], head, tail, items);
      }
      head := head + items;
      if head >= num {
        head := head - num;
      }
    }
  }

  /** Looking at n items and then removing as many as were seen is popping them. */
  method TopThenRemove(r: Ring, x: array<Ptr>, n: nat) returns (items: int)
    requires r.Valid() && n <= x.Length && x != r.ring
    modifies r`head, x
    ensures r.Valid() && items == Moved(n, |old(r.Contents())|)
    ensures x[..] == old(r.Contents())[..items] + old(x[..])[items..]
    ensures r.Contents() == PoppedMany(old(r.Contents()), n)
  {
    items := r.TopN(x, n);
    var removed := r.RemoveN(items);
    PopManyIsPops(old(r.Contents()), n);
  }
}
