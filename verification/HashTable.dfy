/** The chained hash table on the heap: an array of chains linked through their entries. Every method
    is proved to change the table exactly as its function in HashSpec says. */
module HashTable {
  import opened Wrappers
  import S = HashSpec

  class Entry<K, V> {
    var key: K
    var value: V
    var next: Entry?<K, V>
    ghost var home: nat  // the chain the entry was put in

    constructor (key: K, value: V, next: Entry?<K, V>, ghost home: nat)
      ensures this.key == key && this.value == value && this.next == next && this.home == home
    {
      this.key, this.value, this.next, this.home := key, value, next, home;
    }
  }

  /** The entry at position j of a chain, or null at its end. */
  function Nth<K, V>(cells: seq<Entry<K, V>>, j: nat): Entry?<K, V> {
    if j < |cells| then cells[j] else null
  }

  /** The cells hold the entries es, are linked in this order and end in null; none occurs twice. */
  ghost predicate ChainOk<K, V>(i: nat, head: Entry?<K, V>, cells: seq<Entry<K, V>>, es: seq<S.Entry<K, V>>)
    reads cells
  {
    |cells| == |es| && head == Nth(cells, 0)
    && (forall j | 0 <= j < |cells| :: cells[j].home == i && S.Entry(cells[j].key, cells[j].value) == es[j])
    && (forall j | 0 <= j < |cells| :: cells[j].next == Nth(cells, j + 1))
    && (forall j, j' | 0 <= j < j' < |cells| :: cells[j] != cells[j'])
  }

  lemma {:induction false} ChainCons<K, V>(i: nat, e: Entry<K, V>, head: Entry?<K, V>, cells: seq<Entry<K, V>>,
                        es: seq<S.Entry<K, V>>)
    requires ChainOk(i, head, cells, es) && e !in cells && e.home == i && e.next == head
    ensures ChainOk(i, e, [e] + cells, [S.Entry(e.key, e.value)] + es)
  {
    var cells' := [e] + cells;
    forall j: nat | j < |cells'| ensures cells'[j].next == Nth(cells', j + 1) {
      if j > 0 {
        assert cells'[j] == cells[j - 1];
      }
    }
  }

  lemma {:induction false} ChainStart<K, V>(i: nat, head: Entry?<K, V>, cells: seq<Entry<K, V>>, es: seq<S.Entry<K, V>>)
    requires ChainOk(i, head, cells, es)
    ensures head == Nth(cells, 0)
  {}

  lemma {:induction false} ChainAt<K, V>(
    i: nat, head: Entry?<K, V>, cells: seq<Entry<K, V>>, es: seq<S.Entry<K, V>>, j: nat)
    requires ChainOk(i, head, cells, es) && Nth(cells, j) != null
    ensures j < |es| && S.Entry(cells[j].key, cells[j].value) == es[j]
    ensures cells[j].next == Nth(cells, j + 1)
  {}

  lemma {:induction false} ChainEnd<K, V>(
    i: nat, head: Entry?<K, V>, cells: seq<Entry<K, V>>, es: seq<S.Entry<K, V>>, j: nat)
    requires ChainOk(i, head, cells, es) && Nth(cells, j) == null && j <= |es|
    ensures j == |es|
  {}

  lemma {:induction false} FlattenTurn<T>(chains: seq<seq<T>>, i: nat)
    requires i < |chains|
    ensures S.Flatten(chains[i..]) == chains[i] + S.Flatten(chains[i + 1..])
  {
    assert chains[i..][0] == chains[i] && chains[i..][1..] == chains[i + 1..];
  }

  lemma {:induction false} ReinsertTurn<K, V>(
    load: S.Load, hash: K -> nat, t: S.Table<K, V>, es: seq<S.Entry<K, V>>, j: nat)
    requires S.WellSized(t) && j < |es|
    ensures var t' := S.Insert(load, hash, t, es[j].key, es[j].value);
      t'.buckets >= t.buckets
      && S.Reinsert(load, hash, t, es[j..]) == S.Reinsert(load, hash, t', es[j + 1..])
  {
    assert es[j..][0] == es[j] && es[j..][1..] == es[j + 1..];
  }

  lemma {:induction false} NothingLeft<K, V>(load: S.Load, hash: K -> nat, t: S.Table<K, V>, es: seq<S.Entry<K, V>>)
    requires S.WellSized(t)
    ensures S.Reinsert(load, hash, t, es[|es|..]) == t
  {}

  lemma {:induction false} NoneLeft<K, V>(
    load: S.Load, hash: K -> nat, t: S.Table<K, V>, chains: seq<seq<S.Entry<K, V>>>)
    requires S.WellSized(t)
    ensures S.Reinsert(load, hash, t, S.Flatten(chains[|chains|..])) == t
  {}

  lemma {:induction false} ReinsertConcat<K, V>(load: S.Load, hash: K -> nat, t: S.Table<K, V>,
                                                a: seq<S.Entry<K, V>>, b: seq<S.Entry<K, V>>)
    requires S.WellSized(t)
    ensures S.Reinsert(load, hash, t, a + b) == S.Reinsert(load, hash, S.Reinsert(load, hash, t, a), b)
    decreases a
  {
    if a == [] {
      assert a + b == b;
    } else {
      assert (a + b)[1..] == a[1..] + b;
      ReinsertConcat(load, hash, S.Insert(load, hash, t, a[0].key, a[0].value), a[1..], b);
    }
  }

  lemma {:induction false} ResizeIsCopy<K, V>(load: S.Load, hash: K -> nat, t: S.Table<K, V>)
    requires S.WellSized(t)
    ensures var n := S.NextPrime(t.buckets);
      S.Resize(load, hash, t)
      == if n == 0 then t
         else S.Table(t.size, n, S.Reinsert(load, hash, S.New(n), S.Flatten(t.chains[..t.buckets])).chains)
  {}

  function Without<T>(s: seq<T>, j: nat): (r: seq<T>)
    requires j < |s|
    ensures |r| == |s| - 1
  {
    s[..j] + s[j + 1..]
  }

  /** Once position j is stitched around, the other cells are a chain. */
  lemma {:induction false} ChainUnlinked<K, V>(i: nat, head: Entry?<K, V>, cells: seq<Entry<K, V>>,
                                               es: seq<S.Entry<K, V>>, j: nat)
    requires |cells| == |es| && j < |cells|
    requires forall x, y | 0 <= x < y < |cells| :: cells[x] != cells[y]
    requires forall x | 0 <= x < |cells| ::
      cells[x].home == i && S.Entry(cells[x].key, cells[x].value) == es[x]
    requires forall x: nat | x < |cells| && x + 1 != j :: cells[x].next == Nth(cells, x + 1)
    requires j > 0 ==> cells[j - 1].next == Nth(cells, j + 1)
    requires head == if j > 0 then cells[0] else Nth(cells, 1)
    ensures ChainOk(i, head, Without(cells, j), Without(es, j))
  {
    hide Without;
    var rest := Without(cells, j);
    forall x | 0 <= x < |rest| ensures rest[x].home == i && S.Entry(rest[x].key, rest[x].value) == Without(es, j)[x] {
      WithoutAt(cells, j, x);
      WithoutAt(es, j, x);
    }
    forall x | 0 <= x < |rest| ensures rest[x].next == Nth(rest, x + 1) {
      UnlinkedNext(cells, j, x);
    }
    forall x, y | 0 <= x < y < |rest| ensures rest[x] != rest[y] {
      WithoutAt(cells, j, x);
      WithoutAt(cells, j, y);
    }
    if rest != [] {
      WithoutAt(cells, j, 0);
    }
  }

  lemma {:induction false} WithoutAt<T>(s: seq<T>, j: nat, x: nat)
    requires j < |s| && x < |s| - 1
    ensures Without(s, j)[x] == s[if x < j then x else x + 1]
  {}

  lemma {:induction false} UnlinkedNext<K, V>(cells: seq<Entry<K, V>>, j: nat, x: nat)
    requires j < |cells| && x < |cells| - 1
    requires forall y: nat | y < |cells| && y + 1 != j :: cells[y].next == Nth(cells, y + 1)
    requires j > 0 ==> cells[j - 1].next == Nth(cells, j + 1)
    ensures Without(cells, j)[x].next == Nth(Without(cells, j), x + 1)
  {
    if x + 1 < j {
      assert cells[x].next == Nth(cells, x + 1);
    } else if x + 1 > j {
      assert cells[x + 1].next == Nth(cells, x + 2);
    }
  }

  lemma {:induction false} ElsewhereApart<K, V>(i: nat, head: Entry?<K, V>, cells: seq<Entry<K, V>>,
                             es: seq<S.Entry<K, V>>, q: Entry<K, V>)
    requires ChainOk(i, head, cells, es) && q.home != i
    ensures q !in cells
  {}

  lemma {:induction false} HeadRewritten<K, V>(i: nat, e: Entry<K, V>, cells: seq<Entry<K, V>>,
                                               es: seq<S.Entry<K, V>>, v: V)
    requires es != [] && |cells| == |es| && e == cells[0] && e.home == i && e.key == es[0].key && e.value == v
    requires forall j | 0 < j < |cells| :: cells[j].home == i && S.Entry(cells[j].key, cells[j].value) == es[j]
    requires forall j | 0 <= j < |cells| :: cells[j].next == Nth(cells, j + 1)
    requires forall j, j' | 0 <= j < j' < |cells| :: cells[j] != cells[j']
    ensures ChainOk(i, e, cells, [es[0].(value := v)] + es[1..])
  {}

  lemma {:induction false} DropFirstAt<K, V>(es: seq<S.Entry<K, V>>, k: K, j: nat)
    requires j < |es| && es[j].key == k && forall x: nat | x < j :: es[x].key != k
    ensures S.DropFirst(es, k) == Without(es, j) && S.Values(es, k) != []
  {
    if j > 0 {
      assert es[1..][j - 1] == es[j];
      assert forall x: nat | x < j - 1 :: es[1..][x] == es[x + 1];
      DropFirstAt(es[1..], k, j - 1);
    }
  }

  lemma {:induction false} NothingToDrop<K, V>(es: seq<S.Entry<K, V>>, k: K)
    requires forall x: nat | x < |es| :: es[x].key != k
    ensures S.Values(es, k) == []
  {
    if es != [] {
      assert forall x: nat | x < |es[1..]| :: es[1..][x] == es[x + 1];
      NothingToDrop(es[1..], k);
    }
  }

  class Table<K(==), V> {
    const load: S.Load
    const hash: K -> nat
    var size: int
    var buckets: nat
    var data: array<Entry?<K, V>>

    ghost var model: S.Table<K, V>
    ghost var cells: seq<seq<Entry<K, V>>>
    ghost var Repr: set<object>

    /** Chains are acyclic, disjoint, and hold what the model says. */
    ghost predicate Valid()
      reads this, Repr
      ensures Valid() ==> this in Repr
    {
      this in Repr && data in Repr && S.WellSized(model)
      && model.size == size && model.buckets == buckets
      && data.Length == |cells| == |model.chains|
      && (forall i, e | 0 <= i < |cells| && e in cells[i] :: e in Repr)
      && (forall i | 0 <= i < |cells| :: ChainOk(i, data[i], cells[i], model.chains[i]))
    }

    constructor (n: nat, hash: K -> nat, load: S.Load)
      requires n > 0
      ensures Valid() && fresh(Repr) && model == S.New(n) && this.hash == hash && this.load == load
    {
      this.load, this.hash := load, hash;
      size, buckets := 0, n;
      data := new Entry?<K, V>[n](_ => null);
      model := S.New(n);
      cells := seq(n, _ => []);
      new;
      Repr := {this, data};
    }

    method Find(k: K) returns (e: Entry?<K, V>)
      requires Valid()
      ensures e != null ==> e in Repr && e.key == k
      ensures S.Find(hash, model, k) == if e == null then None else Some(e.value)
    {
      var n := hash(k) % buckets;
      ghost var es := model.chains[n];
      ghost var j := 0;
      e := data[n];
      while e != null && e.key != k
        invariant 0 <= j <= |es| && e == Nth(cells[n], j)
        invariant S.Values(es[j..], k) == S.Values(es, k)
        decreases |es| - j
      {
        assert es[j..][0] == es[j] && es[j..][1..] == es[j + 1..];
        e := e.next;
        j := j + 1;
      }
      if e != null {
        assert es[j..][0] == es[j];
      }
    }

    /** Puts a new entry at the head of its chain. */
    method Prepend(k: K, v: V) returns (e: Entry<K, V>)
      requires Valid()
      modifies this, data
      ensures Valid() && fresh(Repr - old(Repr)) && data == old(data)
      ensures e in Repr && e.key == k && e.value == v
      ensures model == S.Push(hash, old(model), k, v)
    {
      hide ChainOk, S.Values;
      var n := hash(k) % buckets;
      size := size + 1;
      e := new Entry(k, v, null, n);
      if data[n] != null {
        e.next := data[n];
      }
      ChainCons(n, e, data[n], cells[n], model.chains[n]);
      data[n] := e;
      model := S.Push(hash, model, k, v);
      cells := cells[n := [e] + cells[n]];
      Repr := Repr + {e};
    }

    method Insert(k: K, v: V) returns (e: Entry<K, V>)
      requires Valid()
      modifies this, data
      ensures Valid() && fresh(Repr - old(Repr)) && (data == old(data) || fresh(data))
      ensures e in Repr && e.key == k && e.value == v
      ensures model == S.Insert(load, hash, old(model), k, v)
      decreases S.PrimesAbove(buckets), 1
    {
      if S.HighWater(load, size, buckets) {
        Resize();
      }
      e := Prepend(k, v);
    }

    /** Enters what is left of chain i, from position 0, into t2. */
    method CopyChain(i: nat, t2: Table<K, V>)
      requires Valid() && t2.Valid() && Repr !! t2.Repr && i < buckets
      requires t2.hash == hash && t2.load == load
      modifies t2, t2.data
      ensures Valid() && t2.Valid() && fresh(t2.Repr - old(t2.Repr))
      ensures t2.data == old(t2.data) || fresh(t2.data)
      ensures t2.model == S.Reinsert(load, hash, old(t2.model), model.chains[i])
      decreases S.PrimesAbove(t2.buckets), 2
    {
      hide ChainOk, S.Reinsert, S.Insert, S.PrimesAbove;
      ghost var es, all := model.chains[i], S.Reinsert(load, hash, t2.model, model.chains[i]);
      ghost var j := 0;
      var p := data[i];
      ChainStart(i, p, cells[i], es);
      assert es[0..] == es;
      while p != null
        invariant Valid() && 0 <= j <= |es| && p == Nth(cells[i], j)
        invariant t2.Valid() && fresh(t2.Repr - old(t2.Repr)) && t2.buckets >= old(t2.buckets)
        invariant t2.data == old(t2.data) || fresh(t2.data)
        invariant all == S.Reinsert(load, hash, t2.model, es[j..])
        decreases |es| - j
      {
        ChainAt(i, data[i], cells[i], es, j);
        ReinsertTurn(load, hash, t2.model, es, j);
        S.PrimesRunOut(old(t2.buckets), t2.buckets);
        var e := t2.Insert(p.key, p.value);
        p := p.next;
        j := j + 1;
      }
      ChainEnd(i, data[i], cells[i], es, j);
      NothingLeft(load, hash, t2.model, es);
    }

    /** Enters all entries of this table into t2, chain by chain. */
    method CopyInto(t2: Table<K, V>)
      requires Valid() && t2.Valid() && Repr !! t2.Repr && t2.hash == hash && t2.load == load
      modifies t2, t2.data
      ensures Valid() && t2.Valid() && fresh(t2.Repr - old(t2.Repr))
      ensures t2.model == S.Reinsert(load, hash, old(t2.model), S.Flatten(model.chains[..buckets]))
      decreases S.PrimesAbove(t2.buckets), 3
    {
      hide ChainOk, S.Reinsert, S.Insert, S.PrimesAbove, S.Flatten;
      ghost var own := model.chains[..buckets];
      ghost var all := S.Reinsert(load, hash, t2.model, S.Flatten(own));
      assert own[0..] == own;
      for i := 0 to buckets
        invariant Valid()
        invariant t2.Valid() && fresh(t2.Repr - old(t2.Repr)) && t2.buckets >= old(t2.buckets)
        invariant t2.data == old(t2.data) || fresh(t2.data)
        invariant all == S.Reinsert(load, hash, t2.model, S.Flatten(own[i..]))
      {
        FlattenTurn(own, i);
        ReinsertConcat(load, hash, t2.model, own[i], S.Flatten(own[i + 1..]));
        S.PrimesRunOut(old(t2.buckets), t2.buckets);
        CopyChain(i, t2);
      }
      NoneLeft(load, hash, t2.model, own);
    }

    /** Builds a larger table from the entries of this one and takes over its array. */
    method Resize()
      requires Valid()
      modifies this
      ensures Valid() && fresh(Repr - old(Repr)) && (data == old(data) || fresh(data))
      ensures model == S.Resize(load, hash, old(model))
      decreases S.PrimesAbove(buckets), 0
    {
      hide S.Reinsert, S.Flatten, S.PrimesAbove, S.Resize, S.NextPrime, ChainOk;
      ResizeIsCopy(load, hash, model);
      var n := S.NextPrimeByScan(buckets);
      if n == 0 {
        return;
      }
      S.PrimesRunOut(buckets, n);
      var t2 := new Table<K, V>(n, hash, load);
      CopyInto(t2);
      Adopt(t2, n);
    }

    /** Takes over the array of t2 and records n buckets, as many as t2 has or fewer. */
    method Adopt(t2: Table<K, V>, n: nat)
      requires Valid() && t2.Valid() && this !in t2.Repr && 0 < n <= t2.buckets
      modifies this
      ensures Valid() && Repr == {this} + t2.Repr && data == t2.data
      ensures model == S.Table(old(size), n, t2.model.chains)
    {
      hide ChainOk;
      buckets := n;
      data := t2.data;
      model := S.Table(size, n, t2.model.chains);
      cells := t2.cells;
      Repr := {this} + t2.Repr;
    }

    method Update(k: K, v: V)
      requires Valid()
      modifies Repr
      ensures Valid() && Repr == old(Repr)
      ensures model == S.Update(hash, old(model), k, v)
    {
      var n := hash(k) % buckets;
      ghost var es := model.chains[n];
      var e := data[n];
      if e != null {
        forall x | 0 <= x < |cells| && x != n ensures e !in cells[x] {
          ElsewhereApart(x, data[x], cells[x], model.chains[x], e);
        }
        e.value := v;
        model := S.Update(hash, model, k, v);
        HeadRewritten(n, e, cells[n], es, v);
      }
    }

    method Remove(k: K)
      requires Valid()
      modifies Repr
      ensures Valid() && Repr == old(Repr)
      ensures model == S.Remove(hash, old(model), k)
    {
      hide S.Values, S.DropFirst;
      var n := hash(k) % buckets;
      ghost var es := model.chains[n];
      ghost var j: nat := 0;
      var p := data[n];
      var q: Entry?<K, V> := null;
      while p != null && p.key != k
        invariant j <= |es| && p == Nth(cells[n], j)
        invariant if j == 0 then q == null else q == cells[n][j - 1]
        invariant forall x: nat | x < j :: es[x].key != k
        decreases |es| - j
      {
        q := p;
        p := p.next;
        j := j + 1;
      }
      if p == null {
        NothingToDrop(es, k);
        return;
      }
      DropFirstAt(es, k, j);
      if q != null {
        UnlinkAfter(n, j, q, p);
      } else {
        UnlinkHead(n, p);
      }
    }

    /** Stitches around p, which follows q in chain i. */
    method UnlinkAfter(i: nat, ghost j: nat, q: Entry<K, V>, p: Entry<K, V>)
      requires Valid() && i < |cells| && 0 < j < |cells[i]| && p == cells[i][j] && q == cells[i][j - 1]
      modifies Repr
      ensures Valid() && Repr == old(Repr)
      ensures model == S.Table(old(size) - 1, old(buckets), old(model).chains[i := Without(old(model).chains[i], j)])
    {
      ghost var was, ms := cells, model.chains;
      assert forall x: nat | x < |was[i]| && x + 1 != j :: was[i][x] != q;
      assert |was[i]| == |ms[i]|;
      forall x | 0 <= x < |cells| && x != i ensures q !in cells[x] {
        ElsewhereApart(x, data[x], cells[x], ms[x], q);
      }
      q.next := p.next;
      ChainUnlinked(i, data[i], was[i], ms[i], j);
      Forget(i, j);
    }

    /** Makes the entry after p the head of chain i. */
    method UnlinkHead(i: nat, p: Entry<K, V>)
      requires Valid() && i < |cells| && cells[i] != [] && p == cells[i][0]
      modifies this, data
      ensures Valid() && Repr == old(Repr)
      ensures model == S.Table(old(size) - 1, old(buckets), old(model).chains[i := Without(old(model).chains[i], 0)])
    {
      ghost var was, ms := cells, model.chains;
      assert |was[i]| == |ms[i]|;
      data[i] := p.next;
      ChainUnlinked(i, data[i], was[i], ms[i], 0);
      Forget(i, 0);
    }

    /** Counts off the entry that was unlinked from position j of chain i. */
    method Forget(i: nat, ghost j: nat)
      requires this in Repr && data in Repr && S.WellSized(model)
      requires model.size == size && model.buckets == buckets
      requires data.Length == |cells| == |model.chains|
      requires i < |cells| && j < |cells[i]| && j < |model.chains[i]|
      requires forall x, e | 0 <= x < |cells| && e in cells[x] :: e in Repr
      requires forall x | 0 <= x < |cells| && x != i :: ChainOk(x, data[x], cells[x], model.chains[x])
      requires ChainOk(i, data[i], Without(cells[i], j), Without(model.chains[i], j))
      modifies this
      ensures Valid() && Repr == old(Repr) && data == old(data)
      ensures model == S.Table(old(size) - 1, old(buckets), old(model).chains[i := Without(old(model).chains[i], j)])
    {
      hide ChainOk;
      size := size - 1;
      cells := cells[i := Without(cells[i], j)];
      model := S.Table(size, buckets, model.chains[i := Without(model.chains[i], j)]);
    }
  }
}
