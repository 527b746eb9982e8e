/** What inserting, removing and rehashing do to the bindings of every key. */
module HashLaws {
  import opened HashSpec
  import opened Sequences
  import opened Wrappers

  // ---------- Where entries are ----------

  /** Every entry is in the chain that a search for its key looks at. */
  ghost predicate Placed<K(!new), V(!new)>(hash: K -> nat, t: Table<K, V>) {
    WellSized(t)
    && forall i, e | 0 <= i < |t.chains| && e in t.chains[i] :: i == hash(e.key) % t.buckets
  }

  function Total<T>(chains: seq<seq<T>>): nat {
    if chains == [] then 0 else |chains[0]| + Total(chains[1..])
  }

  /** Placed, and the size field counts the entries. */
  ghost predicate Consistent<K(!new), V(!new)>(hash: K -> nat, t: Table<K, V>) {
    Placed(hash, t) && t.size == Total(t.chains)
  }

  ghost predicate HashesBelow<K(!new), V(!new)>(hash: K -> nat, es: seq<Entry<K, V>>, bound: nat) {
    forall e | e in es :: hash(e.key) < bound
  }

  ghost predicate AllBelow<K(!new), V(!new)>(hash: K -> nat, t: Table<K, V>, bound: nat) {
    forall i | 0 <= i < |t.chains| :: HashesBelow(hash, t.chains[i], bound)
  }

  // ---------- Sequences ----------

  function Reverse<T>(s: seq<T>): (r: seq<T>)
    ensures |r| == |s|
  {
    if s == [] then [] else Reverse(s[1..]) + [s[0]]
  }

  lemma {:induction false} ReverseEnds<T>(s: seq<T>)
    ensures multiset(Reverse(s)) == multiset(s)
    ensures s != [] ==> Reverse(s)[0] == s[|s| - 1]
  {
    if s != [] {
      ReverseEnds(s[1..]);
      assert s == [s[0]] + s[1..];
    }
  }

  lemma {:induction false} ValuesConcat<K, V>(a: seq<Entry<K, V>>, b: seq<Entry<K, V>>, k: K)
    ensures Values(a + b, k) == Values(a, k) + Values(b, k)
  {
    if a == [] {
      assert a + b == b;
    } else {
      assert (a + b)[0] == a[0] && (a + b)[1..] == a[1..] + b;
      ValuesConcat(a[1..], b, k);
      var head: seq<V> := if a[0].key == k then [a[0].value] else [];
      Regroup(head, Values(a[1..], k), Values(b, k));
    }
  }

  lemma {:induction false} NoValues<K, V>(es: seq<Entry<K, V>>, k: K)
    ensures Values(es, k) == [] <==> forall e | e in es :: e.key != k
  {
    if es != [] {
      NoValues(es[1..], k);
      assert es == [es[0]] + es[1..];
    }
  }

  lemma {:induction false} TotalUpdate<T>(chains: seq<seq<T>>, n: nat, c: seq<T>)
    requires n < |chains|
    ensures Total(chains[n := c]) == Total(chains) - |chains[n]| + |c|
  {
    if n == 0 {
      assert chains[n := c][1..] == chains[1..];
    } else {
      assert chains[n := c][1..] == chains[1..][n - 1 := c];
      TotalUpdate(chains[1..], n - 1, c);
    }
  }

  lemma {:induction false} TotalSplit<T>(chains: seq<seq<T>>, n: nat)
    requires n <= |chains|
    ensures Total(chains) == Total(chains[..n]) + Total(chains[n..])
  {
    if n == 0 {
      assert chains[n..] == chains;
    } else {
      assert chains[..n][1..] == chains[1..][..n - 1] && chains[n..] == chains[1..][n - 1..];
      TotalSplit(chains[1..], n - 1);
    }
  }

  lemma {:induction false} FlattenCounts<T>(chains: seq<seq<T>>)
    ensures |Flatten(chains)| == Total(chains)
    ensures forall x | x in Flatten(chains) :: exists i | 0 <= i < |chains| :: x in chains[i]
  {
    if chains != [] {
      FlattenCounts(chains[1..]);
      forall x | x in Flatten(chains) ensures exists i | 0 <= i < |chains| :: x in chains[i] {
        if x !in chains[0] {
          var i :| 0 <= i < |chains[1..]| && x in chains[1..][i];
          assert x in chains[i + 1];
        }
      }
    }
  }

  lemma {:induction false} AllEmpty<T>(chains: seq<seq<T>>)
    ensures Total(chains) == 0 <==> forall i | 0 <= i < |chains| :: chains[i] == []
  {
    if chains != [] {
      AllEmpty(chains[1..]);
      assert forall i | 0 < i < |chains| :: chains[i] == chains[1..][i - 1];
      assert forall i | 0 <= i < |chains[1..]| :: chains[1..][i] == chains[i + 1];
    }
  }

  // ---------- Push ----------

  lemma {:induction false} NewIsConsistent<K(!new), V(!new)>(hash: K -> nat, n: nat)
    requires n > 0
    ensures Consistent<K, V>(hash, New(n))
    ensures forall k: K :: Bindings(hash, New<K, V>(n), k) == []
  {
    AllEmpty(New<K, V>(n).chains);
  }

  lemma {:induction false} PushIsConsistent<K(!new), V(!new)>(hash: K -> nat, t: Table<K, V>, k: K, v: V)
    requires Placed(hash, t)
    ensures Placed(hash, Push(hash, t, k, v))
    ensures Total(Push(hash, t, k, v).chains) == Total(t.chains) + 1
  {
    var n := Slot(hash, t, k);
    TotalUpdate(t.chains, n, [Entry(k, v)] + t.chains[n]);
  }

  lemma {:induction false} PushBinds<K(!new), V(!new)>(hash: K -> nat, t: Table<K, V>, k: K, v: V, k': K)
    requires WellSized(t)
    ensures Bindings(hash, Push(hash, t, k, v), k')
         == (if k' == k then [v] else []) + Bindings(hash, t, k')
  {
    var n := Slot(hash, t, k);
    ValuesConcat([Entry(k, v)], t.chains[n], k');
  }

  /** What was inserted last is found, whatever resizes its insertion set off. */
  lemma {:induction false} InsertFinds<K(!new), V(!new)>(load: Load, hash: K -> nat, t: Table<K, V>, k: K, v: V)
    requires WellSized(t)
    ensures Find(hash, Insert(load, hash, t, k, v), k) == Some(v)
  {
    hide Bindings, Resize;
    PushBinds(hash, if HighWater(load, t.size, t.buckets) then Resize(load, hash, t) else t, k, v, k);
  }

  function PushAll<K, V>(hash: K -> nat, t: Table<K, V>, es: seq<Entry<K, V>>): (r: Table<K, V>)
    requires WellSized(t)
    ensures WellSized(r) && r.buckets == t.buckets && |r.chains| == |t.chains|
    decreases es
  {
    if es == [] then t else PushAll(hash, Push(hash, t, es[0].key, es[0].value), es[1..])
  }

  lemma {:induction false} PushAllIsConsistent<K(!new), V(!new)>(
    hash: K -> nat, t: Table<K, V>, es: seq<Entry<K, V>>)
    requires Placed(hash, t)
    ensures Placed(hash, PushAll(hash, t, es))
    ensures Total(PushAll(hash, t, es).chains) == Total(t.chains) + |es|
    decreases es
  {
    if es != [] {
      PushIsConsistent(hash, t, es[0].key, es[0].value);
      PushAllIsConsistent(hash, Push(hash, t, es[0].key, es[0].value), es[1..]);
    }
  }

  /** Pushing a list leaves the values of each key in the opposite order. */
  lemma {:induction false} PushAllReverses<K(!new), V(!new)>(
    hash: K -> nat, t: Table<K, V>, es: seq<Entry<K, V>>, k: K)
    requires WellSized(t)
    ensures Bindings(hash, PushAll(hash, t, es), k) == Reverse(Values(es, k)) + Bindings(hash, t, k)
    decreases es
  {
    if es != [] {
      var e, vs, bound := es[0], Values(es[1..], k), Bindings(hash, t, k);
      var t' := Push(hash, t, e.key, e.value);
      PushBinds(hash, t, e.key, e.value, k);
      PushAllReverses(hash, t', es[1..], k);
      if e.key == k {
        ReverseCons(e.value, vs, bound);
      } else {
        assert Values(es, k) == vs && Bindings(hash, t', k) == bound;
      }
    }
  }

  lemma {:induction false} ReverseCons<T>(x: T, s: seq<T>, rest: seq<T>)
    ensures Reverse([x] + s) + rest == Reverse(s) + ([x] + rest)
  {
    assert ([x] + s)[1..] == s;
  }

  /** As long as the high-water mark is not reached, or no prime is left, inserting is pushing. */
  lemma {:induction false} ReinsertWithoutResize<K, V>(
    load: Load, hash: K -> nat, t: Table<K, V>, es: seq<Entry<K, V>>)
    requires WellSized(t)
    requires NextPrime(t.buckets) == 0
      || forall m | t.size <= m < t.size + |es| :: !HighWater(load, m, t.buckets)
    ensures Reinsert(load, hash, t, es) == PushAll(hash, t, es)
    decreases es
  {
    if es != [] {
      assert Insert(load, hash, t, es[0].key, es[0].value) == Push(hash, t, es[0].key, es[0].value);
      ReinsertWithoutResize(load, hash, Push(hash, t, es[0].key, es[0].value), es[1..]);
    }
  }

  // ---------- The entries of a table ----------

  /** In a placed table, only the chain of k holds values for k. */
  lemma {:induction false} FlattenBinds<K(!new), V(!new)>(
    hash: K -> nat, t: Table<K, V>, n: nat, k: K)
    requires Placed(hash, t) && n <= t.buckets
    ensures Values(Flatten(t.chains[n..t.buckets]), k)
         == if n <= Slot(hash, t, k) then Bindings(hash, t, k) else []
    decreases t.buckets - n
  {
    if n < t.buckets {
      var rest, more := t.chains[n..t.buckets], t.chains[n + 1..t.buckets];
      assert rest[0] == t.chains[n] && rest[1..] == more;
      FlattenBinds(hash, t, n + 1, k);
      ValuesConcat(t.chains[n], Flatten(more), k);
      if n != Slot(hash, t, k) {
        NoValues(t.chains[n], k);
        assert Values(t.chains[n], k) == [];
      } else {
        assert Values(t.chains[n], k) + [] == Bindings(hash, t, k);
      }
    }
  }

  /** Only the chains that a key can be reduced to are in use. */
  lemma {:induction false} OccupiedIsBelow<K(!new), V(!new)>(hash: K -> nat, t: Table<K, V>, i: nat)
    requires Placed(hash, t) && i < |t.chains| && t.chains[i] != []
    ensures i < t.buckets
  {
    var e := t.chains[i][0];
    assert e in t.chains[i];
    assert i == Slot(hash, t, e.key);
  }

  lemma {:induction false} EntriesOf<K(!new), V(!new)>(hash: K -> nat, t: Table<K, V>)
    requires Placed(hash, t)
    ensures var es := Flatten(t.chains[..t.buckets]);
      |es| == Total(t.chains)
      && (forall k :: Values(es, k) == Bindings(hash, t, k))
      && (forall bound | AllBelow(hash, t, bound) :: HashesBelow(hash, es, bound))
  {
    var own := t.chains[..t.buckets];
    assert own == t.chains[0..t.buckets];
    FlattenCounts(own);
    TotalSplit(t.chains, t.buckets);
    var beyond := t.chains[t.buckets..];
    forall i | 0 <= i < |beyond| ensures beyond[i] == [] {
      assert beyond[i] == t.chains[t.buckets + i];
      if beyond[i] != [] {
        OccupiedIsBelow(hash, t, t.buckets + i);
      }
    }
    AllEmpty(beyond);
    forall k ensures Values(Flatten(own), k) == Bindings(hash, t, k) {
      FlattenBinds(hash, t, 0, k);
    }
    forall bound: nat, e: Entry<K, V> | AllBelow(hash, t, bound) && e in Flatten(own)
      ensures hash(e.key) < bound
    {
      var i :| 0 <= i < |own| && e in own[i];
      assert HashesBelow(hash, t.chains[i], bound);
    }
  }

  // ---------- A resize that is not itself interrupted by one ----------

  ghost predicate Uninterrupted(load: Load, buckets: nat, entries: nat) {
    var n := NextPrime(buckets);
    n == 0 || NextPrime(n) == 0 || forall m | 0 <= m < entries :: !HighWater(load, m, n)
  }

  /** Such a resize keeps every entry, puts it where it belongs, adopts an array of the length it
      records, and turns the order of each key's values around. */
  lemma {:induction false} ResizeReverses<K(!new), V(!new)>(load: Load, hash: K -> nat, t: Table<K, V>)
    requires Consistent(hash, t) && Uninterrupted(load, t.buckets, Total(t.chains))
    ensures var r := Resize(load, hash, t);
      Consistent(hash, r) && r.size == t.size
      && forall k :: Bindings(hash, r, k)
           == if NextPrime(t.buckets) == 0 then Bindings(hash, t, k) else Reverse(Bindings(hash, t, k))
    ensures NextPrime(t.buckets) != 0 ==> |Resize(load, hash, t).chains| == NextPrime(t.buckets)
  {
    var n := NextPrime(t.buckets);
    if n != 0 {
      var es := Flatten(t.chains[..t.buckets]);
      EntriesOf(hash, t);
      NewIsConsistent<K, V>(hash, n);
      ReinsertWithoutResize(load, hash, New(n), es);
      var r := Resize(load, hash, t);
      PushAllIsConsistent(hash, New<K, V>(n), es);
      forall k ensures Bindings(hash, r, k) == Reverse(Bindings(hash, t, k)) {
        PushAllReverses(hash, New<K, V>(n), es, k);
      }
    }
  }

  /** With several values for one key, a search finds the oldest after a resize and the newest before:
      the answer is kept exactly when the two are the same. */
  lemma {:induction false} ResizeKeepsFindIff<K(!new), V(!new)>(load: Load, hash: K -> nat, t: Table<K, V>, k: K)
    requires Consistent(hash, t) && Uninterrupted(load, t.buckets, Total(t.chains))
    ensures var b := Bindings(hash, t, k);
      Find(hash, Resize(load, hash, t), k) == Find(hash, t, k)
      <==> NextPrime(t.buckets) == 0 || b == [] || b[0] == b[|b| - 1]
  {
    ResizeReverses(load, hash, t);
    ReverseEnds(Bindings(hash, t, k));
  }

  // ---------- A resize interrupted by resizes of the new table ----------

  /** With hashes below the bucket count, reducing changes nothing: every entry is in the chain of its
      own hash, whichever the count. Insertion and resizing keep that through any nesting. */
  ghost predicate Direct<K(!new), V(!new)>(hash: K -> nat, t: Table<K, V>, bound: nat) {
    Placed(hash, t) && AllBelow(hash, t, bound) && bound <= t.buckets
  }

  /** v, if k' is the key it was put under. */
  function IfSame<K(==), V>(k: K, k': K, v: V): multiset<V> {
    if k' == k then multiset{v} else multiset{}
  }

  lemma {:induction false} PushDirect<K(!new), V(!new)>(hash: K -> nat, t: Table<K, V>, bound: nat, k: K, v: V)
    requires Direct(hash, t, bound) && hash(k) < bound
    ensures Direct(hash, Push(hash, t, k, v), bound)
    ensures Total(Push(hash, t, k, v).chains) == Total(t.chains) + 1
    ensures forall k' :: multiset(Bindings(hash, Push(hash, t, k, v), k'))
                      == multiset(Bindings(hash, t, k')) + IfSame(k, k', v)
  {
    PushIsConsistent(hash, t, k, v);
    forall k' ensures multiset(Bindings(hash, Push(hash, t, k, v), k'))
                   == multiset(Bindings(hash, t, k')) + IfSame(k, k', v)
    {
      PushBinds(hash, t, k, v, k');
    }
  }

  lemma {:induction false} InsertDirect<K(!new), V(!new)>(
    load: Load, hash: K -> nat, t: Table<K, V>, bound: nat, k: K, v: V)
    requires Direct(hash, t, bound) && hash(k) < bound
    ensures var r := Insert(load, hash, t, k, v);
      Direct(hash, r, bound) && Total(r.chains) == Total(t.chains) + 1 && r.size == t.size + 1
      && forall k' :: multiset(Bindings(hash, r, k')) == multiset(Bindings(hash, t, k')) + IfSame(k, k', v)
    decreases PrimesAbove(t.buckets), 1
  {
    if HighWater(load, t.size, t.buckets) {
      ResizeDirect(load, hash, t, bound);
      PushDirect(hash, Resize(load, hash, t), bound, k, v);
    } else {
      PushDirect(hash, t, bound, k, v);
    }
  }

  lemma {:induction false} ResizeDirect<K(!new), V(!new)>(load: Load, hash: K -> nat, t: Table<K, V>, bound: nat)
    requires Placed(hash, t) && AllBelow(hash, t, bound)
    requires bound <= if NextPrime(t.buckets) == 0 then t.buckets else NextPrime(t.buckets)
    ensures var r := Resize(load, hash, t);
      Direct(hash, r, bound) && Total(r.chains) == Total(t.chains) && r.size == t.size
      && forall k :: multiset(Bindings(hash, r, k)) == multiset(Bindings(hash, t, k))
    decreases PrimesAbove(t.buckets), 0, 1
  {
    var n := NextPrime(t.buckets);
    if n != 0 {
      EntriesOf(hash, t);
      RebuildDirect(load, hash, t.buckets, n, Flatten(t.chains[..t.buckets]), bound);
    }
  }

  /** The rebuilt chains serve the recorded bucket count n, even if they are more than n. */
  lemma {:induction false} RebuildDirect<K(!new), V(!new)>(
    load: Load, hash: K -> nat, b: nat, n: nat, es: seq<Entry<K, V>>, bound: nat)
    requires n == NextPrime(b) && n != 0 && HashesBelow(hash, es, bound) && bound <= n
    ensures var r := Table(|es|, n, Reinsert(load, hash, New(n), es).chains);
      Direct(hash, r, bound) && Total(r.chains) == |es|
      && forall k :: multiset(Bindings(hash, r, k)) == multiset(Values(es, k))
    decreases PrimesAbove(b), 0, 0
  {
    hide Reinsert, Bindings, NextPrime, PrimesAbove, Values;
    PrimesRunOut(b, n);
    NewIsConsistent<K, V>(hash, n);
    ReinsertDirect(load, hash, New(n), es, bound);
    var t2 := Reinsert(load, hash, New(n), es);
    var r := Table(|es|, n, t2.chains);
    forall i, e | 0 <= i < |r.chains| && e in r.chains[i]
      ensures i == hash(e.key) % n == hash(e.key)
    {
      assert HashesBelow(hash, t2.chains[i], bound);
      SmallModulus(hash(e.key), t2.buckets);
      SmallModulus(hash(e.key), n);
    }
    forall k ensures multiset(Bindings(hash, r, k)) == multiset(Values(es, k)) {
      DirectBindings(hash, r, t2, bound, k);
    }
  }

  lemma {:induction false} SmallModulus(h: nat, n: nat)
    requires h < n
    ensures h % n == h
  {}

  /** Two bucket counts over the same chains bind alike when both exceed all hashes. */
  lemma {:induction false} DirectBindings<K(!new), V(!new)>(
    hash: K -> nat, r: Table<K, V>, t: Table<K, V>, bound: nat, k: K)
    requires Direct(hash, r, bound) && Direct(hash, t, bound) && r.chains == t.chains
    ensures Bindings(hash, r, k) == Bindings(hash, t, k)
  {
    if hash(k) < bound {
      SmallModulus(hash(k), r.buckets);
      SmallModulus(hash(k), t.buckets);
    } else {
      NoValues(Chain(hash, r, k), k);
      NoValues(Chain(hash, t, k), k);
      assert HashesBelow(hash, Chain(hash, r, k), bound) && HashesBelow(hash, Chain(hash, t, k), bound);
    }
  }

  lemma {:induction false} ReinsertDirect<K(!new), V(!new)>(
    load: Load, hash: K -> nat, t: Table<K, V>, es: seq<Entry<K, V>>, bound: nat)
    requires Direct(hash, t, bound) && HashesBelow(hash, es, bound)
    ensures var r := Reinsert(load, hash, t, es);
      Direct(hash, r, bound) && Total(r.chains) == Total(t.chains) + |es|
      && forall k :: multiset(Bindings(hash, r, k)) == multiset(Bindings(hash, t, k)) + multiset(Values(es, k))
    decreases PrimesAbove(t.buckets), 2 + |es|
  {
    hide Insert, Bindings, AllBelow, PrimesAbove;
    if es != [] {
      var e := es[0];
      var t' := Insert(load, hash, t, e.key, e.value);
      InsertDirect(load, hash, t, bound, e.key, e.value);
      PrimesRunOut(t.buckets, t'.buckets);
      assert HashesBelow(hash, es[1..], bound);
      ReinsertDirect(load, hash, t', es[1..], bound);
    }
  }

  // ---------- Removal ----------

  lemma {:induction false} DropFirstValues<K, V>(es: seq<Entry<K, V>>, k: K, k': K)
    ensures Values(DropFirst(es, k), k')
         == if k' == k && Values(es, k) != [] then Values(es, k)[1..] else Values(es, k')
    ensures |DropFirst(es, k)| == if Values(es, k) != [] then |es| - 1 else |es|
    ensures forall e | e in DropFirst(es, k) :: e in es
  {
    if es != [] {
      DropFirstValues(es[1..], k, k');
      if es[0].key != k {
        ValuesConcat([es[0]], DropFirst(es[1..], k), k');
      }
    }
  }

  lemma {:induction false} RemoveBinds<K(!new), V(!new)>(hash: K -> nat, t: Table<K, V>, k: K, k': K)
    requires Placed(hash, t)
    ensures Bindings(hash, Remove(hash, t, k), k')
         == if k' == k && Bindings(hash, t, k) != [] then Bindings(hash, t, k)[1..] else Bindings(hash, t, k')
  {
    hide Values, DropFirst;
    DropFirstValues(t.chains[Slot(hash, t, k)], k, k');
  }

  lemma {:induction false} RemoveIsConsistent<K(!new), V(!new)>(hash: K -> nat, t: Table<K, V>, k: K)
    requires Consistent(hash, t)
    ensures var r := Remove(hash, t, k);
      Consistent(hash, r) && |r.chains| == |t.chains|
      && r.size == t.size - (if Find(hash, t, k).Some? then 1 else 0)
  {
    hide Values, DropFirst, Total;
    var n := Slot(hash, t, k);
    DropFirstValues(t.chains[n], k, k);
    TotalUpdate(t.chains, n, DropFirst(t.chains[n], k));
  }

  lemma {:induction false} RemoveBelow<K(!new), V(!new)>(hash: K -> nat, t: Table<K, V>, k: K, bound: nat)
    requires Placed(hash, t) && AllBelow(hash, t, bound)
    ensures AllBelow(hash, Remove(hash, t, k), bound)
  {
    hide Values, DropFirst;
    var n := Slot(hash, t, k);
    DropFirstValues(t.chains[n], k, k);
    assert HashesBelow(hash, t.chains[n], bound);
    assert HashesBelow(hash, DropFirst(t.chains[n], k), bound);
  }

  /** Removal takes away the binding a search would find, and nothing else. */
  lemma {:induction false} RemoveUnbinds<K(!new), V(!new)>(hash: K -> nat, t: Table<K, V>, k: K)
    requires Consistent(hash, t)
    ensures var r := Remove(hash, t, k);
      Consistent(hash, r) && |r.chains| == |t.chains|
      && (forall bound | AllBelow(hash, t, bound) :: AllBelow(hash, r, bound))
      && r.size == t.size - (if Find(hash, t, k).Some? then 1 else 0)
      && forall k' :: Bindings(hash, r, k')
           == if k' == k && Bindings(hash, t, k) != [] then Bindings(hash, t, k)[1..] else Bindings(hash, t, k')
  {
    hide Remove, Bindings, AllBelow, Find, Total;
    RemoveIsConsistent(hash, t, k);
    forall bound | AllBelow(hash, t, bound) ensures AllBelow(hash, Remove(hash, t, k), bound) {
      RemoveBelow(hash, t, k, bound);
    }
    forall k'
      ensures Bindings(hash, Remove(hash, t, k), k')
        == if k' == k && Bindings(hash, t, k) != [] then Bindings(hash, t, k)[1..] else Bindings(hash, t, k')
    {
      RemoveBinds(hash, t, k, k');
    }
  }

  // ---------- Update ----------

  /** What updating is documented to do: the value a search for k finds becomes v, and no other. */
  ghost predicate Rebinds<K(!new), V(!new)>(hash: K -> nat, t: Table<K, V>, r: Table<K, V>, k: K, v: V) {
    WellSized(t) && WellSized(r)
    && forall k' :: Find(hash, r, k') == if k' == k && Find(hash, t, k).Some? then Some(v) else Find(hash, t, k')
  }

  lemma {:induction false} UpdateBinds<K(!new), V(!new)>(hash: K -> nat, t: Table<K, V>, k: K, v: V, k': K)
    requires Placed(hash, t) && Chain(hash, t, k) != []
    ensures var head := Chain(hash, t, k)[0];
      Find(hash, Update(hash, t, k, v), k') == (if k' == head.key then Some(v) else Find(hash, t, k'))
      && Find(hash, t, head.key) == Some(head.value)
  {
    var es := Chain(hash, t, k);
    assert es[0] in es;
    var es' := [es[0].(value := v)] + es[1..];
    assert es'[0].key == es[0].key && es'[1..] == es[1..];
  }

  /** Update as written does that exactly when the chain of k is empty, k is at its head, or nothing
      was to change anyway. */
  lemma {:induction false} UpdateIsExactIff<K(!new), V(!new)>(hash: K -> nat, t: Table<K, V>, k: K, v: V)
    requires Placed(hash, t)
    ensures var es := Chain(hash, t, k);
      Rebinds(hash, t, Update(hash, t, k, v), k, v)
      <==> es == [] || es[0].key == k
           || (es[0].value == v && (Find(hash, t, k) == None || Find(hash, t, k) == Some(v)))
  {
    var es, r := Chain(hash, t, k), Update(hash, t, k, v);
    if es != [] {
      forall k' ensures Find(hash, r, k') == if k' == es[0].key then Some(v) else Find(hash, t, k') {
        UpdateBinds(hash, t, k, v, k');
      }
      UpdateBinds(hash, t, k, v, k);
    }
  }

  /** A table whose keys are all bound in a table below a bound is below it too. */
  lemma {:induction false} BelowFromBindings<K(!new), V(!new)>(
    hash: K -> nat, t: Table<K, V>, r: Table<K, V>, bound: nat)
    requires Placed(hash, t) && Placed(hash, r) && AllBelow(hash, t, bound)
    requires forall k :: Bindings(hash, t, k) == [] ==> Bindings(hash, r, k) == []
    ensures AllBelow(hash, r, bound)
  {
    forall i, e | 0 <= i < |r.chains| && e in r.chains[i] ensures hash(e.key) < bound {
      assert e in Chain(hash, r, e.key);
      NoValues(Chain(hash, r, e.key), e.key);
      assert Bindings(hash, t, e.key) != [];
      NoValues(Chain(hash, t, e.key), e.key);
      var e' :| e' in Chain(hash, t, e.key) && e'.key == e.key;
      assert HashesBelow(hash, Chain(hash, t, e.key), bound);
    }
  }
}
