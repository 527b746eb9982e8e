/** Whole runs of a hash table: when it agrees with a finite map, and when it does not. */
module HashRuns {
  import opened Wrappers
  import opened HashSpec
  import opened HashLaws

  // ---------- Runs ----------

  datatype Op<K, V> = Put(key: K, value: V) | Del(key: K)

  function Step<K(==), V>(load: Load, hash: K -> nat, t: Table<K, V>, op: Op<K, V>): (r: Table<K, V>)
    requires WellSized(t)
    ensures WellSized(r)
  {
    match op
    case Put(k, v) => Insert(load, hash, t, k, v)
    case Del(k) => Remove(hash, t, k)
  }

  function Run<K(==), V>(load: Load, hash: K -> nat, t: Table<K, V>, ops: seq<Op<K, V>>): (r: Table<K, V>)
    requires WellSized(t)
    ensures WellSized(r)
    decreases ops
  {
    if ops == [] then t else Run(load, hash, Step(load, hash, t, ops[0]), ops[1..])
  }

  function StepMap<K, V>(m: map<K, V>, op: Op<K, V>): map<K, V> {
    match op
    case Put(k, v) => m[k := v]
    case Del(k) => m - {k}
  }

  function RunMap<K, V>(m: map<K, V>, ops: seq<Op<K, V>>): map<K, V>
    decreases ops
  {
    if ops == [] then m else RunMap(StepMap(m, ops[0]), ops[1..])
  }

  /** Keys are put only while they are not live, and hash below the bound. */
  predicate Lawful<K, V>(hash: K -> nat, bound: nat, m: map<K, V>, ops: seq<Op<K, V>>)
    decreases ops
  {
    ops == []
    || ((ops[0].Put? ==> ops[0].key !in m && hash(ops[0].key) < bound)
        && Lawful(hash, bound, StepMap(m, ops[0]), ops[1..]))
  }

  /** Search answers are those of the map, and the size is the number of its entries. */
  ghost predicate Agrees<K(!new), V(!new)>(hash: K -> nat, t: Table<K, V>, m: map<K, V>) {
    WellSized(t) && t.size == |m|
    && forall k :: Bindings(hash, t, k) == if k in m then [m[k]] else []
  }

  lemma {:induction false} AgreesFinds<K(!new), V(!new)>(hash: K -> nat, t: Table<K, V>, m: map<K, V>, k: K)
    requires Agrees(hash, t, m)
    ensures Find(hash, t, k) == if k in m then Some(m[k]) else None
  {}

  // ---------- The load ----------

  /** What the documented test keeps below the high-water mark: all entries but the last. */
  predicate LoadBounded(size: int, buckets: nat) {
    NextPrime(buckets) == 0 || 4 * (size - 1) < 3 * buckets
  }

  lemma {:induction false} PrimesAreOdd(i: nat)
    requires i < |PRIMES|
    ensures PRIMES[i] != 2 * (PRIMES[i] / 2)
  {}

  lemma {:induction false} NextPrimeIsOdd(n: nat)
    ensures NextPrime(n) == 0 || NextPrime(n) == 2 * (NextPrime(n) / 2) + 1
  {
    var i := NextFrom(0, n);
    if i < |PRIMES| { PrimesAreOdd(i); }
  }

  /** The two load tests on the quotients themselves; with no entries the quotient as written is infinite. */
  lemma {:induction false} LoadInReals(size: nat, buckets: nat)
    requires buckets > 0
    ensures HighWater(AsWritten, size, buckets) <==> size == 0 || buckets as real / size as real >= 0.75
    ensures HighWater(Documented, size, buckets) <==> size as real / buckets as real >= 0.75
  {
    QuotientAbove(size, buckets);
    if size > 0 {
      QuotientAbove(buckets, size);
    }
  }

  lemma {:induction false} QuotientAbove(a: nat, b: nat)
    requires b > 0
    ensures a as real / b as real >= 0.75 <==> 4 * a >= 3 * b
  {
    var x, y := a as real, b as real;
    ProductSign(x / y - 0.75, y);
    assert (x / y - 0.75) * y == x / y * y - 0.75 * y == x - 0.75 * y;
  }

  lemma {:induction false} ProductSign(d: real, y: real)
    requires y > 0.0
    ensures d >= 0.0 <==> d * y >= 0.0
  {
    if d < 0.0 {
      assert d * y < 0.0;
    }
  }

  /** With the test as written an empty or nearly empty table always resizes, so small tables grow on
      every insertion. Bucket counts from which keys hashing below `bound` still cannot be lost: */
  predicate SafeBound(bound: nat, buckets: nat) {
    var n1 := NextPrime(buckets);
    var n2 := NextPrime(n1);
    n1 == 0 || n2 == 0 || NextPrime(n2) == 0 || bound <= n2
  }

  /** ... in a table that already holds `size` entries. */
  predicate Roomy(bound: nat, size: int, buckets: nat) {
    var n := NextPrime(buckets);
    n == 0 || NextPrime(n) == 0 || bound <= buckets
    || (size <= 1 && bound <= n) || (size <= 0 && SafeBound(bound, buckets))
  }

  /** What a table keeps over a run. Under the documented test its array has the recorded length. */
  ghost predicate Ready<K(!new), V(!new)>(load: Load, hash: K -> nat, bound: nat, t: Table<K, V>) {
    Consistent(hash, t)
    && match load
       case Documented => |t.chains| == t.buckets && LoadBounded(t.size, t.buckets)
       case AsWritten => AllBelow(hash, t, bound) && Roomy(bound, t.size, t.buckets)
  }

  ghost predicate Added<K(!new), V(!new)>(hash: K -> nat, t: Table<K, V>, r: Table<K, V>, k: K, v: V) {
    WellSized(t) && WellSized(r) && r.size == t.size + 1
    && forall k' :: multiset(Bindings(hash, r, k')) == multiset(Bindings(hash, t, k')) + IfSame(k, k', v)
  }

  lemma {:induction false} PushAdds<K(!new), V(!new)>(hash: K -> nat, t: Table<K, V>, k: K, v: V)
    requires Consistent(hash, t)
    ensures Consistent(hash, Push(hash, t, k, v)) && Added(hash, t, Push(hash, t, k, v), k, v)
    ensures forall bound | AllBelow(hash, t, bound) && hash(k) < bound :: AllBelow(hash, Push(hash, t, k, v), bound)
  {
    PushIsConsistent(hash, t, k, v);
    forall k' ensures multiset(Bindings(hash, Push(hash, t, k, v), k'))
                   == multiset(Bindings(hash, t, k')) + IfSame(k, k', v)
    {
      PushBinds(hash, t, k, v, k');
    }
    forall bound | AllBelow(hash, t, bound) && hash(k) < bound
      ensures AllBelow(hash, Push(hash, t, k, v), bound)
    {
      var n := Slot(hash, t, k);
      assert HashesBelow(hash, t.chains[n], bound);
      assert HashesBelow(hash, [Entry(k, v)] + t.chains[n], bound);
    }
  }

  /** An insertion whose resize, if any, is not interrupted. */
  lemma {:induction false} InsertUninterrupted<K(!new), V(!new)>(load: Load, hash: K -> nat, t: Table<K, V>, k: K, v: V)
    requires Consistent(hash, t) && Uninterrupted(load, t.buckets, Total(t.chains))
    ensures var r := Insert(load, hash, t, k, v);
      Consistent(hash, r) && Added(hash, t, r, k, v)
      && forall bound | AllBelow(hash, t, bound) && hash(k) < bound :: AllBelow(hash, r, bound)
  {
    ResizeReverses(load, hash, t);
    var t' := if HighWater(load, t.size, t.buckets) then Resize(load, hash, t) else t;
    forall k' ensures multiset(Bindings(hash, t', k')) == multiset(Bindings(hash, t, k')) {
      ReverseEnds(Bindings(hash, t, k'));
    }
    PushAdds(hash, t', k, v);
    forall bound | AllBelow(hash, t, bound) && hash(k) < bound
      ensures AllBelow(hash, Push(hash, t', k, v), bound)
    {
      forall k' ensures Bindings(hash, t, k') == [] ==> Bindings(hash, t', k') == [] {}
      BelowFromBindings(hash, t, t', bound);
    }
  }

  /** Inserting is pushing onto the table or its resize. */
  lemma {:induction false} InsertIsPush<K, V>(load: Load, hash: K -> nat, t: Table<K, V>, k: K, v: V)
    requires WellSized(t)
    ensures var t' := if HighWater(load, t.size, t.buckets) then Resize(load, hash, t) else t;
      var r := Insert(load, hash, t, k, v);
      r.size == t.size + 1 && r.buckets == t'.buckets && |r.chains| == |t'.chains|
    ensures Resize(load, hash, t).buckets
         == if NextPrime(t.buckets) == 0 then t.buckets else NextPrime(t.buckets)
  {}

  /** A resize under the documented test finds room for all entries in the next bucket count. */
  lemma {:induction false} DocumentedUninterrupted(size: int, buckets: nat)
    requires LoadBounded(size, buckets)
    ensures forall entries: nat | entries <= size :: Uninterrupted(Documented, buckets, entries)
  {}

  /** One entry more still fits below the mark of the next bucket count, which is odd. */
  lemma {:induction false} NextCountFits(size: int, buckets: nat, n: nat, half: nat)
    requires 4 * (size - 1) < 3 * buckets && n > buckets && n == 2 * half + 1
    ensures 4 * size < 3 * n
  {
    EvenIsNotOdd(2 * size, 3 * half + 1);
  }

  lemma {:induction false} EvenIsNotOdd(a: int, b: int)
    ensures 2 * a != 2 * b + 1
  {}

  lemma {:induction false} DocumentedLoad(size: int, buckets: nat)
    requires LoadBounded(size, buckets)
    ensures var b := if HighWater(Documented, size, buckets) && NextPrime(buckets) != 0
                     then NextPrime(buckets) else buckets;
      LoadBounded(size + 1, b)
  {
    hide NextPrime;
    NextPrimeIsOdd(buckets);
    if NextPrime(buckets) != 0 {
      NextCountFits(size, buckets, NextPrime(buckets), NextPrime(buckets) / 2);
    }
  }

  /** The documented test: a resize is never interrupted, and the load stays bounded. */
  lemma {:induction false} InsertDocumented<K(!new), V(!new)>(hash: K -> nat, bound: nat, t: Table<K, V>, k: K, v: V)
    requires Ready(Documented, hash, bound, t)
    ensures Uninterrupted(Documented, t.buckets, Total(t.chains))
    ensures Ready(Documented, hash, bound, Insert(Documented, hash, t, k, v))
    ensures Added(hash, t, Insert(Documented, hash, t, k, v), k, v)
  {
    DocumentedUninterrupted(t.size, t.buckets);
    InsertUninterrupted(Documented, hash, t, k, v);
    ResizeReverses(Documented, hash, t);
    InsertIsPush(Documented, hash, t, k, v);
    DocumentedLoad(t.size, t.buckets);
  }

  lemma {:induction false} RoomAfterInsert(bound: nat, size: int, buckets: nat)
    requires Roomy(bound, size, buckets) && size >= 0 && buckets > 0
    ensures var b := if HighWater(AsWritten, size, buckets) && NextPrime(buckets) != 0
                     then NextPrime(buckets) else buckets;
      Roomy(bound, size + 1, b)
  {
    hide NextPrime;
  }

  /** An insertion that resizes to a count above all hashes, however often it is interrupted. */
  lemma {:induction false} InsertGrowing<K(!new), V(!new)>(hash: K -> nat, bound: nat, t: Table<K, V>, k: K, v: V)
    requires Consistent(hash, t) && AllBelow(hash, t, bound) && hash(k) < bound
    requires bound <= if NextPrime(t.buckets) == 0 then t.buckets else NextPrime(t.buckets)
    requires HighWater(AsWritten, t.size, t.buckets)
    ensures var r := Insert(AsWritten, hash, t, k, v);
      Consistent(hash, r) && AllBelow(hash, r, bound) && Added(hash, t, r, k, v)
  {
    hide Bindings, NextPrime, AllBelow, Resize;
    ResizeDirect(AsWritten, hash, t, bound);
    PushDirect(hash, Resize(AsWritten, hash, t), bound, k, v);
  }

  lemma {:induction false} InsertAsWritten<K(!new), V(!new)>(hash: K -> nat, bound: nat, t: Table<K, V>, k: K, v: V)
    requires Ready(AsWritten, hash, bound, t) && hash(k) < bound
    ensures Ready(AsWritten, hash, bound, Insert(AsWritten, hash, t, k, v))
    ensures Added(hash, t, Insert(AsWritten, hash, t, k, v), k, v)
  {
    var n := NextPrime(t.buckets);
    RoomAfterInsert(bound, t.size, t.buckets);
    InsertIsPush(AsWritten, hash, t, k, v);
    if n == 0 || NextPrime(n) == 0 || (t.size <= 0 && bound > n) {
      InsertUninterrupted(AsWritten, hash, t, k, v);
    } else if bound <= t.buckets {
      InsertDirect(AsWritten, hash, t, bound, k, v);
    } else {
      InsertGrowing(hash, bound, t, k, v);
    }
  }

  lemma {:induction false} InsertKeepsReady<K(!new), V(!new)>(
    load: Load, hash: K -> nat, bound: nat, t: Table<K, V>, k: K, v: V)
    requires Ready(load, hash, bound, t) && hash(k) < bound
    ensures Ready(load, hash, bound, Insert(load, hash, t, k, v))
    ensures Added(hash, t, Insert(load, hash, t, k, v), k, v)
  {
    match load
    case Documented => InsertDocumented(hash, bound, t, k, v);
    case AsWritten => InsertAsWritten(hash, bound, t, k, v);
  }

  lemma {:induction false} RemoveKeepsReady<K(!new), V(!new)>(
    load: Load, hash: K -> nat, bound: nat, t: Table<K, V>, k: K)
    requires Ready(load, hash, bound, t)
    ensures Ready(load, hash, bound, Remove(hash, t, k))
  {
    RemoveUnbinds(hash, t, k);
  }

  /** After every insertion, under either test, either the primes are exhausted or all entries but the
      last are below the mark. As documented the array has exactly the recorded number of buckets, which
      grows at the mark; as written it grows on every insertion, whatever the size. */
  lemma {:induction false} LoadBound<K(!new), V(!new)>(load: Load, hash: K -> nat, t: Table<K, V>, k: K, v: V)
    requires Consistent(hash, t) && LoadBounded(t.size, t.buckets)
    requires load == Documented ==> |t.chains| == t.buckets
    ensures var r, n := Insert(load, hash, t, k, v), NextPrime(t.buckets);
      LoadBounded(r.size, r.buckets)
      && (r.buckets == if n != 0 && (load == Documented ==> HighWater(Documented, t.size, t.buckets))
                       then n else t.buckets)
      && (load == Documented ==> |r.chains| == r.buckets)
  {
    InsertIsPush(load, hash, t, k, v);
    match load
    case Documented => InsertDocumented(hash, 0, t, k, v);
    case AsWritten => WrittenLoad(t.size, t.buckets);
  }

  /** Below the mark of the comments, the quotient as written is always above its own. */
  lemma {:induction false} WrittenLoad(size: int, buckets: nat)
    requires LoadBounded(size, buckets) && size >= 0 && buckets > 0
    ensures NextPrime(buckets) != 0 ==>
      HighWater(AsWritten, size, buckets) && LoadBounded(size + 1, NextPrime(buckets))
    ensures NextPrime(buckets) == 0 ==> LoadBounded(size + 1, buckets)
  {
    hide NextPrime;
    NextPrimeIsOdd(buckets);
    if NextPrime(buckets) != 0 {
      NextCountFits(size, buckets, NextPrime(buckets), NextPrime(buckets) / 2);
    }
  }

  // ---------- Agreement with a map ----------

  lemma {:induction false} Singleton<V>(s: seq<V>, v: V)
    requires multiset(s) == multiset{v}
    ensures s == [v]
  {
    assert |s| == |multiset(s)| == 1;
    assert s[0] in multiset(s);
  }

  lemma {:induction false} AddedBinds<K(!new), V(!new)>(
    hash: K -> nat, t: Table<K, V>, r: Table<K, V>, m: map<K, V>, k: K, v: V, k': K)
    requires Agrees(hash, t, m) && k !in m && Added(hash, t, r, k, v)
    ensures Bindings(hash, r, k') == if k' == k then [v] else if k' in m then [m[k']] else []
  {
    hide Bindings;
    assert multiset(Bindings(hash, r, k')) == multiset(Bindings(hash, t, k')) + IfSame(k, k', v);
    OneMore(Bindings(hash, t, k'), Bindings(hash, r, k'), k' == k, v);
  }

  lemma {:induction false} AddedAgrees<K(!new), V(!new)>(
    hash: K -> nat, t: Table<K, V>, r: Table<K, V>, m: map<K, V>, k: K, v: V)
    requires Agrees(hash, t, m) && k !in m && Added(hash, t, r, k, v)
    ensures Agrees(hash, r, m[k := v])
  {
    hide Bindings;
    SizeWith(m, k, v);
    var m' := m[k := v];
    forall k' ensures Bindings(hash, r, k') == if k' in m' then [m'[k']] else [] {
      AddedBinds(hash, t, r, m, k, v, k');
    }
  }

  lemma {:induction false} OneMore<V>(s: seq<V>, s': seq<V>, more: bool, v: V)
    requires multiset(s') == multiset(s) + (if more then multiset{v} else multiset{})
    requires |s| <= 1 && (more ==> s == [])
    ensures s' == if more then [v] else s
  {
    if more {
      Singleton(s', v);
    } else if s == [] {
      assert |multiset(s')| == |s'|;
    } else {
      assert s == [s[0]];
      Singleton(s', s[0]);
    }
  }

  lemma {:induction false} SizeWith<K, V>(m: map<K, V>, k: K, v: V)
    requires k !in m
    ensures |m[k := v]| == |m| + 1
  {
    var m' := m[k := v];
    assert m'.Keys == m.Keys + {k} && |m'| == |m'.Keys| && |m| == |m.Keys|;
  }

  lemma {:induction false} SizeWithout<K, V>(m: map<K, V>, k: K)
    ensures |m - {k}| == |m| - if k in m then 1 else 0
  {
    var m' := m - {k};
    assert m'.Keys == m.Keys - {k} && |m'| == |m'.Keys| && |m| == |m.Keys|;
  }

  lemma {:induction false} RemovedBinds<K(!new), V(!new)>(hash: K -> nat, t: Table<K, V>, m: map<K, V>, k: K, k': K)
    requires Consistent(hash, t) && Agrees(hash, t, m)
    ensures Bindings(hash, Remove(hash, t, k), k') == if k' in m - {k} then [m[k']] else []
  {
    RemoveUnbinds(hash, t, k);
    assert k' in m - {k} <==> k' in m && k' != k;
  }

  lemma {:induction false} RemovedAgrees<K(!new), V(!new)>(hash: K -> nat, t: Table<K, V>, m: map<K, V>, k: K)
    requires Consistent(hash, t) && Agrees(hash, t, m)
    ensures Agrees(hash, Remove(hash, t, k), m - {k})
  {
    RemoveUnbinds(hash, t, k);
    AgreesFinds(hash, t, m, k);
    SizeWithout(m, k);
    forall k'
      ensures Bindings(hash, Remove(hash, t, k), k') == if k' in m - {k} then [(m - {k})[k']] else []
    {
      RemovedBinds(hash, t, m, k, k');
    }
  }

  lemma {:induction false} StepAgrees<K(!new), V(!new)>(
    load: Load, hash: K -> nat, bound: nat, t: Table<K, V>, m: map<K, V>, op: Op<K, V>)
    requires Ready(load, hash, bound, t) && Agrees(hash, t, m)
    requires op.Put? ==> op.key !in m && hash(op.key) < bound
    ensures Ready(load, hash, bound, Step(load, hash, t, op))
    ensures Agrees(hash, Step(load, hash, t, op), StepMap(m, op))
  {
    hide Insert, Remove, Agrees, Added;
    match op
    case Put(k, v) =>
      InsertKeepsReady(load, hash, bound, t, k, v);
      AddedAgrees(hash, t, Insert(load, hash, t, k, v), m, k, v);
    case Del(k) =>
      RemoveKeepsReady(load, hash, bound, t, k);
      RemovedAgrees(hash, t, m, k);
  }

  /** Over every run with distinct live keys, rehashes included, a table that is ready stays ready and
      agrees with the map. */
  lemma {:induction false} RunAgrees<K(!new), V(!new)>(
    load: Load, hash: K -> nat, bound: nat, t: Table<K, V>, m: map<K, V>, ops: seq<Op<K, V>>)
    requires Ready(load, hash, bound, t) && Agrees(hash, t, m) && Lawful(hash, bound, m, ops)
    ensures Ready(load, hash, bound, Run(load, hash, t, ops))
    ensures Agrees(hash, Run(load, hash, t, ops), RunMap(m, ops))
    decreases ops
  {
    if ops != [] {
      StepAgrees(load, hash, bound, t, m, ops[0]);
      RunAgrees(load, hash, bound, Step(load, hash, t, ops[0]), StepMap(m, ops[0]), ops[1..]);
    }
  }

  lemma {:induction false} NewAgrees<K(!new), V(!new)>(load: Load, hash: K -> nat, bound: nat, n: nat)
    requires n > 0 && (load.AsWritten? ==> SafeBound(bound, n))
    ensures Ready<K, V>(load, hash, bound, New(n)) && Agrees<K, V>(hash, New(n), map[])
  {
    NewIsConsistent<K, V>(hash, n);
  }

  /** With the documented load test, every table agrees with the map over every lawful run, whatever
      the hash function and the initial bucket count. */
  lemma {:induction false} DocumentedTableIsAMap<K(!new), V(!new)>(
    hash: K -> nat, bound: nat, n: nat, ops: seq<Op<K, V>>)
    requires n > 0 && Lawful(hash, bound, map[], ops)
    ensures Agrees(hash, Run(Documented, hash, New(n), ops), RunMap(map[], ops))
  {
    NewAgrees<K, V>(Documented, hash, bound, n);
    RunAgrees(Documented, hash, bound, New(n), map[], ops);
  }

  /** With the load test as written, so does every table whose keys hash below a safe bound. */
  lemma {:induction false} WrittenTableIsAMap<K(!new), V(!new)>(hash: K -> nat, bound: nat, n: nat, ops: seq<Op<K, V>>)
    requires n > 0 && SafeBound(bound, n) && Lawful(hash, bound, map[], ops)
    ensures Agrees(hash, Run(AsWritten, hash, New(n), ops), RunMap(map[], ops))
  {
    NewAgrees<K, V>(AsWritten, hash, bound, n);
    RunAgrees(AsWritten, hash, bound, New(n), map[], ops);
  }

  // ---------- The bound is exact ----------

  /** fp_uint_hash. */
  function UintHash(k: nat): nat { k }

  function TwoPuts<V>(k1: nat, v1: V, k2: nat, v2: V): seq<Op<nat, V>> { [Put(k1, v1), Put(k2, v2)] }

  /** The first insertion into an empty table resizes it to the next count, and does no more. */
  lemma {:induction false} FirstInsert<V>(n: nat, k: nat, v: V)
    requires n > 0 && NextPrime(n) != 0
    ensures Insert(AsWritten, UintHash, New<nat, V>(n), k, v)
         == Push(UintHash, New<nat, V>(NextPrime(n)), k, v)
  {
    var t := New<nat, V>(n);
    assert t.chains[..n] == t.chains;
    FlattenOfEmpty(t.chains);
    assert Resize(AsWritten, UintHash, t) == New(NextPrime(n));
  }

  /** Resizing a table of one entry resizes the new table as well, and records the smaller count. */
  lemma {:induction false} SecondResize<V>(n: nat, k: nat, v: V)
    requires n > 0 && NextPrime(n) != 0 && NextPrime(NextPrime(n)) != 0
    ensures Resize(AsWritten, UintHash, Push(UintHash, New<nat, V>(n), k, v))
         == Table(1, NextPrime(n), Push(UintHash, New<nat, V>(NextPrime(NextPrime(n))), k, v).chains)
  {
    var t := Push(UintHash, New<nat, V>(n), k, v);
    var es := [Entry(k, v)];
    FlattenOfOne(t.chains, n, k % n, es[0]);
    FirstInsert(NextPrime(n), k, v);
    assert es[1..] == [];
    assert Reinsert(AsWritten, UintHash, New(NextPrime(n)), es)
        == Insert(AsWritten, UintHash, New<nat, V>(NextPrime(n)), k, v);
  }

  /** Two insertions lose a key: the first is re-entered into an array longer than the bucket count
      that is then recorded. */
  lemma {:induction false} WrittenTableLosesAKey<V>(n: nat, v1: V, v2: V)
    requires n > 0
    requires var n2 := NextPrime(NextPrime(n)); NextPrime(n) != 0 && n2 != 0 && NextPrime(n2) != 0
    ensures var k := NextPrime(NextPrime(n));
      Find(UintHash, Run(AsWritten, UintHash, New(n), TwoPuts(k, v1, 0, v2)), k) == None
  {
    var n1 := NextPrime(n);
    var n2 := NextPrime(n1);
    var n3 := NextPrime(n2);
    var t1 := Push(UintHash, New<nat, V>(n1), n2, v1);
    var t2 := Table(1, n2, Push(UintHash, New<nat, V>(n3), n2, v1).chains);
    FirstInsert(n, n2, v1);
    SecondResize(n1, n2, v1);
    assert Insert(AsWritten, UintHash, t1, 0, v2) == Push(UintHash, t2, 0, v2);
    RunTwo(n, n2, v1, 0, v2);
    SearchMisses(n2, n3, v1, v2);
  }

  /** The search for key n looks in chain 0, but the key is in chain n. */
  lemma {:induction false} SearchMisses<V>(n: nat, len: nat, v1: V, v2: V)
    requires 0 < n < len
    ensures var t := Table(1, n, Push(UintHash, New<nat, V>(len), n, v1).chains);
      Find(UintHash, Push(UintHash, t, 0, v2), n) == None
  {
    SmallModulus(n, len);
    assert n % n == 0 && 0 % n == 0;
    var t := Table(1, n, Push(UintHash, New<nat, V>(len), n, v1).chains);
    var r := Push(UintHash, t, 0, v2);
    assert r.chains[0] == [Entry(0, v2)];
    assert Slot(UintHash, r, n) == 0 && Chain(UintHash, r, n) == [Entry(0, v2)];
    NoValues([Entry<nat, V>.Entry(0, v2)], n);
  }

  lemma {:induction false} RunTwo<V>(n: nat, k1: nat, v1: V, k2: nat, v2: V)
    requires n > 0
    ensures Run(AsWritten, UintHash, New(n), TwoPuts(k1, v1, k2, v2))
         == Insert(AsWritten, UintHash, Insert(AsWritten, UintHash, New<nat, V>(n), k1, v1), k2, v2)
  {
    var ops := TwoPuts(k1, v1, k2, v2);
    var t0 := New<nat, V>(n);
    var t1 := Insert(AsWritten, UintHash, t0, k1, v1);
    var t2 := Insert(AsWritten, UintHash, t1, k2, v2);
    assert ops[1..] == [Put(k2, v2)] && ops[1..][1..] == [];
    assert Step(AsWritten, UintHash, t0, ops[0]) == t1;
    assert Step(AsWritten, UintHash, t1, ops[1..][0]) == t2;
    assert Run(AsWritten, UintHash, t1, ops[1..]) == t2;
  }

  lemma {:induction false} FlattenOfEmpty<T>(chains: seq<seq<T>>)
    requires forall i | 0 <= i < |chains| :: chains[i] == []
    ensures Flatten(chains) == []
  {
    FlattenCounts(chains);
    AllEmpty(chains);
  }

  lemma {:induction false} FlattenOfOne<T>(chains: seq<seq<T>>, n: nat, j: nat, e: T)
    requires j < n == |chains| && chains[j] == [e]
    requires forall i | 0 <= i < |chains| && i != j :: chains[i] == []
    ensures Flatten(chains[..n]) == [e]
  {
    assert chains[..n] == chains;
    if j == 0 {
      FlattenOfEmpty(chains[1..]);
    } else {
      FlattenOfOne(chains[1..], n - 1, j - 1, e);
      assert chains[1..][..n - 1] == chains[1..];
    }
  }

  /** Every lawful run of keys below the bound agrees with the map. */
  ghost predicate AlwaysAgrees(bound: nat, n: nat)
    requires n > 0
  {
    forall ops: seq<Op<nat, int>> | Lawful(UintHash, bound, map[], ops) ::
      Agrees(UintHash, Run(AsWritten, UintHash, New(n), ops), RunMap(map[], ops))
  }

  /** A table of unsigned keys, as written, is a map for all keys below a bound exactly when the bound
      does not exceed the second listed prime above its bucket count, unless the list ends by then. */
  lemma {:induction false} WrittenTableIsAMapIff(bound: nat, n: nat)
    requires n > 0
    ensures AlwaysAgrees(bound, n) <==> SafeBound(bound, n)
  {
    if SafeBound(bound, n) {
      forall ops: seq<Op<nat, int>> | Lawful(UintHash, bound, map[], ops)
        ensures Agrees(UintHash, Run(AsWritten, UintHash, New(n), ops), RunMap(map[], ops))
      {
        WrittenTableIsAMap(UintHash, bound, n, ops);
      }
    } else {
      LossIsLawful(bound, n);
    }
  }

  lemma {:induction false} TwoPutsOnMap<V>(bound: nat, k: nat, v1: V, v2: V)
    requires 0 < k < bound
    ensures Lawful(UintHash, bound, map[], TwoPuts(k, v1, 0, v2))
    ensures RunMap(map[], TwoPuts(k, v1, 0, v2)) == map[k := v1, 0 := v2]
  {
    var ops := TwoPuts(k, v1, 0, v2);
    var m: map<nat, V> := map[];
    assert ops[1..] == [Put(0, v2)] && ops[1..][1..] == [];
    assert StepMap(m, ops[0]) == map[k := v1];
    assert Lawful(UintHash, bound, map[k := v1], ops[1..]);
    assert RunMap(map[k := v1], ops[1..]) == map[k := v1, 0 := v2];
  }

  lemma {:induction false} LossIsLawful(bound: nat, n: nat)
    requires n > 0 && !SafeBound(bound, n)
    ensures !AlwaysAgrees(bound, n)
  {
    hide Run, NextPrime, Agrees;
    var k := NextPrime(NextPrime(n));
    var ops := TwoPuts(k, 1, 0, 2);
    TwoPutsOnMap(bound, k, 1, 2);
    WrittenTableLosesAKey(n, 1, 2);
    var r := Run(AsWritten, UintHash, New(n), ops);
    if Agrees(UintHash, r, RunMap(map[], ops)) {
      AgreesFinds(UintHash, r, RunMap(map[], ops), k);
    }
  }

  lemma {:induction false} NextPrimeIs(n: nat, i: nat)
    requires i < |PRIMES| && PRIMES[i] > n && forall j | 0 <= j < i :: PRIMES[j] <= n
    ensures NextPrime(n) == PRIMES[i]
  {
    hide NextFrom;
  }

  lemma {:induction false} PrimesAscend(i: nat, j: nat)
    requires i < j < |PRIMES|
    ensures PRIMES[i] < PRIMES[j]
    decreases j
  {
    AdjacentPrimes(j - 1);
    if i < j - 1 {
      PrimesAscend(i, j - 1);
    }
  }

  /** Each listed count is about twice the one before: often less than twice, which is what the comment on
      the list promises at least. */
  lemma {:induction false} AdjacentPrimes(i: nat)
    requires i < |PRIMES| - 1
    ensures PRIMES[i] < PRIMES[i + 1] && 2 * PRIMES[i] <= PRIMES[i + 1] + 173 && PRIMES[i + 1] <= 2 * PRIMES[i] + 79
    ensures i == 0 ==> PRIMES[i + 1] < 2 * PRIMES[i]
  {}

  lemma {:induction false} NextPrimeOf(i: nat)
    requires i < |PRIMES|
    ensures NextPrime(PRIMES[i]) == if i + 1 < |PRIMES| then PRIMES[i + 1] else 0
  {
    hide NextFrom, PRIMES;
    forall j | 0 <= j <= i ensures PRIMES[j] <= PRIMES[i] {
      if j < i { PrimesAscend(j, i); }
    }
    if i + 1 < |PRIMES| {
      PrimesAscend(i, i + 1);
      NextPrimeIs(PRIMES[i], i + 1);
    }
  }

  lemma {:induction false} PrimesFrom53()
    ensures NextPrime(53) == 97 && NextPrime(97) == 193
    ensures NextPrime(193) == 389 && NextPrime(389) == 769
    ensures NextPrime(769) == 1543
  {
    hide NextPrime;
    NextPrimeOf(0);
    NextPrimeOf(1);
    NextPrimeOf(2);
    NextPrimeOf(3);
    NextPrimeOf(4);
  }

  lemma {:induction false} PrimesFrom1543()
    ensures NextPrime(1543) == 3079 && NextPrime(3079) == 6151
    ensures NextPrime(6151) == 12289
  {
    hide NextPrime;
    NextPrimeOf(5);
    NextPrimeOf(6);
    NextPrimeOf(7);
  }

  lemma {:induction false} PrimesFrom12289()
    ensures NextPrime(12289) == 24593 && NextPrime(24593) == 49157
    ensures NextPrime(49157) == 98317 && NextPrime(98317) == 196613
  {
    hide NextPrime;
    NextPrimeOf(8);
    NextPrimeOf(9);
    NextPrimeOf(10);
    NextPrimeOf(11);
  }

  lemma {:induction false} PrimesFrom196613()
    ensures NextPrime(196613) == 393241 && NextPrime(393241) == 786433
    ensures NextPrime(786433) == 1572869 && NextPrime(1572869) == 3145739
  {
    hide NextPrime;
    NextPrimeOf(12);
    NextPrimeOf(13);
    NextPrimeOf(14);
    NextPrimeOf(15);
  }

  lemma {:induction false} PrimesFrom3145739()
    ensures NextPrime(3145739) == 6291469 && NextPrime(6291469) == 12582917
    ensures NextPrime(12582917) == 25165843 && NextPrime(25165843) == 50331653
  {
    hide NextPrime;
    NextPrimeOf(16);
    NextPrimeOf(17);
    NextPrimeOf(18);
    NextPrimeOf(19);
  }

  lemma {:induction false} PrimesFrom50331653()
    ensures NextPrime(50331653) == 100663319 && NextPrime(100663319) == 201326611
    ensures NextPrime(201326611) == 402653189 && NextPrime(402653189) == 805306457
    ensures NextPrime(805306457) == 1610612741
  {
    hide NextPrime;
    NextPrimeOf(20);
    NextPrimeOf(21);
    NextPrimeOf(22);
    NextPrimeOf(23);
    NextPrimeOf(24);
  }

  /** The list ends with 1610612741. */
  lemma {:induction false} NoneAbove(n: nat)
    ensures NextPrime(n) == 0 <==> n >= 1610612741
  {
    hide NextFrom;
    assert |PRIMES| == 26 && PRIMES[25] == 1610612741;
    forall j | 0 <= j < 26 ensures 0 < PRIMES[j] <= 1610612741 {
      if j < 25 { PrimesAscend(j, 25); }
    }
  }

  lemma {:induction false} SmallPrimes()
    ensures NextPrime(17) == 53 && NextPrime(53) == 97 && NextPrime(97) == 193 && NextPrime(193) == 389
  {
    hide NextPrime;
    NextPrimeIs(17, 0);
    NextPrimeIs(53, 1);
    NextPrimeIs(97, 2);
    NextPrimeIs(193, 3);
  }

  /** The port table of a data plane starts with 17 buckets. */
  lemma {:induction false} PortTableBound(bound: nat)
    ensures SafeBound(bound, 17) <==> bound <= 97
  {
    hide NextPrime;
    SmallPrimes();
  }
}
