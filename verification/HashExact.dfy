/** Exactly when one resize, one insertion and one update do what they are meant to, and runs on which
    they do not. */
module HashExact {
  import opened Wrappers
  import opened HashSpec
  import opened HashLaws
  import opened HashRuns

  // ---------- The recorded bucket count ----------

  lemma {:induction false} ReinsertGrows<K, V>(
    load: Load, hash: K -> nat, t: Table<K, V>, es: seq<Entry<K, V>>, m: int)
    requires WellSized(t) && NextPrime(t.buckets) != 0
    requires t.size <= m < t.size + |es| && HighWater(load, m, t.buckets)
    ensures Reinsert(load, hash, t, es).buckets > t.buckets
    decreases es
  {
    var t' := Insert(load, hash, t, es[0].key, es[0].value);
    InsertIsPush(load, hash, t, es[0].key, es[0].value);
    if t'.buckets == t.buckets {
      assert t'.size == t.size + 1 && m != t.size;
      ReinsertGrows(load, hash, t', es[1..], m);
    }
  }

  /** The bucket count recorded by a resize is the length of the array it adopts exactly when the new
      table is not itself resized while it is filled. */
  lemma {:induction false} ResizeRecordsLengthIff<K(!new), V(!new)>(load: Load, hash: K -> nat, t: Table<K, V>)
    requires Consistent(hash, t) && NextPrime(t.buckets) != 0
    ensures |Resize(load, hash, t).chains| == Resize(load, hash, t).buckets
      <==> Uninterrupted(load, t.buckets, Total(t.chains))
  {
    hide Reinsert, PrimesAbove;
    var n := NextPrime(t.buckets);
    if Uninterrupted(load, t.buckets, Total(t.chains)) {
      ResizeReverses(load, hash, t);
    } else {
      var m: nat :| m < Total(t.chains) && HighWater(load, m, n);
      EntriesOf(hash, t);
      ReinsertGrows(load, hash, New<K, V>(n), Flatten(t.chains[..t.buckets]), m);
      ResizeIsRebuild(load, hash, t);
    }
  }

  lemma {:induction false} ResizeIsRebuild<K, V>(load: Load, hash: K -> nat, t: Table<K, V>)
    requires WellSized(t) && NextPrime(t.buckets) != 0
    ensures var n := NextPrime(t.buckets);
      Resize(load, hash, t)
      == Table(t.size, n, Reinsert(load, hash, New(n), Flatten(t.chains[..t.buckets])).chains)
  {}

  /** What lies beyond the recorded count of a table is dropped by its next resize, if that is not
      interrupted; the size field still counts it. */
  lemma {:induction false} ResizeDropsBeyond<K(!new), V(!new)>(load: Load, hash: K -> nat, t: Table<K, V>)
    requires WellSized(t) && NextPrime(t.buckets) != 0
    requires Uninterrupted(load, t.buckets, Total(t.chains[..t.buckets]))
    ensures var r := Resize(load, hash, t);
      Total(r.chains) == Total(t.chains[..t.buckets]) && r.size == t.size
  {
    hide Reinsert, PushAll;
    var n, es := NextPrime(t.buckets), Flatten(t.chains[..t.buckets]);
    FlattenCounts(t.chains[..t.buckets]);
    NewIsConsistent<K, V>(hash, n);
    ReinsertWithoutResize(load, hash, New(n), es);
    PushAllIsConsistent(hash, New<K, V>(n), es);
    ResizeIsRebuild(load, hash, t);
  }

  // ---------- The values of every key ----------

  ghost predicate SameValues<K(!new), V(!new)>(hash: K -> nat, t: Table<K, V>, r: Table<K, V>) {
    WellSized(t) && WellSized(r) && forall k :: multiset(Bindings(hash, r, k)) == multiset(Bindings(hash, t, k))
  }

  /** Bucket counts from which a resize as written keeps the values of keys hashing below the bound. */
  predicate KeepsBelow(bound: nat, buckets: nat) {
    var n := NextPrime(buckets);
    n == 0 || NextPrime(n) == 0 || bound <= n
  }

  lemma {:induction false} ResizeKeepsBelow<K(!new), V(!new)>(hash: K -> nat, bound: nat, t: Table<K, V>)
    requires Consistent(hash, t) && AllBelow(hash, t, bound) && KeepsBelow(bound, t.buckets)
    ensures SameValues(hash, t, Resize(AsWritten, hash, t)) && Consistent(hash, Resize(AsWritten, hash, t))
  {
    hide Bindings, Resize, NextPrime, AllBelow;
    var n := NextPrime(t.buckets);
    if n == 0 || NextPrime(n) == 0 {
      ResizeReverses(AsWritten, hash, t);
      forall k ensures multiset(Bindings(hash, Resize(AsWritten, hash, t), k)) == multiset(Bindings(hash, t, k)) {
        ReverseEnds(Bindings(hash, t, k));
      }
    } else {
      ResizeDirect(AsWritten, hash, t, bound);
    }
  }

  /** A table of one entry whose resize, interrupted by a resize of the new table, loses it. */
  lemma {:induction false} ResizeLosesAnEntry(b: nat)
    requires b > 0 && NextPrime(b) != 0 && NextPrime(NextPrime(b)) != 0
    ensures var n := NextPrime(b);
      var t := Push(UintHash, New<nat, int>(b), n, 0);
      Consistent(UintHash, t) && t.buckets == b && t.size == 1 && AllBelow(UintHash, t, n + 1)
      && Bindings(UintHash, t, n) == [0] && Bindings(UintHash, Resize(AsWritten, UintHash, t), n) == []
  {
    hide Resize, Insert, NextPrime;
    var n, n2 := NextPrime(b), NextPrime(NextPrime(b));
    var t0 := New<nat, int>(b);
    var t := Push(UintHash, t0, n, 0);
    NewIsConsistent<nat, int>(UintHash, b);
    PushAdds(UintHash, t0, n, 0);
    assert AllBelow(UintHash, t0, n + 1);
    PushBinds(UintHash, t0, n, 0, n);
    assert [0] + Bindings(UintHash, t0, n) == [0];
    SecondResize(b, n, 0);
    SmallModulus(n, n2);
    var r := Resize(AsWritten, UintHash, t);
    assert Slot(UintHash, r, n) == 0;
    assert Chain(UintHash, r, n) == [];
  }

  ghost predicate ResizesKeepValues(bound: nat, b: nat) {
    forall t: Table<nat, int> | Consistent(UintHash, t) && t.buckets == b && AllBelow(UintHash, t, bound) ::
      SameValues(UintHash, t, Resize(AsWritten, UintHash, t))
  }

  /** Every table of b buckets with unsigned keys below the bound keeps all values through a resize as
      written exactly when the bound does not exceed the next listed prime, unless the list ends by then. */
  lemma {:induction false} ResizeKeepsValuesIff(bound: nat, b: nat)
    requires b > 0
    ensures ResizesKeepValues(bound, b) <==> KeepsBelow(bound, b)
  {
    hide Resize, Bindings, AllBelow, NextPrime;
    if KeepsBelow(bound, b) {
      forall t: Table<nat, int> | Consistent(UintHash, t) && t.buckets == b && AllBelow(UintHash, t, bound)
        ensures SameValues(UintHash, t, Resize(AsWritten, UintHash, t))
      {
        ResizeKeepsBelow(UintHash, bound, t);
      }
    } else {
      var n := NextPrime(b);
      var t := Push(UintHash, New<nat, int>(b), n, 0);
      ResizeLosesAnEntry(b);
      BelowMore(UintHash, t, n + 1, bound);
      NotSame(t, Resize(AsWritten, UintHash, t), n);
    }
  }

  lemma {:induction false} BelowMore<K(!new), V(!new)>(hash: K -> nat, t: Table<K, V>, bound: nat, bound': nat)
    requires AllBelow(hash, t, bound) && bound <= bound'
    ensures AllBelow(hash, t, bound')
  {
    forall i | 0 <= i < |t.chains| ensures HashesBelow(hash, t.chains[i], bound') {
      assert HashesBelow(hash, t.chains[i], bound);
    }
  }

  lemma {:induction false} NotSame(t: Table<nat, int>, r: Table<nat, int>, k: nat)
    requires WellSized(t) && WellSized(r) && Bindings(UintHash, t, k) == [0] && Bindings(UintHash, r, k) == []
    ensures !SameValues(UintHash, t, r)
  {
    assert multiset(Bindings(UintHash, r, k)) != multiset(Bindings(UintHash, t, k));
  }

  ghost predicate InsertsAdd(bound: nat, b: nat) {
    forall t: Table<nat, int>, k, v
      | Consistent(UintHash, t) && t.buckets == b && AllBelow(UintHash, t, bound)
      :: Added(UintHash, t, Insert(AsWritten, UintHash, t, k, v), k, v)
  }

  /** Under the same condition, and no other, every insertion adds its binding and changes nothing else. */
  lemma {:induction false} InsertAddsIff(bound: nat, b: nat)
    requires b > 0
    ensures InsertsAdd(bound, b) <==> KeepsBelow(bound, b)
  {
    hide Resize, Insert, Bindings, AllBelow, NextPrime, Added;
    if KeepsBelow(bound, b) {
      forall t: Table<nat, int>, k, v
        | Consistent(UintHash, t) && t.buckets == b && AllBelow(UintHash, t, bound)
        ensures Added(UintHash, t, Insert(AsWritten, UintHash, t, k, v), k, v)
      {
        InsertAddsBelow(UintHash, bound, t, k, v);
      }
    } else {
      var n := NextPrime(b);
      var t := Push(UintHash, New<nat, int>(b), n, 0);
      ResizeLosesAnEntry(b);
      BelowMore(UintHash, t, n + 1, bound);
      InsertLosesAnEntry(t, n);
    }
  }

  lemma {:induction false} InsertAddsBelow<K(!new), V(!new)>(hash: K -> nat, bound: nat, t: Table<K, V>, k: K, v: V)
    requires Consistent(hash, t) && AllBelow(hash, t, bound) && KeepsBelow(bound, t.buckets)
    ensures Added(hash, t, Insert(AsWritten, hash, t, k, v), k, v)
  {
    hide Bindings, Resize, NextPrime, AllBelow, Consistent, KeepsBelow;
    if HighWater(AsWritten, t.size, t.buckets) {
      ResizeKeepsBelow(hash, bound, t);
      PushAdds(hash, Resize(AsWritten, hash, t), k, v);
      InsertIsPush(AsWritten, hash, t, k, v);
    } else {
      PushAdds(hash, t, k, v);
    }
  }

  lemma {:induction false} InsertLosesAnEntry(t: Table<nat, int>, n: nat)
    requires WellSized(t) && n > 0 && t.size == 1
    requires Bindings(UintHash, t, n) == [0] && Bindings(UintHash, Resize(AsWritten, UintHash, t), n) == []
    ensures !Added(UintHash, t, Insert(AsWritten, UintHash, t, 0, 0), 0, 0)
  {
    hide Resize, Bindings;
    PushBinds(UintHash, Resize(AsWritten, UintHash, t), 0, 0, n);
    var r := Insert(AsWritten, UintHash, t, 0, 0);
    assert Bindings(UintHash, r, n) == [];
    assert multiset(Bindings(UintHash, r, n)) != multiset(Bindings(UintHash, t, n)) + IfSame(0, n, 0);
  }

  // ---------- Search answers ----------

  ghost predicate SameAnswers<K(!new), V(!new)>(hash: K -> nat, t: Table<K, V>, r: Table<K, V>) {
    WellSized(t) && WellSized(r) && forall k :: Find(hash, r, k) == Find(hash, t, k)
  }

  ghost predicate OneValueEach<K(!new), V(!new)>(hash: K -> nat, t: Table<K, V>) {
    WellSized(t) && forall k :: |Bindings(hash, t, k)| <= 1
  }

  lemma {:induction false} SameAnswersIfSingle<K(!new), V(!new)>(hash: K -> nat, t: Table<K, V>, r: Table<K, V>)
    requires SameValues(hash, t, r) && OneValueEach(hash, t)
    ensures SameAnswers(hash, t, r)
  {
    hide Bindings;
    forall k ensures Bindings(hash, r, k) == Bindings(hash, t, k) {
      var s, s' := Bindings(hash, t, k), Bindings(hash, r, k);
      assert multiset(s') == multiset(s) && |multiset(s')| == |s'| && |multiset(s)| == |s|;
      if s != [] {
        assert s == [s[0]];
        Singleton(s', s[0]);
      }
    }
  }

  ghost predicate ResizesKeepSingleAnswers(bound: nat, b: nat) {
    forall t: Table<nat, int>
      | Consistent(UintHash, t) && t.buckets == b && AllBelow(UintHash, t, bound) && OneValueEach(UintHash, t)
      :: SameAnswers(UintHash, t, Resize(AsWritten, UintHash, t))
  }

  /** With one value per key at most, a resize as written keeps every search answer exactly when it keeps
      every value. */
  lemma {:induction false} ResizeKeepsSingleAnswersIff(bound: nat, b: nat)
    requires b > 0
    ensures ResizesKeepSingleAnswers(bound, b) <==> KeepsBelow(bound, b)
  {
    hide Resize, Bindings, AllBelow, NextPrime, SameValues, SameAnswers, OneValueEach;
    if KeepsBelow(bound, b) {
      forall t: Table<nat, int>
        | Consistent(UintHash, t) && t.buckets == b && AllBelow(UintHash, t, bound) && OneValueEach(UintHash, t)
        ensures SameAnswers(UintHash, t, Resize(AsWritten, UintHash, t))
      {
        ResizeKeepsBelow(UintHash, bound, t);
        SameAnswersIfSingle(UintHash, t, Resize(AsWritten, UintHash, t));
      }
    } else {
      var n := NextPrime(b);
      var t := Push(UintHash, New<nat, int>(b), n, 0);
      ResizeLosesAnEntry(b);
      BelowMore(UintHash, t, n + 1, bound);
      OneEntryOnce(b, n);
      AnswerLost(t, Resize(AsWritten, UintHash, t), n);
    }
  }

  lemma {:induction false} OneEntryOnce(b: nat, n: nat)
    requires b > 0
    ensures OneValueEach(UintHash, Push(UintHash, New<nat, int>(b), n, 0))
  {
    hide Bindings;
    var t0 := New<nat, int>(b);
    NewIsConsistent<nat, int>(UintHash, b);
    forall k ensures |Bindings(UintHash, Push(UintHash, t0, n, 0), k)| <= 1 {
      PushBinds(UintHash, t0, n, 0, k);
    }
  }

  lemma {:induction false} AnswerLost(t: Table<nat, int>, r: Table<nat, int>, k: nat)
    requires WellSized(t) && WellSized(r) && Bindings(UintHash, t, k) == [0] && Bindings(UintHash, r, k) == []
    ensures !SameAnswers(UintHash, t, r)
  {
    assert Find(UintHash, r, k) != Find(UintHash, t, k);
  }

  ghost predicate ResizesKeepAnswers(bound: nat, b: nat) {
    forall t: Table<nat, int> | Consistent(UintHash, t) && t.buckets == b && AllBelow(UintHash, t, bound) ::
      SameAnswers(UintHash, t, Resize(AsWritten, UintHash, t))
  }

  /** With any number of values per key, it keeps them only where there is nothing to keep or no resize:
      of a key put twice the older value comes back, from any bucket count, however often the new table
      is resized. */
  lemma {:induction false} ResizeKeepsAnswersIff(bound: nat, b: nat)
    requires b > 0
    ensures ResizesKeepAnswers(bound, b) <==> NextPrime(b) == 0 || bound == 0
  {
    hide Bindings, Find, AllBelow, NextPrime, Reinsert, Flatten;
    if NextPrime(b) == 0 || bound == 0 {
      forall t: Table<nat, int> | Consistent(UintHash, t) && t.buckets == b && AllBelow(UintHash, t, bound)
        ensures SameAnswers(UintHash, t, Resize(AsWritten, UintHash, t))
      {
        if bound == 0 {
          ResizeKeepsBelow(UintHash, bound, t);
          NothingBelowZero(UintHash, t);
          SameAnswersIfSingle(UintHash, t, Resize(AsWritten, UintHash, t));
        }
      }
    } else {
      var t := PutTwice(b);
      PutTwiceFacts(b);
      BelowMore(UintHash, t, 1, bound);
      OlderComesBack(b);
      assert Find(UintHash, Resize(AsWritten, UintHash, t), 0) != Find(UintHash, t, 0);
    }
  }

  lemma {:induction false} NothingBelowZero<K(!new), V(!new)>(hash: K -> nat, t: Table<K, V>)
    requires WellSized(t) && AllBelow(hash, t, 0)
    ensures OneValueEach(hash, t)
  {
    forall k ensures |Bindings(hash, t, k)| <= 1 {
      var es := Chain(hash, t, k);
      assert HashesBelow(hash, es, 0);
      if es != [] {
        assert es[0] in es;
      }
    }
  }

  function PutTwice(b: nat): (t: Table<nat, int>)
    requires b > 0
    ensures WellSized(t)
  {
    Push(UintHash, Push(UintHash, New<nat, int>(b), 0, 1), 0, 2)
  }

  lemma {:induction false} PutTwiceFacts(b: nat)
    requires b > 0
    ensures Consistent(UintHash, PutTwice(b)) && PutTwice(b).buckets == b && AllBelow(UintHash, PutTwice(b), 1)
    ensures Find(UintHash, PutTwice(b), 0) == Some(2)
  {
    hide Bindings, AllBelow;
    var t0 := New<nat, int>(b);
    var t1 := Push(UintHash, t0, 0, 1);
    NewIsConsistent<nat, int>(UintHash, b);
    EmptyBelow(b);
    PushAdds(UintHash, t0, 0, 1);
    PushAdds(UintHash, t1, 0, 2);
    PushBinds(UintHash, t1, 0, 2, 0);
  }

  lemma {:induction false} EmptyBelow(b: nat)
    requires b > 0
    ensures AllBelow(UintHash, New<nat, int>(b), 1)
  {}

  lemma {:induction false} PutTwiceEntries(b: nat)
    requires b > 0
    ensures PutTwice(b).size == 2 && Flatten(PutTwice(b).chains[..b]) == [Entry(0, 2), Entry(0, 1)]
  {
    hide Flatten;
    var t := PutTwice(b);
    assert 0 % b == 0;
    assert t.chains[..b] == t.chains && t.chains[0] == [Entry(0, 2), Entry(0, 1)];
    FlattenFirst(t.chains, [Entry(0, 2), Entry(0, 1)]);
  }

  /** The first chain is that of key 0, whatever the bucket count. */
  lemma {:induction false} SameFirstChain(r: Table<nat, int>, t: Table<nat, int>)
    requires WellSized(r) && WellSized(t) && r.chains == t.chains
    ensures Find(UintHash, r, 0) == Find(UintHash, t, 0)
  {
    hide Values;
    assert Slot(UintHash, r, 0) == 0 && Slot(UintHash, t, 0) == 0;
  }

  lemma {:induction false} OlderComesBack(b: nat)
    requires b > 0 && NextPrime(b) != 0
    ensures Find(UintHash, Resize(AsWritten, UintHash, PutTwice(b)), 0) == Some(1)
  {
    hide Insert, Resize, NextPrime, Flatten, Reinsert, Find, PutTwice, New;
    var n, es := NextPrime(b), [Entry(0, 2), Entry(0, 1)];
    PutTwiceFacts(b);
    PutTwiceEntries(b);
    ResizeIsRebuild(AsWritten, UintHash, PutTwice(b));
    ReinsertTwo(n, es);
    var t1 := Insert(AsWritten, UintHash, New<nat, int>(n), 0, 2);
    InsertFinds(AsWritten, UintHash, t1, 0, 1);
    SameFirstChain(Resize(AsWritten, UintHash, PutTwice(b)), Insert(AsWritten, UintHash, t1, 0, 1));
  }

  // ---------- Runs of the port table on which search and update go wrong ----------

  lemma {:induction false} MorePrimes()
    ensures NextPrime(389) == 769 && NextPrime(769) == 1543
  {
    hide NextPrime;
    NextPrimeIs(389, 4);
    NextPrimeIs(769, 5);
  }

  /** Two insertions into an empty table of n buckets: the first moves it to the next count, the second
      to the one after, in an array that is longer still. */
  lemma {:induction false} AfterTwo<V>(n: nat, k1: nat, v1: V, k2: nat, v2: V)
    requires n > 0 && NextPrime(n) != 0
    requires NextPrime(NextPrime(n)) != 0 && NextPrime(NextPrime(NextPrime(n))) != 0
    ensures var n2 := NextPrime(NextPrime(n));
      var t := Table(1, n2, Push(UintHash, New<nat, V>(NextPrime(n2)), k1, v1).chains);
      Run(AsWritten, UintHash, New(n), TwoPuts(k1, v1, k2, v2)) == Push(UintHash, t, k2, v2)
      && Insert(AsWritten, UintHash, Insert(AsWritten, UintHash, New<nat, V>(n), k1, v1), k2, v2)
      == Push(UintHash, t, k2, v2)
  {
    hide Resize, NextPrime, Run;
    FirstInsert(n, k1, v1);
    SecondResize(NextPrime(n), k1, v1);
    RunTwo(n, k1, v1, k2, v2);
  }

  /** Keys 0 and 97 share a chain, the younger in front. */
  function Colliding(): (t: Table<nat, int>)
    ensures WellSized(t)
  {
    Run(AsWritten, UintHash, New(17), TwoPuts(0, 1, 97, 2))
  }

  /** Of n buckets, keys 0 and n share the first. */
  lemma {:induction false} FirstChainOfTwo(n: nat, len: nat, v1: int, v2: int)
    requires 0 < n <= len
    ensures var t := Table(1, n, Push(UintHash, New<nat, int>(len), 0, v1).chains);
      var r := Push(UintHash, t, n, v2);
      r.buckets == n && r.chains[0] == [Entry(n, v2), Entry(0, v1)]
  {
    assert 0 % len == 0 && n % n == 0;
  }

  lemma {:induction false} CollidingChain()
    ensures Colliding().buckets == 97 && Colliding().chains[0] == [Entry(97, 2), Entry(0, 1)]
  {
    hide Run, NextPrime, Push, New;
    SmallPrimes();
    AfterTwo(17, 0, 1, 97, 2);
    FirstChainOfTwo(97, 193, 1, 2);
  }

  lemma {:induction false} FindInTwo(t: Table<nat, int>, k: nat, v: int, k': nat, v': int)
    requires WellSized(t) && k != k' && Slot(UintHash, t, k) == Slot(UintHash, t, k')
    requires Chain(UintHash, t, k) == [Entry(k, v), Entry(k', v')]
    ensures Find(UintHash, t, k) == Some(v) && Find(UintHash, t, k') == Some(v')
  {
    var es := Chain(UintHash, t, k);
    assert es[1..] == [Entry(k', v')] && es[1..][1..] == [];
    assert Values(es[1..], k') == [v'] + Values(es[1..][1..], k');
    assert Values(es, k') == Values(es[1..], k');
    assert Values(es, k) == [v] + Values(es[1..], k);
  }

  /** Updating the older of two keys in one chain writes to the younger. */
  lemma {:induction false} UpdateMisses()
    ensures var t, r := Colliding(), Update(UintHash, Colliding(), 0, 9);
      Find(UintHash, t, 0) == Some(1) && Find(UintHash, t, 97) == Some(2)
      && Find(UintHash, r, 0) == Some(1) && Find(UintHash, r, 97) == Some(9)
      && !Rebinds(UintHash, t, r, 0, 9)
  {
    hide Colliding, Find;
    CollidingChain();
    var t, r := Colliding(), Update(UintHash, Colliding(), 0, 9);
    FindInTwo(t, 97, 2, 0, 1);
    assert r.chains[0] == [Entry(97, 9), Entry(0, 1)];
    FindInTwo(r, 97, 9, 0, 1);
  }

  function Doubled(): (t: Table<nat, int>)
    ensures WellSized(t)
  {
    Run(AsWritten, UintHash, New(17), TwoPuts(0, 1, 0, 2))
  }

  /** A key put twice is found with its newer value, until putting another key brings back the older. */
  lemma {:induction false} RehashBringsBackTheOlder()
    ensures Find(UintHash, Doubled(), 0) == Some(2)
    ensures Find(UintHash, Insert(AsWritten, UintHash, Doubled(), 1, 3), 0) == Some(1)
  {
    hide Run, NextPrime, Insert, Resize, Reinsert, Flatten;
    SmallPrimes();
    AfterTwo(17, 0, 1, 0, 2);
    var t := Doubled();
    var es := [Entry(0, 2), Entry(0, 1)];
    assert t.chains[0] == es && es[1..] == [Entry(0, 1)];
    assert Find(UintHash, t, 0) == Some(2);
    DoubledResized(t, es);
    InsertPushes(t, 1, 3);
    PushBinds(UintHash, Resize(AsWritten, UintHash, t), 1, 3, 0);
  }

  lemma {:induction false} InsertPushes(t: Table<nat, int>, k: nat, v: int)
    requires WellSized(t) && HighWater(AsWritten, t.size, t.buckets)
    ensures Insert(AsWritten, UintHash, t, k, v) == Push(UintHash, Resize(AsWritten, UintHash, t), k, v)
  {}

  lemma {:induction false} DoubledResized(t: Table<nat, int>, es: seq<Entry<nat, int>>)
    requires t.size == 2 && t.buckets == 97 && |t.chains| == 193 && es == [Entry(0, 2), Entry(0, 1)]
    requires t.chains[0] == es && forall i | 0 < i < 193 :: t.chains[i] == []
    ensures Bindings(UintHash, Resize(AsWritten, UintHash, t), 0) == [1, 2]
  {
    hide Insert, Resize, NextPrime, Flatten;
    SmallPrimes();
    MorePrimes();
    FlattenFirst(t.chains[..97], es);
    ResizeIsRebuild(AsWritten, UintHash, t);
    AfterTwo(193, 0, 2, 0, 1);
    ReinsertTwo(193, es);
    var r := Resize(AsWritten, UintHash, t);
    var back := [Entry(0, 1), Entry(0, 2)];
    assert r.chains[0] == back && back[1..] == [Entry(0, 2)] && back[1..][1..] == [];
  }

  lemma {:induction false} FlattenFirst<T>(chains: seq<seq<T>>, c: seq<T>)
    requires chains != [] && chains[0] == c && forall i | 0 < i < |chains| :: chains[i] == []
    ensures Flatten(chains) == c
  {
    FlattenOfEmpty(chains[1..]);
  }

  lemma {:induction false} ReinsertTwo(n: nat, es: seq<Entry<nat, int>>)
    requires n > 0 && |es| == 2
    ensures Reinsert(AsWritten, UintHash, New<nat, int>(n), es)
         == Insert(AsWritten, UintHash,
              Insert(AsWritten, UintHash, New<nat, int>(n), es[0].key, es[0].value), es[1].key, es[1].value)
  {
    hide Insert;
    assert es[1..][0] == es[1] && es[1..][1..] == [];
    var t := Insert(AsWritten, UintHash, New<nat, int>(n), es[0].key, es[0].value);
    assert Reinsert(AsWritten, UintHash, t, es[1..])
        == Insert(AsWritten, UintHash, t, es[1].key, es[1].value);
  }
}
