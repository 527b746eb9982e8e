/** The chained hash table of flowpath/hash.c as a value: what new, find, insert, resize and remove
    compute. Keys compare by equality, whether they are pointers, integers or strings; the hash is
    any function of the key. */
module HashSpec {
  import opened Wrappers

  // ---------- Bucket counts ----------

  const PRIMES: seq<nat> :=
    [53, 97, 193, 389, 769, 1543, 3079, 6151, 12289, 24593, 49157, 98317, 196613, 393241, 786433,
     1572869, 3145739, 6291469, 12582917, 25165843, 50331653, 100663319, 201326611, 402653189,
     805306457, 1610612741]

  /** The first listed prime from index i on that is larger than n, or the end of the list. */
  function NextFrom(i: nat, n: nat): (r: nat)
    requires i <= |PRIMES|
    ensures i <= r <= |PRIMES|
    ensures forall j | i <= j < r :: PRIMES[j] <= n
    ensures r < |PRIMES| ==> PRIMES[r] > n
    decreases |PRIMES| - i
  {
    if i == |PRIMES| || PRIMES[i] > n then i else NextFrom(i + 1, n)
  }

  /** 0 when no listed prime is larger. */
  function NextPrime(n: nat): (p: nat)
    ensures p == 0 || p > n
  {
    var i := NextFrom(0, n);
    if i < |PRIMES| then PRIMES[i] else 0
  }

  /** How many listed primes are left above n: what nested resizes run down. */
  function PrimesAbove(n: nat): nat { |PRIMES| - NextFrom(0, n) }

  lemma {:induction false} PrimesRunOut(n: nat, m: nat)
    requires n <= m
    ensures PrimesAbove(m) <= PrimesAbove(n)
    ensures NextPrime(n) != 0 && NextPrime(n) <= m ==> PrimesAbove(m) < PrimesAbove(n)
  {}

  method NextPrimeByScan(n: nat) returns (p: nat)
    ensures p == NextPrime(n)
  {
    for i := 0 to |PRIMES|
      invariant NextFrom(0, n) == NextFrom(i, n)
    {
      if PRIMES[i] > n {
        return PRIMES[i];
      }
    }
    p := 0;
  }

  // ---------- Tables ----------

  datatype Entry<K, V> = Entry(key: K, value: V)

  /** `buckets` is what keys are reduced by; it need not be the number of chains. */
  datatype Table<K, V> = Table(size: int, buckets: nat, chains: seq<seq<Entry<K, V>>>)

  /** The load test of insert. The code divides the bucket count by the size (with no entries the
      quotient is infinite); its comments describe the size divided by the bucket count. */
  datatype Load = AsWritten | Documented

  /** load >= .75, multiplied out. */
  predicate HighWater(load: Load, size: int, buckets: nat) {
    match load
    case AsWritten => 4 * buckets >= 3 * size
    case Documented => 4 * size >= 3 * buckets
  }

  predicate WellSized<K, V>(t: Table<K, V>) { 0 < t.buckets <= |t.chains| }

  function New<K, V>(n: nat): (t: Table<K, V>)
    requires n > 0
    ensures WellSized(t)
  {
    Table(0, n, seq(n, _ => []))
  }

  function Slot<K, V>(hash: K -> nat, t: Table<K, V>, k: K): (i: nat)
    requires WellSized(t)
    ensures i < t.buckets
  {
    hash(k) % t.buckets
  }

  function Chain<K, V>(hash: K -> nat, t: Table<K, V>, k: K): seq<Entry<K, V>>
    requires WellSized(t)
  {
    t.chains[Slot(hash, t, k)]
  }

  /** The values a chain binds to k, front first. */
  function Values<K(==), V>(es: seq<Entry<K, V>>, k: K): seq<V> {
    if es == [] then []
    else (if es[0].key == k then [es[0].value] else []) + Values(es[1..], k)
  }

  /** The values a search for k would meet, in the order it meets them. */
  function Bindings<K(==), V>(hash: K -> nat, t: Table<K, V>, k: K): seq<V>
    requires WellSized(t)
  {
    Values(Chain(hash, t, k), k)
  }

  function Find<K(==), V>(hash: K -> nat, t: Table<K, V>, k: K): Option<V>
    requires WellSized(t)
  {
    var b := Bindings(hash, t, k);
    if b == [] then None else Some(b[0])
  }

  /** The end of insert: prepend to the key's chain. */
  function Push<K, V>(hash: K -> nat, t: Table<K, V>, k: K, v: V): (r: Table<K, V>)
    requires WellSized(t)
    ensures WellSized(r)
  {
    var n := Slot(hash, t, k);
    Table(t.size + 1, t.buckets, t.chains[n := [Entry(k, v)] + t.chains[n]])
  }

  function Insert<K, V>(load: Load, hash: K -> nat, t: Table<K, V>, k: K, v: V): (r: Table<K, V>)
    requires WellSized(t)
    ensures WellSized(r) && r.buckets >= t.buckets
    decreases PrimesAbove(t.buckets), 1
  {
    Push(hash, if HighWater(load, t.size, t.buckets) then Resize(load, hash, t) else t, k, v)
  }

  /** Rebuilds the table over the next prime by inserting the entries of its buckets into a new
      table, whose chains it then adopts. The new table may itself be resized on the way. */
  function Resize<K, V>(load: Load, hash: K -> nat, t: Table<K, V>): (r: Table<K, V>)
    requires WellSized(t)
    ensures WellSized(r) && r.buckets >= t.buckets
    decreases PrimesAbove(t.buckets), 0
  {
    var n := NextPrime(t.buckets);
    if n == 0 then t
    else
      PrimesRunOut(t.buckets, n);
      Table(t.size, n, Reinsert(load, hash, New(n), Flatten(t.chains[..t.buckets])).chains)
  }

  function Reinsert<K, V>(load: Load, hash: K -> nat, t: Table<K, V>, es: seq<Entry<K, V>>): (r: Table<K, V>)
    requires WellSized(t)
    ensures WellSized(r) && r.buckets >= t.buckets
    decreases PrimesAbove(t.buckets), 2 + |es|
  {
    if es == [] then t
    else
      var t' := Insert(load, hash, t, es[0].key, es[0].value);
      PrimesRunOut(t.buckets, t'.buckets);
      Reinsert(load, hash, t', es[1..])
  }

  function Flatten<T>(chains: seq<seq<T>>): seq<T> {
    if chains == [] then [] else chains[0] + Flatten(chains[1..])
  }

  function DropFirst<K(==), V>(es: seq<Entry<K, V>>, k: K): seq<Entry<K, V>> {
    if es == [] then [] else if es[0].key == k then es[1..] else [es[0]] + DropFirst(es[1..], k)
  }

  function Remove<K(==), V>(hash: K -> nat, t: Table<K, V>, k: K): (r: Table<K, V>)
    requires WellSized(t)
    ensures WellSized(r) && r.buckets == t.buckets
  {
    var n := Slot(hash, t, k);
    if Values(t.chains[n], k) == [] then t
    else Table(t.size - 1, t.buckets, t.chains[n := DropFirst(t.chains[n], k)])
  }

  /** Update writes the entry at the head of the key's chain, whatever key that entry has. */
  function Update<K(==), V>(hash: K -> nat, t: Table<K, V>, k: K, v: V): (r: Table<K, V>)
    requires WellSized(t)
    ensures WellSized(r) && r.buckets == t.buckets
  {
    var n := Slot(hash, t, k);
    var es := t.chains[n];
    if es == [] then t else t.(chains := t.chains[n := [es[0].(value := v)] + es[1..]])
  }
}
