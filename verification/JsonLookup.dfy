/** Looking a key up in a parsed object: by linear search, by the index built from it, and through a
    command text made from key/value pairs. */
module JsonLookup {
  import opened Wrappers
  import opened JsonText
  import opened JsonParser
  import opened JsonLayout

  // ---------- Linear search ----------

  /** A terminal compares equal to a text that merely begins with it: only the terminal's own length
      is compared. */
  predicate MatchesText(key: string, text: string) { key <= text }

  /** Object::operator[]: the first pair whose key matches. */
  function Scan(ps: seq<Pair>, q: string): (r: Option<nat>)
    ensures r.Some? ==> r.value < |ps|
  {
    if ps == [] then None
    else if MatchesText(ps[0].key, q) then Some(0)
    else Later(Scan(ps[1..], q))
  }

  function Later(r: Option<nat>): Option<nat> { if r.None? then None else Some(r.value + 1) }

  /** What the search is documented to find: the first pair with that very key. */
  function FirstBinding(ps: seq<Pair>, q: string): (r: Option<nat>)
    ensures r.Some? ==> r.value < |ps| && ps[r.value].key == q
    ensures r.Some? ==> forall i | 0 <= i < r.value :: ps[i].key != q
    ensures r.None? ==> forall i | 0 <= i < |ps| :: ps[i].key != q
  {
    if ps == [] then None
    else if ps[0].key == q then Some(0)
    else
      var r := FirstBinding(ps[1..], q);
      assert forall i | 0 < i < |ps| :: ps[i] == ps[1..][i - 1];
      Later(r)
  }

  function PairAt(ps: seq<Pair>, r: Option<nat>): Option<Pair>
    requires r.Some? ==> r.value < |ps|
  {
    if r.Some? then Some(ps[r.value]) else None
  }

  function ValueAt(ps: seq<Pair>, r: Option<nat>): Option<Value>
    requires r.Some? ==> r.value < |ps|
  {
    if r.Some? then Some(ps[r.value].value) else None
  }

  predicate BoundBefore(ps: seq<Pair>, i: nat, q: string)
    requires i <= |ps|
  {
    exists h | 0 <= h < i :: ps[h].key == q
  }

  lemma {:induction false} ScanIsFirstMatch(ps: seq<Pair>, q: string)
    ensures Scan(ps, q).Some? ==> MatchesText(ps[Scan(ps, q).value].key, q)
    ensures Scan(ps, q).Some? ==> forall i | 0 <= i < Scan(ps, q).value :: !MatchesText(ps[i].key, q)
    ensures Scan(ps, q).None? ==> forall i | 0 <= i < |ps| :: !MatchesText(ps[i].key, q)
  {
    if ps != [] && !MatchesText(ps[0].key, q) {
      ScanIsFirstMatch(ps[1..], q);
      assert forall i | 0 < i < |ps| :: ps[i] == ps[1..][i - 1];
    }
  }

  /** The search finds the documented pair for q exactly when no key that is a proper prefix of q
      stands before the first binding of q. */
  lemma {:induction false} ScanIsExactIff(ps: seq<Pair>, q: string)
    ensures Scan(ps, q) == FirstBinding(ps, q)
      <==> forall i | 0 <= i < |ps| && ps[i].key < q :: BoundBefore(ps, i, q)
  {
    ScanIsFirstMatch(ps, q);
    var s, f := Scan(ps, q), FirstBinding(ps, q);
    if s == f {
      forall i | 0 <= i < |ps| && ps[i].key < q
        ensures BoundBefore(ps, i, q)
      {
        assert MatchesText(ps[i].key, q);
        assert s.value < i;
      }
    } else {
      assert MatchesText(q, q);
      assert s.Some? && ps[s.value].key < q && !BoundBefore(ps, s.value, q);
    }
  }

  function PortAndCount(): seq<Pair> { [Pair("port", Num("1")), Pair("port-count", Num("2"))] }

  /** A concrete object on which the search answers for the wrong key. */
  lemma {:induction false} ScanCanMislead()
    ensures Scan(PortAndCount(), "port-count") == Some(0)
    ensures FirstBinding(PortAndCount(), "port-count") == Some(1)
  {
    var ps := PortAndCount();
    assert ps[1..][0] == ps[1];
    assert "port" == "port-count"[..4];
  }

  // ---------- The index ----------

  /** Entries of the index in the order they were inserted. Two keys are one to it when they hash
      alike and agree on the length of the shorter. */
  type Index = seq<Pair>

  predicate SameKey(hash: string -> nat, a: string, b: string) {
    hash(a) == hash(b) && (a <= b || b <= a)
  }

  function Find(hash: string -> nat, m: Index, q: string): (r: Option<nat>)
    ensures r.Some? ==> r.value < |m| && SameKey(hash, m[r.value].key, q)
    ensures r.None? ==> forall i | 0 <= i < |m| :: !SameKey(hash, m[i].key, q)
  {
    if m == [] then None
    else if SameKey(hash, m[0].key, q) then Some(0)
    else
      var r := Find(hash, m[1..], q);
      assert forall i | 0 < i < |m| :: m[i] == m[1..][i - 1];
      Later(r)
  }

  /** The pair that the index holds for q. */
  function Held(hash: string -> nat, m: Index, q: string): Option<Pair> { PairAt(m, Find(hash, m, q)) }

  /** Map::operator[]. */
  function Lookup(hash: string -> nat, m: Index, q: string): Option<Value> { ValueAt(m, Find(hash, m, q)) }

  /** Inserting a key that is present changes nothing. */
  function InsertOnce(hash: string -> nat, m: Index, p: Pair): Index {
    if Find(hash, m, p.key).Some? then m else m + [p]
  }

  function BuildFrom(hash: string -> nat, m: Index, ps: seq<Pair>): Index
    decreases ps
  {
    if ps == [] then m else BuildFrom(hash, InsertOnce(hash, m, ps[0]), ps[1..])
  }

  /** Object::map. */
  function BuildIndex(hash: string -> nat, ps: seq<Pair>): Index { BuildFrom(hash, [], ps) }

  /** The hash tells q from every key that is comparable with it by prefix. */
  predicate Separates(hash: string -> nat, ps: seq<Pair>, q: string) {
    forall p | p in ps :: SameKey(hash, p.key, q) ==> p.key == q
  }

  /** The index holds for q the first entry whose key hashes as q does and of which one is a prefix of the
      other; an entry that merely hashes alike is passed over. */
  lemma {:induction false} HeldIsComparable(hash: string -> nat, m: Index, q: string)
    ensures match Find(hash, m, q)
            case None => forall i | 0 <= i < |m| :: hash(m[i].key) != hash(q) || !(m[i].key <= q || q <= m[i].key)
            case Some(k) =>
              hash(m[k].key) == hash(q) && (m[k].key <= q || q <= m[k].key)
              && forall i | 0 <= i < k :: hash(m[i].key) != hash(q) || !(m[i].key <= q || q <= m[i].key)
  {
    FindIsFirst(hash, m, q);
  }

  lemma {:induction false} FindAppend(hash: string -> nat, m: Index, p: Pair, q: string)
    ensures Held(hash, m + [p], q)
         == if Held(hash, m, q).Some? then Held(hash, m, q)
            else if SameKey(hash, p.key, q) then Some(p) else None
    decreases m
  {
    if m == [] {
      assert m + [p] == [p];
    } else {
      assert (m + [p])[1..] == m[1..] + [p];
      FindAppend(hash, m[1..], p, q);
    }
  }

  lemma {:induction false} BuildFromLookup(hash: string -> nat, m: Index, ps: seq<Pair>, q: string)
    requires forall x | x in m + ps :: Separates(hash, m + ps, x.key)
    requires Separates(hash, m + ps, q)
    ensures Held(hash, BuildFrom(hash, m, ps), q)
         == if Held(hash, m, q).Some? then Held(hash, m, q)
            else PairAt(ps, FirstBinding(ps, q))
    decreases ps
  {
    if ps != [] {
      var p := ps[0];
      var m' := InsertOnce(hash, m, p);
      FindAppend(hash, m, p, q);
      assert p in m + ps;
      forall x | x in m' + ps[1..] ensures x in m + ps {}
      BuildFromLookup(hash, m', ps[1..], q);
      if Find(hash, m, p.key).Some? {
        var e := m[Find(hash, m, p.key).value];
        assert e in m + ps;
        if p.key == q {
          assert Held(hash, m, q).Some?;
        }
      }
    }
  }

  /** The index built from an object, duplicates included, returns for every key what the documented
      linear search returns: the first binding. */
  lemma {:induction false} IndexIsFirstBinding(hash: string -> nat, ps: seq<Pair>, q: string)
    requires forall p | p in ps :: Separates(hash, ps, p.key)
    requires Separates(hash, ps, q)
    ensures Held(hash, BuildIndex(hash, ps), q) == PairAt(ps, FirstBinding(ps, q))
    ensures Lookup(hash, BuildIndex(hash, ps), q) == ValueAt(ps, FirstBinding(ps, q))
  {
    assert [] + ps == ps;
    BuildFromLookup(hash, [], ps, q);
  }

  ghost predicate HoldsFirst(hash: string -> nat, ps: seq<Pair>, q: string) {
    Held(hash, BuildIndex(hash, ps), q) == PairAt(ps, FirstBinding(ps, q))
  }

  /** For queries that include the keys, the index answers all of them as documented exactly when the
      hash tells each from the keys it is comparable with. */
  lemma {:induction false} IndexIsExactIff(hash: string -> nat, ps: seq<Pair>, queries: set<string>)
    requires forall p | p in ps :: p.key in queries
    ensures (forall q | q in queries :: HoldsFirst(hash, ps, q))
      <==> forall q | q in queries :: Separates(hash, ps, q)
  {
    if forall q | q in queries :: Separates(hash, ps, q) {
      forall q | q in queries ensures HoldsFirst(hash, ps, q) {
        IndexIsFirstBinding(hash, ps, q);
      }
    }
    if forall q | q in queries :: HoldsFirst(hash, ps, q) {
      forall q, p | q in queries && p in ps && SameKey(hash, p.key, q) ensures p.key == q {
        HeldApart(hash, ps, p, q);
      }
    }
  }

  /** Two keys that the index holds, each under its own name, are not one key to it. */
  lemma {:induction false} HeldApart(hash: string -> nat, ps: seq<Pair>, p: Pair, q: string)
    requires p in ps && SameKey(hash, p.key, q) && HoldsFirst(hash, ps, p.key) && HoldsFirst(hash, ps, q)
    ensures p.key == q
  {
    var m := BuildIndex(hash, ps);
    FindIsFirst(hash, m, p.key);
    FindIsFirst(hash, m, q);
    var i, j := Find(hash, m, p.key).value, Find(hash, m, q).value;
    assert m[i].key == p.key && m[j].key == q;
    assert i <= j && j <= i;
  }

  lemma {:induction false} FindIsFirst(hash: string -> nat, m: Index, q: string)
    ensures Find(hash, m, q).Some? ==>
      forall i | 0 <= i < Find(hash, m, q).value :: !SameKey(hash, m[i].key, q)
  {
    if m != [] && !SameKey(hash, m[0].key, q) {
      FindIsFirst(hash, m[1..], q);
      assert forall i | 0 < i < |m| :: m[i] == m[1..][i - 1];
    }
  }

  ghost predicate Apart(hash: string -> nat, m: Index) {
    forall i, j | 0 <= i < j < |m| :: !SameKey(hash, m[i].key, m[j].key)
  }

  /** The index holds no key twice. */
  lemma {:induction false} IndexKeysApart(hash: string -> nat, m: Index, ps: seq<Pair>)
    requires Apart(hash, m)
    ensures Apart(hash, BuildFrom(hash, m, ps))
    decreases ps
  {
    if ps != [] {
      IndexKeysApart(hash, InsertOnce(hash, m, ps[0]), ps[1..]);
    }
  }

  // ---------- Index against search, for every hash ----------

  /** Where the search stops is the first pair that is one key with q to the index as well. */
  predicate Aligned(hash: string -> nat, ps: seq<Pair>, q: string) {
    match Scan(ps, q)
    case None => forall p | p in ps :: !SameKey(hash, p.key, q)
    case Some(i) => hash(ps[i].key) == hash(q) && forall j | 0 <= j < i :: !SameKey(hash, ps[j].key, q)
  }

  lemma {:induction false} HeldStays(hash: string -> nat, m: Index, ps: seq<Pair>, q: string)
    requires Held(hash, m, q).Some?
    ensures Held(hash, BuildFrom(hash, m, ps), q) == Held(hash, m, q)
    decreases ps
  {
    if ps != [] {
      FindAppend(hash, m, ps[0], q);
      HeldStays(hash, InsertOnce(hash, m, ps[0]), ps[1..], q);
    }
  }

  predicate NoneSame(hash: string -> nat, m: Index, k: string) {
    forall p | p in m :: !SameKey(hash, p.key, k)
  }

  /** The index holds for q the first pair that is one key with q, if no pair before that kept it out. */
  lemma {:induction false} HeldIsFirstSame(hash: string -> nat, m: Index, ps: seq<Pair>, q: string)
    requires NoneSame(hash, m, q)
    requires var f := Find(hash, ps, q);
      f.Some? ==> NoneSame(hash, m, ps[f.value].key) && NoneSame(hash, ps[..f.value], ps[f.value].key)
    ensures Held(hash, BuildFrom(hash, m, ps), q) == PairAt(ps, Find(hash, ps, q))
    decreases ps
  {
    hide SameKey;
    if ps == [] {
      assert Find(hash, m, q) == None;
    } else {
      var p, f := ps[0], Find(hash, ps, q);
      var m' := InsertOnce(hash, m, p);
      if SameKey(hash, p.key, q) {
        assert Find(hash, m, q) == None && Find(hash, m, p.key) == None;
        FindAppend(hash, m, p, q);
        HeldStays(hash, m', ps[1..], q);
      } else {
        if f.Some? {
          assert p == ps[..f.value][0];
          assert ps[..f.value][1..] == ps[1..][..f.value - 1];
        }
        HeldIsFirstSame(hash, m', ps[1..], q);
      }
    }
  }

  lemma {:induction false} AlignedFindsScan(hash: string -> nat, ps: seq<Pair>, q: string)
    requires Aligned(hash, ps, q)
    ensures Find(hash, ps, q) == Scan(ps, q)
  {
    ScanIsFirstMatch(ps, q);
    FindIsFirst(hash, ps, q);
    var i := Scan(ps, q);
    if i.Some? {
      assert SameKey(hash, ps[i.value].key, q);
    } else {
      assert forall j | 0 <= j < |ps| :: ps[j] in ps;
    }
  }

  /** Nothing before the pair that the search stops at kept that pair out of the index. */
  lemma {:induction false} AlignedIsHeld(hash: string -> nat, ps: seq<Pair>, q: string, i: nat)
    requires Scan(ps, q) == Some(i) && Aligned(hash, ps, q) && Aligned(hash, ps, ps[i].key)
    ensures NoneSame(hash, ps[..i], ps[i].key)
  {
    var k := ps[i].key;
    ScanIsFirstMatch(ps, q);
    ScanIsFirstMatch(ps, k);
    assert MatchesText(k, k);
    var i' := Scan(ps, k).value;
    PrefixOfPrefix(ps[i'].key, k, q);
    assert i' == i;
  }

  lemma {:induction false} PrefixOfPrefix(a: string, b: string, c: string)
    requires a <= b && b <= c
    ensures a <= c
  {}

  lemma {:induction false} PrefixesCompare(a: string, b: string, c: string)
    requires a <= c && b <= c
    ensures a <= b || b <= a
  {
    if |a| <= |b| {
      assert a == b[..|a|];
    } else {
      assert b == a[..|b|];
    }
  }

  /** A key k' that is a prefix of k, which is no prefix of q, is one with q if k is. */
  lemma {:induction false} SameKeyCarries(hash: string -> nat, k': string, k: string, q: string)
    requires k' <= k && hash(k') == hash(k) && !(k <= q)
    ensures SameKey(hash, k, q) ==> SameKey(hash, k', q)
  {
    if SameKey(hash, k, q) {
      PrefixesCompare(k', q, k);
    }
  }

  lemma {:induction false} SameKeyAcross(hash: string -> nat, k': string, q: string, k: string)
    requires k' <= q && hash(k') == hash(q) && !(k <= q)
    ensures SameKey(hash, k, q) ==> SameKey(hash, k', k)
  {
    if SameKey(hash, k, q) {
      PrefixOfPrefix(k', q, k);
    }
  }

  ghost predicate HoldsScanned(hash: string -> nat, ps: seq<Pair>, q: string) {
    Held(hash, BuildIndex(hash, ps), q) == PairAt(ps, Scan(ps, q))
  }

  /** A key that the index holds under another name: the pair found, and the key's place among the rest. */
  lemma {:induction false} ScannedKey(hash: string -> nat, ps: seq<Pair>, j: nat)
    returns (i: nat, a: nat)
    requires j < |ps| && HoldsScanned(hash, ps, ps[j].key)
    ensures i <= j && Scan(ps, ps[j].key) == Some(i) && ps[i].key <= ps[j].key
    ensures var m := BuildIndex(hash, ps);
      a < |m| && m[a] == ps[i] && Find(hash, m, ps[j].key) == Some(a)
      && hash(ps[i].key) == hash(ps[j].key) && forall b | 0 <= b < a :: !SameKey(hash, m[b].key, ps[j].key)
  {
    var k, m := ps[j].key, BuildIndex(hash, ps);
    ScanIsFirstMatch(ps, k);
    assert MatchesText(k, k);
    FindIsFirst(hash, m, k);
    i, a := Scan(ps, k).value, Find(hash, m, k).value;
  }

  lemma {:induction false} ScannedNoneIsAligned(hash: string -> nat, ps: seq<Pair>, q: string)
    requires Scan(ps, q) == None && HoldsScanned(hash, ps, q)
    requires forall p | p in ps :: HoldsScanned(hash, ps, p.key)
    ensures Aligned(hash, ps, q)
  {
    ScanIsFirstMatch(ps, q);
    forall j | 0 <= j < |ps| ensures !SameKey(hash, ps[j].key, q) {
      assert ps[j] in ps && !MatchesText(ps[j].key, q);
      var i, a := ScannedKey(hash, ps, j);
      SameKeyCarries(hash, ps[i].key, ps[j].key, q);
      assert Find(hash, BuildIndex(hash, ps), q) == None;
      assert !SameKey(hash, BuildIndex(hash, ps)[a].key, q);
    }
  }

  lemma {:induction false} ScannedSomeIsAligned(hash: string -> nat, ps: seq<Pair>, q: string, i: nat)
    requires Scan(ps, q) == Some(i) && HoldsScanned(hash, ps, q)
    requires forall p | p in ps :: HoldsScanned(hash, ps, p.key)
    ensures Aligned(hash, ps, q)
  {
    var m := BuildIndex(hash, ps);
    ScanIsFirstMatch(ps, q);
    FindIsFirst(hash, m, q);
    var b := Find(hash, m, q).value;
    assert m[b] == ps[i];
    forall j | 0 <= j < i ensures !SameKey(hash, ps[j].key, q) {
      assert ps[j] in ps && !MatchesText(ps[j].key, q);
      var i', a := ScannedKey(hash, ps, j);
      assert !MatchesText(ps[i'].key, q);
      SameKeyCarries(hash, ps[i'].key, ps[j].key, q);
      SameKeyAcross(hash, ps[i].key, q, ps[j].key);
      assert SameKey(hash, ps[j].key, q) ==> a == b;
    }
  }

  /** Whatever the hash: for queries that include the keys, index and search find the same pairs for all
      of them exactly when every query is aligned. */
  lemma {:induction false} IndexAgreesWithScanIff(hash: string -> nat, ps: seq<Pair>, queries: set<string>)
    requires forall p | p in ps :: p.key in queries
    ensures (forall q | q in queries :: HoldsScanned(hash, ps, q))
      <==> forall q | q in queries :: Aligned(hash, ps, q)
  {
    hide Aligned, HoldsScanned;
    if forall q | q in queries :: Aligned(hash, ps, q) {
      forall q | q in queries ensures HoldsScanned(hash, ps, q) {
        AlignedAgrees(hash, ps, q);
      }
    }
    if forall q | q in queries :: HoldsScanned(hash, ps, q) {
      forall q | q in queries ensures Aligned(hash, ps, q) {
        match Scan(ps, q) {
          case None => ScannedNoneIsAligned(hash, ps, q);
          case Some(i) => ScannedSomeIsAligned(hash, ps, q, i);
        }
      }
    }
  }

  lemma {:induction false} AlignedAgrees(hash: string -> nat, ps: seq<Pair>, q: string)
    requires Aligned(hash, ps, q) && forall p | p in ps :: Aligned(hash, ps, p.key)
    ensures HoldsScanned(hash, ps, q)
  {
    hide Aligned;
    AlignedFindsScan(hash, ps, q);
    var f := Scan(ps, q);
    if f.Some? {
      assert ps[f.value] in ps;
      AlignedIsHeld(hash, ps, q, f.value);
    }
    HeldIsFirstSame(hash, [], ps, q);
  }

  /** With a hash that separates comparable keys, index and search agree on q exactly when no key that is
      a proper prefix of q stands before q's first binding. */
  lemma {:induction false} IndexAgreesWithScan(hash: string -> nat, ps: seq<Pair>, q: string)
    requires forall p | p in ps :: Separates(hash, ps, p.key)
    requires Separates(hash, ps, q)
    ensures Held(hash, BuildIndex(hash, ps), q) == PairAt(ps, Scan(ps, q))
      <==> forall i | 0 <= i < |ps| && ps[i].key < q :: BoundBefore(ps, i, q)
  {
    IndexIsFirstBinding(hash, ps, q);
    ScanIsExactIff(ps, q);
    ScanIsFirstMatch(ps, q);
    assert MatchesText(q, q);
  }

  /** An object on which they disagree, with a hash that tells all its keys apart. */
  lemma {:induction false} IndexAndScanDisagree()
    ensures var hash, ps := (s: string) => |s|, PortAndCount();
      (forall p | p in ps :: Separates(hash, ps, p.key))
      && Held(hash, BuildIndex(hash, ps), "port-count") == Some(ps[1])
      && PairAt(ps, Scan(ps, "port-count")) == Some(ps[0])
  {
    var hash, ps := (s: string) => |s|, PortAndCount();
    ScanCanMislead();
    assert ps[0].key != ps[1].key && |ps[0].key| == 4 && |ps[1].key| == 10;
    IndexIsFirstBinding(hash, ps, "port-count");
  }

  /** With a hash that merges a key and its prefix the index never holds the longer key. */
  lemma {:induction false} IndexCanMislead()
    ensures var hash, ps := (s: string) => 0, PortAndCount();
      BuildIndex(hash, ps) == [ps[0]] && Held(hash, BuildIndex(hash, ps), "port-count") == Some(ps[0])
      && FirstBinding(ps, "port-count") == Some(1)
  {
    var hash, ps := (s: string) => 0, PortAndCount();
    ScanCanMislead();
    assert "port" == "port-count"[..4];
    assert SameKey(hash, "port", "port-count");
    assert ps[1..] == [ps[1]] && ps[1..][1..] == [];
    assert InsertOnce(hash, [], ps[0]) == [ps[0]];
    assert Find(hash, [ps[0]], "port-count") == Some(0);
    assert InsertOnce(hash, [ps[0]], ps[1]) == [ps[0]];
    assert BuildFrom(hash, [ps[0]], [ps[1]]) == [ps[0]];
  }

  // ---------- Commands ----------

  function CommandPairs(list: seq<(string, string)>): (ps: seq<Pair>)
    ensures |ps| == |list|
    ensures forall i | 0 <= i < |list| :: ps[i] == Pair(list[i].0, Str(list[i].1))
  {
    if list == [] then [] else [Pair(list[0].0, Str(list[0].1))] + CommandPairs(list[1..])
  }

  /** The text between the braces of a command. */
  function CommandBody(list: seq<(string, string)>): string {
    if list == [] then ""
    else CommandItem(list[0]) + (if |list| > 1 then "," else "") + CommandBody(list[1..])
  }

  function CommandItem(item: (string, string)): string {
    "\"" + item.0 + "\":\"" + item.1 + "\""
  }

  function Command(list: seq<(string, string)>): string { "{" + CommandBody(list) + "}" }

  lemma {:induction false} CommandBodyIsPrint(list: seq<(string, string)>)
    ensures CommandBody(list) == PrintPairs(CommandPairs(list))
  {
    if list != [] {
      CommandBodyIsPrint(list[1..]);
      var p := Pair(list[0].0, Str(list[0].1));
      assert CommandPairs(list)[0] == p && CommandPairs(list)[1..] == CommandPairs(list[1..]);
      assert PrintPair(p) == CommandItem(list[0]);
    }
  }

  lemma {:induction false} CommandWellFormed(list: seq<(string, string)>)
    ensures WellFormed(Obj(CommandPairs(list)))
      <==> forall i | 0 <= i < |list| :: Escaped(list[i].0) && Escaped(list[i].1)
  {
    var ps := CommandPairs(list);
    forall i | 0 <= i < |list|
      ensures Escaped(ps[i].key) && WellFormed(ps[i].value) <==> Escaped(list[i].0) && Escaped(list[i].1)
      ensures ps[i] in ps
    {
      assert ps[i] == Pair(list[i].0, Str(list[i].1));
    }
  }

  /** A command reads back as the object of its pairs exactly when all keys and values are escaped. */
  lemma {:induction false} CommandReadableIff(list: seq<(string, string)>)
    ensures var v := Obj(CommandPairs(list));
      ParseValue(Command(list)) == Done(v, "", Nodes(v))
      <==> forall i | 0 <= i < |list| :: Escaped(list[i].0) && Escaped(list[i].1)
  {
    CommandWellFormed(list);
    CommandBodyIsPrint(list);
    PrintReadableIff(Obj(CommandPairs(list)));
  }

  lemma {:induction false} NothingMore(list: seq<(string, string)>, buf: string)
    ensures buf + CommandBody(list[|list|..]) == buf
  {}

  lemma {:induction false} CommandTurn(list: seq<(string, string)>, i: nat, before: string)
    requires i < |list|
    ensures var item := before + CommandItem(list[i]);
      before + CommandBody(list[i..])
      == (if i + 1 != |list| then item + "," else item) + CommandBody(list[i + 1..])
  {
    assert list[i..][0] == list[i] && list[i..][1..] == list[i + 1..];
  }

  /** make_object: one pass over the items, a comma after each but the last. */
  method MakeCommand(list: seq<(string, string)>) returns (text: string)
    ensures text == Print(Obj(CommandPairs(list)))
  {
    hide CommandBody, CommandItem;
    var buf := "";
    assert list[0..] == list && "" + CommandBody(list) == CommandBody(list);
    for i := 0 to |list|
      invariant buf + CommandBody(list[i..]) == CommandBody(list)
    {
      ghost var before := buf;
      buf := buf + CommandItem(list[i]);
      if i + 1 != |list| {
        buf := buf + ",";
      }
      CommandTurn(list, i, before);
    }
    text := "{" + buf + "}";
    NothingMore(list, buf);
    CommandBodyIsPrint(list);
  }

  /** What looking q up in the other side's index should give: the item sent under that key, or none. */
  ghost predicate Answers(list: seq<(string, string)>, q: string, held: Option<Pair>) {
    (forall i | 0 <= i < |list| && list[i].0 == q :: held == Some(Pair(q, Str(list[i].1))))
    && ((forall i | 0 <= i < |list| :: list[i].0 != q) ==> held == None)
  }

  /** Sending items with distinct keys as a command and indexing what the other side parses loses and
      invents nothing: all queries, the keys among them, are answered from the items sent, exactly when
      the hash tells each query from the keys it is comparable with. */
  lemma {:induction false} CommandRoundTrip(hash: string -> nat, list: seq<(string, string)>, queries: set<string>)
    requires forall i | 0 <= i < |list| :: Escaped(list[i].0) && Escaped(list[i].1)
    requires forall i, j | 0 <= i < j < |list| :: list[i].0 != list[j].0
    requires forall i | 0 <= i < |list| :: list[i].0 in queries
    ensures ParseValue(Command(list)).Done? && ParseValue(Command(list)).value.Obj?
    ensures var m := BuildIndex(hash, ParseValue(Command(list)).value.pairs);
      (forall q | q in queries :: Answers(list, q, Held(hash, m, q)))
      <==> forall q | q in queries :: Separates(hash, CommandPairs(list), q)
  {
    hide ParseValue, Command, Held, BuildIndex;
    CommandReadableIff(list);
    var ps := CommandPairs(list);
    forall p | p in ps ensures p.key in queries {
      var i :| 0 <= i < |ps| && ps[i] == p;
      assert p.key == list[i].0;
    }
    IndexIsExactIff(hash, ps, queries);
    forall q | q in queries
      ensures Answers(list, q, Held(hash, BuildIndex(hash, ps), q)) <==> HoldsFirst(hash, ps, q)
    {
      AnswersFirst(list, q, Held(hash, BuildIndex(hash, ps), q));
    }
  }

  lemma {:induction false} AnswersFirst(list: seq<(string, string)>, q: string, held: Option<Pair>)
    requires forall i, j | 0 <= i < j < |list| :: list[i].0 != list[j].0
    ensures Answers(list, q, held)
      <==> held == PairAt(CommandPairs(list), FirstBinding(CommandPairs(list), q))
  {
    hide CommandPairs, FirstBinding;
    var ps := CommandPairs(list);
    var f := FirstBinding(ps, q);
    if f.Some? {
      assert list[f.value].0 == q;
    } else {
      forall i | 0 <= i < |list| ensures list[i].0 != q {
        assert ps[i].key != q;
      }
    }
  }
}
