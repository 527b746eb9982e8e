/** What is done with a parsed document: printing it, counting and indexing its arrays, and looking
    keys up in its objects. The loops walk the linked nodes of freeflow/json.cpp. */
module JsonAccess {
  import opened JsonText
  import opened JsonMemory
  import L = JsonLookup

  /** The stream a value is printed to. */
  class Stream {
    var text: string

    constructor ()
      ensures text == ""
    {
      text := "";
    }

    method Put(c: char)
      modifies this
      ensures text == old(text) + [c]
    {
      text := text + [c];
    }
  }

  // ---------- Printing ----------

  method PrintTerminal(os: Stream, text: string, n: Node)
    requires n.first <= n.last <= |text|
    modifies os
    ensures os.text == old(os.text) + text[n.first..n.last]
  {
    var iter := n.first;
    while iter != n.last
      invariant n.first <= iter <= n.last
      invariant os.text == old(os.text) + text[n.first..iter]
    {
      os.Put(text[iter]);
      iter := iter + 1;
    }
  }

  method PrintString(os: Stream, text: string, n: Node)
    requires n.first <= n.last <= |text|
    modifies os
    ensures os.text == old(os.text) + "\"" + text[n.first..n.last] + "\""
  {
    os.Put('"');
    PrintTerminal(os, text, n);
    os.Put('"');
  }

  method PrintValue(os: Stream, text: string, n: Node, ghost v: Value, ghost S: set<Node>)
    requires Denotes(text, n, v, S)
    modifies os
    ensures os.text == old(os.text) + Print(v)
    decreases v, 1
  {
    match n.kind
    case IdentKind => PrintTerminal(os, text, n);
    case NumKind => PrintTerminal(os, text, n);
    case StrKind =>
      PrintString(os, text, n);
      assert old(os.text) + "\"" + v.chars + "\"" == old(os.text) + ("\"" + v.chars + "\"");
    case ArrKind => PrintArray(os, text, n, v.elems, S);
    case ObjKind => PrintObject(os, text, n, v.pairs, S);
  }

  lemma {:induction false} ArrayShape(text: string, n: Node, vs: seq<Value>, S: set<Node>)
    requires Denotes(text, n, Arr(vs), S)
    ensures n.value == null <==> vs == []
    ensures vs != [] ==> DenotesElems(text, n, vs, S)
  {}

  lemma {:induction false} ObjectShape(text: string, n: Node, ps: seq<Pair>, S: set<Node>)
    requires Denotes(text, n, Obj(ps), S)
    ensures n.value == null <==> ps == []
    ensures ps != [] ==> DenotesMembers(text, n, ps, S)
  {}

  lemma {:induction false} ElemsTurn(text: string, c: Node, vs: seq<Value>, i: nat, S: set<Node>, before: string)
    requires i <= |vs| && DenotesElems(text, c, vs[i..], S)
    ensures i < |vs| && c.value != null && Denotes(text, c.value, vs[i], S)
    ensures DenotesElems(text, c.next, vs[i + 1..], S)
    ensures var item := before + Print(vs[i]);
      before + PrintElems(vs[i..]) == (if c.next != null then item + "," else item) + PrintElems(vs[i + 1..])
  {
    assert vs[i..][0] == vs[i] && vs[i..][1..] == vs[i + 1..];
  }

  lemma {:induction false} ElemsEnd(text: string, vs: seq<Value>, i: nat, S: set<Node>)
    requires i <= |vs| && DenotesElems(text, null, vs[i..], S)
    ensures i == |vs| && PrintElems(vs[i..]) == ""
  {}

  method PrintArray(os: Stream, text: string, n: Node, ghost vs: seq<Value>, ghost S: set<Node>)
    requires Denotes(text, n, Arr(vs), S)
    modifies os
    ensures os.text == old(os.text) + Print(Arr(vs))
    decreases Arr(vs), 0
  {
    hide PrintElems, DenotesElems, Denotes;
    ArrayShape(text, n, vs, S);
    PrintNothing();
    os.Put('[');
    if n.value != null {
      var a: Node? := n;
      ghost var i := 0;
      assert vs[0..] == vs;
      while a != null
        invariant 0 <= i <= |vs| && DenotesElems(text, a, vs[i..], S)
        invariant os.text + PrintElems(vs[i..]) == old(os.text) + "[" + PrintElems(vs)
        decreases |vs| - i
      {
        ElemsTurn(text, a, vs, i, S, os.text);
        PrintValue(os, text, a.value, vs[i], S);
        if a.next != null {
          os.Put(',');
        }
        a := a.next;
        i := i + 1;
      }
      ElemsEnd(text, vs, i, S);
      assert os.text + "" == os.text;
    }
    assert os.text == old(os.text) + "[" + PrintElems(vs);
    os.Put(']');
    assert os.text == old(os.text) + ("[" + PrintElems(vs) + "]");
  }

  method PrintPair(os: Stream, text: string, n: Node, ghost p: Pair, ghost S: set<Node>)
    requires DenotesPair(text, n, p, S)
    modifies os
    ensures os.text == old(os.text) + JsonText.PrintPair(p)
    decreases p
  {
    PrintString(os, text, n.key);
    os.Put(':');
    PrintValue(os, text, n.value, p.value, S);
    assert os.text == old(os.text) + ("\"" + p.key + "\"" + ":" + Print(p.value));
  }

  lemma {:induction false} MembersTurn(text: string, c: Node, vs: seq<Pair>, i: nat, S: set<Node>, before: string)
    requires i <= |vs| && DenotesMembers(text, c, vs[i..], S)
    ensures i < |vs| && c.value != null && DenotesPair(text, c.value, vs[i], S)
    ensures DenotesMembers(text, c.next, vs[i + 1..], S)
    ensures var item := before + JsonText.PrintPair(vs[i]);
      before + PrintPairs(vs[i..]) == (if c.next != null then item + "," else item) + PrintPairs(vs[i + 1..])
  {
    assert vs[i..][0] == vs[i] && vs[i..][1..] == vs[i + 1..];
  }

  lemma {:induction false} MembersEnd(text: string, vs: seq<Pair>, i: nat, S: set<Node>)
    requires i <= |vs| && DenotesMembers(text, null, vs[i..], S)
    ensures i == |vs| && PrintPairs(vs[i..]) == ""
  {}

  method PrintObject(os: Stream, text: string, n: Node, ghost ps: seq<Pair>, ghost S: set<Node>)
    requires Denotes(text, n, Obj(ps), S)
    modifies os
    ensures os.text == old(os.text) + Print(Obj(ps))
    decreases Obj(ps), 0
  {
    hide PrintPairs, DenotesMembers, Denotes;
    ObjectShape(text, n, ps, S);
    PrintNothing();
    os.Put('{');
    if n.value != null {
      var o: Node? := n;
      ghost var i := 0;
      assert ps[0..] == ps;
      while o != null
        invariant 0 <= i <= |ps| && DenotesMembers(text, o, ps[i..], S)
        invariant os.text + PrintPairs(ps[i..]) == old(os.text) + "{" + PrintPairs(ps)
        decreases |ps| - i
      {
        MembersTurn(text, o, ps, i, S, os.text);
        PrintPair(os, text, o.value, ps[i], S);
        if o.next != null {
          os.Put(',');
        }
        o := o.next;
        i := i + 1;
      }
      MembersEnd(text, ps, i, S);
      assert os.text + "" == os.text;
    }
    assert os.text == old(os.text) + "{" + PrintPairs(ps);
    os.Put('}');
    assert os.text == old(os.text) + ("{" + PrintPairs(ps) + "}");
  }

  // ---------- Arrays and objects ----------

  /** Array::size and Object::size. */
  method Count(text: string, a: Node, ghost v: Value, ghost S: set<Node>) returns (n: nat)
    requires (v.Arr? || v.Obj?) && Denotes(text, a, v, S)
    ensures v.Arr? ==> n == |v.elems|
    ensures v.Obj? ==> n == |v.pairs|
  {
    if a.value == null {
      return 0;
    }
    n := 0;
    var p: Node? := a;
    ghost var size := if v.Arr? then |v.elems| else |v.pairs|;
    while p != null
      invariant n <= size
      invariant v.Arr? ==> DenotesElems(text, p, v.elems[n..], S)
      invariant v.Obj? ==> DenotesMembers(text, p, v.pairs[n..], S)
      decreases size - n
    {
      assert v.Arr? ==> v.elems[n..][1..] == v.elems[n + 1..];
      assert v.Obj? ==> v.pairs[n..][1..] == v.pairs[n + 1..];
      p := p.next;
      n := n + 1;
    }
  }

  /** Array::operator[]: null outside the array. */
  method At(text: string, a: Node, n: int, ghost vs: seq<Value>, ghost S: set<Node>)
    returns (r: Node?)
    requires Denotes(text, a, Arr(vs), S)
    ensures r != null <==> 0 <= n < |vs|
    ensures r != null ==> Denotes(text, r, vs[n], S)
  {
    if n < 0 || a.value == null {
      return null;
    }
    var p, k := a, n;
    while k != 0 && p.next != null
      invariant 0 <= k <= n && n - k < |vs| && DenotesElems(text, p, vs[n - k..], S)
      decreases k
    {
      assert vs[n - k..][1..] == vs[n - k + 1..];
      p := p.next;
      k := k - 1;
    }
    if k != 0 {
      assert vs[n - k..][1..] == [];
      return null;
    }
    r := p.value;
  }

  // ---------- Keys ----------

  function KeyOf(text: string, pair: Node): string
    requires pair.key != null && pair.key.first <= pair.key.last <= |text|
  {
    text[pair.key.first..pair.key.last]
  }

  /** Object::operator[]: null when no key matches. */
  method Find(text: string, obj: Node, q: string, ghost ps: seq<Pair>, ghost S: set<Node>)
    returns (r: Node?)
    requires Denotes(text, obj, Obj(ps), S)
    ensures r != null <==> L.Scan(ps, q).Some?
    ensures r != null ==> Denotes(text, r, ps[L.Scan(ps, q).value].value, S)
  {
    if obj.value == null {
      return null;
    }
    var o: Node? := obj;
    ghost var i := 0;
    while o != null
      invariant 0 <= i <= |ps| && DenotesMembers(text, o, ps[i..], S)
      invariant L.Scan(ps[i..], q).None? <==> L.Scan(ps, q).None?
      invariant L.Scan(ps, q).Some? ==> L.Scan(ps, q).value == L.Scan(ps[i..], q).value + i
      decreases |ps| - i
    {
      assert ps[i..][0] == ps[i] && ps[i..][1..] == ps[i + 1..];
      var p := o.value;
      if L.MatchesText(KeyOf(text, p), q) {
        return p.value;
      }
      o := o.next;
      i := i + 1;
    }
    r := null;
  }

  /** The pairs held by an index stand for the entries of m. */
  ghost predicate Indexes(text: string, index: seq<Node>, m: L.Index, S: set<Node>)
    reads S
  {
    |index| == |m| && forall i | 0 <= i < |m| :: DenotesPair(text, index[i], m[i], S)
  }

  /** Map::find, over the entries. */
  method FindEntry(text: string, hash: string -> nat, index: seq<Node>, q: string,
                   ghost m: L.Index, ghost S: set<Node>)
    returns (r: Node?)
    requires Indexes(text, index, m, S)
    ensures r != null <==> L.Find(hash, m, q).Some?
    ensures r != null ==> DenotesPair(text, r, m[L.Find(hash, m, q).value], S)
  {
    for i := 0 to |index|
      invariant L.Find(hash, m[i..], q).None? <==> L.Find(hash, m, q).None?
      invariant L.Find(hash, m, q).Some? ==> L.Find(hash, m, q).value == L.Find(hash, m[i..], q).value + i
    {
      assert m[i..][0] == m[i] && m[i..][1..] == m[i + 1..];
      assert DenotesPair(text, index[i], m[i], S);
      if L.SameKey(hash, KeyOf(text, index[i]), q) {
        return index[i];
      }
    }
    r := null;
  }

  /** Object::map: every pair is offered to the index, which keeps the first of each key. */
  method BuildIndex(text: string, hash: string -> nat, obj: Node, ghost ps: seq<Pair>, ghost S: set<Node>)
    returns (index: seq<Node>)
    requires Denotes(text, obj, Obj(ps), S)
    ensures Indexes(text, index, L.BuildIndex(hash, ps), S)
  {
    index := [];
    ghost var m: L.Index := [];
    if obj.value == null {
      return;
    }
    var o: Node? := obj;
    ghost var i := 0;
    while o != null
      invariant 0 <= i <= |ps| && DenotesMembers(text, o, ps[i..], S)
      invariant L.BuildFrom(hash, m, ps[i..]) == L.BuildIndex(hash, ps)
      invariant Indexes(text, index, m, S)
      decreases |ps| - i
    {
      assert ps[i..][0] == ps[i] && ps[i..][1..] == ps[i + 1..];
      var p := o.value;
      var e := FindEntry(text, hash, index, KeyOf(text, p), m, S);
      m := L.InsertOnce(hash, m, ps[i]);
      if e == null {
        index := index + [p];
      }
      o := o.next;
      i := i + 1;
    }
  }
}
