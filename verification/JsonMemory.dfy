/** The nodes of a document, and the buffer they are placed in (freeflow/memory.hpp and the node
    structures of freeflow/json.hpp). */
module JsonMemory {
  import opened JsonText

  /** sizeof(Rep): a kind, padded to a pointer, and two pointers. */
  const REP: nat := 24

  datatype Kind = IdentKind | NumKind | StrKind | PairKind | ArrKind | ObjKind

  /** One node, with the fields of whichever structure its kind makes it. Only the link from one list
      cell to the next is ever written after construction. */
  class Node {
    const kind: Kind
    const addr: nat   // where the allocator placed it
    const first: nat  // a terminal is a view [first, last) of the text
    const last: nat
    const key: Node?
    const value: Node?
    var next: Node?

    constructor Terminal(kind: Kind, addr: nat, first: nat, last: nat)
      ensures this.kind == kind && this.addr == addr && this.first == first && this.last == last
    {
      this.kind, this.addr, this.first, this.last := kind, addr, first, last;
      key, value, next := null, null, null;
    }

    constructor Pair(addr: nat, key: Node, value: Node)
      ensures this.kind == PairKind && this.addr == addr && this.key == key && this.value == value
    {
      this.kind, this.addr, first, last := PairKind, addr, 0, 0;
      this.key, this.value, next := key, value, null;
    }

    /** A list cell; the one without a value is the shared empty array or object. */
    constructor Cell(kind: Kind, addr: nat, value: Node?)
      ensures this.kind == kind && this.addr == addr && this.value == value && next == null
    {
      this.kind, this.addr, first, last := kind, addr, 0, 0;
      key, this.value, next := null, value, null;
    }
  }

  /** Hands out consecutive ranges of a buffer; running out of it is undefined. */
  class BufferAllocator {
    const size: nat
    var offset: nat

    constructor (size: nat)
      ensures this.size == size && offset == 0
    {
      this.size, offset := size, 0;
    }

    method Allocate(n: nat) returns (p: nat)
      requires offset + n <= size
      modifies this
      ensures p == old(offset) && offset == old(offset) + n
    {
      p := offset;
      offset := offset + n;
    }
  }

  // ---------- What a node stands for ----------

  predicate IsView(text: string, n: Node, kind: Kind, s: string) {
    n.kind == kind && n.first <= n.last <= |text| && text[n.first..n.last] == s
  }

  /** Node n, with its descendants in S, is the tree of v over the text. Lists are linked in order
      and end in null; an empty list is a cell without value. */
  ghost predicate Denotes(text: string, n: Node, v: Value, S: set<Node>)
    reads S
    decreases v
  {
    n in S &&
    match v
    case Ident(s) => IsView(text, n, IdentKind, s)
    case Num(s) => IsView(text, n, NumKind, s)
    case Str(s) => IsView(text, n, StrKind, s)
    case Arr(vs) =>
      n.kind == ArrKind
      && if vs == [] then n.value == null && n.next == null else DenotesElems(text, n, vs, S)
    case Obj(ps) =>
      n.kind == ObjKind
      && if ps == [] then n.value == null && n.next == null else DenotesMembers(text, n, ps, S)
  }

  ghost predicate DenotesElems(text: string, c: Node?, vs: seq<Value>, S: set<Node>)
    reads S
    decreases vs
  {
    if vs == [] then c == null
    else
      c != null && c in S && c.kind == ArrKind && c.value != null
      && Denotes(text, c.value, vs[0], S) && DenotesElems(text, c.next, vs[1..], S)
  }

  ghost predicate DenotesPair(text: string, n: Node, p: Pair, S: set<Node>)
    reads S
    decreases p
  {
    n in S && n.kind == PairKind && n.key != null && n.value != null
    && n.key in S && IsView(text, n.key, StrKind, p.key) && Denotes(text, n.value, p.value, S)
  }

  ghost predicate DenotesMembers(text: string, c: Node?, ps: seq<Pair>, S: set<Node>)
    reads S
    decreases ps
  {
    if ps == [] then c == null
    else
      c != null && c in S && c.kind == ObjKind && c.value != null
      && DenotesPair(text, c.value, ps[0], S) && DenotesMembers(text, c.next, ps[1..], S)
  }

  // ---------- Footprints grow ----------

  lemma {:induction false} DenotesMore(text: string, n: Node, v: Value, S: set<Node>, S': set<Node>)
    requires Denotes(text, n, v, S) && S <= S'
    ensures Denotes(text, n, v, S')
    decreases v
  {
    match v
    case Arr(vs) => if vs != [] { DenotesElemsMore(text, n, vs, S, S'); }
    case Obj(ps) => if ps != [] { DenotesMembersMore(text, n, ps, S, S'); }
    case _ =>
  }

  lemma {:induction false} DenotesElemsMore(text: string, c: Node?, vs: seq<Value>, S: set<Node>, S': set<Node>)
    requires DenotesElems(text, c, vs, S) && S <= S'
    ensures DenotesElems(text, c, vs, S')
    decreases vs
  {
    if vs != [] {
      DenotesMore(text, c.value, vs[0], S, S');
      DenotesElemsMore(text, c.next, vs[1..], S, S');
    }
  }

  lemma {:induction false} DenotesPairMore(text: string, n: Node, p: Pair, S: set<Node>, S': set<Node>)
    requires DenotesPair(text, n, p, S) && S <= S'
    ensures DenotesPair(text, n, p, S')
    decreases p
  {
    DenotesMore(text, n.value, p.value, S, S');
  }

  lemma {:induction false} DenotesMembersMore(text: string, c: Node?, ps: seq<Pair>, S: set<Node>, S': set<Node>)
    requires DenotesMembers(text, c, ps, S) && S <= S'
    ensures DenotesMembers(text, c, ps, S')
    decreases ps
  {
    if ps != [] {
      DenotesPairMore(text, c.value, ps[0], S, S');
      DenotesMembersMore(text, c.next, ps[1..], S, S');
    }
  }

  /** A pair node over the nodes S of its value. */
  lemma {:induction false} PairBuilt(text: string, n: Node, p: Pair, S: set<Node>)
    requires n.kind == PairKind && n.key != null && n.value != null
    requires IsView(text, n.key, StrKind, p.key) && Denotes(text, n.value, p.value, S)
    ensures DenotesPair(text, n, p, S + {n.key, n})
  {
    DenotesMore(text, n.value, p.value, S, S + {n.key, n});
  }

  lemma {:induction false} ArrayDenotes(text: string, n: Node, vs: seq<Value>, S: set<Node>)
    requires vs != [] && DenotesElems(text, n, vs, S)
    ensures Denotes(text, n, Arr(vs), S)
  {}

  lemma {:induction false} ObjectDenotes(text: string, n: Node, ps: seq<Pair>, S: set<Node>)
    requires ps != [] && DenotesMembers(text, n, ps, S)
    ensures Denotes(text, n, Obj(ps), S)
  {}

  /** A cell without value is the empty array or object. */
  lemma {:induction false} EmptyDenotes(text: string, n: Node)
    requires n.value == null && n.next == null
    ensures n.kind == ArrKind ==> Denotes(text, n, Arr([]), {n})
    ensures n.kind == ObjKind ==> Denotes(text, n, Obj([]), {n})
  {}

  // ---------- A chain of cells ----------

  function Successor(cells: seq<Node>, i: nat): Node? {
    if i + 1 < |cells| then cells[i + 1] else null
  }

  /** The cells are linked in this order and the last one ends the list. */
  ghost predicate Chain(cells: seq<Node>, kind: Kind)
    reads cells
  {
    (forall i | 0 <= i < |cells| :: cells[i].kind == kind && cells[i].value != null)
    && (forall i | 0 <= i < |cells| :: cells[i].next == Successor(cells, i))
  }

  lemma {:induction false} ChainTail(cells: seq<Node>, kind: Kind)
    requires cells != [] && Chain(cells, kind)
    ensures Chain(cells[1..], kind)
    ensures cells[0].next == if |cells| == 1 then null else cells[1..][0]
  {
    var t := cells[1..];
    forall i | 0 <= i < |t| ensures t[i].next == Successor(t, i) {
      assert t[i] == cells[i + 1] && Successor(t, i) == Successor(cells, i + 1);
    }
    assert cells[0].next == Successor(cells, 0);
  }

  lemma {:induction false} ChainDenotesElems(text: string, cells: seq<Node>, vs: seq<Value>, S: set<Node>)
    requires |cells| == |vs| && Chain(cells, ArrKind)
    requires forall i | 0 <= i < |cells| :: cells[i] in S && Denotes(text, cells[i].value, vs[i], S)
    ensures DenotesElems(text, if cells == [] then null else cells[0], vs, S)
  {
    if cells != [] {
      ChainTail(cells, ArrKind);
      ChainDenotesElems(text, cells[1..], vs[1..], S);
    }
  }

  lemma {:induction false} ChainDenotesMembers(text: string, cells: seq<Node>, ps: seq<Pair>, S: set<Node>)
    requires |cells| == |ps| && Chain(cells, ObjKind)
    requires forall i | 0 <= i < |cells| :: cells[i] in S && DenotesPair(text, cells[i].value, ps[i], S)
    ensures DenotesMembers(text, if cells == [] then null else cells[0], ps, S)
  {
    if cells != [] {
      ChainTail(cells, ObjKind);
      ChainDenotesMembers(text, cells[1..], ps[1..], S);
    }
  }

  /** A list under construction: the cells built so far, none of them among the nodes S of its
      elements, which denote vs. */
  ghost predicate ElemsBuilt(text: string, cells: seq<Node>, vs: seq<Value>, S: set<Node>)
    reads S, cells
  {
    |cells| == |vs| && Chain(cells, ArrKind)
    && (forall i, j | 0 <= i < j < |cells| :: cells[i] != cells[j])
    && forall i | 0 <= i < |cells| :: cells[i] !in S && Denotes(text, cells[i].value, vs[i], S)
  }

  lemma {:induction false} ElemsBuiltNone(text: string)
    ensures ElemsBuilt(text, [], [], {})
  {}

  lemma {:induction false} ElemsBuiltMore(text: string, cells: seq<Node>, vs: seq<Value>, S: set<Node>, T: set<Node>)
    requires ElemsBuilt(text, cells, vs, S) && forall c | c in cells :: c !in T
    ensures ElemsBuilt(text, cells, vs, S + T)
  {
    forall i | 0 <= i < |cells| ensures Denotes(text, cells[i].value, vs[i], S + T) {
      DenotesMore(text, cells[i].value, vs[i], S, S + T);
    }
  }

  /** The finished list, over the nodes of its cells and of its elements. */
  lemma {:induction false} ElemsBuiltDenote(text: string, cells: seq<Node>, vs: seq<Value>, S: set<Node>)
    returns (S': set<Node>)
    requires ElemsBuilt(text, cells, vs, S)
    ensures forall n | n in S' :: n in S || n in cells
    ensures DenotesElems(text, if cells == [] then null else cells[0], vs, S')
  {
    S' := S + set c | c in cells;
    forall i | 0 <= i < |cells| ensures Denotes(text, cells[i].value, vs[i], S') {
      DenotesMore(text, cells[i].value, vs[i], S, S');
    }
    ChainDenotesElems(text, cells, vs, S');
  }

  /** A list under construction: the cells built so far, none of them among the nodes S of its
      members, which denote vs. */
  ghost predicate MembersBuilt(text: string, cells: seq<Node>, vs: seq<Pair>, S: set<Node>)
    reads S, cells
  {
    |cells| == |vs| && Chain(cells, ObjKind)
    && (forall i, j | 0 <= i < j < |cells| :: cells[i] != cells[j])
    && forall i | 0 <= i < |cells| :: cells[i] !in S && DenotesPair(text, cells[i].value, vs[i], S)
  }

  lemma {:induction false} MembersBuiltNone(text: string)
    ensures MembersBuilt(text, [], [], {})
  {}

  lemma {:induction false} MembersBuiltMore(text: string, cells: seq<Node>, vs: seq<Pair>, S: set<Node>, T: set<Node>)
    requires MembersBuilt(text, cells, vs, S) && forall c | c in cells :: c !in T
    ensures MembersBuilt(text, cells, vs, S + T)
  {
    forall i | 0 <= i < |cells| ensures DenotesPair(text, cells[i].value, vs[i], S + T) {
      DenotesPairMore(text, cells[i].value, vs[i], S, S + T);
    }
  }

  /** The finished list, over the nodes of its cells and of its members. */
  lemma {:induction false} MembersBuiltDenote(text: string, cells: seq<Node>, vs: seq<Pair>, S: set<Node>)
    returns (S': set<Node>)
    requires MembersBuilt(text, cells, vs, S)
    ensures forall n | n in S' :: n in S || n in cells
    ensures DenotesMembers(text, if cells == [] then null else cells[0], vs, S')
  {
    S' := S + set c | c in cells;
    forall i | 0 <= i < |cells| ensures DenotesPair(text, cells[i].value, vs[i], S') {
      DenotesPairMore(text, cells[i].value, vs[i], S, S');
    }
    ChainDenotesMembers(text, cells, vs, S');
  }

  /** One more cell at the end, once the last cell links to it. */
  lemma {:induction false} ElemsBuiltSnoc(
    text: string, cells: seq<Node>, c: Node, vs: seq<Value>, v: Value, S: set<Node>)
    requires |cells| == |vs| && c !in cells && c !in S && c.kind == ArrKind && c.next == null
    requires c.value != null && Denotes(text, c.value, v, S)
    requires forall i, j | 0 <= i < j < |cells| :: cells[i] != cells[j]
    requires forall i | 0 <= i < |cells| :: cells[i].kind == ArrKind && cells[i].value != null
    requires forall i | 0 <= i < |cells| :: cells[i] !in S && Denotes(text, cells[i].value, vs[i], S)
    requires forall i | 0 <= i < |cells| :: cells[i].next == Successor(cells + [c], i)
    ensures ElemsBuilt(text, cells + [c], vs + [v], S)
  {
    var cells' := cells + [c];
    forall i | 0 <= i < |cells'| ensures cells'[i].next == Successor(cells', i) {
      if i < |cells| {
        assert cells'[i] == cells[i];
      }
    }
  }

  /** One more cell at the end, once the last cell links to it. */
  lemma {:induction false} MembersBuiltSnoc(
    text: string, cells: seq<Node>, c: Node, vs: seq<Pair>, v: Pair, S: set<Node>)
    requires |cells| == |vs| && c !in cells && c !in S && c.kind == ObjKind && c.next == null
    requires c.value != null && DenotesPair(text, c.value, v, S)
    requires forall i, j | 0 <= i < j < |cells| :: cells[i] != cells[j]
    requires forall i | 0 <= i < |cells| :: cells[i].kind == ObjKind && cells[i].value != null
    requires forall i | 0 <= i < |cells| :: cells[i] !in S && DenotesPair(text, cells[i].value, vs[i], S)
    requires forall i | 0 <= i < |cells| :: cells[i].next == Successor(cells + [c], i)
    ensures MembersBuilt(text, cells + [c], vs + [v], S)
  {
    var cells' := cells + [c];
    forall i | 0 <= i < |cells'| ensures cells'[i].next == Successor(cells', i) {
      if i < |cells| {
        assert cells'[i] == cells[i];
      }
    }
  }
}
