/** The parser itself (class Document of freeflow/json.hpp, parse functions of freeflow/json.cpp):
    a cursor advanced through the text, nodes allocated from a buffer, lists linked in place. Each
    method is proved to leave the cursor, the outcome and the allocator as its function in
    JsonParser says, and to return a node that denotes the parsed value. */
module JsonDocument {
  import opened JsonText
  import opened JsonMemory
  import P = JsonParser

  datatype Result = Ok(node: Node) | Err(error: P.Error)

  // ---------- The cursor ----------

  lemma {:induction false} Advance(text: string, i: nat)
    requires i < |text|
    ensures text[i..] != [] && text[i..][0] == text[i] && text[i..][1..] == text[i + 1..]
  {}

  method SkipSpace(text: string, first: nat) returns (next: nat)
    requires first <= |text|
    ensures first <= next <= |text| && text[next..] == EatSpace(text[first..])
  {
    next := first;
    while next != |text| && IsSpace(text[next])
      invariant first <= next <= |text|
      invariant EatSpace(text[next..]) == EatSpace(text[first..])
    {
      Advance(text, next);
      next := next + 1;
    }
  }

  method Matches(text: string, first: nat, c: char) returns (ok: bool, next: nat)
    requires first <= |text|
    ensures ok == P.Looking(text[first..], c)
    ensures ok ==> next <= |text| && text[next..] == text[first..][1..]
    ensures next == if ok then first + 1 else first
  {
    ok, next := first != |text| && text[first] == c, first;
    if ok {
      Advance(text, first);
      next := first + 1;
    }
  }

  /** The scanning loop of identifiers and numbers, after their first character. */
  method ScanClass(text: string, first: nat, k: Class) returns (next: nat)
    requires first <= |text|
    ensures next == first + Span(k, text[first..]) && next <= |text|
  {
    next := first;
    while next != |text| && In(k, text[next])
      invariant first <= next <= |text|
      invariant next + Span(k, text[next..]) == first + Span(k, text[first..])
    {
      Advance(text, next);
      next := next + 1;
    }
  }

  /** Moves a scan result from the text at b back to the text at a <= b. */
  function Shift(r: P.QuoteScan, skipped: nat): P.QuoteScan {
    if r.Closed? then P.Closed(r.at + skipped) else r
  }

  /** One turn of the scan, at a character that is not a quote. */
  lemma {:induction false} ScanTurn(text: string, i: nat)
    requires i < |text| && text[i] != '"'
    ensures text[i] == '\\' && i + 1 == |text| ==> P.ScanString(text[i..]) == P.Past
    ensures text[i] == '\\' && i + 1 < |text| ==>
      P.ScanString(text[i..]) == Shift(P.ScanString(text[i + 2..]), 2)
    ensures text[i] != '\\' ==> P.ScanString(text[i..]) == Shift(P.ScanString(text[i + 1..]), 1)
  {
    Advance(text, i);
    if i + 1 < |text| {
      assert text[i..][2..] == text[i + 2..];
    }
  }

  /** Where the scan ends at once. */
  lemma {:induction false} ScanEnd(text: string, i: nat)
    requires i <= |text| && (i == |text| || text[i] == '"')
    ensures P.ScanString(text[i..]) == if i == |text| then P.Open else P.Closed(0)
  {
    if i < |text| { Advance(text, i); }
  }

  /** The scanning loop of strings: a backslash steps over the next character unseen. */
  method ScanQuote(text: string, first: nat) returns (next: nat, overrun: bool)
    requires first <= |text|
    ensures overrun <==> P.ScanString(text[first..]).Past?
    ensures !overrun ==> first <= next <= |text|
    ensures !overrun ==>
      P.ScanString(text[first..]) == (if next == |text| then P.Open else P.Closed(next - first))
  {
    hide P.ScanString;
    next := first;
    while next != |text| && text[next] != '"'
      invariant first <= next <= |text|
      invariant Shift(P.ScanString(text[next..]), next - first) == P.ScanString(text[first..])
    {
      ScanTurn(text, next);
      if text[next] == '\\' {
        if next + 1 == |text| {
          return next, true;
        }
        next := next + 1;
      }
      next := next + 1;
    }
    ScanEnd(text, next);
    overrun := false;
  }

  // ---------- The document ----------

  predicate Disjoint(m: Node, n: Node) { m.addr + REP <= n.addr || n.addr + REP <= m.addr }

  class Document {
    const alloc: BufferAllocator
    const base: nat            // where in the buffer this document's nodes start
    const emptyArray: Node     // the shared empty values
    const emptyObject: Node
    ghost var nodes: seq<Node> // every node allocated so far

    /** The allocated nodes lie side by side in the buffer. */
    ghost predicate Valid()
      reads this, alloc
    {
      emptyArray.kind == ArrKind && emptyArray.value == null
      && emptyObject.kind == ObjKind && emptyObject.value == null
      && alloc.offset == base + REP * |nodes| && alloc.offset <= alloc.size
      && forall i | 0 <= i < |nodes| :: nodes[i].addr == base + REP * i
    }

    constructor (alloc: BufferAllocator)
      requires alloc.offset <= alloc.size
      ensures Valid() && this.alloc == alloc && nodes == []
      ensures emptyArray.next == null && emptyObject.next == null
      ensures fresh(emptyArray) && fresh(emptyObject)
    {
      this.alloc, base := alloc, alloc.offset;
      emptyArray := new Node.Cell(ArrKind, 0, null);
      emptyObject := new Node.Cell(ObjKind, 0, null);
      nodes := [];
    }

    /** Distinct nodes occupy disjoint ranges, all inside the buffer. */
    lemma {:induction false} PlacedApart(i: nat, j: nat)
      requires Valid() && i < j < |nodes|
      ensures nodes[i].addr + REP <= nodes[j].addr && nodes[j].addr + REP <= alloc.size
    {
      assert REP * (i + 1) <= REP * j && REP * (j + 1) <= REP * |nodes|;
    }

    lemma {:induction false} Placed(i: nat, k: nat)
      requires Valid() && k <= i < |nodes|
      ensures base + REP * k <= nodes[i].addr && nodes[i].addr + REP <= alloc.offset
    {
      assert REP * k <= REP * i && REP * (i + 1) <= REP * |nodes|;
    }

    /** The statics that all documents share lie outside every buffer. */
    predicate Shared(n: Node) { n == emptyArray || n == emptyObject }

    /** The node's range was handed out from offset `from` on, and the buffer contains it. */
    ghost predicate Inside(n: Node, from: nat)
      reads alloc
    {
      from <= n.addr && n.addr + REP <= alloc.offset <= alloc.size
    }

    /** The shared empty values stay unlinked. */
    ghost predicate Unlinked()
      reads emptyArray, emptyObject
    {
      emptyArray.next == null && emptyObject.next == null
    }

    /** What a caller sees of a parse function: cursor, outcome and tree. */
    ghost predicate Reports(text: string, next: nat, r: Result, p: P.Parsed<Value>, S: set<Node>)
      reads S
    {
      next <= |text| && text[next..] == p.rest
      && match p
         case Done(v, _, _) => r.Ok? && Denotes(text, r.node, v, S)
         case Failed(e, _, _) => r == Err(e)
    }

    ghost predicate ReportsString(text: string, next: nat, r: Result, p: P.Parsed<string>) {
      next <= |text| && text[next..] == p.rest
      && match p
         case Done(s, _, _) => r.Ok? && IsView(text, r.node, StrKind, s)
         case Failed(e, _, _) => r == Err(e)
    }

    ghost predicate ReportsPair(text: string, next: nat, r: Result, p: P.Parsed<Pair>, S: set<Node>)
      reads S
    {
      next <= |text| && text[next..] == p.rest
      && match p
         case Done(v, _, _) => r.Ok? && DenotesPair(text, r.node, v, S)
         case Failed(e, _, _) => r == Err(e)
    }

    ghost predicate ReportsElems(text: string, next: nat, r: Result, p: P.Parsed<seq<Value>>, S: set<Node>)
      reads S
    {
      next <= |text| && text[next..] == p.rest
      && match p
         case Done(vs, _, _) => r.Ok? && vs != [] && DenotesElems(text, r.node, vs, S)
         case Failed(e, _, _) => r == Err(e)
    }

    ghost predicate ReportsMembers(text: string, next: nat, r: Result, p: P.Parsed<seq<Pair>>, S: set<Node>)
      reads S
    {
      next <= |text| && text[next..] == p.rest
      && match p
         case Done(ps, _, _) => r.Ok? && ps != [] && DenotesMembers(text, r.node, ps, S)
         case Failed(e, _, _) => r == Err(e)
    }

    /** There is room for n more nodes: then no allocation trips the allocator's assertion. */
    ghost predicate Room(n: nat)
      reads alloc
    {
      alloc.offset + REP * n <= alloc.size
    }

    /** From the earlier allocation log to the present one, n nodes were added. */
    ghost predicate Grew(before: seq<Node>, n: nat)
      reads this
    {
      before <= nodes && |nodes| == |before| + n
    }

    // ---------- Allocation ----------

    method MakeTerminal(kind: Kind, first: nat, last: nat) returns (n: Node)
      requires Valid() && Room(1)
      modifies this, alloc
      ensures Valid() && fresh(n) && nodes == old(nodes) + [n]
      ensures n.kind == kind && n.first == first && n.last == last
    {
      var p := alloc.Allocate(REP);
      n := new Node.Terminal(kind, p, first, last);
      nodes := nodes + [n];
    }

    method MakePair(key: Node, value: Node) returns (n: Node)
      requires Valid() && Room(1)
      modifies this, alloc
      ensures Valid() && fresh(n) && nodes == old(nodes) + [n]
      ensures n.kind == PairKind && n.key == key && n.value == value
    {
      var p := alloc.Allocate(REP);
      n := new Node.Pair(p, key, value);
      nodes := nodes + [n];
    }

    /** make_array and make_object: a new cell, linked behind the previous one. */
    method MakeCell(kind: Kind, value: Node, prev: Node?) returns (n: Node)
      requires Valid() && Room(1)
      modifies this, alloc, if prev == null then {} else {prev}
      ensures Valid() && fresh(n) && nodes == old(nodes) + [n]
      ensures n.kind == kind && n.value == value && n.next == null
      ensures prev != null ==> prev.next == n
    {
      var p := alloc.Allocate(REP);
      n := new Node.Cell(kind, p, value);
      if prev != null {
        prev.next := n;
      }
      nodes := nodes + [n];
    }

    // ---------- Terminals ----------

    method ParseIdent(text: string, first: nat) returns (r: Result, next: nat, ghost S: set<Node>)
      requires Valid() && Room(1) && first < |text|
      modifies this, alloc
      ensures Valid() && Grew(old(nodes), 1) && forall n | n in S :: fresh(n) && n in nodes
      ensures Reports(text, next, r, P.ParseIdent(text[first..]), S)
    {
      Advance(text, first);
      next := ScanClass(text, first + 1, IdentTail);
      var n := MakeTerminal(IdentKind, first, next);
      assert text[first..][..next - first] == text[first..next];
      r, S := Ok(n), {n};
    }

    method ParseNumber(text: string, first: nat) returns (r: Result, next: nat, ghost S: set<Node>)
      requires Valid() && Room(1) && first < |text|
      modifies this, alloc
      ensures Valid() && Grew(old(nodes), 1) && forall n | n in S :: fresh(n) && n in nodes
      ensures Reports(text, next, r, P.ParseNumber(text[first..]), S)
    {
      Advance(text, first);
      next := ScanClass(text, first + 1, NumTail);
      var n := MakeTerminal(NumKind, first, next);
      assert text[first..][..next - first] == text[first..next];
      r, S := Ok(n), {n};
    }

    method ParseString(text: string, first: nat) returns (r: Result, next: nat)
      requires Valid() && first < |text| && Room(P.ParseString(text[first..]).made)
      modifies this, alloc
      ensures Valid() && Grew(old(nodes), P.ParseString(text[first..]).made)
      ensures ReportsString(text, next, r, P.ParseString(text[first..]))
      ensures r.Ok? ==> fresh(r.node) && r.node in nodes
    {
      Advance(text, first);
      var init := first + 1;
      var end, overrun := ScanQuote(text, init);
      if overrun {
        return Err(P.PastEnd), |text|;
      }
      if end == |text| {
        return Err(P.UnterminatedString), |text|;
      }
      next := end + 1;
      var n := MakeTerminal(StrKind, init, end);
      assert text[first..][1..end - init + 1] == text[init..end];
      assert text[first..][end - init + 2..] == text[next..];
      r := Ok(n);
    }

    method ParseKey(text: string, first: nat) returns (r: Result, next: nat)
      requires Valid() && first <= |text| && Room(P.ParseKey(text[first..]).made)
      modifies this, alloc
      ensures Valid() && Grew(old(nodes), P.ParseKey(text[first..]).made)
      ensures ReportsString(text, next, r, P.ParseKey(text[first..]))
      ensures r.Ok? ==> fresh(r.node) && r.node in nodes
    {
      var at := SkipSpace(text, first);
      if at == |text| || text[at] != '"' {
        r, next := Err(P.IllFormedKey), at;
      } else {
        r, next := ParseString(text, at);
      }
      next := SkipSpace(text, next);
    }

    // ---------- Values ----------

    method ParseValue(text: string, first: nat) returns (r: Result, next: nat, ghost S: set<Node>)
      requires Valid() && Unlinked() && first <= |text| && Room(P.ParseValue(text[first..]).made)
      modifies this, alloc
      ensures Valid() && Unlinked()
      ensures forall n | n in S :: n == emptyArray || n == emptyObject || (fresh(n) && n in nodes)
      ensures Grew(old(nodes), P.ParseValue(text[first..]).made)
      ensures Reports(text, next, r, P.ParseValue(text[first..]), S)
      decreases |text| - first, 1
    {
      next := SkipSpace(text, first);
      if next == |text| {
        return Err(P.PastEnd), next, {};
      }
      r, next, S := ParseBody(text, next);
      next := SkipSpace(text, next);
    }

    /** The switch of parse_value. */
    method ParseBody(text: string, first: nat) returns (r: Result, next: nat, ghost S: set<Node>)
      requires Valid() && Unlinked() && first < |text| && Room(P.ParseBody(text[first..]).made)
      modifies this, alloc
      ensures Valid() && Unlinked()
      ensures forall n | n in S :: n == emptyArray || n == emptyObject || (fresh(n) && n in nodes)
      ensures Grew(old(nodes), P.ParseBody(text[first..]).made)
      ensures Reports(text, next, r, P.ParseBody(text[first..]), S)
      decreases |text| - first, 0, 1
    {
      Advance(text, first);
      if StartsNumber(text[first]) {
        assert P.ParseBody(text[first..]) == P.ParseNumber(text[first..]);
        r, next, S := ParseNumber(text, first);
      } else if text[first] == '"' {
        r, next := ParseString(text, first);
        S := if r.Ok? then {r.node} else {};
      } else if text[first] == '[' {
        r, next, S := ParseArray(text, first);
      } else if text[first] == '{' {
        r, next, S := ParseObject(text, first);
      } else {
        assert P.ParseBody(text[first..]) == P.ParseIdent(text[first..]);
        r, next, S := ParseIdent(text, first);
      }
    }

    /** Puts an item in a new cell behind the last. */
    method AppendElem(text: string, value: Node, ghost v: Value, last: Node?,
                     ghost cells: seq<Node>, ghost vs: seq<Value>, ghost S: set<Node>)
      returns (cell: Node)
      requires Valid() && Room(1) && ElemsBuilt(text, cells, vs, S) && Denotes(text, value, v, S)
      requires last == (if cells == [] then null else cells[|cells| - 1])
      modifies this, alloc, if last == null then {} else {last}
      ensures Valid() && fresh(cell) && nodes == old(nodes) + [cell]
      ensures ElemsBuilt(text, cells + [cell], vs + [v], S)
    {
      cell := MakeCell(ArrKind, value, last);
      ElemsBuiltSnoc(text, cells, cell, vs, v, S);
    }

    /** The body of parse_array's loop: one item, put in a new cell behind the last. */
    method ParseElem(text: string, first: nat, last: Node?,
                     ghost cells: seq<Node>, ghost vs: seq<Value>, ghost S: set<Node>)
      returns (r: Result, next: nat, ghost S': set<Node>)
      requires Valid() && Unlinked() && first <= |text|
      requires Room(P.ParseValue(text[first..]).made + if P.ParseValue(text[first..]).Done? then 1 else 0)
      requires ElemsBuilt(text, cells, vs, S) && emptyArray !in cells && emptyObject !in cells
      requires last == (if cells == [] then null else cells[|cells| - 1])
      modifies this, alloc, if last == null then {} else {last}
      ensures Valid() && Unlinked() && next <= |text| && text[next..] == P.ParseValue(text[first..]).rest
      ensures r.Ok? <==> P.ParseValue(text[first..]).Done?
      ensures r.Err? ==> r.error == P.ParseValue(text[first..]).error
      ensures Grew(old(nodes), P.ParseValue(text[first..]).made + if r.Ok? then 1 else 0)
      ensures forall n | n in S' :: n in S || n == emptyArray || n == emptyObject || (fresh(n) && n in nodes)
      ensures r.Ok? ==> fresh(r.node) && r.node in nodes
      ensures r.Ok? ==>
        ElemsBuilt(text, cells + [r.node], vs + [P.ParseValue(text[first..]).value], S')
      decreases |text| - first, 2, 0
    {
      hide P.ParseValue, Denotes, ElemsBuilt;
      S' := S;
      ghost var T, p := {}, P.ParseValue(text[first..]);
      r, next, T := ParseValue(text, first);
      if r.Err? {
        return;
      }
      S' := S + T;
      ElemsBuiltMore(text, cells, vs, S, T);
      DenotesMore(text, r.node, p.value, T, S');
      var cell := AppendElem(text, r.node, p.value, last, cells, vs, S');
      r := Ok(cell);
    }

    /** The loop of parse_array: one or more items separated by commas. Returns the first cell. */
    method ParseElems(text: string, first: nat) returns (r: Result, next: nat, ghost S: set<Node>)
      requires Valid() && Unlinked() && first <= |text| && Room(P.ParseElems(text[first..]).made)
      modifies this, alloc
      ensures Valid() && Unlinked()
      ensures forall n | n in S :: n == emptyArray || n == emptyObject || (fresh(n) && n in nodes)
      ensures Grew(old(nodes), P.ParseElems(text[first..]).made)
      ensures ReportsElems(text, next, r, P.ParseElems(text[first..]), S)
      decreases |text| - first, 2, 1
    {
      hide P.ParseElems, P.ParseValue, P.Prepend, ElemsBuilt, DenotesElems;
      ElemsBuiltNone(text);
      ghost var all := P.ParseElems(text[first..]);
      ghost var cells: seq<Node>, vs: seq<Value>, made: nat := [], [], 0;
      P.PrependNothing(all);
      r, next, S := Err(P.PastEnd), first, {};
      var last: Node?, head: Node? := null, null;
      var more := true;
      while more
        invariant Valid() && Unlinked() && first <= next <= |text|
        invariant forall n | n in S :: n == emptyArray || n == emptyObject || (fresh(n) && n in nodes)
        invariant forall n | n in cells :: fresh(n) && n in nodes
        invariant Grew(old(nodes), made)
        invariant more ==> all == P.Prepend(vs, made, P.ParseElems(text[next..]))
        invariant more ==> Room(P.ParseElems(text[next..]).made)
        invariant !more ==> all == P.Done(vs, text[next..], made) && cells != []
        invariant ElemsBuilt(text, cells, vs, S)
        invariant last == (if cells == [] then null else cells[|cells| - 1])
        invariant last != null ==> fresh(last)
        invariant head == (if cells == [] then null else cells[0])
        decreases |text| - next, more
      {
        ghost var p := P.ParseValue(text[next..]);
        P.ElemsTurn(text[next..], p, vs, made);
        r, next, S := ParseElem(text, next, last, cells, vs, S);
        if r.Err? {
          S := {};
          return;
        }
        last := r.node;
        if head == null {
          head := last;
        }
        cells, vs, made := cells + [r.node], vs + [p.value], made + p.made + 1;
        more, next := Matches(text, next, ',');
      }
      r := Ok(head);
      S := ElemsBuiltDenote(text, cells, vs, S);
    }

    method ParseArray(text: string, first: nat) returns (r: Result, next: nat, ghost S: set<Node>)
      requires Valid() && Unlinked() && first < |text| && Room(P.ParseArray(text[first..]).made)
      modifies this, alloc
      ensures Valid() && Unlinked()
      ensures forall n | n in S :: n == emptyArray || n == emptyObject || (fresh(n) && n in nodes)
      ensures Grew(old(nodes), P.ParseArray(text[first..]).made)
      ensures Reports(text, next, r, P.ParseArray(text[first..]), S)
      decreases |text| - first, 0, 0
    {
      hide Denotes, DenotesElems, P.ParseElems;
      Advance(text, first);
      next := SkipSpace(text, first + 1);
      var ok;
      ok, next := Matches(text, next, ']');
      if ok {
        EmptyDenotes(text, emptyArray);
        return Ok(emptyArray), next, {emptyArray};
      }
      r, next, S := ParseElems(text, next);
      if r.Err? {
        return;
      }
      ArrayDenotes(text, r.node, P.ParseElems(EatSpace(text[first..][1..])).value, S);
      ok, next := Matches(text, next, ']');
      if !ok {
        r := Err(P.IllFormedArray);
      }
    }

    method ParsePair(text: string, first: nat) returns (r: Result, next: nat, ghost S: set<Node>)
      requires Valid() && Unlinked() && first <= |text| && Room(P.ParsePair(text[first..]).made)
      modifies this, alloc
      ensures Valid() && Unlinked()
      ensures forall n | n in S :: n == emptyArray || n == emptyObject || (fresh(n) && n in nodes)
      ensures Grew(old(nodes), P.ParsePair(text[first..]).made)
      ensures ReportsPair(text, next, r, P.ParsePair(text[first..]), S)
      decreases |text| - first, 2
    {
      hide Denotes, DenotesPair, P.ParseKey, P.ParseValue;
      S := {};
      r, next := ParseKey(text, first);
      if r.Err? {
        return;
      }
      var k := r.node;
      var ok;
      ok, next := Matches(text, next, ':');
      if !ok {
        r := Err(P.IllFormedPair);
        return;
      }
      r, next, S := ParseValue(text, next);
      if r.Err? {
        return;
      }
      var n := MakePair(k, r.node);
      PairBuilt(text, n, P.ParsePair(text[first..]).value, S);
      S := S + {k, n};
      r := Ok(n);
    }

    /** Puts an item in a new cell behind the last. */
    method AppendMember(text: string, value: Node, ghost v: Pair, last: Node?,
                     ghost cells: seq<Node>, ghost vs: seq<Pair>, ghost S: set<Node>)
      returns (cell: Node)
      requires Valid() && Room(1) && MembersBuilt(text, cells, vs, S) && DenotesPair(text, value, v, S)
      requires last == (if cells == [] then null else cells[|cells| - 1])
      modifies this, alloc, if last == null then {} else {last}
      ensures Valid() && fresh(cell) && nodes == old(nodes) + [cell]
      ensures MembersBuilt(text, cells + [cell], vs + [v], S)
    {
      cell := MakeCell(ObjKind, value, last);
      MembersBuiltSnoc(text, cells, cell, vs, v, S);
    }

    /** The body of parse_object's loop: one item, put in a new cell behind the last. */
    method ParseMember(text: string, first: nat, last: Node?,
                     ghost cells: seq<Node>, ghost vs: seq<Pair>, ghost S: set<Node>)
      returns (r: Result, next: nat, ghost S': set<Node>)
      requires Valid() && Unlinked() && first <= |text|
      requires Room(P.ParsePair(text[first..]).made + if P.ParsePair(text[first..]).Done? then 1 else 0)
      requires MembersBuilt(text, cells, vs, S) && emptyArray !in cells && emptyObject !in cells
      requires last == (if cells == [] then null else cells[|cells| - 1])
      modifies this, alloc, if last == null then {} else {last}
      ensures Valid() && Unlinked() && next <= |text| && text[next..] == P.ParsePair(text[first..]).rest
      ensures r.Ok? <==> P.ParsePair(text[first..]).Done?
      ensures r.Err? ==> r.error == P.ParsePair(text[first..]).error
      ensures Grew(old(nodes), P.ParsePair(text[first..]).made + if r.Ok? then 1 else 0)
      ensures forall n | n in S' :: n in S || n == emptyArray || n == emptyObject || (fresh(n) && n in nodes)
      ensures r.Ok? ==> fresh(r.node) && r.node in nodes
      ensures r.Ok? ==>
        MembersBuilt(text, cells + [r.node], vs + [P.ParsePair(text[first..]).value], S')
      decreases |text| - first, 3, 0
    {
      hide P.ParsePair, DenotesPair, MembersBuilt;
      S' := S;
      ghost var T, p := {}, P.ParsePair(text[first..]);
      r, next, T := ParsePair(text, first);
      if r.Err? {
        return;
      }
      S' := S + T;
      MembersBuiltMore(text, cells, vs, S, T);
      DenotesPairMore(text, r.node, p.value, T, S');
      var cell := AppendMember(text, r.node, p.value, last, cells, vs, S');
      r := Ok(cell);
    }

    /** The loop of parse_object: one or more items separated by commas. Returns the first cell. */
    method ParseMembers(text: string, first: nat) returns (r: Result, next: nat, ghost S: set<Node>)
      requires Valid() && Unlinked() && first <= |text| && Room(P.ParseMembers(text[first..]).made)
      modifies this, alloc
      ensures Valid() && Unlinked()
      ensures forall n | n in S :: n == emptyArray || n == emptyObject || (fresh(n) && n in nodes)
      ensures Grew(old(nodes), P.ParseMembers(text[first..]).made)
      ensures ReportsMembers(text, next, r, P.ParseMembers(text[first..]), S)
      decreases |text| - first, 3, 1
    {
      hide P.ParseMembers, P.ParsePair, P.Prepend, MembersBuilt, DenotesMembers;
      MembersBuiltNone(text);
      ghost var all := P.ParseMembers(text[first..]);
      ghost var cells: seq<Node>, vs: seq<Pair>, made: nat := [], [], 0;
      P.PrependNothing(all);
      r, next, S := Err(P.PastEnd), first, {};
      var last: Node?, head: Node? := null, null;
      var more := true;
      while more
        invariant Valid() && Unlinked() && first <= next <= |text|
        invariant forall n | n in S :: n == emptyArray || n == emptyObject || (fresh(n) && n in nodes)
        invariant forall n | n in cells :: fresh(n) && n in nodes
        invariant Grew(old(nodes), made)
        invariant more ==> all == P.Prepend(vs, made, P.ParseMembers(text[next..]))
        invariant more ==> Room(P.ParseMembers(text[next..]).made)
        invariant !more ==> all == P.Done(vs, text[next..], made) && cells != []
        invariant MembersBuilt(text, cells, vs, S)
        invariant last == (if cells == [] then null else cells[|cells| - 1])
        invariant last != null ==> fresh(last)
        invariant head == (if cells == [] then null else cells[0])
        decreases |text| - next, more
      {
        ghost var p := P.ParsePair(text[next..]);
        P.MembersTurn(text[next..], p, vs, made);
        r, next, S := ParseMember(text, next, last, cells, vs, S);
        if r.Err? {
          S := {};
          return;
        }
        last := r.node;
        if head == null {
          head := last;
        }
        cells, vs, made := cells + [r.node], vs + [p.value], made + p.made + 1;
        more, next := Matches(text, next, ',');
      }
      r := Ok(head);
      S := MembersBuiltDenote(text, cells, vs, S);
    }

    method ParseObject(text: string, first: nat) returns (r: Result, next: nat, ghost S: set<Node>)
      requires Valid() && Unlinked() && first < |text| && Room(P.ParseObject(text[first..]).made)
      modifies this, alloc
      ensures Valid() && Unlinked()
      ensures forall n | n in S :: n == emptyArray || n == emptyObject || (fresh(n) && n in nodes)
      ensures Grew(old(nodes), P.ParseObject(text[first..]).made)
      ensures Reports(text, next, r, P.ParseObject(text[first..]), S)
      decreases |text| - first, 0, 0
    {
      hide Denotes, DenotesMembers, P.ParseMembers;
      Advance(text, first);
      next := SkipSpace(text, first + 1);
      var ok;
      ok, next := Matches(text, next, '}');
      if ok {
        EmptyDenotes(text, emptyObject);
        return Ok(emptyObject), next, {emptyObject};
      }
      r, next, S := ParseMembers(text, next);
      if r.Err? {
        return;
      }
      ObjectDenotes(text, r.node, P.ParseMembers(EatSpace(text[first..][1..])).value, S);
      ok, next := Matches(text, next, '}');
      if !ok {
        r := Err(P.IllFormedObject);
      }
    }

    /** Document::parse. A buffer with room for one node per character still to be read is enough,
        whether or not the text parses. */
    method Parse(text: string, first: nat) returns (r: Result, next: nat, ghost S: set<Node>)
      requires Valid() && Unlinked() && first <= |text| && Room(|text| - first)
      modifies this, alloc
      ensures Valid() && Unlinked()
      ensures Grew(old(nodes), P.ParseValue(text[first..]).made)
      ensures Reports(text, next, r, P.ParseValue(text[first..]), S)
      ensures |nodes| - |old(nodes)| <= next - first
      ensures forall n | n in S :: Shared(n) || (fresh(n) && Inside(n, old(alloc.offset)))
      ensures forall m, n | m in S && n in S && !Shared(m) && !Shared(n) && m != n :: Disjoint(m, n)
    {
      RoomIsMonotone(P.ParseValue(text[first..]).made, |text| - first);
      r, next, S := ParseValue(text, first);
      forall n | n in S && !Shared(n) ensures Inside(n, old(alloc.offset)) {
        var i :| 0 <= i < |nodes| && nodes[i] == n;
        assert i >= |old(nodes)|;
        Placed(i, |old(nodes)|);
      }
      forall m, n | m in S && n in S && !Shared(m) && !Shared(n) && m != n ensures Disjoint(m, n) {
        var i, j :| 0 <= i < |nodes| && nodes[i] == m && 0 <= j < |nodes| && nodes[j] == n;
        if i < j { PlacedApart(i, j); } else { PlacedApart(j, i); }
      }
    }

    /** A node takes 24 bytes. */
    lemma {:induction false} BytesAreRoom(n: nat)
      ensures Room(n) <==> alloc.offset + 24 * n <= alloc.size
    {}

    lemma {:induction false} RoomIsMonotone(n: nat, m: nat)
      requires n <= m && Room(m)
      ensures Room(n)
    {
      assert REP * n <= REP * m;
    }
  }
}
