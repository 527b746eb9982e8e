/** Characters, tokens, values and the printer of freeflow/json. */
module JsonText {
  // ---------- Character classes (the "C" locale) ----------

  predicate IsSpace(c: char) { c == ' ' || '\t' <= c <= '\r' }

  predicate IsDigit(c: char) { '0' <= c <= '9' }

  predicate IsIdent(c: char) { IsDigit(c) || 'a' <= c <= 'z' || 'A' <= c <= 'Z' || c == '_' }

  predicate IsNum(c: char) { IsDigit(c) || c == '.' || c == 'e' || c == 'E' }

  predicate StartsNumber(c: char) { c == '-' || IsDigit(c) }

  /** Whatever no other case of the value switch claims begins an identifier: even ',' and ']'. */
  predicate StartsIdent(c: char) {
    !IsSpace(c) && !StartsNumber(c) && c != '"' && c != '[' && c != '{'
  }

  /** The three classes the scanning loops run over. */
  datatype Class = Space | IdentTail | NumTail

  predicate In(k: Class, c: char) {
    match k
    case Space => IsSpace(c)
    case IdentTail => IsIdent(c)
    case NumTail => IsNum(c)
  }

  predicate AllIn(k: Class, s: string) { forall i | 0 <= i < |s| :: In(k, s[i]) }

  /** The number of leading characters of s that are in class k. */
  function Span(k: Class, s: string): (n: nat)
    ensures n <= |s|
  {
    if s == [] || !In(k, s[0]) then 0 else 1 + Span(k, s[1..])
  }

  /** What is left of s once its leading space is skipped. */
  function EatSpace(s: string): (r: string)
    ensures |r| <= |s|
  {
    if s != [] && IsSpace(s[0]) then EatSpace(s[1..]) else s
  }

  /** The space that EatSpace removes. */
  function LeadingSpace(s: string): string {
    if s != [] && IsSpace(s[0]) then [s[0]] + LeadingSpace(s[1..]) else ""
  }

  /** The span is the longest prefix of s inside the class. */
  lemma {:induction false} SpanIsLongest(k: Class, s: string)
    ensures AllIn(k, s[..Span(k, s)])
    ensures Span(k, s) < |s| ==> !In(k, s[Span(k, s)])
  {
    if s != [] && In(k, s[0]) {
      SpanIsLongest(k, s[1..]);
      assert s[..Span(k, s)] == [s[0]] + s[1..][..Span(k, s[1..])];
    }
  }

  lemma {:induction false} SpanSkips(k: Class, a: string, b: string)
    requires AllIn(k, a)
    ensures Span(k, a + b) == |a| + Span(k, b)
  {
    if a == [] {
      assert a + b == b;
    } else {
      assert (a + b)[1..] == a[1..] + b;
      SpanSkips(k, a[1..], b);
    }
  }

  lemma {:induction false} EatSpaceSkips(w: string, s: string)
    requires AllIn(Space, w)
    ensures EatSpace(w + s) == EatSpace(s)
  {
    if w == [] {
      assert w + s == s;
    } else {
      assert (w + s)[1..] == w[1..] + s;
      EatSpaceSkips(w[1..], s);
    }
  }

  lemma {:induction false} EatSpaceStops(s: string)
    ensures EatSpace(s) == s <==> (s != [] ==> !IsSpace(s[0]))
  {}

  lemma {:induction false} EatSpaceSplits(s: string)
    ensures AllIn(Space, LeadingSpace(s)) && s == LeadingSpace(s) + EatSpace(s)
    ensures EatSpace(s) != [] ==> !IsSpace(EatSpace(s)[0])
  {
    if s != [] && IsSpace(s[0]) {
      EatSpaceSplits(s[1..]);
    }
  }

  // ---------- Values ----------

  /** A parsed value. Literals stay uninterpreted; a string's text excludes its quotes. */
  datatype Value =
    | Ident(name: string)
    | Num(digits: string)
    | Str(chars: string)
    | Arr(elems: seq<Value>)
    | Obj(pairs: seq<Pair>)

  datatype Pair = Pair(key: string, value: Value)

  predicate IdentToken(s: string) {
    s != [] && StartsIdent(s[0]) && AllIn(IdentTail, s[1..])
  }

  predicate NumToken(s: string) {
    s != [] && StartsNumber(s[0]) && AllIn(NumTail, s[1..])
  }

  /** Every backslash is followed by a character, and no quote stands unescaped. */
  predicate Escaped(s: string) {
    if s == [] then true
    else if s[0] == '\\' then |s| >= 2 && Escaped(s[2..])
    else s[0] != '"' && Escaped(s[1..])
  }

  /** A first element starting with ']' would be read as the end of an empty array. */
  predicate OpensArray(v: Value) {
    v.Ident? && v.name != [] ==> v.name[0] != ']'
  }

  /** The values that the printer writes in a form the parser can read. */
  predicate WellFormed(v: Value) {
    match v
    case Ident(s) => IdentToken(s)
    case Num(s) => NumToken(s)
    case Str(s) => Escaped(s)
    case Arr(vs) => (vs != [] ==> OpensArray(vs[0])) && forall x | x in vs :: WellFormed(x)
    case Obj(ps) => forall p | p in ps :: Escaped(p.key) && WellFormed(p.value)
  }

  // ---------- Printing ----------

  function Print(v: Value): string {
    match v
    case Ident(s) => s
    case Num(s) => s
    case Str(s) => "\"" + s + "\""
    case Arr(vs) => "[" + PrintElems(vs) + "]"
    case Obj(ps) => "{" + PrintPairs(ps) + "}"
  }

  function PrintElems(vs: seq<Value>): string {
    if vs == [] then ""
    else if |vs| == 1 then Print(vs[0])
    else Print(vs[0]) + "," + PrintElems(vs[1..])
  }

  function PrintPair(p: Pair): string {
    "\"" + p.key + "\"" + ":" + Print(p.value)
  }

  function PrintPairs(ps: seq<Pair>): string {
    if ps == [] then ""
    else if |ps| == 1 then PrintPair(ps[0])
    else PrintPair(ps[0]) + "," + PrintPairs(ps[1..])
  }

  lemma {:induction false} PrintNothing()
    ensures PrintElems([]) == "" && PrintPairs([]) == ""
  {}

  // ---------- Representation size ----------

  /** The number of nodes that hold v: one per terminal, one per list cell, one per pair and key.
      The empty array and the empty object are shared statics and cost nothing. */
  function Nodes(v: Value): nat {
    match v
    case Ident(_) => 1
    case Num(_) => 1
    case Str(_) => 1
    case Arr(vs) => ElemNodes(vs)
    case Obj(ps) => PairNodes(ps)
  }

  function ElemNodes(vs: seq<Value>): nat {
    if vs == [] then 0 else Nodes(vs[0]) + 1 + ElemNodes(vs[1..])
  }

  function PairNodes(ps: seq<Pair>): nat {
    if ps == [] then 0 else Nodes(ps[0].value) + 3 + PairNodes(ps[1..])
  }
}
