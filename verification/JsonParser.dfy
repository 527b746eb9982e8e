/** What the recursive-descent parser of freeflow/json.cpp computes, as functions on the text still
    to be read. A cursor is the suffix it points at; the end of the text is the empty suffix. */
module JsonParser {
  import opened JsonText

  /** The exceptions the parser throws. PastEnd is no exception of the source: it marks the inputs on
      which the source steps beyond the end of the text, where its behaviour is undefined. */
  datatype Error =
    | UnterminatedString | IllFormedKey | IllFormedPair | IllFormedArray | IllFormedObject | PastEnd

  /** The outcome of a parse function: the cursor it leaves and the nodes it allocated are
      observable whether or not it succeeds. */
  datatype Parsed<+T> =
    | Done(value: T, rest: string, made: nat)
    | Failed(error: Error, rest: string, made: nat)

  /** Success consumes something, nothing is read twice, and each node is paid for by a character;
      `paid` characters were consumed on the caller's account. */
  predicate Progress<T>(s: string, paid: nat, r: Parsed<T>) {
    r.made + |r.rest| <= |s| + paid && |r.rest| <= |s| && (r.Done? ==> |r.rest| < |s|)
  }

  /** A space guard skips space when it is destroyed, also when an exception unwinds. */
  function Guard<T>(r: Parsed<T>): Parsed<T> {
    match r
    case Done(v, rest, m) => Done(v, EatSpace(rest), m)
    case Failed(e, rest, m) => Failed(e, EatSpace(rest), m)
  }

  predicate Looking(s: string, c: char) { s != [] && s[0] == c }

  // ---------- Terminals ----------

  function ParseIdent(s: string): (r: Parsed<Value>)
    requires s != []
    ensures Progress(s, 0, r)
  {
    var n := 1 + Span(IdentTail, s[1..]);
    Done(Ident(s[..n]), s[n..], 1)
  }

  function ParseNumber(s: string): (r: Parsed<Value>)
    requires s != []
    ensures Progress(s, 0, r)
  {
    var n := 1 + Span(NumTail, s[1..]);
    Done(Num(s[..n]), s[n..], 1)
  }

  /** Where the scan for a closing quote ends. */
  datatype QuoteScan = Closed(at: nat) | Open | Past

  function ScanString(t: string): (r: QuoteScan)
    ensures r.Closed? ==> r.at < |t|
  {
    if t == [] then Open
    else if t[0] == '"' then Closed(0)
    else if t[0] == '\\' then
      if |t| == 1 then Past
      else var r := ScanString(t[2..]); if r.Closed? then Closed(r.at + 2) else r
    else var r := ScanString(t[1..]); if r.Closed? then Closed(r.at + 1) else r
  }

  function ParseString(s: string): (r: Parsed<string>)
    requires s != []
    ensures Progress(s, 0, r)
  {
    match ScanString(s[1..])
    case Closed(n) => Done(s[1..n + 1], s[n + 2..], 1)
    case Open => Failed(UnterminatedString, [], 0)
    case Past => Failed(PastEnd, [], 0)
  }

  function ParseKey(s: string): (r: Parsed<string>)
    ensures Progress(s, 0, r)
  {
    var t := EatSpace(s);
    Guard(if Looking(t, '"') then ParseString(t) else Failed(IllFormedKey, t, 0))
  }

  function AsStr(r: Parsed<string>): Parsed<Value> {
    match r
    case Done(s, rest, m) => Done(Str(s), rest, m)
    case Failed(e, rest, m) => Failed(e, rest, m)
  }

  // ---------- Values ----------

  function ParseValue(s: string): (r: Parsed<Value>)
    ensures Progress(s, 0, r)
    decreases |s|, 1
  {
    var t := EatSpace(s);
    Guard(if t == [] then Failed(PastEnd, [], 0) else ParseBody(t))
  }

  /** The switch on the first character. */
  function ParseBody(t: string): (r: Parsed<Value>)
    requires t != []
    ensures Progress(t, 0, r)
    decreases |t|, 0
  {
    if StartsNumber(t[0]) then ParseNumber(t)
    else if t[0] == '"' then AsStr(ParseString(t))
    else if t[0] == '[' then ParseArray(t)
    else if t[0] == '{' then ParseObject(t)
    else ParseIdent(t)
  }

  function ParseArray(s: string): (r: Parsed<Value>)
    requires s != []
    ensures Progress(s, 0, r)
    decreases |s|, 0, 0
  {
    var t := EatSpace(s[1..]);
    if Looking(t, ']') then Done(Arr([]), t[1..], 0)
    else match ParseElems(t)
      case Done(vs, rest, m) =>
        if Looking(rest, ']') then Done(Arr(vs), rest[1..], m) else Failed(IllFormedArray, rest, m)
      case Failed(e, rest, m) => Failed(e, rest, m)
  }

  /** One or more values separated by commas; each costs a list cell. */
  function ParseElems(s: string): (r: Parsed<seq<Value>>)
    ensures Progress(s, 1, r)
    decreases |s|, 2
  {
    match ParseValue(s)
    case Failed(e, rest, m) => Failed(e, rest, m)
    case Done(v, rest, m) =>
      if Looking(rest, ',') then Prepend([v], m + 1, ParseElems(rest[1..]))
      else Done([v], rest, m + 1)
  }

  function ParseObject(s: string): (r: Parsed<Value>)
    requires s != []
    ensures Progress(s, 0, r)
    decreases |s|, 0, 0
  {
    var t := EatSpace(s[1..]);
    if Looking(t, '}') then Done(Obj([]), t[1..], 0)
    else match ParseMembers(t)
      case Done(ps, rest, m) =>
        if Looking(rest, '}') then Done(Obj(ps), rest[1..], m) else Failed(IllFormedObject, rest, m)
      case Failed(e, rest, m) => Failed(e, rest, m)
  }

  function ParsePair(s: string): (r: Parsed<Pair>)
    ensures Progress(s, 0, r)
    decreases |s|, 2
  {
    match ParseKey(s)
    case Failed(e, rest, m) => Failed(e, rest, m)
    case Done(k, rest, m) =>
      if !Looking(rest, ':') then Failed(IllFormedPair, rest, m)
      else match ParseValue(rest[1..])
        case Failed(e, rest', m') => Failed(e, rest', m + m')
        case Done(v, rest', m') => Done(Pair(k, v), rest', m + m' + 1)
  }

  function ParseMembers(s: string): (r: Parsed<seq<Pair>>)
    ensures Progress(s, 1, r)
    decreases |s|, 3
  {
    match ParsePair(s)
    case Failed(e, rest, m) => Failed(e, rest, m)
    case Done(p, rest, m) =>
      if Looking(rest, ',') then Prepend([p], m + 1, ParseMembers(rest[1..]))
      else Done([p], rest, m + 1)
  }

  /** The outcome of a list once the items xs, made of m nodes, were read before it. */
  function Prepend<T>(xs: seq<T>, m: nat, r: Parsed<seq<T>>): Parsed<seq<T>> {
    match r
    case Done(ys, rest, m') => Done(xs + ys, rest, m + m')
    case Failed(e, rest, m') => Failed(e, rest, m + m')
  }

  lemma {:induction false} PrependNothing<T>(r: Parsed<seq<T>>)
    ensures Prepend([], 0, r) == r
  {
    if r.Done? {
      assert [] + r.value == r.value;
    }
  }

  lemma {:induction false} PrependTwice<T>(xs: seq<T>, m: nat, ys: seq<T>, k: nat, r: Parsed<seq<T>>)
    ensures Prepend(xs, m, Prepend(ys, k, r)) == Prepend(xs + ys, m + k, r)
  {
    if r.Done? {
      assert xs + (ys + r.value) == (xs + ys) + r.value;
    }
  }

  /** One turn of the array loop, when s is still to be read and vs, made of `made` nodes, is done. */
  lemma {:induction false} ElemsTurn(s: string, p: Parsed<Value>, vs: seq<Value>, made: nat)
    requires p == ParseValue(s)
    ensures p.Failed? ==> Prepend(vs, made, ParseElems(s)) == Failed(p.error, p.rest, made + p.made)
    ensures p.Failed? ==> ParseElems(s).made == p.made
    ensures p.Done? && Looking(p.rest, ',') ==>
      Prepend(vs, made, ParseElems(s)) == Prepend(vs + [p.value], made + p.made + 1, ParseElems(p.rest[1..]))
    ensures p.Done? && Looking(p.rest, ',') ==>
      ParseElems(s).made == p.made + 1 + ParseElems(p.rest[1..]).made
    ensures p.Done? && !Looking(p.rest, ',') ==>
      Prepend(vs, made, ParseElems(s)) == Done(vs + [p.value], p.rest, made + p.made + 1)
    ensures p.Done? && !Looking(p.rest, ',') ==> ParseElems(s).made == p.made + 1
  {
    if p.Done? && Looking(p.rest, ',') {
      PrependTwice(vs, made, [p.value], p.made + 1, ParseElems(p.rest[1..]));
    }
  }

  /** One turn of the object loop, when s is still to be read and vs, made of `made` nodes, is done. */
  lemma {:induction false} MembersTurn(s: string, p: Parsed<Pair>, vs: seq<Pair>, made: nat)
    requires p == ParsePair(s)
    ensures p.Failed? ==> Prepend(vs, made, ParseMembers(s)) == Failed(p.error, p.rest, made + p.made)
    ensures p.Failed? ==> ParseMembers(s).made == p.made
    ensures p.Done? && Looking(p.rest, ',') ==>
      Prepend(vs, made, ParseMembers(s)) == Prepend(vs + [p.value], made + p.made + 1, ParseMembers(p.rest[1..]))
    ensures p.Done? && Looking(p.rest, ',') ==>
      ParseMembers(s).made == p.made + 1 + ParseMembers(p.rest[1..]).made
    ensures p.Done? && !Looking(p.rest, ',') ==>
      Prepend(vs, made, ParseMembers(s)) == Done(vs + [p.value], p.rest, made + p.made + 1)
    ensures p.Done? && !Looking(p.rest, ',') ==> ParseMembers(s).made == p.made + 1
  {
    if p.Done? && Looking(p.rest, ',') {
      PrependTwice(vs, made, [p.value], p.made + 1, ParseMembers(p.rest[1..]));
    }
  }
}
