/** The language the parser accepts, written down without the parser: a layout is a value together
    with the insignificant space around every value, key and structural character (section 2 of
    RFC 8259). The parser succeeds exactly on the layouts, whatever the space in them. */
module JsonLayout {
  import opened JsonText
  import opened JsonParser
  import opened Sequences

  datatype Layout = Layout(before: string, body: Body, after: string)

  datatype Body =
    | IdentBody(name: string)
    | NumBody(digits: string)
    | StrBody(chars: string)
    | EmptyArr(inner: string)
    | ArrBody(elems: seq<Layout>)
    | EmptyObj(inner: string)
    | ObjBody(members: seq<Member>)

  datatype Member = Member(before: string, key: string, after: string, value: Layout)

  // ---------- The text of a layout ----------

  function Text(l: Layout): string { l.before + BodyText(l.body) + l.after }

  function BodyText(b: Body): string {
    match b
    case IdentBody(s) => s
    case NumBody(s) => s
    case StrBody(s) => "\"" + s + "\""
    case EmptyArr(w) => "[" + w + "]"
    case ArrBody(ls) => "[" + ElemsText(ls) + "]"
    case EmptyObj(w) => "{" + w + "}"
    case ObjBody(ms) => "{" + MembersText(ms) + "}"
  }

  function ElemsText(ls: seq<Layout>): string {
    if ls == [] then ""
    else if |ls| == 1 then Text(ls[0])
    else Text(ls[0]) + "," + ElemsText(ls[1..])
  }

  function MemberText(m: Member): string {
    m.before + "\"" + m.key + "\"" + m.after + ":" + Text(m.value)
  }

  function MembersText(ms: seq<Member>): string {
    if ms == [] then ""
    else if |ms| == 1 then MemberText(ms[0])
    else MemberText(ms[0]) + "," + MembersText(ms[1..])
  }

  // ---------- The value of a layout ----------

  function Strip(l: Layout): Value { StripBody(l.body) }

  function StripBody(b: Body): Value {
    match b
    case IdentBody(s) => Ident(s)
    case NumBody(s) => Num(s)
    case StrBody(s) => Str(s)
    case EmptyArr(_) => Arr([])
    case ArrBody(ls) => Arr(StripElems(ls))
    case EmptyObj(_) => Obj([])
    case ObjBody(ms) => Obj(StripMembers(ms))
  }

  function StripElems(ls: seq<Layout>): (vs: seq<Value>)
    ensures |vs| == |ls|
    ensures forall i | 0 <= i < |ls| :: vs[i] == Strip(ls[i])
  {
    if ls == [] then [] else [Strip(ls[0])] + StripElems(ls[1..])
  }

  function StripMembers(ms: seq<Member>): (ps: seq<Pair>)
    ensures |ps| == |ms|
    ensures forall i | 0 <= i < |ms| :: ps[i] == Pair(ms[i].key, Strip(ms[i].value))
  {
    if ms == [] then [] else [Pair(ms[0].key, Strip(ms[0].value))] + StripMembers(ms[1..])
  }

  // ---------- Which layouts there are ----------

  /** Only space around, proper tokens, and no array that would read as empty. */
  predicate Plain(l: Layout) {
    AllIn(Space, l.before) && AllIn(Space, l.after) && PlainBody(l.body)
  }

  predicate PlainBody(b: Body) {
    match b
    case IdentBody(s) => IdentToken(s)
    case NumBody(s) => NumToken(s)
    case StrBody(s) => Escaped(s)
    case EmptyArr(w) => AllIn(Space, w)
    case ArrBody(ls) => ls != [] && OpensArray(Strip(ls[0])) && forall l | l in ls :: Plain(l)
    case EmptyObj(w) => AllIn(Space, w)
    case ObjBody(ms) => ms != [] && forall m | m in ms :: PlainMember(m)
  }

  predicate PlainMember(m: Member) {
    AllIn(Space, m.before) && AllIn(Space, m.after) && Escaped(m.key) && Plain(m.value)
  }

  /** The text after a final identifier or number would be read as part of it. */
  predicate Extends(b: Body, tail: string) {
    tail != [] && ((b.IdentBody? && IsIdent(tail[0])) || (b.NumBody? && IsNum(tail[0])))
  }

  // ---------- One step of the parser ----------

  lemma {:induction false} ScanOfEscaped(a: string, b: string)
    requires Escaped(a)
    ensures ScanString(a + ("\"" + b)) == Closed(|a|)
  {
    var t := a + ("\"" + b);
    if a == [] {
    } else if a[0] == '\\' {
      assert t[2..] == a[2..] + ("\"" + b);
      ScanOfEscaped(a[2..], b);
    } else {
      assert t[1..] == a[1..] + ("\"" + b);
      ScanOfEscaped(a[1..], b);
    }
  }

  lemma {:induction false} ScanStopsAtQuote(t: string)
    requires ScanString(t).Closed?
    ensures t[ScanString(t).at] == '"' && Escaped(t[..ScanString(t).at])
  {
    var n := ScanString(t).at;
    if t[0] == '"' {
    } else if t[0] == '\\' {
      ScanStopsAtQuote(t[2..]);
      assert t[..n][2..] == t[2..][..n - 2];
    } else {
      ScanStopsAtQuote(t[1..]);
      assert t[..n][1..] == t[1..][..n - 1];
    }
  }

  function Quoted(a: string, tail: string): string { ['"'] + (a + (['"'] + tail)) }

  lemma {:induction false} StringParses(a: string, tail: string)
    requires Escaped(a)
    ensures ParseString(Quoted(a, tail)) == Done(a, tail, 1)
  {
    var s := Quoted(a, tail);
    assert s[1..] == a + ("\"" + tail);
    ScanOfEscaped(a, tail);
    assert s[1..|a| + 1] == a;
    assert s[|a| + 2..] == tail;
  }

  lemma {:induction false} StringSound(s: string)
    requires Looking(s, '"') && ParseString(s).Done?
    ensures Escaped(ParseString(s).value) && s == Quoted(ParseString(s).value, ParseString(s).rest)
  {
    ScanStopsAtQuote(s[1..]);
    var n := ScanString(s[1..]).at;
    assert s[1..][..n] == s[1..n + 1];
  }

  lemma {:induction false} TokenSpan(k: Class, a: string, tail: string)
    requires a != [] && AllIn(k, a[1..]) && (tail != [] ==> !In(k, tail[0]))
    ensures 1 + Span(k, (a + tail)[1..]) == |a|
    ensures (a + tail)[..|a|] == a && (a + tail)[|a|..] == tail
  {
    assert (a + tail)[1..] == a[1..] + tail;
    SpanSkips(k, a[1..], tail);
  }

  lemma {:induction false} TokenSound(k: Class, s: string)
    requires s != []
    ensures var n := 1 + Span(k, s[1..]);
      s == s[..n] + s[n..] && AllIn(k, s[..n][1..]) && (s[n..] != [] ==> !In(k, s[n..][0]))
  {
    SpanIsLongest(k, s[1..]);
    var n := 1 + Span(k, s[1..]);
    assert s[..n][1..] == s[1..][..n - 1];
  }

  lemma {:induction false} EatSpaceTwice(s: string)
    ensures EatSpace(EatSpace(s)) == EatSpace(s)
  {
    EatSpaceSplits(s);
    EatSpaceStops(EatSpace(s));
  }

  lemma {:induction false} ElemsSkipSpace(s: string)
    ensures ParseElems(EatSpace(s)) == ParseElems(s)
  {
    EatSpaceTwice(s);
    var r := ParseValue(s);
    assert ParseValue(EatSpace(s)) == r;
  }

  lemma {:induction false} MembersSkipSpace(s: string)
    ensures ParseMembers(EatSpace(s)) == ParseMembers(s)
  {
    EatSpaceTwice(s);
    assert ParseKey(EatSpace(s)) == ParseKey(s);
    assert ParsePair(EatSpace(s)) == ParsePair(s);
  }

  lemma {:induction false} ArrayStep(u: string, vs: seq<Value>, tail: string, m: nat)
    requires !Looking(EatSpace(u), ']') && ParseElems(u) == Done(vs, [']'] + tail, m)
    ensures ParseBody(['['] + u) == Done(Arr(vs), tail, m)
  {
    ElemsSkipSpace(u);
    assert (['['] + u)[1..] == u;
    assert ([']'] + tail)[1..] == tail;
  }

  lemma {:induction false} ObjectStep(u: string, ps: seq<Pair>, tail: string, m: nat)
    requires !Looking(EatSpace(u), '}') && ParseMembers(u) == Done(ps, ['}'] + tail, m)
    ensures ParseBody(['{'] + u) == Done(Obj(ps), tail, m)
  {
    MembersSkipSpace(u);
    assert (['{'] + u)[1..] == u;
    assert (['}'] + tail)[1..] == tail;
  }

  lemma {:induction false} EmptyArrayStep(w: string, tail: string)
    requires AllIn(Space, w)
    ensures ParseBody(['['] + (w + ([']'] + tail))) == Done(Arr([]), tail, 0)
  {
    var u := w + ([']'] + tail);
    assert (['['] + u)[1..] == u;
    EatSpaceSkips(w, [']'] + tail);
    EatSpaceStops([']'] + tail);
    assert ([']'] + tail)[1..] == tail;
  }

  lemma {:induction false} EmptyObjectStep(w: string, tail: string)
    requires AllIn(Space, w)
    ensures ParseBody(['{'] + (w + (['}'] + tail))) == Done(Obj([]), tail, 0)
  {
    var u := w + (['}'] + tail);
    assert (['{'] + u)[1..] == u;
    EatSpaceSkips(w, ['}'] + tail);
    EatSpaceStops(['}'] + tail);
    assert (['}'] + tail)[1..] == tail;
  }

  lemma {:induction false} ElemsStep(s: string, v: Value, m: nat, more: string, vs: seq<Value>, tail: string, k: nat)
    requires ParseValue(s) == Done(v, [','] + more, m) && ParseElems(more) == Done(vs, tail, k)
    ensures ParseElems(s) == Done([v] + vs, tail, m + 1 + k)
  {
    assert ([','] + more)[1..] == more;
  }

  lemma {:induction false} ElemsLast(s: string, v: Value, m: nat, tail: string)
    requires ParseValue(s) == Done(v, tail, m) && !Looking(tail, ',')
    ensures ParseElems(s) == Done([v], tail, m + 1)
  {}

  lemma {:induction false} MembersLast(s: string, p: Pair, m: nat, tail: string)
    requires ParsePair(s) == Done(p, tail, m) && !Looking(tail, ',')
    ensures ParseMembers(s) == Done([p], tail, m + 1)
  {}

  lemma {:induction false} MembersStep(s: string, p: Pair, m: nat, more: string, ps: seq<Pair>, tail: string, k: nat)
    requires ParsePair(s) == Done(p, [','] + more, m) && ParseMembers(more) == Done(ps, tail, k)
    ensures ParseMembers(s) == Done([p] + ps, tail, m + 1 + k)
  {
    assert ([','] + more)[1..] == more;
  }

  lemma {:induction false} KeyParses(w: string, key: string, after: string, v: string)
    requires AllIn(Space, w) && AllIn(Space, after) && Escaped(key)
    ensures ParseKey(w + Quoted(key, after + v)) == Done(key, EatSpace(v), 1)
  {
    EatSpaceSkips(w, Quoted(key, after + v));
    EatSpaceStops(Quoted(key, after + v));
    StringParses(key, after + v);
    EatSpaceSkips(after, v);
  }

  lemma {:induction false} PairStep(s: string, key: string, u: string, v: Value, rest: string, m: nat)
    requires ParseKey(s) == Done(key, [':'] + u, 1) && ParseValue(u) == Done(v, rest, m)
    ensures ParsePair(s) == Done(Pair(key, v), rest, m + 2)
  {
    assert ([':'] + u)[1..] == u;
  }

  // ---------- The shape of a layout's text ----------

  lemma {:induction false} TextShape(l: Layout, rest: string)
    ensures Text(l) + rest == l.before + (BodyText(l.body) + (l.after + rest))
  {}

  lemma {:induction false} BodyShape(b: Body, tail: string)
    ensures b.StrBody? ==> BodyText(b) + tail == Quoted(b.chars, tail)
    ensures b.EmptyArr? ==> BodyText(b) + tail == ['['] + (b.inner + ([']'] + tail))
    ensures b.EmptyObj? ==> BodyText(b) + tail == ['{'] + (b.inner + (['}'] + tail))
    ensures b.ArrBody? ==> BodyText(b) + tail == ['['] + (ElemsText(b.elems) + ([']'] + tail))
    ensures b.ObjBody? ==> BodyText(b) + tail == ['{'] + (MembersText(b.members) + (['}'] + tail))
  {}

  lemma {:induction false} ElemsShape(ls: seq<Layout>, tail: string)
    requires |ls| > 1
    ensures ElemsText(ls) + tail == Text(ls[0]) + ([','] + (ElemsText(ls[1..]) + tail))
  {
    RegroupFour(Text(ls[0]), [','], ElemsText(ls[1..]), tail);
  }

  lemma {:induction false} MembersShape(ms: seq<Member>, tail: string)
    requires |ms| > 1
    ensures MembersText(ms) + tail == MemberText(ms[0]) + ([','] + (MembersText(ms[1..]) + tail))
  {
    RegroupFour(MemberText(ms[0]), [','], MembersText(ms[1..]), tail);
  }

  lemma {:induction false} MemberShape(m: Member, rest: string)
    ensures MemberText(m) + rest
         == m.before + Quoted(m.key, m.after + ([':'] + (Text(m.value) + rest)))
  {}

  lemma {:induction false} BodyTextStarts(b: Body)
    requires PlainBody(b)
    ensures BodyText(b) != [] && !IsSpace(BodyText(b)[0])
    ensures BodyText(b)[0] == ']' ==> !OpensArray(StripBody(b))
  {}

  lemma {:induction false} TextStarts(l: Layout, rest: string)
    requires Plain(l)
    ensures EatSpace(Text(l) + rest) == BodyText(l.body) + (l.after + rest)
    ensures EatSpace(Text(l) + rest) != []
    ensures Looking(EatSpace(Text(l) + rest), ']') <==> !OpensArray(Strip(l))
  {
    BodyTextStarts(l.body);
    TextShape(l, rest);
    EatSpaceSkips(l.before, BodyText(l.body) + (l.after + rest));
    EatSpaceStops(BodyText(l.body) + (l.after + rest));
  }

  lemma {:induction false} ElemsTextStarts(ls: seq<Layout>, tail: string)
    requires ls != [] && Plain(ls[0])
    ensures Looking(EatSpace(ElemsText(ls) + tail), ']') <==> !OpensArray(Strip(ls[0]))
  {
    if |ls| == 1 {
      TextStarts(ls[0], tail);
    } else {
      ElemsShape(ls, tail);
      TextStarts(ls[0], [','] + (ElemsText(ls[1..]) + tail));
    }
  }

  lemma {:induction false} MembersTextStarts(ms: seq<Member>, tail: string)
    requires ms != [] && PlainMember(ms[0])
    ensures !Looking(EatSpace(MembersText(ms) + tail), '}')
  {
    var rest := if |ms| == 1 then tail else [','] + (MembersText(ms[1..]) + tail);
    if |ms| > 1 { MembersShape(ms, tail); }
    MemberShape(ms[0], rest);
    var q := Quoted(ms[0].key, ms[0].after + ([':'] + (Text(ms[0].value) + rest)));
    EatSpaceSkips(ms[0].before, q);
    EatSpaceStops(q);
  }

  // ---------- Every layout is accepted ----------

  lemma {:induction false} BodyParses(b: Body, tail: string)
    requires PlainBody(b) && !Extends(b, tail)
    ensures ParseBody(BodyText(b) + tail) == Done(StripBody(b), tail, Nodes(StripBody(b)))
    decreases b, 1
  {
    match b
    case ArrBody(ls) => ArrBodyParses(ls, tail);
    case ObjBody(ms) => ObjBodyParses(ms, tail);
    case _ => LeafParses(b, tail);
  }

  lemma {:induction false} LeafParses(b: Body, tail: string)
    requires !b.ArrBody? && !b.ObjBody? && PlainBody(b) && !Extends(b, tail)
    ensures ParseBody(BodyText(b) + tail) == Done(StripBody(b), tail, Nodes(StripBody(b)))
  {
    BodyShape(b, tail);
    match b
    case IdentBody(a) => TokenSpan(IdentTail, a, tail);
    case NumBody(a) => TokenSpan(NumTail, a, tail);
    case StrBody(a) => StringParses(a, tail);
    case EmptyArr(w) => EmptyArrayStep(w, tail);
    case EmptyObj(w) => EmptyObjectStep(w, tail);
  }

  lemma {:induction false} ArrBodyParses(ls: seq<Layout>, tail: string)
    requires PlainBody(ArrBody(ls))
    ensures var b := ArrBody(ls);
      ParseBody(BodyText(b) + tail) == Done(StripBody(b), tail, Nodes(StripBody(b)))
    decreases ArrBody(ls), 0
  {
    hide ParseBody, ParseElems, ElemsText;
    BodyShape(ArrBody(ls), tail);
    SeparatorEnds(ls[|ls| - 1], [']'] + tail);
    ElemsParse(ls, [']'] + tail);
    ElemsTextStarts(ls, [']'] + tail);
    ArrayStep(ElemsText(ls) + ([']'] + tail), StripElems(ls), tail, ElemNodes(StripElems(ls)));
  }

  lemma {:induction false} ObjBodyParses(ms: seq<Member>, tail: string)
    requires PlainBody(ObjBody(ms))
    ensures var b := ObjBody(ms);
      ParseBody(BodyText(b) + tail) == Done(StripBody(b), tail, Nodes(StripBody(b)))
    decreases ObjBody(ms), 0
  {
    hide ParseBody, ParseMembers, MembersText;
    BodyShape(ObjBody(ms), tail);
    ValueOfPlain(ms[|ms| - 1]);
    SeparatorEnds(ms[|ms| - 1].value, ['}'] + tail);
    MembersParse(ms, ['}'] + tail);
    MembersTextStarts(ms, ['}'] + tail);
    ObjectStep(MembersText(ms) + (['}'] + tail), StripMembers(ms), tail, PairNodes(StripMembers(ms)));
  }

  lemma {:induction false} ValueParses(l: Layout, rest: string)
    requires Plain(l) && !Extends(l.body, l.after + rest)
    ensures ParseValue(Text(l) + rest) == Done(Strip(l), EatSpace(rest), Nodes(Strip(l)))
    decreases l
  {
    TextStarts(l, rest);
    BodyParses(l.body, l.after + rest);
    EatSpaceSkips(l.after, rest);
  }

  /** The layout ends where rest begins: rest neither continues it nor starts with space. */
  predicate Ends(l: Layout, rest: string) { !Extends(l.body, l.after + rest) && EatSpace(rest) == rest }

  /** A separator is neither space nor part of a token. */
  lemma {:induction false} SeparatorEnds(l: Layout, rest: string)
    requires Plain(l) && rest != [] && (rest[0] == ',' || rest[0] == ']' || rest[0] == '}')
    ensures Ends(l, rest)
  {
    EatSpaceStops(rest);
  }

  lemma {:induction false} ElemsHead(ls: seq<Layout>)
    requires ls != []
    ensures var v, vs := Strip(ls[0]), StripElems(ls[1..]);
      StripElems(ls) == [v] + vs && ElemNodes(StripElems(ls)) == Nodes(v) + 1 + ElemNodes(vs)
      && (|ls| == 1 ==> ElemsText(ls) == Text(ls[0]) && vs == [] && ElemNodes(vs) == 0)
  {
    assert StripElems(ls)[1..] == StripElems(ls[1..]);
  }

  lemma {:induction false} ValueOfPlain(m: Member)
    requires PlainMember(m)
    ensures Plain(m.value)
  {}

  lemma {:induction false} MembersHead(ms: seq<Member>)
    requires ms != []
    ensures var p, ps := Pair(ms[0].key, Strip(ms[0].value)), StripMembers(ms[1..]);
      StripMembers(ms) == [p] + ps && PairNodes(StripMembers(ms)) == Nodes(p.value) + 3 + PairNodes(ps)
      && (|ms| == 1 ==> MembersText(ms) == MemberText(ms[0]) && ps == [] && PairNodes(ps) == 0)
  {
    assert StripMembers(ms)[1..] == StripMembers(ms[1..]);
  }

  lemma {:induction false} ElemsParse(ls: seq<Layout>, tail: string)
    requires ls != [] && (forall l | l in ls :: Plain(l)) && Ends(ls[|ls| - 1], tail) && !Looking(tail, ',')
    ensures ParseElems(ElemsText(ls) + tail) == Done(StripElems(ls), tail, ElemNodes(StripElems(ls)))
    decreases ls
  {
    hide ParseValue, ParseElems, Text, ElemsText, StripElems, Plain, Nodes, ElemNodes;
    ElemsHead(ls);
    if |ls| == 1 {
      assert StripElems(ls) == [Strip(ls[0])];
      ValueParses(ls[0], tail);
      ElemsLast(Text(ls[0]) + tail, Strip(ls[0]), Nodes(Strip(ls[0])), tail);
    } else {
      var more := ElemsText(ls[1..]) + tail;
      ElemsShape(ls, tail);
      SeparatorEnds(ls[0], [','] + more);
      ValueParses(ls[0], [','] + more);
      ElemsParse(ls[1..], tail);
      ElemsStep(ElemsText(ls) + tail, Strip(ls[0]), Nodes(Strip(ls[0])), more,
        StripElems(ls[1..]), tail, ElemNodes(StripElems(ls[1..])));
    }
  }

  lemma {:induction false} PairParses(m: Member, rest: string)
    requires PlainMember(m) && Ends(m.value, rest)
    ensures ParsePair(MemberText(m) + rest)
         == Done(Pair(m.key, Strip(m.value)), rest, Nodes(Strip(m.value)) + 2)
    decreases m
  {
    var u := Text(m.value) + rest;
    MemberShape(m, rest);
    KeyParses(m.before, m.key, m.after, [':'] + u);
    EatSpaceStops([':'] + u);
    ValueParses(m.value, rest);
    PairStep(MemberText(m) + rest, m.key, u, Strip(m.value), rest, Nodes(Strip(m.value)));
  }

  lemma {:induction false} MembersParse(ms: seq<Member>, tail: string)
    requires ms != [] && (forall m | m in ms :: PlainMember(m))
    requires Ends(ms[|ms| - 1].value, tail) && !Looking(tail, ',')
    ensures ParseMembers(MembersText(ms) + tail)
         == Done(StripMembers(ms), tail, PairNodes(StripMembers(ms)))
    decreases ms
  {
    hide ParsePair, ParseMembers, MemberText, MembersText, StripMembers, PlainMember, Nodes, PairNodes;
    MembersHead(ms);
    if |ms| == 1 {
      assert StripMembers(ms) == [Pair(ms[0].key, Strip(ms[0].value))];
      PairParses(ms[0], tail);
      MembersLast(MemberText(ms[0]) + tail, Pair(ms[0].key, Strip(ms[0].value)),
        Nodes(Strip(ms[0].value)) + 2, tail);
    } else {
      var more := MembersText(ms[1..]) + tail;
      MembersShape(ms, tail);
      ValueOfPlain(ms[0]);
      SeparatorEnds(ms[0].value, [','] + more);
      PairParses(ms[0], [','] + more);
      MembersParse(ms[1..], tail);
      MembersStep(MembersText(ms) + tail, Pair(ms[0].key, Strip(ms[0].value)),
        Nodes(Strip(ms[0].value)) + 2, more, StripMembers(ms[1..]), tail, PairNodes(StripMembers(ms[1..])));
    }
  }

  // ---------- Only layouts are accepted ----------

  lemma {:induction false} ValueSound(s: string) returns (l: Layout)
    requires ParseValue(s).Done?
    ensures LaysOut(l, s, ParseValue(s).value, ParseValue(s).rest)
    decreases |s|, 1
  {
    var t := EatSpace(s);
    EatSpaceSplits(s);
    var r := ParseBody(t);
    var b := BodySound(t);
    EatSpaceSplits(r.rest);
    EatSpaceTwice(r.rest);
    l := Layout(LeadingSpace(s), b, LeadingSpace(r.rest));
    TextShape(l, EatSpace(r.rest));
  }

  lemma {:induction false} BodySound(t: string) returns (b: Body)
    requires t != [] && !IsSpace(t[0]) && ParseBody(t).Done?
    ensures PlainBody(b) && StripBody(b) == ParseBody(t).value
    ensures t == BodyText(b) + ParseBody(t).rest && !Extends(b, ParseBody(t).rest)
    decreases |t|, 0, 1
  {
    var r := ParseBody(t);
    if StartsNumber(t[0]) {
      TokenSound(NumTail, t);
      b := NumBody(r.value.digits);
    } else if t[0] == '"' {
      StringSound(t);
      b := StrBody(r.value.chars);
      BodyShape(b, r.rest);
    } else if t[0] == '[' {
      b := ArraySound(t);
    } else if t[0] == '{' {
      b := ObjectSound(t);
    } else {
      TokenSound(IdentTail, t);
      b := IdentBody(r.value.name);
    }
  }

  lemma {:induction false} ArraySound(t: string) returns (b: Body)
    requires Looking(t, '[') && ParseArray(t).Done?
    ensures (b.EmptyArr? || b.ArrBody?) && PlainBody(b) && StripBody(b) == ParseArray(t).value
    ensures t == BodyText(b) + ParseArray(t).rest
    decreases |t|, 0, 0
  {
    var u := t[1..];
    EatSpaceSplits(u);
    var rest := ParseArray(t).rest;
    if Looking(EatSpace(u), ']') {
      b := EmptyArr(LeadingSpace(u));
      assert EatSpace(u) == [']'] + rest;
    } else {
      ElemsSkipSpace(u);
      var ls := ElemsSound(u);
      ElemsTextStarts(ls, ParseElems(u).rest);
      b := ArrBody(ls);
      assert ParseElems(u).rest == [']'] + rest;
    }
    BodyShape(b, rest);
  }

  lemma {:induction false} ObjectSound(t: string) returns (b: Body)
    requires Looking(t, '{') && ParseObject(t).Done?
    ensures (b.EmptyObj? || b.ObjBody?) && PlainBody(b) && StripBody(b) == ParseObject(t).value
    ensures t == BodyText(b) + ParseObject(t).rest
    decreases |t|, 0, 0
  {
    var u := t[1..];
    EatSpaceSplits(u);
    var rest := ParseObject(t).rest;
    if Looking(EatSpace(u), '}') {
      b := EmptyObj(LeadingSpace(u));
      assert EatSpace(u) == ['}'] + rest;
    } else {
      MembersSkipSpace(u);
      var ms := MembersSound(u);
      b := ObjBody(ms);
      assert ParseMembers(u).rest == ['}'] + rest;
    }
    BodyShape(b, rest);
  }

  lemma {:induction false} ElemsCases(s: string)
    requires ParseElems(s).Done?
    ensures var p, r := ParseValue(s), ParseElems(s);
      p.Done?
      && if Looking(p.rest, ',') then
           var more := ParseElems(p.rest[1..]);
           more.Done? && r.value == [p.value] + more.value && r.rest == more.rest
           && p.rest == [','] + p.rest[1..]
         else r.value == [p.value] && r.rest == p.rest
  {}

  lemma {:induction false} ElemsTextCons(l: Layout, more: seq<Layout>, tail: string)
    ensures StripElems([l] + more) == [Strip(l)] + StripElems(more)
    ensures ElemsText([l] + more) + tail
         == Text(l) + if more == [] then tail else [','] + (ElemsText(more) + tail)
  {
    assert ([l] + more)[1..] == more;
    if more != [] { ElemsShape([l] + more, tail); }
  }

  lemma {:induction false} ElemsSound(s: string) returns (ls: seq<Layout>)
    requires ParseElems(s).Done?
    ensures ls != [] && (forall l | l in ls :: Plain(l)) && StripElems(ls) == ParseElems(s).value
    ensures s == ElemsText(ls) + ParseElems(s).rest && Ends(ls[|ls| - 1], ParseElems(s).rest)
    decreases |s|, 2
  {
    hide ParseElems, ParseValue, ElemsText, StripElems, Text, Plain;
    ElemsCases(s);
    var l := ValueSound(s);
    var rest := ParseValue(s).rest;
    var more := [];
    if Looking(rest, ',') {
      more := ElemsSound(rest[1..]);
    }
    ls := [l] + more;
    ElemsTextCons(l, more, ParseElems(s).rest);
    EmptyLists();
  }

  lemma {:induction false} EmptyLists()
    ensures StripElems([]) == [] && StripMembers([]) == []
  {}

  lemma {:induction false} KeySound(s: string)
    requires ParseKey(s).Done?
    ensures var t := EatSpace(s); Looking(t, '"') && ParseString(t).Done?
    ensures var k := ParseString(EatSpace(s));
      ParseKey(s).value == k.value && ParseKey(s).rest == EatSpace(k.rest) && Escaped(k.value)
      && s == LeadingSpace(s) + Quoted(k.value, LeadingSpace(k.rest) + EatSpace(k.rest))
      && AllIn(Space, LeadingSpace(s)) && AllIn(Space, LeadingSpace(k.rest))
  {
    EatSpaceSplits(s);
    StringSound(EatSpace(s));
    EatSpaceSplits(ParseString(EatSpace(s)).rest);
  }

  lemma {:induction false} PairSound(s: string) returns (m: Member)
    requires ParsePair(s).Done?
    ensures PlainMember(m) && Pair(m.key, Strip(m.value)) == ParsePair(s).value
    ensures s == MemberText(m) + ParsePair(s).rest && Ends(m.value, ParsePair(s).rest)
    decreases |s|, 2
  {
    KeySound(s);
    var k := ParseString(EatSpace(s));
    var rest := ParseKey(s).rest;
    var v := ValueSound(rest[1..]);
    m := Member(LeadingSpace(s), k.value, LeadingSpace(k.rest), v);
    MemberShape(m, ParsePair(s).rest);
    assert rest == [':'] + rest[1..];
  }

  lemma {:induction false} MembersCases(s: string)
    requires ParseMembers(s).Done?
    ensures var p, r := ParsePair(s), ParseMembers(s);
      p.Done?
      && if Looking(p.rest, ',') then
           var more := ParseMembers(p.rest[1..]);
           more.Done? && r.value == [p.value] + more.value && r.rest == more.rest
           && p.rest == [','] + p.rest[1..]
         else r.value == [p.value] && r.rest == p.rest
  {}

  lemma {:induction false} MembersTextCons(m: Member, more: seq<Member>, tail: string)
    ensures StripMembers([m] + more) == [Pair(m.key, Strip(m.value))] + StripMembers(more)
    ensures MembersText([m] + more) + tail
         == MemberText(m) + if more == [] then tail else [','] + (MembersText(more) + tail)
  {
    assert ([m] + more)[1..] == more;
    if more != [] { MembersShape([m] + more, tail); }
  }

  lemma {:induction false} MembersSound(s: string) returns (ms: seq<Member>)
    requires ParseMembers(s).Done?
    ensures ms != [] && (forall m | m in ms :: PlainMember(m))
    ensures StripMembers(ms) == ParseMembers(s).value
    ensures s == MembersText(ms) + ParseMembers(s).rest && Ends(ms[|ms| - 1].value, ParseMembers(s).rest)
    decreases |s|, 3
  {
    hide ParseMembers, ParsePair, MembersText, StripMembers, MemberText, PlainMember;
    MembersCases(s);
    var m := PairSound(s);
    var rest := ParsePair(s).rest;
    var more := [];
    if Looking(rest, ',') {
      more := MembersSound(rest[1..]);
    }
    ms := [m] + more;
    MembersTextCons(m, more, ParseMembers(s).rest);
    EmptyLists();
  }

  // ---------- The language of the parser ----------

  /** s is the layout l of v, then a rest that neither starts with space nor continues the value. */
  predicate LaysOut(l: Layout, s: string, v: Value, rest: string) {
    Plain(l) && Strip(l) == v && s == Text(l) + rest && Ends(l, rest)
  }

  /** The parser returns v and stops at rest exactly on the layouts of v before rest, and it then
      has allocated exactly the nodes of v. */
  lemma {:induction false} ParsesExactlyLayouts(s: string, v: Value, rest: string)
    ensures ParseValue(s) == Done(v, rest, Nodes(v)) <==> exists l :: LaysOut(l, s, v, rest)
    ensures ParseValue(s).Done? ==> ParseValue(s).made == Nodes(ParseValue(s).value)
  {
    if ParseValue(s).Done? {
      var l := ValueSound(s);
      ValueParses(l, ParseValue(s).rest);
    }
    forall l | LaysOut(l, s, v, rest)
      ensures ParseValue(s) == Done(v, rest, Nodes(v))
    {
      ValueParses(l, rest);
    }
  }

  /** Two texts that differ only in insignificant space parse alike. */
  lemma {:induction false} LayoutIndependence(l1: Layout, l2: Layout, rest: string)
    requires Plain(l1) && Plain(l2) && Strip(l1) == Strip(l2)
    requires !Extends(l1.body, l1.after + rest) && !Extends(l2.body, l2.after + rest)
    ensures ParseValue(Text(l1) + rest) == ParseValue(Text(l2) + rest)
         == Done(Strip(l1), EatSpace(rest), Nodes(Strip(l1)))
  {
    ValueParses(l1, rest);
    ValueParses(l2, rest);
  }

  // ---------- Printing is the layout without space ----------

  function Compact(v: Value): Layout
    decreases v, 1
  {
    Layout("", CompactBody(v), "")
  }

  function CompactBody(v: Value): Body
    decreases v, 0
  {
    match v
    case Ident(s) => IdentBody(s)
    case Num(s) => NumBody(s)
    case Str(s) => StrBody(s)
    case Arr(vs) => if vs == [] then EmptyArr("") else ArrBody(CompactElems(vs))
    case Obj(ps) => if ps == [] then EmptyObj("") else ObjBody(CompactPairs(ps))
  }

  function CompactElems(vs: seq<Value>): (ls: seq<Layout>)
    ensures |ls| == |vs| && forall i | 0 <= i < |vs| :: ls[i] == Compact(vs[i])
    decreases vs
  {
    if vs == [] then [] else [Compact(vs[0])] + CompactElems(vs[1..])
  }

  function CompactPairs(ps: seq<Pair>): (ms: seq<Member>)
    ensures |ms| == |ps| && forall i | 0 <= i < |ps| :: ms[i] == CompactPair(ps[i])
    decreases ps
  {
    if ps == [] then [] else [CompactPair(ps[0])] + CompactPairs(ps[1..])
  }

  function CompactPair(p: Pair): Member
    decreases p
  {
    Member("", p.key, "", Compact(p.value))
  }

  lemma {:induction false} CompactTokenIsPrint(v: Value)
    requires v.Ident? || v.Num? || v.Str?
    ensures Text(Compact(v)) == Print(v) && Strip(Compact(v)) == v
    ensures Plain(Compact(v)) == WellFormed(v)
  {}

  lemma {:induction false} NoSpaceAround(b: Body)
    ensures Text(Layout("", b, "")) == BodyText(b) && Plain(Layout("", b, "")) == PlainBody(b)
  {}

  lemma {:induction false} CompactIsPrint(v: Value)
    ensures Text(Compact(v)) == Print(v) && Strip(Compact(v)) == v
    ensures Plain(Compact(v)) == WellFormed(v)
    decreases v, 1
  {
    hide Text, Plain;
    match v
    case Arr(vs) => CompactArrIsPrint(vs);
    case Obj(ps) => CompactObjIsPrint(ps);
    case _ => CompactTokenIsPrint(v);
  }

  lemma {:induction false} CompactArrIsPrint(vs: seq<Value>)
    ensures Text(Compact(Arr(vs))) == Print(Arr(vs)) && Strip(Compact(Arr(vs))) == Arr(vs)
    ensures Plain(Compact(Arr(vs))) == WellFormed(Arr(vs))
    decreases Arr(vs), 0
  {
    hide ElemsText, PrintElems, StripElems, Plain, PlainBody, WellFormed, Text;
    NoSpaceAround(CompactBody(Arr(vs)));
    CompactElemsArePrint(vs);
    CompactElemsArePlain(vs);
    CompactArrIsPlain(vs);
    if vs == [] {
      PrintNothing();
    }
  }

  lemma {:induction false} CompactArrIsPlain(vs: seq<Value>)
    requires StripElems(CompactElems(vs)) == vs
    requires (forall l | l in CompactElems(vs) :: Plain(l)) == (forall x | x in vs :: WellFormed(x))
    ensures PlainBody(CompactBody(Arr(vs))) == WellFormed(Arr(vs))
  {
    hide StripElems, CompactElems, Plain;
    if vs == [] {
      assert AllIn(Space, "");
    } else {
      assert Strip(CompactElems(vs)[0]) == vs[0];
    }
  }

  lemma {:induction false} CompactObjIsPlain(ps: seq<Pair>)
    requires (forall m | m in CompactPairs(ps) :: PlainMember(m))
          == (forall p | p in ps :: Escaped(p.key) && WellFormed(p.value))
    ensures PlainBody(CompactBody(Obj(ps))) == WellFormed(Obj(ps))
  {
    hide CompactPairs, PlainMember;
    if ps == [] {
      assert AllIn(Space, "");
    }
  }

  lemma {:induction false} CompactObjIsPrint(ps: seq<Pair>)
    ensures Text(Compact(Obj(ps))) == Print(Obj(ps)) && Strip(Compact(Obj(ps))) == Obj(ps)
    ensures Plain(Compact(Obj(ps))) == WellFormed(Obj(ps))
    decreases Obj(ps), 0
  {
    hide MembersText, PrintPairs, StripMembers, Plain, PlainBody, WellFormed, Text;
    NoSpaceAround(CompactBody(Obj(ps)));
    CompactPairsArePrint(ps);
    CompactPairsArePlain(ps);
    CompactObjIsPlain(ps);
    if ps == [] {
      PrintNothing();
    }
  }

  lemma {:induction false} CompactElemsArePrint(vs: seq<Value>)
    ensures ElemsText(CompactElems(vs)) == PrintElems(vs) && StripElems(CompactElems(vs)) == vs
    decreases vs
  {
    hide Plain, WellFormed, Text, Print, Compact, Strip;
    if vs != [] {
      CompactIsPrint(vs[0]);
      CompactElemsArePrint(vs[1..]);
      assert CompactElems(vs) == [Compact(vs[0])] + CompactElems(vs[1..]);
    }
  }

  lemma {:induction false} CompactElemsArePlain(vs: seq<Value>)
    ensures (forall l | l in CompactElems(vs) :: Plain(l)) == (forall x | x in vs :: WellFormed(x))
    decreases vs
  {
    hide Plain, WellFormed, Compact;
    if vs != [] {
      CompactIsPrint(vs[0]);
      CompactElemsArePlain(vs[1..]);
      assert CompactElems(vs) == [Compact(vs[0])] + CompactElems(vs[1..]);
      assert vs == [vs[0]] + vs[1..];
    }
  }

  lemma {:induction false} CompactPairIsPrint(p: Pair)
    ensures MemberText(CompactPair(p)) == PrintPair(p)
    ensures Pair(CompactPair(p).key, Strip(CompactPair(p).value)) == p
    ensures PlainMember(CompactPair(p)) == (Escaped(p.key) && WellFormed(p.value))
    decreases p
  {
    CompactIsPrint(p.value);
    assert "" + "\"" == "\"" && "\"" + p.key + "\"" + "" == "\"" + p.key + "\"";
  }

  lemma {:induction false} CompactPairsArePrint(ps: seq<Pair>)
    ensures MembersText(CompactPairs(ps)) == PrintPairs(ps) && StripMembers(CompactPairs(ps)) == ps
    decreases ps
  {
    hide WellFormed, Escaped, MemberText, PrintPair, CompactPair, Strip;
    if ps != [] {
      CompactPairIsPrint(ps[0]);
      CompactPairsArePrint(ps[1..]);
      assert CompactPairs(ps) == [CompactPair(ps[0])] + CompactPairs(ps[1..]);
    }
  }

  lemma {:induction false} PlainCons(m: Member, ms: seq<Member>)
    ensures (forall x | x in [m] + ms :: PlainMember(x)) == (PlainMember(m) && forall x | x in ms :: PlainMember(x))
  {
    hide PlainMember;
    assert m in [m] + ms;
    assert forall x | x in ms :: x in [m] + ms;
  }

  lemma {:induction false} WellFormedCons(p: Pair, ps: seq<Pair>)
    ensures (forall x | x in [p] + ps :: Escaped(x.key) && WellFormed(x.value))
        == (Escaped(p.key) && WellFormed(p.value) && forall x | x in ps :: Escaped(x.key) && WellFormed(x.value))
  {
    hide Escaped, WellFormed;
    assert p in [p] + ps;
    assert forall x | x in ps :: x in [p] + ps;
  }

  lemma {:induction false} CompactPairsArePlain(ps: seq<Pair>)
    ensures (forall m | m in CompactPairs(ps) :: PlainMember(m))
        == (forall p | p in ps :: Escaped(p.key) && WellFormed(p.value))
    decreases ps
  {
    hide PlainMember, WellFormed, Escaped, CompactPair;
    if ps != [] {
      CompactPairIsPrint(ps[0]);
      CompactPairsArePlain(ps[1..]);
      PlainCons(CompactPair(ps[0]), CompactPairs(ps[1..]));
      WellFormedCons(ps[0], ps[1..]);
      assert CompactPairs(ps) == [CompactPair(ps[0])] + CompactPairs(ps[1..]);
      assert ps == [ps[0]] + ps[1..];
    }
  }

  lemma {:induction false} PlainIsWellFormed(l: Layout)
    requires Plain(l)
    ensures WellFormed(Strip(l))
    decreases l
  {
    match l.body
    case ArrBody(ls) =>
      forall i | 0 <= i < |ls| ensures WellFormed(Strip(ls[i])) { PlainIsWellFormed(ls[i]); }
    case ObjBody(ms) =>
      forall i | 0 <= i < |ms| ensures Escaped(ms[i].key) && WellFormed(Strip(ms[i].value)) {
        assert PlainMember(ms[i]);
        PlainIsWellFormed(ms[i].value);
      }
    case _ =>
  }

  // ---------- Parsing undoes printing ----------

  /** A rest that starts with a character of the value's own last token would be swallowed by it. */
  predicate Continues(v: Value, rest: string) { Extends(CompactBody(v), rest) }

  lemma {:induction false} TokenSwallows(k: Class, a: string, rest: string)
    requires a != [] && AllIn(k, a[1..]) && rest != [] && In(k, rest[0])
    ensures 1 + Span(k, (a + rest)[1..]) > |a|
  {
    assert (a + rest)[1..] == a[1..] + rest;
    SpanSkips(k, a[1..], rest);
  }

  lemma {:induction false} ContinuedTokenGrows(v: Value, rest: string)
    requires WellFormed(v) && Continues(v, rest)
    ensures ParseValue(Print(v) + rest).Done? && ParseValue(Print(v) + rest).value != v
  {
    EatSpaceStops(Print(v) + rest);
    TokenSwallows(if v.Ident? then IdentTail else NumTail, Print(v), rest);
  }

  /** Of a well-formed value, the parser reads back the printed text, and leaves the cursor at the
      rest without its leading space, exactly when the rest does not continue the last token. */
  lemma {:induction false} ParseUndoesPrint(v: Value, rest: string)
    requires WellFormed(v)
    ensures ParseValue(Print(v) + rest) == Done(v, EatSpace(rest), Nodes(v)) <==> !Continues(v, rest)
  {
    if Continues(v, rest) {
      ContinuedTokenGrows(v, rest);
    } else {
      CompactIsPrint(v);
      assert "" + rest == rest;
      ValueParses(Compact(v), rest);
    }
  }

  /** Printing loses nothing exactly on the well-formed values. */
  lemma {:induction false} PrintReadableIff(v: Value)
    ensures ParseValue(Print(v)) == Done(v, "", Nodes(v)) <==> WellFormed(v)
  {
    if WellFormed(v) {
      ParseUndoesPrint(v, "");
      assert Print(v) + "" == Print(v);
    } else if ParseValue(Print(v)).Done? {
      NormalForm(Print(v));
    }
  }

  /** Whatever is read is well formed; printing it and reading it again changes nothing, and so the
      second print is the first. */
  lemma {:induction false} NormalForm(s: string)
    requires ParseValue(s).Done?
    ensures var v := ParseValue(s).value;
      WellFormed(v) && ParseValue(Print(v)) == Done(v, "", Nodes(v))
      && Print(ParseValue(Print(v)).value) == Print(v)
  {
    var l := ValueSound(s);
    PlainIsWellFormed(l);
    var v := ParseValue(s).value;
    ParseUndoesPrint(v, "");
    assert Print(v) + "" == Print(v);
  }

  /** Parsing allocates at most one node per character it consumes, whether or not it succeeds; when it
      does, these are exactly the nodes of the value. */
  lemma {:induction false} AllocationBound(s: string)
    ensures ParseValue(s).made <= |s| - |ParseValue(s).rest|
    ensures ParseValue(s).Done? ==> Nodes(ParseValue(s).value) == ParseValue(s).made
  {
    ParsesExactlyLayouts(s, Ident(""), "");
  }
}
