/** The texts the parser fails on, written down without the parser: a value that breaks off at some
    point, with everything before that point laid out properly. With the layouts of JsonLayout they make
    up all texts, and each says which error is reported and where the cursor stands. */
module JsonBroken {
  import opened JsonText
  import opened JsonParser
  import opened JsonLayout
  import opened JsonErrors
  import opened Sequences

  datatype BrokenValue = BrokenValue(before: string, body: Broken)

  datatype Broken =
    | NoValue                                            // the text ends
    | OpenString(chars: string)                          // no closing quote
    | OpenEscape(chars: string)                          // a final backslash
    | ArrItem(done: seq<Layout>, item: BrokenValue)      // an element that breaks off, after others
    | ArrEnd(elems: seq<Layout>)                         // neither ',' nor ']' after an element
    | ObjItem(members: seq<Member>, last: BrokenMember)
    | ObjEnd(members: seq<Member>)

  datatype BrokenMember =
    | NoKey(before: string)
    | OpenKey(before: string, chars: string)
    | OpenKeyEscape(before: string, chars: string)
    | NoColon(before: string, key: string, after: string)
    | BadValue(before: string, key: string, after: string, value: BrokenValue)

  // ---------- The text up to the break ----------

  function BrokenText(v: BrokenValue): string { v.before + BrokenBody(v.body) }

  function BrokenBody(b: Broken): string {
    match b
    case NoValue => ""
    case OpenString(a) => ['"'] + a
    case OpenEscape(a) => ['"'] + (a + ['\\'])
    case ArrItem(ls, v) => ['['] + (DoneText(ls) + BrokenText(v))
    case ArrEnd(ls) => ['['] + ElemsText(ls)
    case ObjItem(ms, m) => ['{'] + (DoneMembers(ms) + BrokenMemberText(m))
    case ObjEnd(ms) => ['{'] + MembersText(ms)
  }

  function DoneText(ls: seq<Layout>): string {
    if ls == [] then "" else Text(ls[0]) + ([','] + DoneText(ls[1..]))
  }

  function DoneMembers(ms: seq<Member>): string {
    if ms == [] then "" else MemberText(ms[0]) + ([','] + DoneMembers(ms[1..]))
  }

  function BrokenMemberText(m: BrokenMember): string {
    match m
    case NoKey(w) => w
    case OpenKey(w, a) => w + (['"'] + a)
    case OpenKeyEscape(w, a) => w + (['"'] + (a + ['\\']))
    case NoColon(w, k, after) => w + Quoted(k, after)
    case BadValue(w, k, after, v) => w + Quoted(k, after + ([':'] + BrokenText(v)))
  }

  // ---------- The reason ----------

  function Why(b: Broken): Error {
    match b
    case NoValue => PastEnd
    case OpenString(_) => UnterminatedString
    case OpenEscape(_) => PastEnd
    case ArrItem(_, v) => Why(v.body)
    case ArrEnd(_) => IllFormedArray
    case ObjItem(_, m) => WhyMember(m)
    case ObjEnd(_) => IllFormedObject
  }

  function WhyMember(m: BrokenMember): Error {
    match m
    case NoKey(_) => IllFormedKey
    case OpenKey(_, _) => UnterminatedString
    case OpenKeyEscape(_, _) => PastEnd
    case NoColon(_, _, _) => IllFormedPair
    case BadValue(_, _, _, v) => Why(v.body)
  }

  // ---------- Which broken values there are ----------

  /** Everything before the break is laid out properly, and what follows it is not swallowed. */
  predicate Fits(v: BrokenValue, rest: string) { AllIn(Space, v.before) && FitsBody(v.body, rest) }

  predicate FitsBody(b: Broken, rest: string) {
    match b
    case NoValue => true
    case OpenString(a) => Escaped(a)
    case OpenEscape(a) => Escaped(a)
    case ArrItem(ls, v) => PlainElems(ls) && (ls != [] ==> OpensArray(Strip(ls[0]))) && Fits(v, rest)
    case ArrEnd(ls) => ls != [] && PlainElems(ls) && OpensArray(Strip(ls[0])) && Ends(ls[|ls| - 1], rest)
    case ObjItem(ms, m) =>
      PlainMembers(ms) && FitsMember(m, rest) && (ms == [] && m.NoKey? ==> !Looking(rest, '}'))
    case ObjEnd(ms) => ms != [] && PlainMembers(ms) && Ends(ms[|ms| - 1].value, rest)
  }

  predicate FitsMember(m: BrokenMember, rest: string) {
    AllIn(Space, m.before)
    && match m
       case NoKey(_) => true
       case OpenKey(_, a) => Escaped(a)
       case OpenKeyEscape(_, a) => Escaped(a)
       case NoColon(_, k, after) => Escaped(k) && AllIn(Space, after)
       case BadValue(_, k, after, v) => Escaped(k) && AllIn(Space, after) && Fits(v, rest)
  }

  predicate PlainElems(ls: seq<Layout>) { forall l | l in ls :: Plain(l) }

  predicate PlainMembers(ms: seq<Member>) { forall m | m in ms :: PlainMember(m) }

  /** s is v broken off before rest. */
  predicate BreaksOff(v: BrokenValue, s: string, e: Error, rest: string) {
    Fits(v, rest) && Why(v.body) == e && StuckAt(e, rest) && s == BrokenText(v) + rest
  }

  predicate Fails<T>(r: Parsed<T>, e: Error, rest: string) { r.Failed? && r.error == e && r.rest == rest }

  // ---------- One step of a failure ----------

  lemma {:induction false} ArrayFailStep(u: string, e: Error, rest: string)
    requires !Looking(EatSpace(u), ']')
    requires Fails(ParseElems(u), e, rest)
      || (ParseElems(u).Done? && ParseElems(u).rest == rest && !Looking(rest, ']') && e == IllFormedArray)
    ensures Fails(ParseBody(['['] + u), e, rest)
  {
    hide ParseElems;
    ElemsSkipSpace(u);
    assert (['['] + u)[1..] == u;
  }

  lemma {:induction false} ObjectFailStep(u: string, e: Error, rest: string)
    requires !Looking(EatSpace(u), '}')
    requires Fails(ParseMembers(u), e, rest)
      || (ParseMembers(u).Done? && ParseMembers(u).rest == rest && !Looking(rest, '}') && e == IllFormedObject)
    ensures Fails(ParseBody(['{'] + u), e, rest)
  {
    hide ParseMembers;
    MembersSkipSpace(u);
    assert (['{'] + u)[1..] == u;
  }

  lemma {:induction false} ElemsFailStep(s: string, e: Error, rest: string)
    requires Fails(ParseValue(s), e, rest)
      || (ParseValue(s).Done? && Looking(ParseValue(s).rest, ',')
          && Fails(ParseElems(ParseValue(s).rest[1..]), e, rest))
    ensures Fails(ParseElems(s), e, rest)
  {}

  lemma {:induction false} MembersFailStep(s: string, e: Error, rest: string)
    requires Fails(ParsePair(s), e, rest)
      || (ParsePair(s).Done? && Looking(ParsePair(s).rest, ',')
          && Fails(ParseMembers(ParsePair(s).rest[1..]), e, rest))
    ensures Fails(ParseMembers(s), e, rest)
  {}

  lemma {:induction false} QuoteFails(a: string)
    requires Escaped(a)
    ensures Fails(ParseString(['"'] + a), UnterminatedString, [])
    ensures Fails(ParseString(['"'] + (a + ['\\'])), PastEnd, [])
  {
    assert (['"'] + a)[1..] == a && (['"'] + (a + ['\\']))[1..] == a + ['\\'];
    ScanOpenIff(a);
    assert (a + ['\\'])[..|a|] == a;
    ScanPastIff(a + ['\\']);
  }

  // ---------- Every broken value fails ----------

  lemma {:induction false} BrokenStarts(v: BrokenValue, rest: string)
    requires Fits(v, rest) && StuckAt(Why(v.body), rest)
    ensures EatSpace(BrokenText(v) + rest) == BrokenBody(v.body) + rest
    ensures !Looking(EatSpace(BrokenText(v) + rest), ']')
    ensures v.body.NoValue? <==> BrokenBody(v.body) + rest == []
  {
    hide EatSpace, Text, ElemsText, MembersText, DoneText, DoneMembers, BrokenMemberText;
    hide Plain, PlainMember, PlainElems, PlainMembers, FitsMember, Ends, OpensArray, Escaped, AllIn;
    Regroup(v.before, BrokenBody(v.body), rest);
    EatSpaceSkips(v.before, BrokenBody(v.body) + rest);
    EatSpaceStops(BrokenBody(v.body) + rest);
  }

  lemma {:induction false} ValueFails(v: BrokenValue, rest: string)
    requires Fits(v, rest) && StuckAt(Why(v.body), rest)
    ensures Fails(ParseValue(BrokenText(v) + rest), Why(v.body), rest)
    decreases v
  {
    hide ParseBody, BrokenBody, BrokenText;
    BrokenStarts(v, rest);
    if !v.body.NoValue? {
      BodyFails(v.body, rest);
    }
  }

  lemma {:induction false} BodyFails(b: Broken, rest: string)
    requires !b.NoValue? && FitsBody(b, rest) && StuckAt(Why(b), rest)
    ensures Fails(ParseBody(BrokenBody(b) + rest), Why(b), rest)
    decreases b, 1
  {
    match b
    case OpenString(a) =>
      assert BrokenBody(b) + rest == ['"'] + a;
      QuoteFails(a);
    case OpenEscape(a) =>
      assert BrokenBody(b) + rest == ['"'] + (a + ['\\']);
      QuoteFails(a);
    case ArrItem(ls, v) => ArrItemFails(ls, v, rest);
    case ArrEnd(ls) => ArrEndFails(ls, rest);
    case ObjItem(ms, m) => ObjItemFails(ms, m, rest);
    case ObjEnd(ms) => ObjEndFails(ms, rest);
  }

  lemma {:induction false} DoneShape(l: Layout, ls: seq<Layout>, more: string)
    ensures DoneText([l] + ls) + more == Text(l) + ([','] + (DoneText(ls) + more))
  {
    assert ([l] + ls)[1..] == ls;
    Regroup(Text(l), [','] + DoneText(ls), more);
    Regroup([','], DoneText(ls), more);
  }

  lemma {:induction false} DoneMembersShape(m: Member, ms: seq<Member>, more: string)
    ensures DoneMembers([m] + ms) + more == MemberText(m) + ([','] + (DoneMembers(ms) + more))
  {
    assert ([m] + ms)[1..] == ms;
    Regroup(MemberText(m), [','] + DoneMembers(ms), more);
    Regroup([','], DoneMembers(ms), more);
  }

  lemma {:induction false} ElemsFail(ls: seq<Layout>, more: string, e: Error, rest: string)
    requires PlainElems(ls) && Fails(ParseValue(more), e, rest)
    ensures Fails(ParseElems(DoneText(ls) + more), e, rest)
    decreases ls
  {
    hide ParseElems, ParseValue, Text, Plain;
    if ls == [] {
      assert "" + more == more;
      ElemsFailStep(more, e, rest);
    } else {
      var tail := DoneText(ls[1..]) + more;
      assert ls == [ls[0]] + ls[1..];
      DoneShape(ls[0], ls[1..], more);
      SeparatorEnds(ls[0], [','] + tail);
      ValueParses(ls[0], [','] + tail);
      ElemsFail(ls[1..], more, e, rest);
      assert ([','] + tail)[1..] == tail;
      ElemsFailStep(DoneText(ls) + more, e, rest);
    }
  }

  lemma {:induction false} MembersFail(ms: seq<Member>, more: string, e: Error, rest: string)
    requires PlainMembers(ms) && Fails(ParsePair(more), e, rest)
    ensures Fails(ParseMembers(DoneMembers(ms) + more), e, rest)
    decreases ms
  {
    hide ParseMembers, ParsePair, MemberText, PlainMember;
    if ms == [] {
      assert "" + more == more;
      MembersFailStep(more, e, rest);
    } else {
      var tail := DoneMembers(ms[1..]) + more;
      assert ms == [ms[0]] + ms[1..];
      DoneMembersShape(ms[0], ms[1..], more);
      ValueOfPlain(ms[0]);
      SeparatorEnds(ms[0].value, [','] + tail);
      PairParses(ms[0], [','] + tail);
      MembersFail(ms[1..], more, e, rest);
      assert ([','] + tail)[1..] == tail;
      MembersFailStep(DoneMembers(ms) + more, e, rest);
    }
  }

  lemma {:induction false} DoneStarts(ls: seq<Layout>, more: string)
    requires ls != [] && Plain(ls[0])
    ensures Looking(EatSpace(DoneText(ls) + more), ']') <==> !OpensArray(Strip(ls[0]))
  {
    assert ls == [ls[0]] + ls[1..];
    DoneShape(ls[0], ls[1..], more);
    TextStarts(ls[0], [','] + (DoneText(ls[1..]) + more));
  }

  lemma {:induction false} MemberStarts(m: Member, more: string)
    requires PlainMember(m)
    ensures Looking(EatSpace(MemberText(m) + more), '"')
  {
    MemberShape(m, more);
    var q := Quoted(m.key, m.after + ([':'] + (Text(m.value) + more)));
    EatSpaceSkips(m.before, q);
    EatSpaceStops(q);
  }

  lemma {:induction false} ArrItemFails(ls: seq<Layout>, v: BrokenValue, rest: string)
    requires FitsBody(ArrItem(ls, v), rest) && StuckAt(Why(v.body), rest)
    ensures Fails(ParseBody(BrokenBody(ArrItem(ls, v)) + rest), Why(v.body), rest)
    decreases ArrItem(ls, v), 0
  {
    hide ParseBody, ParseElems, ParseValue, DoneText, BrokenText, Plain;
    var more := BrokenText(v) + rest;
    Regroup(['['], DoneText(ls) + BrokenText(v), rest);
    Regroup(DoneText(ls), BrokenText(v), rest);
    ValueFails(v, rest);
    ElemsFail(ls, more, Why(v.body), rest);
    if ls == [] {
      BrokenStarts(v, rest);
      NothingDone(more);
    } else {
      DoneStarts(ls, more);
    }
    ArrayFailStep(DoneText(ls) + more, Why(v.body), rest);
  }

  lemma {:induction false} NothingDone(more: string)
    ensures DoneText([]) + more == more && DoneMembers([]) + more == more
  {}

  lemma {:induction false} ArrEndFails(ls: seq<Layout>, rest: string)
    requires FitsBody(ArrEnd(ls), rest) && StuckAt(IllFormedArray, rest)
    ensures Fails(ParseBody(BrokenBody(ArrEnd(ls)) + rest), IllFormedArray, rest)
  {
    hide ParseBody, ParseElems, ElemsText, Plain;
    Regroup(['['], ElemsText(ls), rest);
    ElemsParse(ls, rest);
    ElemsTextStarts(ls, rest);
    ArrayFailStep(ElemsText(ls) + rest, IllFormedArray, rest);
  }

  lemma {:induction false} ObjItemFails(ms: seq<Member>, m: BrokenMember, rest: string)
    requires FitsBody(ObjItem(ms, m), rest) && StuckAt(WhyMember(m), rest)
    ensures Fails(ParseBody(BrokenBody(ObjItem(ms, m)) + rest), WhyMember(m), rest)
    decreases ObjItem(ms, m), 0
  {
    hide ParseBody, ParseMembers, ParsePair, DoneMembers, BrokenMemberText, PlainMember;
    var more := BrokenMemberText(m) + rest;
    Regroup(['{'], DoneMembers(ms) + BrokenMemberText(m), rest);
    Regroup(DoneMembers(ms), BrokenMemberText(m), rest);
    PairFails(m, rest);
    MembersFail(ms, more, WhyMember(m), rest);
    if ms == [] {
      BrokenMemberStarts(m, rest);
      NothingDone(more);
    } else {
      assert ms == [ms[0]] + ms[1..];
      DoneMembersShape(ms[0], ms[1..], more);
      MemberStarts(ms[0], [','] + (DoneMembers(ms[1..]) + more));
    }
    ObjectFailStep(DoneMembers(ms) + more, WhyMember(m), rest);
  }

  lemma {:induction false} BrokenMemberStarts(m: BrokenMember, rest: string)
    requires FitsMember(m, rest) && StuckAt(WhyMember(m), rest)
    ensures EatSpace(BrokenMemberText(m) + rest) == BrokenMemberText(m)[|m.before|..] + rest
    ensures m.NoKey? ==> EatSpace(BrokenMemberText(m) + rest) == rest
    ensures !m.NoKey? ==> Looking(EatSpace(BrokenMemberText(m) + rest), '"')
  {
    var t := BrokenMemberText(m)[|m.before|..];
    assert BrokenMemberText(m) == m.before + t;
    Regroup(m.before, t, rest);
    EatSpaceSkips(m.before, t + rest);
    EatSpaceStops(t + rest);
    if m.NoKey? { assert t + rest == rest; }
  }

  lemma {:induction false} ObjEndFails(ms: seq<Member>, rest: string)
    requires FitsBody(ObjEnd(ms), rest) && StuckAt(IllFormedObject, rest)
    ensures Fails(ParseBody(BrokenBody(ObjEnd(ms)) + rest), IllFormedObject, rest)
  {
    hide ParseBody, ParseMembers, MembersText, PlainMember;
    Regroup(['{'], MembersText(ms), rest);
    MembersParse(ms, rest);
    MembersTextStarts(ms, rest);
    ObjectFailStep(MembersText(ms) + rest, IllFormedObject, rest);
  }

  lemma {:induction false} PairFails(m: BrokenMember, rest: string)
    requires FitsMember(m, rest) && StuckAt(WhyMember(m), rest)
    ensures Fails(ParsePair(BrokenMemberText(m) + rest), WhyMember(m), rest)
    decreases m
  {
    hide BrokenText, BrokenMemberText, ParseValue, ParseKey;
    match m
    case NoColon(w, k, after) =>
      NoColonShape(w, k, after, rest);
      KeyParses(w, k, after, rest);
    case BadValue(w, k, after, v) =>
      var u := BrokenText(v) + rest;
      BadValueShape(w, k, after, v, rest);
      KeyParses(w, k, after, [':'] + u);
      EatSpaceStops([':'] + u);
      assert ([':'] + u)[1..] == u;
      ValueFails(v, rest);
    case _ => KeyFails(m, rest);
  }

  lemma {:induction false} KeyFails(m: BrokenMember, rest: string)
    requires m.NoKey? || m.OpenKey? || m.OpenKeyEscape?
    requires FitsMember(m, rest) && StuckAt(WhyMember(m), rest)
    ensures Fails(ParseKey(BrokenMemberText(m) + rest), WhyMember(m), rest)
  {
    hide ParseString, Escaped;
    BrokenMemberStarts(m, rest);
    var t := BrokenMemberText(m)[|m.before|..];
    match m
    case NoKey(w) =>
    case OpenKey(w, a) =>
      QuoteFails(a);
      assert t + rest == t == ['"'] + a;
    case OpenKeyEscape(w, a) =>
      QuoteFails(a);
      assert t + rest == t == ['"'] + (a + ['\\']);
  }

  // ---------- Only broken values fail ----------

  lemma {:induction false} ValueBroken(s: string) returns (v: BrokenValue)
    requires ParseValue(s).Failed?
    ensures BreaksOff(v, s, ParseValue(s).error, ParseValue(s).rest)
    decreases |s|, 1
  {
    hide ParseBody, ParseValue, BrokenBody, FitsBody, StuckAt, Why, EatSpace, LeadingSpace;
    FailureIsWhereItStops(s);
    EatSpaceSplits(s);
    ValueFailCases(s);
    var t, rest := EatSpace(s), ParseValue(s).rest;
    if t == [] {
      v := BrokenValue(LeadingSpace(s), NoValue);
      NothingIsNoValue(rest);
      assert s == LeadingSpace(s) + "" + "";
    } else {
      var b := BodyBroken(t);
      v := BrokenValue(LeadingSpace(s), b);
      Regroup(LeadingSpace(s), BrokenBody(b), rest);
    }
    assert s == BrokenText(v) + rest;
  }

  /** A value fails because there is none, or as its body does. */
  lemma {:induction false} ValueFailCases(s: string)
    requires ParseValue(s).Failed?
    ensures var t, p := EatSpace(s), ParseValue(s);
      if t == [] then p.error == PastEnd && p.rest == []
      else ParseBody(t).Failed? && p.error == ParseBody(t).error && p.rest == ParseBody(t).rest
  {
    hide ParseBody, StuckAt;
    var t := EatSpace(s);
    if t != [] && ParseBody(t).Failed? {
      BodyStuck(t);
      StuckIsEaten(ParseBody(t).error, ParseBody(t).rest);
    }
  }

  lemma {:induction false} NothingIsNoValue(rest: string)
    ensures BrokenBody(NoValue) == "" && Why(NoValue) == PastEnd && FitsBody(NoValue, rest)
  {}

  lemma {:induction false} StuckIsEaten(e: Error, rest: string)
    requires StuckAt(e, rest)
    ensures EatSpace(rest) == rest
  {}

  lemma {:induction false} QuoteBroken(t: string) returns (a: string)
    requires Looking(t, '"') && ParseString(t).Failed?
    ensures Escaped(a) && ParseString(t).rest == []
    ensures match ParseString(t).error
            case PastEnd => t == ['"'] + (a + ['\\'])
            case UnterminatedString => t == ['"'] + a
            case _ => false
  {
    hide Escaped;
    var u := t[1..];
    ScanCases(u);
    if ScanString(u).Open? {
      a := u;
    } else {
      a := u[..|u| - 1];
      assert u == a + ['\\'];
    }
  }

  lemma {:induction false} BodyBroken(t: string) returns (b: Broken)
    requires t != [] && !IsSpace(t[0]) && ParseBody(t).Failed?
    ensures !b.NoValue? && FitsBody(b, ParseBody(t).rest) && Why(b) == ParseBody(t).error
    ensures t == BrokenBody(b) + ParseBody(t).rest
    decreases |t|, 0, 1
  {
    hide ParseString, ParseArray, ParseObject, Escaped;
    if t[0] == '"' {
      var a := QuoteBroken(t);
      b := if ParseString(t).error == PastEnd then OpenEscape(a) else OpenString(a);
      assert BrokenBody(b) + "" == BrokenBody(b);
    } else if t[0] == '[' {
      b := ArrayBroken(t);
    } else {
      b := ObjectBroken(t);
    }
  }

  lemma {:induction false} ArrayBroken(t: string) returns (b: Broken)
    requires Looking(t, '[') && ParseArray(t).Failed?
    ensures (b.ArrItem? || b.ArrEnd?) && FitsBody(b, ParseArray(t).rest) && Why(b) == ParseArray(t).error
    ensures t == BrokenBody(b) + ParseArray(t).rest
    decreases |t|, 0, 0
  {
    hide ParseElems, ElemsText, DoneText, BrokenText, Plain, Fits;
    var u, rest := t[1..], ParseArray(t).rest;
    ElemsSkipSpace(u);
    assert t == ['['] + u;
    if ParseElems(u).Failed? {
      var ls, v := ElemsBroken(u);
      b := ArrItem(ls, v);
      if ls != [] { DoneStarts(ls, BrokenText(v) + rest); }
      Regroup(['['], DoneText(ls) + BrokenText(v), rest);
      Regroup(DoneText(ls), BrokenText(v), rest);
    } else {
      var ls := ElemsSound(u);
      b := ArrEnd(ls);
      ElemsTextStarts(ls, rest);
      Regroup(['['], ElemsText(ls), rest);
    }
  }

  lemma {:induction false} ElemsBroken(s: string) returns (ls: seq<Layout>, v: BrokenValue)
    requires ParseElems(s).Failed?
    ensures PlainElems(ls) && Fits(v, ParseElems(s).rest) && Why(v.body) == ParseElems(s).error
    ensures s == DoneText(ls) + (BrokenText(v) + ParseElems(s).rest)
    decreases |s|, 2
  {
    hide ParseElems, ParseValue, DoneText, BrokenText, Text, Plain, Fits;
    var p, rest := ParseValue(s), ParseElems(s).rest;
    ElemsFailCases(s);
    if p.Failed? {
      v := ValueBroken(s);
      ls := [];
      NothingDone(BrokenText(v) + rest);
    } else {
      var l := ValueSound(s);
      var ls';
      ls', v := ElemsBroken(p.rest[1..]);
      ls := [l] + ls';
      DoneShape(l, ls', BrokenText(v) + rest);
    }
  }

  lemma {:induction false} ElemsFailCases(s: string)
    requires ParseElems(s).Failed?
    ensures var p, r := ParseValue(s), ParseElems(s);
      if p.Failed? then r.error == p.error && r.rest == p.rest
      else Looking(p.rest, ',') && p.rest == [','] + p.rest[1..]
           && Fails(ParseElems(p.rest[1..]), r.error, r.rest)
  {}

  /** Where the first key is missing, the text stops at what is no closing brace either. */
  lemma {:induction false} FirstKeyMissing(u: string, m: BrokenMember)
    requires ParseMembers(u).Failed? && m.NoKey? && !Looking(EatSpace(u), '}')
    requires FitsMember(m, ParseMembers(u).rest) && WhyMember(m) == ParseMembers(u).error
    requires u == DoneMembers([]) + (BrokenMemberText(m) + ParseMembers(u).rest)
    ensures !Looking(ParseMembers(u).rest, '}')
  {
    hide ParseMembers, BrokenMemberText, DoneMembers, FitsMember, EatSpace;
    var rest := ParseMembers(u).rest;
    MembersStuck(u);
    NothingDone(BrokenMemberText(m) + rest);
    BrokenMemberStarts(m, rest);
  }

  lemma {:induction false} ObjectBroken(t: string) returns (b: Broken)
    requires Looking(t, '{') && ParseObject(t).Failed?
    ensures (b.ObjItem? || b.ObjEnd?) && FitsBody(b, ParseObject(t).rest) && Why(b) == ParseObject(t).error
    ensures t == BrokenBody(b) + ParseObject(t).rest
    decreases |t|, 0, 0
  {
    hide ParseMembers, MembersText, DoneMembers, BrokenMemberText, PlainMember, FitsMember, Ends;
    var u, rest := t[1..], ParseObject(t).rest;
    MembersSkipSpace(u);
    assert t == ['{'] + u;
    if ParseMembers(u).Failed? {
      var ms, m := MembersBroken(u);
      b := ObjItem(ms, m);
      if ms == [] && m.NoKey? {
        FirstKeyMissing(u, m);
      }
      Regroup(['{'], DoneMembers(ms) + BrokenMemberText(m), rest);
      Regroup(DoneMembers(ms), BrokenMemberText(m), rest);
    } else {
      var ms := MembersSound(u);
      b := ObjEnd(ms);
      Regroup(['{'], MembersText(ms), rest);
    }
  }

  lemma {:induction false} MembersBroken(s: string) returns (ms: seq<Member>, m: BrokenMember)
    requires ParseMembers(s).Failed?
    ensures PlainMembers(ms) && FitsMember(m, ParseMembers(s).rest) && WhyMember(m) == ParseMembers(s).error
    ensures s == DoneMembers(ms) + (BrokenMemberText(m) + ParseMembers(s).rest)
    decreases |s|, 3
  {
    hide ParseMembers, ParsePair, DoneMembers, BrokenMemberText, MemberText, PlainMember, FitsMember;
    var p, rest := ParsePair(s), ParseMembers(s).rest;
    MembersFailCases(s);
    if p.Failed? {
      m := PairBroken(s);
      ms := [];
      NothingDone(BrokenMemberText(m) + rest);
    } else {
      var m0 := PairSound(s);
      var ms';
      ms', m := MembersBroken(p.rest[1..]);
      ms := [m0] + ms';
      DoneMembersShape(m0, ms', BrokenMemberText(m) + rest);
    }
  }

  lemma {:induction false} MembersFailCases(s: string)
    requires ParseMembers(s).Failed?
    ensures var p, r := ParsePair(s), ParseMembers(s);
      if p.Failed? then r.error == p.error && r.rest == p.rest
      else Looking(p.rest, ',') && p.rest == [','] + p.rest[1..]
           && Fails(ParseMembers(p.rest[1..]), r.error, r.rest)
  {}

  lemma {:induction false} PairBroken(s: string) returns (m: BrokenMember)
    requires ParsePair(s).Failed?
    ensures FitsMember(m, ParsePair(s).rest) && WhyMember(m) == ParsePair(s).error
    ensures s == BrokenMemberText(m) + ParsePair(s).rest
    decreases |s|, 2
  {
    hide ParseKey, ParseValue, ParseString, BrokenText, BrokenMemberText, Fits, Escaped, AllIn;
    var k := ParseKey(s);
    if k.Failed? {
      m := KeyBroken(s);
    } else {
      KeySound(s);
      var q := ParseString(EatSpace(s));
      var w, after := LeadingSpace(s), LeadingSpace(q.rest);
      if !Looking(k.rest, ':') {
        m := NoColon(w, q.value, after);
        NoColonShape(w, q.value, after, k.rest);
      } else {
        var v := ValueBroken(k.rest[1..]);
        m := BadValue(w, q.value, after, v);
        assert k.rest == [':'] + k.rest[1..];
        BadValueShape(w, q.value, after, v, ParsePair(s).rest);
      }
    }
  }

  lemma {:induction false} NoColonShape(w: string, k: string, after: string, rest: string)
    ensures BrokenMemberText(NoColon(w, k, after)) + rest == w + Quoted(k, after + rest)
  {}

  lemma {:induction false} BadValueShape(w: string, k: string, after: string, v: BrokenValue, rest: string)
    ensures BrokenMemberText(BadValue(w, k, after, v)) + rest
         == w + Quoted(k, after + ([':'] + (BrokenText(v) + rest)))
  {}

  lemma {:induction false} KeyBroken(s: string) returns (m: BrokenMember)
    requires ParseKey(s).Failed?
    ensures (m.NoKey? || m.OpenKey? || m.OpenKeyEscape?) && FitsMember(m, ParseKey(s).rest)
    ensures WhyMember(m) == ParseKey(s).error && s == BrokenMemberText(m) + ParseKey(s).rest
  {
    hide ParseString, Escaped;
    EatSpaceSplits(s);
    EatSpaceTwice(s);
    var t, w := EatSpace(s), LeadingSpace(s);
    if !Looking(t, '"') {
      m := NoKey(w);
    } else {
      var a := QuoteBroken(t);
      m := if ParseString(t).error == PastEnd then OpenKeyEscape(w, a) else OpenKey(w, a);
      assert BrokenMemberText(m) + "" == BrokenMemberText(m) == w + t;
    }
  }

  // ---------- The failures of the parser ----------

  /** The parser reports error e and stops at rest exactly on the values that break off before rest for
      that reason. */
  lemma {:induction false} FailsExactlyOnBroken(s: string, e: Error, rest: string)
    ensures Fails(ParseValue(s), e, rest) <==> exists v :: BreaksOff(v, s, e, rest)
  {
    hide ParseValue;
    if Fails(ParseValue(s), e, rest) {
      var v := ValueBroken(s);
    }
    forall v | BreaksOff(v, s, e, rest) ensures Fails(ParseValue(s), e, rest) {
      ValueFails(v, rest);
    }
  }

  /** Every text is a layout before some rest or a value broken off before some rest, and not both. */
  lemma {:induction false} LaidOutOrBroken(s: string)
    ensures (exists l, v, rest :: LaysOut(l, s, v, rest)) <==> !exists b, e, rest :: BreaksOff(b, s, e, rest)
  {
    hide ParseValue, LaysOut, BreaksOff;
    var p := ParseValue(s);
    if p.Done? {
      var l := ValueSound(s);
      assert LaysOut(l, s, p.value, p.rest);
    } else {
      var b := ValueBroken(s);
      assert BreaksOff(b, s, p.error, p.rest);
    }
    forall l, v, rest | LaysOut(l, s, v, rest) ensures p.Done? {
      ParsesExactlyLayouts(s, v, rest);
    }
    forall b, e, rest | BreaksOff(b, s, e, rest) ensures p.Failed? {
      FailsExactlyOnBroken(s, e, rest);
    }
  }
}
