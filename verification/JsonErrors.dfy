/** What a failed parse says about the text: why it failed, and where the cursor then stands. */
module JsonErrors {
  import opened JsonText
  import opened JsonParser
  import opened JsonLayout

  // ---------- Strings ----------

  lemma {:induction false} ScanOpenIff(t: string)
    ensures ScanString(t).Open? <==> Escaped(t)
  {
    if t != [] && t[0] != '"' && (t[0] != '\\' || |t| > 1) {
      ScanOpenIff(t[if t[0] == '\\' then 2 else 1..]);
    }
  }

  lemma {:induction false} ScanPastIff(t: string)
    ensures ScanString(t).Past? <==> t != [] && t[|t| - 1] == '\\' && Escaped(t[..|t| - 1])
  {
    if t != [] && t[0] != '"' && (t[0] != '\\' || |t| > 1) {
      var k := if t[0] == '\\' then 2 else 1;
      ScanPastIff(t[k..]);
      if |t| > k {
        assert t[..|t| - 1][k..] == t[k..][..|t[k..]| - 1];
      }
    }
  }

  lemma {:induction false} ScanClosedIff(t: string, n: nat)
    ensures ScanString(t) == Closed(n) <==> n < |t| && t[n] == '"' && Escaped(t[..n])
  {
    if t != [] && t[0] != '"' && (t[0] != '\\' || |t| > 1) {
      var k := if t[0] == '\\' then 2 else 1;
      if k <= n <= |t| {
        ScanClosedIff(t[k..], n - k);
        assert t[..n][k..] == t[k..][..n - k];
      }
    }
  }

  /** The three ways a scan for a closing quote can end, told apart by the text alone. */
  lemma {:induction false} ScanCases(t: string)
    ensures ScanString(t).Open? <==> Escaped(t)
    ensures ScanString(t).Past? <==> t != [] && t[|t| - 1] == '\\' && Escaped(t[..|t| - 1])
    ensures forall n: nat :: ScanString(t) == Closed(n) <==> n < |t| && t[n] == '"' && Escaped(t[..n])
  {
    ScanOpenIff(t);
    ScanPastIff(t);
    forall n: nat ensures ScanString(t) == Closed(n) <==> n < |t| && t[n] == '"' && Escaped(t[..n]) {
      ScanClosedIff(t, n);
    }
  }

  // ---------- Where parsing stops ----------

  /** The cursor after a failure: never at space, at the end if a value or a string is cut short, and
      otherwise at a character that could not come next. */
  predicate StuckAt(e: Error, rest: string) {
    EatSpace(rest) == rest
    && match e
       case UnterminatedString => rest == []
       case PastEnd => rest == []
       case IllFormedKey => !Looking(rest, '"')
       case IllFormedPair => !Looking(rest, ':')
       case IllFormedArray => !Looking(rest, ',') && !Looking(rest, ']')
       case IllFormedObject => !Looking(rest, ',') && !Looking(rest, '}')
  }

  predicate Stuck<T>(r: Parsed<T>) { r.Failed? ==> StuckAt(r.error, r.rest) }

  lemma {:induction false} KeyStuck(s: string)
    ensures Stuck(ParseKey(s))
    ensures EatSpace(ParseKey(s).rest) == ParseKey(s).rest
  {
    EatSpaceTwice(s);
    var t := EatSpace(s);
    EatSpaceTwice(if Looking(t, '"') then ParseString(t).rest else t);
  }

  /** Wherever and however deep parsing fails, the cursor is left where the reason is. */
  lemma {:induction false} FailureIsWhereItStops(s: string)
    ensures Stuck(ParseValue(s))
    ensures EatSpace(ParseValue(s).rest) == ParseValue(s).rest
    decreases |s|, 1
  {
    var t := EatSpace(s);
    if t != [] {
      BodyStuck(t);
      EatSpaceTwice(ParseBody(t).rest);
    }
  }

  lemma {:induction false} BodyStuck(t: string)
    requires t != []
    ensures Stuck(ParseBody(t))
    decreases |t|, 0, 1
  {
    if t[0] == '[' {
      ArrayStuck(t);
    } else if t[0] == '{' {
      ObjectStuck(t);
    }
  }

  lemma {:induction false} ArrayStuck(s: string)
    requires s != []
    ensures Stuck(ParseArray(s))
    decreases |s|, 0, 0
  {
    ElemsStuck(EatSpace(s[1..]));
  }

  lemma {:induction false} ElemsStuck(s: string)
    ensures Stuck(ParseElems(s))
    ensures ParseElems(s).Done? ==> EatSpace(ParseElems(s).rest) == ParseElems(s).rest
    ensures ParseElems(s).Done? ==> !Looking(ParseElems(s).rest, ',')
    decreases |s|, 2
  {
    FailureIsWhereItStops(s);
    var p := ParseValue(s);
    if p.Done? && Looking(p.rest, ',') {
      ElemsStuck(p.rest[1..]);
    }
  }

  lemma {:induction false} ObjectStuck(s: string)
    requires s != []
    ensures Stuck(ParseObject(s))
    decreases |s|, 0, 0
  {
    MembersStuck(EatSpace(s[1..]));
  }

  lemma {:induction false} PairStuck(s: string)
    ensures Stuck(ParsePair(s))
    ensures ParsePair(s).Done? ==> EatSpace(ParsePair(s).rest) == ParsePair(s).rest
    decreases |s|, 2
  {
    KeyStuck(s);
    var k := ParseKey(s);
    if k.Done? && Looking(k.rest, ':') {
      FailureIsWhereItStops(k.rest[1..]);
    }
  }

  lemma {:induction false} MembersStuck(s: string)
    ensures Stuck(ParseMembers(s))
    ensures ParseMembers(s).Done? ==> EatSpace(ParseMembers(s).rest) == ParseMembers(s).rest
    ensures ParseMembers(s).Done? ==> !Looking(ParseMembers(s).rest, ',')
    decreases |s|, 3
  {
    PairStuck(s);
    var p := ParsePair(s);
    if p.Done? && Looking(p.rest, ',') {
      MembersStuck(p.rest[1..]);
    }
  }
}
