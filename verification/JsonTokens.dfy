/** Which characters the tokens and the space of the dialect consist of, spelled out. Everything here is
    stated over literal characters; the scanning loops and their character classes appear in proofs only. */
module JsonTokens {
  import opened Wrappers
  import opened JsonText
  import opened JsonParser
  import opened JsonLayout
  import opened Sequences

  const BLANKS: string := [' ', '\t', '\n', '\U{0B}', '\U{0C}', '\r']
  const DIGITS: string := "0123456789"
  const NUMERIC: string := "0123456789.eE"
  const LOWER: string := "abcdefghijklmnopqrstuvwxyz"
  const UPPER: string := "ABCDEFGHIJKLMNOPQRSTUVWXYZ"
  const WORD: string := LOWER + UPPER + DIGITS + "_"

  /** Every character of s is one of those in set. */
  predicate Of(s: string, chars: string) { forall i | 0 <= i < |s| :: s[i] in chars }

  /** s begins with none of the characters. */
  predicate Apart(s: string, chars: string) { s == [] || s[0] !in chars }

  // ---------- The classes of the scanning loops ----------

  lemma {:induction false} SpaceChars(c: char)
    ensures IsSpace(c) <==> c in BLANKS
  {}

  /** The characters of s are consecutive, from `first` on. */
  predicate Consecutive(s: string, first: char) {
    forall i | 0 <= i < |s| :: s[i] as int == first as int + i
  }

  lemma {:induction false} ConsecutiveChars(s: string, first: char, c: char)
    requires Consecutive(s, first)
    ensures c in s <==> first as int <= c as int < first as int + |s|
  {
    if first as int <= c as int < first as int + |s| {
      assert s[c as int - first as int] == c;
    }
  }

  lemma {:induction false} DigitChars(c: char)
    ensures IsDigit(c) <==> c in DIGITS
  {
    assert Consecutive(DIGITS, '0');
    ConsecutiveChars(DIGITS, '0', c);
  }

  lemma {:induction false} NumericChars(c: char)
    ensures IsNum(c) <==> c in NUMERIC
  {
    DigitChars(c);
    assert NUMERIC == DIGITS + ".eE";
  }

  lemma {:induction false} LowerChars(c: char)
    ensures c in LOWER <==> 'a' <= c <= 'z'
  {
    assert Consecutive(LOWER, 'a');
    ConsecutiveChars(LOWER, 'a', c);
  }

  lemma {:induction false} UpperChars(c: char)
    ensures c in UPPER <==> 'A' <= c <= 'Z'
  {
    assert Consecutive(UPPER, 'A');
    ConsecutiveChars(UPPER, 'A', c);
  }

  lemma {:induction false} WordChars(c: char)
    ensures IsIdent(c) <==> c in WORD
  {
    LowerChars(c);
    UpperChars(c);
    DigitChars(c);
    InParts(c, LOWER, UPPER, DIGITS);
  }

  lemma {:induction false} InParts(c: char, a: string, b: string, d: string)
    ensures c in a + b + d + "_" <==> c in a || c in b || c in d || c == '_'
  {}

  // ---------- What a token is, and where it ends ----------

  lemma {:induction false} BlankText(w: string)
    ensures AllIn(Space, w) <==> Of(w, BLANKS)
  {
    forall c: char ensures IsSpace(c) <==> c in BLANKS { SpaceChars(c); }
  }

  lemma {:induction false} NumericText(s: string)
    ensures AllIn(NumTail, s) <==> Of(s, NUMERIC)
  {
    hide IsNum;
    forall c: char ensures IsNum(c) <==> c in NUMERIC { NumericChars(c); }
  }

  lemma {:induction false} WordText(s: string)
    ensures AllIn(IdentTail, s) <==> Of(s, WORD)
  {
    hide IsIdent;
    forall c: char ensures IsIdent(c) <==> c in WORD { WordChars(c); }
  }

  lemma {:induction false} NoBlankText(r: string)
    ensures EatSpace(r) == r <==> Apart(r, BLANKS)
  {
    EatSpaceStops(r);
    if r != [] { SpaceChars(r[0]); }
  }

  lemma {:induction false} StartChars(c: char)
    ensures StartsNumber(c) <==> c in "-0123456789"
    ensures StartsIdent(c) <==> c !in BLANKS && c !in "-0123456789" && c !in "\"[{"
  {
    DigitChars(c);
    SpaceChars(c);
    assert "-0123456789" == "-" + DIGITS;
  }

  lemma {:induction false} NumberToken(t: string)
    ensures NumToken(t) <==> t != [] && t[0] in "-0123456789" && Of(t[1..], NUMERIC)
  {
    if t != [] {
      StartChars(t[0]);
      NumericText(t[1..]);
    }
  }

  lemma {:induction false} WordToken(t: string)
    ensures IdentToken(t)
      <==> t != [] && t[0] !in BLANKS && t[0] !in "-0123456789" && t[0] !in "\"[{" && Of(t[1..], WORD)
  {
    if t != [] {
      StartChars(t[0]);
      WordText(t[1..]);
    }
  }

  /** s is the token t between blanks, before r, and what follows t is not of its characters. */
  predicate Between(s: string, w: string, t: string, b: string, r: string, chars: string) {
    Of(w, BLANKS) && Of(b, BLANKS) && s == w + (t + (b + r)) && Apart(b + r, chars) && Apart(r, BLANKS)
  }

  lemma {:induction false} NumberLaysOut(s: string, w: string, t: string, b: string, r: string)
    ensures LaysOut(Layout(w, NumBody(t), b), s, Num(t), r)
      <==> t != [] && t[0] in "-0123456789" && Of(t[1..], NUMERIC) && Between(s, w, t, b, r, NUMERIC)
  {
    hide EatSpace, NumToken, AllIn, IsNum, IsIdent, Of, NUMERIC, BLANKS;
    NumberToken(t);
    BlankText(w);
    BlankText(b);
    NoBlankText(r);
    var l := Layout(w, NumBody(t), b);
    TextShape(l, r);
    assert Strip(l) == StripBody(l.body) == Num(t) && BodyText(l.body) == t;
    assert Plain(l) <==> AllIn(Space, w) && AllIn(Space, b) && NumToken(t);
    if b + r != [] { NumericChars((b + r)[0]); }
  }

  lemma {:induction false} WordLaysOut(s: string, w: string, t: string, b: string, r: string)
    ensures LaysOut(Layout(w, IdentBody(t), b), s, Ident(t), r)
      <==> t != [] && t[0] !in BLANKS && t[0] !in "-0123456789" && t[0] !in "\"[{" && Of(t[1..], WORD)
           && Between(s, w, t, b, r, WORD)
  {
    hide EatSpace, IdentToken, AllIn, IsNum, IsIdent, Of, WORD, BLANKS;
    WordToken(t);
    BlankText(w);
    BlankText(b);
    NoBlankText(r);
    var l := Layout(w, IdentBody(t), b);
    TextShape(l, r);
    assert Strip(l) == StripBody(l.body) == Ident(t) && BodyText(l.body) == t;
    assert Plain(l) <==> AllIn(Space, w) && AllIn(Space, b) && IdentToken(t);
    if b + r != [] { WordChars((b + r)[0]); }
  }

  /** The parser reads a number t before r exactly where, between blanks, t starts with a digit or '-',
      goes on with digits, '.', 'e' and 'E', and is followed by none of these. */
  lemma {:induction false} NumbersExactly(s: string, t: string, r: string)
    ensures ParseValue(s) == Done(Num(t), r, 1)
      <==> t != [] && t[0] in "-0123456789" && Of(t[1..], NUMERIC)
           && exists w, b :: Between(s, w, t, b, r, NUMERIC)
  {
    hide ParseValue, LaysOut, Between, Of, NUMERIC;
    ParsesExactlyLayouts(s, Num(t), r);
    forall w, b
      ensures LaysOut(Layout(w, NumBody(t), b), s, Num(t), r)
        <==> t != [] && t[0] in "-0123456789" && Of(t[1..], NUMERIC) && Between(s, w, t, b, r, NUMERIC)
    {
      NumberLaysOut(s, w, t, b, r);
    }
    forall l | LaysOut(l, s, Num(t), r) ensures l == Layout(l.before, NumBody(t), l.after) {
      LaidOutToken(l, s, Num(t), r);
    }
  }

  /** The parser reads an identifier t before r exactly where, between blanks, t starts as no other value
      does, goes on with letters, digits and '_', and is followed by none of these. */
  lemma {:induction false} WordsExactly(s: string, t: string, r: string)
    ensures ParseValue(s) == Done(Ident(t), r, 1)
      <==> t != [] && t[0] !in BLANKS && t[0] !in "-0123456789" && t[0] !in "\"[{" && Of(t[1..], WORD)
           && exists w, b :: Between(s, w, t, b, r, WORD)
  {
    hide ParseValue, LaysOut, Between, Of, WORD, BLANKS;
    ParsesExactlyLayouts(s, Ident(t), r);
    forall w, b
      ensures LaysOut(Layout(w, IdentBody(t), b), s, Ident(t), r)
        <==> t != [] && t[0] !in BLANKS && t[0] !in "-0123456789" && t[0] !in "\"[{" && Of(t[1..], WORD)
             && Between(s, w, t, b, r, WORD)
    {
      WordLaysOut(s, w, t, b, r);
    }
    forall l | LaysOut(l, s, Ident(t), r) ensures l == Layout(l.before, IdentBody(t), l.after) {
      LaidOutToken(l, s, Ident(t), r);
    }
  }

  lemma {:induction false} LaidOutToken(l: Layout, s: string, v: Value, r: string)
    requires LaysOut(l, s, v, r)
    ensures v.Num? ==> l == Layout(l.before, NumBody(v.digits), l.after)
    ensures v.Ident? ==> l == Layout(l.before, IdentBody(v.name), l.after)
  {
    assert StripBody(l.body) == v;
    match l.body
    case _ =>
  }

  /** Blanks before a value, and no other characters, are skipped. */
  lemma {:induction false} BlanksAreSkipped(w: string, s: string)
    requires Of(w, BLANKS)
    ensures ParseValue(w + s) == ParseValue(s)
  {
    BlankText(w);
    EatSpaceSkips(w, s);
  }

  // ---------- Decimal numerals and literals ----------

  /** A decimal numeral without a sign in its exponent. */
  datatype Decimal = Decimal(negative: bool, whole: string, fraction: Option<string>, exponent: Option<(char, string)>)

  predicate IsDecimal(d: Decimal) {
    d.whole != [] && Of(d.whole, DIGITS)
    && (d.fraction.Some? ==> d.fraction.value != [] && Of(d.fraction.value, DIGITS))
    && (d.exponent.Some? ==>
          d.exponent.value.0 in "eE" && d.exponent.value.1 != [] && Of(d.exponent.value.1, DIGITS))
  }

  function Sign(d: Decimal): string { if d.negative then "-" else "" }

  function Fraction(d: Decimal): string { if d.fraction.Some? then "." + d.fraction.value else "" }

  function Exponent(d: Decimal): string {
    if d.exponent.Some? then [d.exponent.value.0] + d.exponent.value.1 else ""
  }

  function Written(d: Decimal): string { Sign(d) + (d.whole + (Fraction(d) + Exponent(d))) }

  lemma {:induction false} DigitsAreNumeric(s: string)
    requires Of(s, DIGITS)
    ensures Of(s, NUMERIC)
  {
    assert NUMERIC == DIGITS + ".eE";
  }

  lemma {:induction false} OfConcat(a: string, b: string, chars: string)
    requires Of(a, chars) && Of(b, chars)
    ensures Of(a + b, chars)
  {}

  lemma {:induction false} OfTail(s: string, chars: string)
    requires s != [] && Of(s, chars)
    ensures Of(s[1..], chars) && s[0] in chars
  {}

  lemma {:induction false} DecimalTail(d: Decimal)
    requires IsDecimal(d)
    ensures Of(d.whole + (Fraction(d) + Exponent(d)), NUMERIC)
  {
    hide DIGITS, NUMERIC;
    MarksAreNumeric();
    DigitsAreNumeric(d.whole);
    if d.fraction.Some? {
      DigitsAreNumeric(d.fraction.value);
      OfConcat(".", d.fraction.value, NUMERIC);
    }
    if d.exponent.Some? {
      DigitsAreNumeric(d.exponent.value.1);
      OfConcat([d.exponent.value.0], d.exponent.value.1, NUMERIC);
    }
    OfConcat(Fraction(d), Exponent(d), NUMERIC);
    OfConcat(d.whole, Fraction(d) + Exponent(d), NUMERIC);
  }

  lemma {:induction false} MarksAreNumeric()
    ensures Of(".", NUMERIC) && forall c | c in "eE" :: Of([c], NUMERIC)
  {
    assert NUMERIC == DIGITS + ".eE";
  }

  /** What may follow a value: the end, a blank, or a structural character that closes or separates. */
  predicate Terminated(rest: string) { rest == [] || rest[0] in BLANKS || rest[0] in ",]}" }

  lemma {:induction false} TerminatedApart(rest: string)
    requires Terminated(rest)
    ensures Apart(rest, NUMERIC) && Apart(rest, WORD)
  {
    if rest != [] {
      NumericChars(rest[0]);
      WordChars(rest[0]);
    }
  }

  /** rest without its leading blanks. */
  lemma {:induction false} BlanksSplit(rest: string) returns (b: string, r: string)
    ensures Of(b, BLANKS) && rest == b + r && Apart(r, BLANKS)
  {
    b, r := LeadingSpace(rest), EatSpace(rest);
    EatSpaceSplits(rest);
    BlankText(b);
    if r != [] { SpaceChars(r[0]); }
  }

  /** Every decimal numeral is read in full, up to the blanks after it. */
  lemma {:induction false} DecimalsRead(d: Decimal, rest: string) returns (b: string, r: string)
    requires IsDecimal(d) && Terminated(rest)
    ensures Of(b, BLANKS) && rest == b + r && Apart(r, BLANKS)
    ensures ParseValue(Written(d) + rest) == Done(Num(Written(d)), r, 1)
  {
    hide ParseValue, BLANKS, NUMERIC, DIGITS, Of, Terminated;
    b, r := BlanksSplit(rest);
    DecimalToken(d);
    TerminatedApart(rest);
    NoBlanks();
    assert "" + (Written(d) + (b + r)) == Written(d) + rest;
    assert Between(Written(d) + rest, "", Written(d), b, r, NUMERIC);
    NumbersExactly(Written(d) + rest, Written(d), r);
  }

  lemma {:induction false} NoBlanks()
    ensures Of("", BLANKS)
  {}

  lemma {:induction false} DecimalToken(d: Decimal)
    requires IsDecimal(d)
    ensures var t := Written(d); t != [] && t[0] in "-0123456789" && Of(t[1..], NUMERIC)
  {
    hide NUMERIC, Fraction, Exponent;
    var t, tail := Written(d), d.whole + (Fraction(d) + Exponent(d));
    DecimalTail(d);
    OfTail(tail, NUMERIC);
    OfTail(d.whole, DIGITS);
    assert "-0123456789" == "-" + DIGITS;
    if d.negative {
      assert t[1..] == tail;
    } else {
      assert t == tail && t[0] == d.whole[0];
    }
  }

  /** The literals of JSON are read as identifiers. */
  lemma {:induction false} LiteralsRead(word: string, rest: string) returns (b: string, r: string)
    requires word in ["true", "false", "null"] && Terminated(rest)
    ensures Of(b, BLANKS) && rest == b + r && Apart(r, BLANKS)
    ensures ParseValue(word + rest) == Done(Ident(word), r, 1)
  {
    hide ParseValue, BLANKS, WORD, Of, Terminated;
    b, r := BlanksSplit(rest);
    LiteralToken(word);
    TerminatedApart(rest);
    NoBlanks();
    assert "" + (word + (b + r)) == word + rest;
    assert Between(word + rest, "", word, b, r, WORD);
    WordsExactly(word + rest, word, r);
  }

  lemma {:induction false} LiteralToken(word: string)
    requires word in ["true", "false", "null"]
    ensures word[0] !in BLANKS && word[0] !in "-0123456789" && word[0] !in "\"[{" && Of(word[1..], WORD)
  {
    forall c | c in word[1..] ensures c in WORD {
      LowerChars(c);
      InParts(c, LOWER, UPPER, DIGITS);
    }
  }

  /** Empty arrays and objects are shared and allocate nothing. */
  lemma {:induction false} EmptyIsShared(w: string)
    requires Of(w, BLANKS)
    ensures ParseValue("[" + w + "]") == Done(Arr([]), "", 0)
    ensures ParseValue("{" + w + "}") == Done(Obj([]), "", 0)
  {
    hide ParseValue;
    BlankText(w);
    var a, o := Layout("", EmptyArr(w), ""), Layout("", EmptyObj(w), "");
    assert Text(a) + "" == "[" + w + "]" && Text(o) + "" == "{" + w + "}";
    assert Plain(a) && Plain(o) && Strip(a) == Arr([]) && Strip(o) == Obj([]);
    ValueParses(a, "");
    ValueParses(o, "");
  }

  /** A signed exponent, which section 6 of RFC 8259 allows, is cut off before its sign. */
  lemma {:induction false} SignedExponentIsCut()
    ensures ParseValue("1e-5") == Done(Num("1e"), "-5", 1)
  {
    assert "" + ("1e" + ("" + "-5")) == "1e-5";
    assert Between("1e-5", "", "1e", "", "-5", NUMERIC);
    NumbersExactly("1e-5", "1e", "-5");
  }
}
