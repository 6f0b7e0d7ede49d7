// Laws of the language operators, and the languages of the compiler's fixed rule bodies.
module Languages {
  import opened Wrappers
  import opened Text
  import opened Grammar
  import opened SchemaModel

  // ---------------------------------------------------------------- concatenation

  lemma CatIntro(u: string, v: string, a: Lang, b: Lang)
    requires u in a && v in b
    ensures u + v in Cat(a, b)
  {
    assert (u + v)[..|u|] == u && (u + v)[|u|..] == v;
  }

  lemma CatSplit(w: string, a: Lang, b: Lang) returns (u: string, v: string)
    requires w in Cat(a, b)
    ensures u in a && v in b && w == u + v
  {
    var i: nat :| i <= |w| && w[..i] in a && w[i..] in b;
    u, v := w[..i], w[i..];
  }

  lemma CatAssoc(a: Lang, b: Lang, c: Lang)
    ensures Same(Cat(Cat(a, b), c), Cat(a, Cat(b, c)))
  {
    forall w | w in Cat(Cat(a, b), c) ensures w in Cat(a, Cat(b, c)) {
      var uv, t := CatSplit(w, Cat(a, b), c);
      var u, v := CatSplit(uv, a, b);
      CatIntro(v, t, b, c);
      CatIntro(u, v + t, a, Cat(b, c));
      assert w == u + (v + t);
    }
    forall w | w in Cat(a, Cat(b, c)) ensures w in Cat(Cat(a, b), c) {
      var u, vt := CatSplit(w, a, Cat(b, c));
      var v, t := CatSplit(vt, b, c);
      CatIntro(u, v, a, b);
      CatIntro(u + v, t, Cat(a, b), c);
      assert w == u + v + t;
    }
    assert Cat(Cat(a, b), c) == Cat(a, Cat(b, c));
  }

  // ---------------------------------------------------------------- separated lists

  // `count` items with a separator between neighbours.
  ghost function Listed(item: Lang, sep: Lang, count: nat): Lang
    requires count >= 1
  {
    if count == 1 then item else Cat(item, Cat(sep, Listed(item, sep, count - 1)))
  }

  // One item or more.
  ghost predicate IsListed(item: Lang, sep: Lang, w: string) {
    exists count: nat :: count >= 1 && w in Listed(item, sep, count)
  }

  ghost function ListOf(item: Lang, sep: Lang): Lang {
    iset w: string | IsListed(item, sep, w) :: w
  }

  lemma OneMore(item: Lang, sep: Lang, p: string, s: string, tail: string, count: nat)
    requires count >= 1 && p in item && s in sep && tail in Listed(item, sep, count)
    ensures p + (s + tail) in Listed(item, sep, count + 1)
  {
    CatIntro(s, tail, sep, Listed(item, sep, count));
    CatIntro(p, s + tail, item, Cat(sep, Listed(item, sep, count)));
  }

  lemma OneItem(item: Lang, sep: Lang)
    ensures Listed(item, sep, 1) == item
  {
  }

  lemma Cut(w: string, i: nat)
    requires i <= |w|
    ensures w == w[..i] + w[i..]
  {
  }

  lemma {:induction false} StarToList(item: Lang, sep: Lang, p: string, rest: string) returns (count: nat)
    requires p in item && InStar(Cat(sep, item), rest)
    ensures count >= 1 && p + rest in Listed(item, sep, count)
    decreases |rest|
  {
    hide Cat, Listed;
    if rest == "" {
      count := 1;
      OneItem(item, sep);
      assert p + rest == p;
    } else {
      var i: nat :| 0 < i <= |rest| && rest[..i] in Cat(sep, item) && InStar(Cat(sep, item), rest[i..]);
      var s, q := CatSplit(rest[..i], sep, item);
      var k := StarToList(item, sep, q, rest[i..]);
      count := k + 1;
      OneMore(item, sep, p, s, q + rest[i..], k);
      Cut(rest, i);
      Assoc(s, q, rest[i..]);
    }
  }

  lemma EmptyInStar(a: Lang)
    ensures InStar(a, "")
  {
  }

  lemma StarMore(a: Lang, x: string, rest: string)
    requires x in a && x != "" && InStar(a, rest)
    ensures InStar(a, x + rest)
  {
    assert (x + rest)[..|x|] == x && (x + rest)[|x|..] == rest;
  }

  lemma {:induction false} ListToStar(item: Lang, sep: Lang, w: string, count: nat) returns (p: string, rest: string)
    requires count >= 1 && w in Listed(item, sep, count) && "" !in sep
    ensures w == p + rest && p in item && InStar(Cat(sep, item), rest)
    decreases count
  {
    hide Cat, InStar;
    if count == 1 {
      p, rest := w, "";
      assert p + rest == w;
      EmptyInStar(Cat(sep, item));
    } else {
      var tail;
      p, tail := CatSplit(w, item, Cat(sep, Listed(item, sep, count - 1)));
      var s, more := CatSplit(tail, sep, Listed(item, sep, count - 1));
      var q, after := ListToStar(item, sep, more, count - 1);
      CatIntro(s, q, sep, item);
      StarMore(Cat(sep, item), s + q, after);
      rest := s + q + after;
      Assoc(s, q, after);
    }
  }

  // item (sep item)* is the separated list.
  lemma StarIsList(item: Lang, sep: Lang)
    requires "" !in sep
    ensures Same(Cat(item, Many(Cat(sep, item))), ListOf(item, sep))
  {
    forall w | w in Cat(item, Many(Cat(sep, item))) ensures IsListed(item, sep, w) {
      var p, rest := CatSplit(w, item, Many(Cat(sep, item)));
      var count := StarToList(item, sep, p, rest);
    }
    forall w | IsListed(item, sep, w) ensures w in Cat(item, Many(Cat(sep, item))) {
      var count: nat :| count >= 1 && w in Listed(item, sep, count);
      var p, rest := ListToStar(item, sep, w, count);
      CatIntro(p, rest, item, Many(Cat(sep, item)));
    }
    assert Cat(item, Many(Cat(sep, item))) == ListOf(item, sep);
  }

  // ---------------------------------------------------------------- tokens

  // Any run of blanks.
  predicate AllBlank(w: string) {
    forall i :: 0 <= i < |w| ==> InClass(Blanks, w[i])
  }

  ghost function Blank(): Lang {
    iset w: string | AllBlank(w) :: w
  }

  // Digits, one or more.
  ghost function DigitRun(): Lang {
    iset w: string | w != "" && AllDigits(w) :: w
  }

  // Between the quotes of a string token: plain characters and backslash pairs.
  predicate StringInner(w: string) {
    w == "" || (w[0] != '"' && w[0] != '\\' && StringInner(w[1..]))
    || (w[0] == '\\' && |w| >= 2 && StringInner(w[2..]))
  }

  ghost function StringToken(): Lang {
    iset w: string | |w| >= 2 && w[0] == '"' && w[|w| - 1] == '"' && StringInner(w[1..|w| - 1]) :: w
  }

  ghost function IntegerToken(): Lang {
    Cat(Maybe(Word("-")), DigitRun())
  }

  ghost function Fraction(): Lang {
    Maybe(Cat(Word("."), DigitRun()))
  }

  ghost function Exponent(): Lang {
    Maybe(Cat(Word("e") + Word("E"), Cat(Maybe(Word("+") + Word("-")), DigitRun())))
  }

  ghost function NumberToken(): Lang {
    Cat(Maybe(Word("-")), Cat(DigitRun(), Cat(Fraction(), Exponent())))
  }

  ghost function ShortNumberToken(): Lang {
    Cat(Maybe(Word("-")), Cat(DigitRun(), Fraction()))
  }

  ghost function BooleanToken(): Lang {
    Word("true") + Word("false")
  }

  ghost function Keywords(): Lang {
    Word("true") + (Word("false") + Word("null"))
  }

  lemma StarOfClass(cl: CharClass, w: string)
    ensures InStar(Class(cl), w) <==> forall i :: 0 <= i < |w| ==> InClass(cl, w[i])
    decreases |w|
  {
    if w != "" {
      assert w[..1] == [w[0]];
      StarOfClass(cl, w[1..]);
      assert forall i :: 1 <= i < |w| ==> w[i] == w[1..][i - 1];
      if InStar(Class(cl), w) {
        var i: nat :| 0 < i <= |w| && w[..i] in Class(cl) && InStar(Class(cl), w[i..]);
        assert |w[..i]| == 1;
      }
      if InClass(cl, w[0]) {
        assert w[..1] in Class(cl);
      }
    }
  }

  ghost function EscapePair(): Lang {
    Cat(Word("\\"), Class(AnyChar))
  }

  lemma EscapePairIs(w: string)
    ensures w in EscapePair() <==> |w| == 2 && w[0] == '\\'
  {
    if w in EscapePair() {
      var u, v := CatSplit(w, Word("\\"), Class(AnyChar));
    }
    if |w| == 2 && w[0] == '\\' {
      CatIntro("\\", [w[1]], Word("\\"), Class(AnyChar));
      assert w == "\\" + [w[1]];
    }
  }

  lemma {:induction false} StarOfStringChars(w: string)
    ensures InStar(Class(NotQuoteOrBackslash) + EscapePair(), w) <==> StringInner(w)
    decreases |w|
  {
    var chars := Class(NotQuoteOrBackslash) + EscapePair();
    if w != "" {
      StarOfStringChars(w[1..]);
      EscapePairIs(w[..1]);
      assert w[..1] == [w[0]];
      if |w| >= 2 {
        StarOfStringChars(w[2..]);
        EscapePairIs(w[..2]);
      }
      if InStar(chars, w) {
        var i: nat :| 0 < i <= |w| && w[..i] in chars && InStar(chars, w[i..]);
        EscapePairIs(w[..i]);
        assert i == 1 || i == 2;
      }
      if InClass(NotQuoteOrBackslash, w[0]) {
        assert w[..1] in chars;
      }
      if |w| >= 2 && w[0] == '\\' {
        assert w[..2] in chars;
      }
    }
  }

  // ---------------------------------------------------------------- literals

  lemma PlainPrefix(raw: string, rest: string)
    requires '"' !in raw && '\\' !in raw
    ensures Unescape(raw + rest)
            == if Unescape(rest).None? then None else Some(raw + Unescape(rest).value)
  {
    hide Unescape;
    if raw == "" {
      assert raw + rest == rest;
      assert Unescape(rest).Some? ==> "" + Unescape(rest).value == Unescape(rest).value;
    } else {
      PlainPrefix(raw[1..], rest);
      PlainStep(raw[0], raw[1..] + rest);
      Cut(raw, 1);
      assert raw[..1] == [raw[0]];
      Assoc([raw[0]], raw[1..], rest);
      if Unescape(rest).Some? {
        Assoc([raw[0]], raw[1..], Unescape(rest).value);
      }
    }
  }

  lemma PlainStep(c: char, rest: string)
    requires c != '"' && c != '\\'
    ensures Unescape([c] + rest) == if Unescape(rest).None? then None else Some([c] + Unescape(rest).value)
  {
    assert ([c] + rest)[1..] == rest;
  }

  // Text without quote or backslash stands for itself.
  lemma PlainLiteral(raw: string)
    requires '"' !in raw && '\\' !in raw
    ensures Unescape(raw) == Some(raw)
  {
    PlainPrefix(raw, "");
    assert raw + "" == raw;
  }

  lemma EscapedQuote()
    ensures Unescape("\\\"") == Some("\"") && Unescape("\\\\") == Some("\\")
  {
    assert "\\\""[2..] == "" && "\\\\"[2..] == "";
    assert "\"" + "" == "\"" && "\\" + "" == "\\";
  }

  // The five escapes and what is none.
  lemma UnescapeForms(c: char, rest: string)
    ensures Unescape("\\n") == Some("\n") && Unescape("\\r") == Some("\r") && Unescape("\\t") == Some("\t")
    ensures Unescape("\\") == None && Unescape("\"" + rest) == None
    ensures c !in {'"', '\\', 'n', 'r', 't'} ==> Unescape("\\" + ([c] + rest)) == None
  {
    assert "\\n"[2..] == "" && "\\r"[2..] == "" && "\\t"[2..] == "";
    assert "\n" + "" == "\n" && "\r" + "" == "\r" && "\t" + "" == "\t";
    assert ("\\" + ([c] + rest))[2..] == rest;
  }

  // A quoted key: escaped quotes around it denote bare quotes.
  lemma QuotedLiteral(key: string)
    requires '"' !in key && '\\' !in key
    ensures Unescape("\\\"" + key + "\\\"") == Some("\"" + key + "\"")
  {
    var close := "\\\"";
    EscapedQuote();
    PlainPrefix(key, close);
    var raw := close + key + close;
    assert raw[2..] == key + close;
    assert "\"" + (key + "\"") == "\"" + key + "\"";
  }

  // ---------------------------------------------------------------- fixed rule bodies

  lemma DenThen(rules: seq<Rule>, depth: nat, g: Gram, h: Gram, a: Lang, b: Lang)
    requires Denotes(rules, depth, g, a) && Denotes(rules, depth, h, b)
    ensures Denotes(rules, depth, Then(g, h), Cat(a, b))
  {
  }

  lemma DenThen5(rules: seq<Rule>, depth: nat, g: Gram, h: Gram, i: Gram, j: Gram, k: Gram,
                 a: Lang, b: Lang, c: Lang, d: Lang, e: Lang)
    requires Denotes(rules, depth, g, a) && Denotes(rules, depth, h, b) && Denotes(rules, depth, i, c)
    requires Denotes(rules, depth, j, d) && Denotes(rules, depth, k, e)
    ensures Denotes(rules, depth, Then5(g, h, i, j, k), Cat(a, Cat(b, Cat(c, Cat(d, e)))))
  {
    DenThen(rules, depth, j, k, d, e);
    DenThen(rules, depth, i, Then(j, k), c, Cat(d, e));
    DenThen(rules, depth, h, Then3(i, j, k), b, Cat(c, Cat(d, e)));
    DenThen(rules, depth, g, Then(h, Then3(i, j, k)), a, Cat(b, Cat(c, Cat(d, e))));
  }

  lemma DenOr(rules: seq<Rule>, depth: nat, g: Gram, h: Gram, a: Lang, b: Lang)
    requires Denotes(rules, depth, g, a) && Denotes(rules, depth, h, b)
    ensures Denotes(rules, depth, Or(g, h), a + b)
  {
  }

  lemma DenEps(rules: seq<Rule>, depth: nat)
    ensures Denotes(rules, depth, Eps, Word(""))
  {
  }

  lemma DenOpt(rules: seq<Rule>, depth: nat, g: Gram, a: Lang)
    requires Denotes(rules, depth, g, a)
    ensures Denotes(rules, depth, Opt(g), Maybe(a))
  {
  }

  lemma DenPlain(rules: seq<Rule>, depth: nat, raw: string)
    requires '"' !in raw && '\\' !in raw
    ensures Denotes(rules, depth, Lit(raw), Word(raw))
  {
    PlainLiteral(raw);
  }

  lemma DenDigits(rules: seq<Rule>, depth: nat)
    ensures Denotes(rules, depth, Plus(Chars(Digits)), DigitRun())
  {
    forall w | w in DigitRun() ensures w in Cat(Class(Digits), Many(Class(Digits))) {
      assert w[..1] == [w[0]];
      StarOfClass(Digits, w[1..]);
    }
    forall w | w in Cat(Class(Digits), Many(Class(Digits))) ensures w in DigitRun() {
      var u, v := CatSplit(w, Class(Digits), Many(Class(Digits)));
      StarOfClass(Digits, v);
      forall i | 0 <= i < |w| ensures IsDigit(w[i]) {
        assert w[i] == if i < 1 then u[0] else v[i - 1];
      }
      assert |w| == 1 + |v| && AllDigits(w);
    }
    assert Cat(Class(Digits), Many(Class(Digits))) == DigitRun();
  }

  lemma DenBlanks(rules: seq<Rule>, depth: nat)
    ensures Denotes(rules, depth, WS_RULE.body, Blank())
  {
    forall w: string ensures InStar(Class(Blanks), w) <==> AllBlank(w) {
      StarOfClass(Blanks, w);
    }
    assert Many(Class(Blanks)) == Blank();
  }

  lemma QuoteAround(w: string, inner: Lang)
    ensures w in Cat(Word("\""), Cat(inner, Word("\"")))
            <==> |w| >= 2 && w[0] == '"' && w[|w| - 1] == '"' && w[1..|w| - 1] in inner
  {
    var quote := Word("\"");
    if w in Cat(quote, Cat(inner, quote)) {
      var u, vt := CatSplit(w, quote, Cat(inner, quote));
      var v, t := CatSplit(vt, inner, quote);
      assert w == ['"'] + v + ['"'];
      assert w[1..|w| - 1] == v;
    }
    if |w| >= 2 && w[0] == '"' && w[|w| - 1] == '"' && w[1..|w| - 1] in inner {
      var v := w[1..|w| - 1];
      CatIntro(v, "\"", inner, quote);
      CatIntro("\"", v + "\"", quote, Cat(inner, quote));
      assert w == "\"" + (v + "\"");
    }
  }

  lemma QuoteCharsQuote()
    ensures Same(Cat(Word("\""), Cat(Many(Class(NotQuoteOrBackslash) + EscapePair()), Word("\""))), StringToken())
  {
    var inner := Many(Class(NotQuoteOrBackslash) + EscapePair());
    forall w: string ensures w in Cat(Word("\""), Cat(inner, Word("\""))) <==> w in StringToken() {
      QuoteAround(w, inner);
      if |w| >= 2 {
        StarOfStringChars(w[1..|w| - 1]);
      }
    }
    assert Cat(Word("\""), Cat(inner, Word("\""))) == StringToken();
  }

  lemma DenString(rules: seq<Rule>, depth: nat)
    ensures Denotes(rules, depth, STRING_BODY, StringToken())
  {
    var escape := Then(Lit("\\\\"), Chars(AnyChar));
    EscapedQuote();
    assert Denotes(rules, depth, escape, EscapePair());
    var chars := Or(Chars(NotQuoteOrBackslash), escape);
    assert Denotes(rules, depth, chars, Class(NotQuoteOrBackslash) + EscapePair());
    assert Denotes(rules, depth, QUOTE, Word("\""));
    var many := Many(Class(NotQuoteOrBackslash) + EscapePair());
    assert Denotes(rules, depth, Star(chars), many);
    DenThen(rules, depth, Star(chars), QUOTE, many, Word("\""));
    DenThen(rules, depth, QUOTE, Then(Star(chars), QUOTE), Word("\""), Cat(many, Word("\"")));
    QuoteCharsQuote();
  }

  lemma DenMinus(rules: seq<Rule>, depth: nat)
    ensures Denotes(rules, depth, Opt(Lit("-")), Maybe(Word("-")))
  {
    DenPlain(rules, depth, "-");
  }

  lemma DenInteger(rules: seq<Rule>, depth: nat)
    ensures Denotes(rules, depth, INTEGER_BODY, IntegerToken())
  {
    DenMinus(rules, depth);
    DenDigits(rules, depth);
  }

  lemma DenFraction(rules: seq<Rule>, depth: nat)
    ensures Denotes(rules, depth, FRACTION, Fraction())
  {
    DenPlain(rules, depth, ".");
    DenDigits(rules, depth);
    DenThen(rules, depth, Lit("."), Plus(Chars(Digits)), Word("."), DigitRun());
  }

  lemma DenExponent(rules: seq<Rule>, depth: nat)
    ensures Denotes(rules, depth, EXPONENT, Exponent())
  {
    DenPlain(rules, depth, "e");
    DenPlain(rules, depth, "E");
    DenPlain(rules, depth, "+");
    DenPlain(rules, depth, "-");
    DenDigits(rules, depth);
    var mark, sign := Or(Lit("e"), Lit("E")), Opt(Or(Lit("+"), Lit("-")));
    DenOr(rules, depth, Lit("e"), Lit("E"), Word("e"), Word("E"));
    DenOr(rules, depth, Lit("+"), Lit("-"), Word("+"), Word("-"));
    assert Denotes(rules, depth, sign, Maybe(Word("+") + Word("-")));
    var signed := Cat(Maybe(Word("+") + Word("-")), DigitRun());
    DenThen(rules, depth, sign, Plus(Chars(Digits)), Maybe(Word("+") + Word("-")), DigitRun());
    DenThen(rules, depth, mark, Then(sign, Plus(Chars(Digits))), Word("e") + Word("E"), signed);
  }

  lemma DenNumber(rules: seq<Rule>, depth: nat)
    ensures Denotes(rules, depth, NUMBER_BODY, NumberToken())
    ensures Denotes(rules, depth, SHORT_NUMBER_BODY, ShortNumberToken())
  {
    DenMinus(rules, depth);
    DenDigits(rules, depth);
    DenFraction(rules, depth);
    DenExponent(rules, depth);
    var digits := Plus(Chars(Digits));
    DenThen(rules, depth, FRACTION, EXPONENT, Fraction(), Exponent());
    DenThen(rules, depth, digits, Then(FRACTION, EXPONENT), DigitRun(), Cat(Fraction(), Exponent()));
    DenThen(rules, depth, Opt(Lit("-")), Then3(digits, FRACTION, EXPONENT),
            Maybe(Word("-")), Cat(DigitRun(), Cat(Fraction(), Exponent())));
    DenThen(rules, depth, digits, FRACTION, DigitRun(), Fraction());
    DenThen(rules, depth, Opt(Lit("-")), Then(digits, FRACTION), Maybe(Word("-")), Cat(DigitRun(), Fraction()));
  }

  lemma DenKeywords(rules: seq<Rule>, depth: nat)
    ensures Denotes(rules, depth, Or(Lit("true"), Or(Lit("false"), Lit("null"))), Keywords())
    ensures Denotes(rules, depth, BOOLEAN_BODY, BooleanToken())
    ensures Denotes(rules, depth, Lit("null"), Word("null"))
  {
    DenPlain(rules, depth, "true");
    DenPlain(rules, depth, "false");
    DenPlain(rules, depth, "null");
    DenOr(rules, depth, Lit("false"), Lit("null"), Word("false"), Word("null"));
    DenOr(rules, depth, Lit("true"), Or(Lit("false"), Lit("null")), Word("true"), Word("false") + Word("null"));
    DenOr(rules, depth, Lit("true"), Lit("false"), Word("true"), Word("false"));
  }
}
