// Where a JSON text can be cut: a scanner that tracks strings and brackets, and gets stuck at a comma
// or closing bracket outside all brackets. A text it passes ends at the first such character behind it.
module Nesting {
  import opened Text
  import opened Grammar
  import opened Languages

  datatype Scan = Out(depth: nat) | In(depth: nat) | Esc(depth: nat) | Stuck

  function Next(q: Scan, c: char): Scan {
    match q
    case Stuck => Stuck
    case Esc(d) => In(d)
    case In(d) => if c == '"' then Out(d) else if c == '\\' then Esc(d) else In(d)
    case Out(d) =>
      if c == '"' then In(d)
      else if c == '[' || c == '{' then Out(d + 1)
      else if c == ']' || c == '}' then if d == 0 then Stuck else Out(d - 1)
      else if c == ',' && d == 0 then Stuck
      else Out(d)
  }

  function Run(q: Scan, w: string): Scan
    decreases |w|
  {
    if w == "" then q else Run(Next(q, w[0]), w[1..])
  }

  lemma {:induction false} RunConcat(q: Scan, u: string, v: string)
    ensures Run(q, u + v) == Run(Run(q, u), v)
    decreases |u|
  {
    if u == "" {
      assert u + v == v;
    } else {
      assert (u + v)[1..] == u[1..] + v;
      RunConcat(Next(q, u[0]), u[1..], v);
    }
  }

  lemma {:induction false} StuckStays(w: string)
    ensures Run(Stuck, w) == Stuck
  {
    if w != "" {
      StuckStays(w[1..]);
    }
  }

  lemma RunOne(q: Scan, c: char)
    ensures Run(q, [c]) == Next(q, c)
  {
    assert [c][1..] == "";
  }

  // Scanned inside d brackets, the text closes what it opens and nothing else.
  predicate FitsAt(d: nat, w: string) {
    Run(Out(d), w) == Out(d)
  }

  predicate Whole(w: string) {
    FitsAt(0, w)
  }

  predicate Cutter(c: char) {
    c == ',' || c == ']' || c == '}'
  }

  // A whole text has no whole part before a comma or closing bracket.
  lemma WholeHasNoCut(a: string, c: char, x: string)
    requires Whole(a) && Cutter(c)
    ensures !Whole(a + [c] + x)
  {
    RunConcat(Out(0), a + [c], x);
    RunConcat(Out(0), a, [c]);
    RunOne(Out(0), c);
    StuckStays(x);
  }

  // Two whole texts before such characters are the same if the texts are.
  lemma CutIsUnique(a: string, c: char, x: string, b: string, e: char, y: string)
    requires Whole(a) && Whole(b) && Cutter(c) && Cutter(e)
    requires a + [c] + x == b + [e] + y
    ensures a == b && c == e && x == y
  {
    var s := a + [c] + x;
    if |a| < |b| {
      PrefixCut(a, c, x, b, e, y);
    } else if |b| < |a| {
      PrefixCut(b, e, y, a, c, x);
    }
    assert a == s[..|a|] && b == s[..|b|];
    assert c == s[|a|] && e == s[|b|];
    assert x == s[|a| + 1..] && y == s[|b| + 1..];
  }

  lemma PrefixCut(a: string, c: char, x: string, b: string, e: char, y: string)
    requires Whole(a) && Cutter(c) && |a| < |b|
    requires a + [c] + x == b + [e] + y
    ensures !Whole(b)
  {
    var s := a + [c] + x;
    assert b == s[..|b|] && s[..|a|] == a && s[|a|] == c;
    var tail := b[|a| + 1..];
    assert b == a + [c] + tail;
    WholeHasNoCut(a, c, tail);
  }

  // ---------------------------------------------------------------- texts that fit

  lemma FitsConcat(d: nat, u: string, v: string)
    requires FitsAt(d, u) && FitsAt(d, v)
    ensures FitsAt(d, u + v)
  {
    RunConcat(Out(d), u, v);
  }

  predicate Special(c: char) {
    c == '"' || c == '[' || c == ']' || c == '{' || c == '}' || c == ','
  }

  predicate NothingSpecial(w: string) {
    forall i :: 0 <= i < |w| ==> !Special(w[i])
  }

  lemma {:induction false} PlainFits(d: nat, w: string)
    requires NothingSpecial(w)
    ensures FitsAt(d, w)
  {
    if w != "" {
      PlainFits(d, w[1..]);
    }
  }

  lemma CommaFits(d: nat)
    requires d > 0
    ensures FitsAt(d, ",")
  {
    RunOne(Out(d), ',');
  }

  lemma BracketsFit(d: nat, open: char, w: string, close: char)
    requires open == '[' || open == '{'
    requires close == ']' || close == '}'
    requires FitsAt(d + 1, w)
    ensures FitsAt(d, [open] + w + [close])
  {
    RunConcat(Out(d), [open] + w, [close]);
    RunConcat(Out(d), [open], w);
    RunOne(Out(d), open);
    RunOne(Out(d + 1), close);
  }

  lemma {:induction false} InnerStays(d: nat, w: string)
    requires StringInner(w)
    ensures Run(In(d), w) == In(d)
    decreases |w|
  {
    if w != "" {
      if w[0] == '\\' {
        assert w[1..][1..] == w[2..];
        InnerStays(d, w[2..]);
      } else {
        InnerStays(d, w[1..]);
      }
    }
  }

  lemma QuotedFits(d: nat, inner: string)
    requires StringInner(inner)
    ensures FitsAt(d, "\"" + inner + "\"")
  {
    RunConcat(Out(d), "\"" + inner, "\"");
    RunConcat(Out(d), "\"", inner);
    RunOne(Out(d), '"');
    InnerStays(d, inner);
    RunOne(In(d), '"');
  }

  lemma {:induction false} UnquotedIsInner(w: string)
    requires '"' !in w && '\\' !in w
    ensures StringInner(w)
  {
    if w != "" {
      UnquotedIsInner(w[1..]);
    }
  }

  // ---------------------------------------------------------------- languages of fitting texts

  ghost predicate AllFit(d: nat, l: Lang) {
    forall w :: w in l ==> FitsAt(d, w)
  }

  lemma CatFits(d: nat, a: Lang, b: Lang)
    requires AllFit(d, a) && AllFit(d, b)
    ensures AllFit(d, Cat(a, b))
  {
    hide FitsAt;
    forall w | w in Cat(a, b) ensures FitsAt(d, w) {
      var u, v := CatSplit(w, a, b);
      FitsConcat(d, u, v);
    }
  }

  lemma MaybeFits(d: nat, a: Lang)
    requires AllFit(d, a)
    ensures AllFit(d, Maybe(a))
  {
  }

  lemma WordFits(d: nat, w: string)
    requires FitsAt(d, w)
    ensures AllFit(d, Word(w))
  {
  }

  lemma {:induction false} ListedFits(d: nat, item: Lang, sep: Lang, count: nat)
    requires AllFit(d, item) && AllFit(d, sep) && count >= 1
    ensures AllFit(d, Listed(item, sep, count))
  {
    if count > 1 {
      ListedFits(d, item, sep, count - 1);
      CatFits(d, sep, Listed(item, sep, count - 1));
      CatFits(d, item, Cat(sep, Listed(item, sep, count - 1)));
    }
  }

  lemma ListFits(d: nat, item: Lang, sep: Lang)
    requires AllFit(d, item) && AllFit(d, sep)
    ensures AllFit(d, ListOf(item, sep))
  {
    hide FitsAt;
    forall w | w in ListOf(item, sep) ensures FitsAt(d, w) {
      var count: nat :| count >= 1 && w in Listed(item, sep, count);
      ListedFits(d, item, sep, count);
    }
  }

  lemma BlankFits(d: nat)
    ensures AllFit(d, Blank())
  {
    forall w | w in Blank() ensures FitsAt(d, w) {
      assert forall i :: 0 <= i < |w| ==> InClass(Blanks, w[i]);
      PlainFits(d, w);
    }
  }

  lemma DigitsFit(d: nat)
    ensures AllFit(d, DigitRun())
  {
    forall w | w in DigitRun() ensures FitsAt(d, w) {
      assert forall i :: 0 <= i < |w| ==> IsDigit(w[i]);
      PlainFits(d, w);
    }
  }

  lemma PlainWordFits(d: nat, w: string)
    requires NothingSpecial(w)
    ensures AllFit(d, Word(w))
  {
    PlainFits(d, w);
  }

  lemma StringsFit(d: nat)
    ensures AllFit(d, StringToken())
  {
    forall w | w in StringToken() ensures FitsAt(d, w) {
      var inner := w[1..|w| - 1];
      QuotedFits(d, inner);
      assert w == "\"" + inner + "\"";
    }
  }

  lemma UnionFits(d: nat, a: Lang, b: Lang)
    requires AllFit(d, a) && AllFit(d, b)
    ensures AllFit(d, a + b)
  {
  }

  lemma IntegersFit(d: nat)
    ensures AllFit(d, IntegerToken())
  {
    hide AllFit, Cat, DigitRun, Maybe, Word;
    DigitsFit(d);
    PlainWordFits(d, "-");
    MaybeFits(d, Word("-"));
    CatFits(d, Maybe(Word("-")), DigitRun());
  }

  lemma FractionsFit(d: nat)
    ensures AllFit(d, Fraction())
  {
    hide AllFit, Cat, DigitRun, Maybe, Word;
    DigitsFit(d);
    PlainWordFits(d, ".");
    CatFits(d, Word("."), DigitRun());
    MaybeFits(d, Cat(Word("."), DigitRun()));
  }

  lemma ExponentsFit(d: nat)
    ensures AllFit(d, Exponent())
  {
    hide AllFit, Cat, DigitRun, Maybe, Word;
    DigitsFit(d);
    PlainWordFits(d, "e");
    PlainWordFits(d, "E");
    PlainWordFits(d, "+");
    PlainWordFits(d, "-");
    UnionFits(d, Word("e"), Word("E"));
    UnionFits(d, Word("+"), Word("-"));
    MaybeFits(d, Word("+") + Word("-"));
    CatFits(d, Maybe(Word("+") + Word("-")), DigitRun());
    CatFits(d, Word("e") + Word("E"), Cat(Maybe(Word("+") + Word("-")), DigitRun()));
    MaybeFits(d, Cat(Word("e") + Word("E"), Cat(Maybe(Word("+") + Word("-")), DigitRun())));
  }

  lemma NumbersFit(d: nat)
    ensures AllFit(d, NumberToken()) && AllFit(d, ShortNumberToken())
  {
    hide AllFit, Cat, DigitRun, Maybe, Word, Fraction, Exponent;
    DigitsFit(d);
    FractionsFit(d);
    ExponentsFit(d);
    PlainWordFits(d, "-");
    MaybeFits(d, Word("-"));
    CatFits(d, DigitRun(), Fraction());
    CatFits(d, Maybe(Word("-")), Cat(DigitRun(), Fraction()));
    CatFits(d, Fraction(), Exponent());
    CatFits(d, DigitRun(), Cat(Fraction(), Exponent()));
    CatFits(d, Maybe(Word("-")), Cat(DigitRun(), Cat(Fraction(), Exponent())));
  }

  lemma KeywordsFit(d: nat)
    ensures AllFit(d, Keywords()) && AllFit(d, BooleanToken()) && AllFit(d, Word("null"))
  {
    hide AllFit, Word;
    PlainWordFits(d, "true");
    PlainWordFits(d, "false");
    PlainWordFits(d, "null");
    UnionFits(d, Word("false"), Word("null"));
    UnionFits(d, Word("true"), Word("false") + Word("null"));
    UnionFits(d, Word("true"), Word("false"));
  }
}
