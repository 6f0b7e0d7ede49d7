// Where tokens as the grammar spells them are no JSON: leading zeros, bare control characters, and
// names and literals that would need an escape.
module SchemaTokens {
  import opened Text
  import opened Json
  import opened Grammar
  import opened SchemaModel
  import opened Languages
  import opened SchemaReading
  import opened SchemaNesting
  import opened SchemaPadding

  predicate AllPlain(s: string) {
    forall i :: 0 <= i < |s| ==> PlainChar(s[i])
  }

  // ---------------------------------------------------------------- names and literals

  // Without quotes and backslashes, what stands between the quotes of a JSON string needs no escape.
  lemma {:induction false} InnerIsPlain(s: string)
    requires JsonInner(s) && Unquoted(s)
    ensures AllPlain(s)
  {
    if s != "" {
      assert s[0] in s;
      InnerIsPlain(s[1..]);
    }
  }

  lemma QuotedIsPlain(s: string)
    requires IsJsonString("\"" + s + "\"") && Unquoted(s)
    ensures AllPlain(s)
  {
    hide JsonInner;
    var w := "\"" + s + "\"";
    assert w[1..|w| - 1] == s;
    InnerIsPlain(s);
  }

  lemma {:induction false} NoBareQuote(s: string, more: string)
    requires Unquoted(s)
    ensures !JsonInner(s + "\"" + more)
  {
    var w := s + "\"" + more;
    if s != "" {
      assert w[0] in s;
      NoBareQuote(s[1..], more);
      assert w[1..] == s[1..] + "\"" + more;
    }
  }

  lemma NoQuoteInside(key: string, x: string)
    requires Unquoted(key)
    ensures var w := ("\"" + key + "\"") + x; forall i :: 1 <= i <= |key| ==> w[i] != '"'
  {
    assert forall i :: 0 <= i < |key| ==> key[i] in key;
  }

  lemma NoLongerString(key: string, k: string)
    requires Unquoted(key) && IsJsonString(k) && |k| >= |key| + 2 && k[..|key| + 2] == "\"" + key + "\""
    ensures |k| == |key| + 2
  {
    hide JsonInner;
    var n := |key| + 2;
    if |k| > n {
      var inner, more := k[1..|k| - 1], k[n..|k| - 1];
      assert inner == k[..n][1..] + more;
      assert inner == key + "\"" + more;
      NoBareQuote(key, more);
    }
  }

  // A JSON string ends at the first quote behind plain text.
  lemma NameEnds(key: string, x: string, k: string, y: string)
    requires Unquoted(key) && IsJsonString(k) && ("\"" + key + "\"") + x == k + y
    ensures k == "\"" + key + "\"" && x == y
  {
    hide JsonInner, Unquoted;
    var quoted := "\"" + key + "\"";
    var w, n := quoted + x, |quoted|;
    assert w[..n] == quoted && w[..|k|] == k;
    NoQuoteInside(key, x);
    assert w[|k| - 1] == '"';
    assert k[..n] == quoted;
    NoLongerString(key, k);
    SameTail(k, x, y);
  }

  lemma SameKey(key: string, style: Style)
    requires style.rawTokens || AllPlain(key)
    ensures KeyText(key, style) == KeyText(key, EMITTED)
  {
    EscapeIsIdentity(key);
  }

  // A name written without the escapes it needs is not that name.
  lemma UnescapedKey(key: string, v: string, style: Style, rest: string)
    requires Unquoted(key) && !style.rawTokens && !AllPlain(key)
    ensures PairText(key, v) != KeyText(key, style) + rest
  {
    hide AllPlain, Escape, IsJsonString;
    QuotedIsJson(key);
    if PairText(key, v) == KeyText(key, style) + rest {
      NameEnds(key, ":" + v, KeyText(key, style), rest);
      QuotedIsPlain(key);
    }
  }

  // A pair whose value is not a padded word, or whose name lacks an escape, is not a padded pair.
  lemma PairNotPadded(m: Member, v: string, style: Style)
    requires Unquoted(m.key)
    requires v !in Padded(Reading(m.value, style)) || !(style.rawTokens || AllPlain(m.key))
    ensures PairText(m.key, v) !in Padded(Maybe(PairReading(m, style)))
  {
    hide Reading, PairReading, Blank, Padded, KeyText, AllPlain;
    var w := PairText(m.key, v);
    if w in Padded(Maybe(PairReading(m, style))) {
      var s, g, t := PaddedSplit(w, Maybe(PairReading(m, style)));
      assert w[0] == '"';
      NoBlankInFront(s, g + t, w);
      BlankEnds(t, "");
      assert g == "" ==> g + t == t && t + "" == t;
      if g in PairReading(m, style) {
        var s2, t2, u := PairSplit(g, m, style);
        var k, after := KeyText(m.key, style), s2 + (":" + (t2 + u));
        Assoc(k, after, t);
        if style.rawTokens || AllPlain(m.key) {
          SameKey(m.key, style);
          RawKey(m.key);
          SameTail(k, ":" + v, after + t);
          ColonPadded(v, s2, t2, u, t, Reading(m.value, style));
        } else {
          UnescapedKey(m.key, v, style, after + t);
        }
      }
    }
  }

  lemma RawKey(key: string)
    ensures KeyText(key, EMITTED) == "\"" + key + "\""
  {
  }

  // What follows a colon is the padded value.
  lemma ColonPadded(v: string, s: string, t: string, u: string, end: string, l: Lang)
    requires s in Blank() && t in Blank() && u in l && end in Blank()
    requires ":" + v == (s + (":" + (t + u))) + end
    ensures v in Padded(l)
  {
    hide Blank, Padded;
    Assoc(s, ":" + (t + u), end);
    Assoc(":", t + u, end);
    NoBlankInFront(s, ":" + (t + u + end), ":" + v);
    SameTail(":", v, t + u + end);
    Assoc(t, u, end);
    PaddedIntro(t, u, end, l);
  }

  // A literal that needs an escape is none of the literals as JSON writes them.
  lemma LiteralShows(v: Json, values: seq<Json>, style: Style)
    requires v.JString? && !AllPlain(v.s) && ExpressibleValue(v) && !style.rawTokens
    requires forall i :: 0 <= i < |values| ==> ExpressibleValue(values[i])
    ensures values != [] ==> ValueText(v) !in Padded(Choices(values, style))
    ensures ValueText(v) !in Padded(Word(Print(v)))
  {
    hide Padded, Choices, Print, AllPlain, ExpressibleValue;
    var w := ValueText(v);
    assert w[0] == '"' && w[|w| - 1] == '"';
    NoBlanksAround(w, Word(Print(v)));
    NoBlanksAround(w, Choices(values, style));
    NoPrintedText(v, v);
    if values != [] && w in Choices(values, style) {
      var i := ChoiceIsLiteral(w, values, style);
      NoPrintedText(v, values[i]);
    }
  }

  lemma NoPrintedText(v: Json, other: Json)
    requires v.JString? && !AllPlain(v.s) && ExpressibleValue(v)
    ensures ValueText(v) != Print(other)
  {
    hide AllPlain, IsJsonString, Escape;
    var w := ValueText(v);
    assert w[0] == '"';
    if other.JString? && w == Print(other) {
      QuotedIsJson(other.s);
      QuotedIsPlain(v.s);
    }
  }

  // ---------------------------------------------------------------- numbers

  const ZEROS := "007"

  predicate NoLeadingZero(x: string) {
    x != "" && (x[0] == '0' && |x| > 1 ==> !IsDigit(x[1]))
  }

  ghost predicate NoLeadingZeros(l: Lang) {
    forall x :: x in l ==> NoLeadingZero(x)
  }

  lemma ZerosNotPadded(l: Lang)
    requires NoLeadingZeros(l)
    ensures ZEROS !in Padded(l)
  {
    NoBlanksAround(ZEROS, l);
    assert !NoLeadingZero(ZEROS);
  }

  lemma SignedInt(m: string, i: string, rest: string)
    requires m == "" || m == "-"
    requires IsJsonInt(i) && (rest == "" || !IsDigit(rest[0]))
    ensures NoLeadingZero(m + (i + rest))
  {
    var x := m + (i + rest);
    if m == "" {
      assert x == i + rest && x[0] == i[0];
      if x[0] == '0' && |x| > 1 {
        assert |i| == 1 && x[1] == rest[0];
      }
    } else {
      assert x[0] == '-';
    }
  }

  lemma MaybeMinus(m: string)
    requires m in Maybe(Word("-"))
    ensures m == "" || m == "-"
  {
  }

  lemma FractionStart(f: string)
    requires f in Fraction()
    ensures f == "" || !IsDigit(f[0])
  {
    if f != "" {
      var u, v := CatSplit(f, Word("."), DigitRun());
    }
  }

  lemma ExponentStart(e: string)
    requires e in Exponent()
    ensures e == "" || !IsDigit(e[0])
  {
    if e != "" {
      var u, v := CatSplit(e, Word("e") + Word("E"), Cat(Maybe(Word("+") + Word("-")), DigitRun()));
    }
  }

  lemma JsonIntegersHaveNoLeadingZero()
    ensures NoLeadingZeros(JsonInteger())
  {
    forall x | x in JsonInteger() ensures NoLeadingZero(x) {
      hide Cat, Maybe, NoLeadingZero;
      var m, i := CatSplit(x, Maybe(Word("-")), JsonInt());
      MaybeMinus(m);
      SignedInt(m, i, "");
      assert i + "" == i;
    }
  }

  lemma JsonNumbersHaveNoLeadingZero()
    ensures NoLeadingZeros(JsonNumber()) && NoLeadingZeros(JsonShortNumber())
  {
    forall x | x in JsonNumber() ensures NoLeadingZero(x) {
      hide Cat, Maybe, NoLeadingZero, Fraction, Exponent;
      var m, n := CatSplit(x, Maybe(Word("-")), Cat(JsonInt(), Cat(Fraction(), Exponent())));
      var i, r := CatSplit(n, JsonInt(), Cat(Fraction(), Exponent()));
      var f, e := CatSplit(r, Fraction(), Exponent());
      MaybeMinus(m);
      FractionStart(f);
      ExponentStart(e);
      assert f == "" ==> r == e;
      SignedInt(m, i, r);
    }
    forall x | x in JsonShortNumber() ensures NoLeadingZero(x) {
      hide Cat, Maybe, NoLeadingZero, Fraction;
      var m, n := CatSplit(x, Maybe(Word("-")), Cat(JsonInt(), Fraction()));
      var i, f := CatSplit(n, JsonInt(), Fraction());
      MaybeMinus(m);
      FractionStart(f);
      SignedInt(m, i, f);
    }
  }

  lemma JsonItemsHaveNoLeadingZero()
    ensures NoLeadingZeros(JsonItem()) && NoLeadingZeros(JsonOpenValue())
  {
    hide JsonInteger, JsonShortNumber;
    JsonIntegersHaveNoLeadingZero();
    JsonNumbersHaveNoLeadingZero();
    assert forall x :: x in JsonString() ==> NoLeadingZero(x);
    assert forall x :: x in Keywords() ==> NoLeadingZero(x);
  }

  lemma ZerosAreEmitted()
    ensures ZEROS in IntegerToken() && ZEROS in NumberToken() && ZEROS in ShortNumberToken()
  {
    ZerosAreDigits();
    hide DigitRun, Cat, Maybe;
    EmptyIsMaybe(Word("-"));
    EmptyIsMaybe(Cat(Word("."), DigitRun()));
    EmptyIsMaybe(Cat(Word("e") + Word("E"), Cat(Maybe(Word("+") + Word("-")), DigitRun())));
    assert ZEROS + "" == ZEROS;
    EmptyLeft(ZEROS, Maybe(Word("-")), DigitRun());
    EmptyLeft("", Fraction(), Exponent());
    CatIntro(ZEROS, "", DigitRun(), Cat(Fraction(), Exponent()));
    EmptyLeft(ZEROS, Maybe(Word("-")), Cat(DigitRun(), Cat(Fraction(), Exponent())));
    CatIntro(ZEROS, "", DigitRun(), Fraction());
    EmptyLeft(ZEROS, Maybe(Word("-")), Cat(DigitRun(), Fraction()));
  }

  lemma ZerosAreDigits()
    ensures ZEROS in DigitRun()
  {
    assert AllDigits(ZEROS);
  }

  lemma EmptyIsMaybe(l: Lang)
    ensures "" in Maybe(l)
  {
  }

  // ---------------------------------------------------------------- strings

  // A quoted line feed.
  const RAW_NEWLINE := "\"\n\""

  lemma RawNewlineShows()
    ensures RAW_NEWLINE in StringToken() && RAW_NEWLINE !in Padded(JsonString())
  {
    var inner := RAW_NEWLINE[1..|RAW_NEWLINE| - 1];
    assert inner == "\n" && inner[1..] == "";
    assert RAW_NEWLINE[0] == '"' && RAW_NEWLINE[2] == '"';
    assert StringInner(inner);
    assert !PlainChar(inner[0]);
    assert !JsonInner(inner);
    NoBlanksAround(RAW_NEWLINE, JsonString());
  }

  lemma ScalarShows(kind: Kind) returns (w: string)
    requires kind == KString || kind == KNumber || kind == KInteger
    ensures w in ScalarReading(kind) && w !in Padded(JsonScalar(kind))
  {
    hide Padded, StringToken, NumberToken, IntegerToken, JsonString, JsonNumber, JsonInteger;
    if kind == KString {
      RawNewlineShows();
      w := RAW_NEWLINE;
    } else {
      ZerosAreEmitted();
      JsonIntegersHaveNoLeadingZero();
      JsonNumbersHaveNoLeadingZero();
      ZerosNotPadded(if kind == KNumber then JsonNumber() else JsonInteger());
      w := ZEROS;
    }
  }

  // ---------------------------------------------------------------- open arrays and objects

  lemma ItemShows()
    ensures ZEROS in AnyItem() && ZEROS !in Padded(JsonItem())
  {
    hide Padded, JsonItem, StringToken, IntegerToken, Keywords;
    ZerosAreEmitted();
    JsonItemsHaveNoLeadingZero();
    ZerosNotPadded(JsonItem());
  }

  // "" : 007
  function OpenPair(): string {
    PairText("", ZEROS)
  }

  lemma OpenPairIsEmitted()
    ensures OpenPair() in AnyPair()
  {
    var key := "\"" + "" + "\"";
    assert key[1..1] == "";
    assert key in StringToken();
    ZerosAreEmitted();
    hide Cat, Blank, StringToken, ShortNumberToken, Keywords;
    BlankHasEmpty();
    var values := StringToken() + (ShortNumberToken() + Keywords());
    EmptyLeft(ZEROS, Blank(), values);
    CatIntro(":", ZEROS, Word(":"), Cat(Blank(), values));
    EmptyLeft(":" + ZEROS, Blank(), Cat(Word(":"), Cat(Blank(), values)));
    CatIntro(key, ":" + ZEROS, StringToken(), Cat(Blank(), Cat(Word(":"), Cat(Blank(), values))));
  }

  // A pair is no padded pair if its value is no padded value or its name needs an escape.
  lemma NamedNotPadded(key: string, v: string, value: Lang)
    requires Unquoted(key) && (v !in Padded(value) || !AllPlain(key))
    ensures PairText(key, v) !in Padded(NamedOf(value))
  {
    hide Padded, Blank, IsJsonString, AllPlain, Unquoted;
    var w := PairText(key, v);
    assert w[0] == '"';
    if w in Padded(NamedOf(value)) {
      var s, g, t := PaddedSplit(w, NamedOf(value));
      NoBlankInFront(s, g + t, w);
      var k, s2, t2, u := ColonSplit(g, JsonString(), value);
      var after := s2 + (":" + (t2 + u));
      Assoc(k, after, t);
      NameEnds(key, ":" + v, k, after + t);
      ColonPadded(v, s2, t2, u, t, value);
      QuotedIsPlain(key);
    }
  }

  lemma OpenPairNotPadded()
    ensures OpenPair() !in Padded(JsonPair())
  {
    hide Padded, JsonOpenValue, NoLeadingZero, NamedOf, PairText;
    JsonItemsHaveNoLeadingZero();
    ZerosNotPadded(JsonOpenValue());
    NamedNotPadded("", ZEROS, JsonOpenValue());
  }

  lemma OpenObjectShows() returns (w: string)
    ensures w in Enclosed("{", Maybe(ListOf(AnyPair(), SpacedComma())), "}")
    ensures w !in Padded(Enclosed("{", Maybe(ListOf(JsonPair(), SpacedComma())), "}"))
  {
    var t := OpenPair();
    hide Padded, Blank, Enclosed, AnyPair, JsonPair, SpacedComma, OpenPair;
    OpenPairIsEmitted();
    assert Listed(AnyPair(), SpacedComma(), 1) == AnyPair();
    assert IsListed(AnyPair(), SpacedComma(), t);
    EnclosedIntro("{", t, "}", Maybe(ListOf(AnyPair(), SpacedComma())));
    OpenPairNotPadded();
    OpenPairStart();
    AnyPairsFit(0);
    JsonPairsFit(0);
    OneNotPadded(t, JsonPair());
    MaybePadded(t, ListOf(JsonPair(), SpacedComma()));
    ObjectNotPadded(t, Maybe(ListOf(JsonPair(), SpacedComma())));
    w := "{" + t + "}";
  }

  lemma OpenPairStart()
    ensures OpenPair() !in Blank()
  {
    assert OpenPair()[0] == '"';
    NotBlank(OpenPair(), '"');
  }
}
