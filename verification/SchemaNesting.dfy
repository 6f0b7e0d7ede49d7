// Every word a schema stands for, in whatever style, is whole: it closes its brackets and strings and
// has commas only inside them. So the parts of arrays and objects can be told apart.
module SchemaNesting {
  import opened Text
  import opened Json
  import opened Grammar
  import opened SchemaModel
  import opened SchemaNames
  import opened Languages
  import opened SchemaReading
  import opened Nesting

  // ---------------------------------------------------------------- building and splitting words

  lemma BlankHasEmpty()
    ensures "" in Blank()
  {
    assert AllBlank("");
  }

  lemma EmptyLeft(v: string, a: Lang, b: Lang)
    requires "" in a && v in b
    ensures v in Cat(a, b)
  {
    CatIntro("", v, a, b);
    assert "" + v == v;
  }

  lemma EnclosedIntro(open: string, m: string, close: string, inner: Lang)
    requires m in inner
    ensures open + m + close in Enclosed(open, inner, close)
  {
    hide Cat, Blank;
    BlankHasEmpty();
    EmptyLeft(close, Blank(), Word(close));
    CatIntro(m, close, inner, Cat(Blank(), Word(close)));
    EmptyLeft(m + close, Blank(), Cat(inner, Cat(Blank(), Word(close))));
    CatIntro(open, m + close, Word(open), Cat(Blank(), Cat(inner, Cat(Blank(), Word(close)))));
    Assoc(open, m, close);
  }

  lemma EnclosedSplit(w: string, open: string, inner: Lang, close: string) returns (s: string, m: string, t: string)
    requires w in Enclosed(open, inner, close)
    ensures s in Blank() && m in inner && t in Blank() && w == open + (s + m + t) + close
  {
    hide Cat, Blank;
    var rest, o, c;
    o, rest := CatSplit(w, Word(open), Cat(Blank(), Cat(inner, Cat(Blank(), Word(close)))));
    s, rest := CatSplit(rest, Blank(), Cat(inner, Cat(Blank(), Word(close))));
    m, rest := CatSplit(rest, inner, Cat(Blank(), Word(close)));
    t, c := CatSplit(rest, Blank(), Word(close));
    Regroup(open, s, m, t, close);
  }

  lemma Regroup(open: string, s: string, m: string, t: string, close: string)
    ensures open + (s + (m + (t + close))) == open + (s + m + t) + close
  {
    Assoc(s, m, t);
    Assoc(open, s + m + t, close);
    Assoc(s + m, t, close);
    Assoc(s, m, t + close);
  }

  lemma SeparatedIntro(f: string, n: string, first: Lang, next: Lang)
    requires f in first && n in next
    ensures f + [','] + n in Separated(first, next)
  {
    hide Cat, Blank;
    BlankHasEmpty();
    EmptyLeft(n, Blank(), next);
    CatIntro(",", n, Word(","), Cat(Blank(), next));
    EmptyLeft("," + n, Blank(), Cat(Word(","), Cat(Blank(), next)));
    CatIntro(f, "," + n, first, Cat(Blank(), Cat(Word(","), Cat(Blank(), next))));
    Assoc(f, ",", n);
  }

  lemma SeparatedSplit(w: string, first: Lang, next: Lang) returns (f: string, s: string, t: string, n: string)
    requires w in Separated(first, next)
    ensures f in first && s in Blank() && t in Blank() && n in next && w == (f + s) + [','] + (t + n)
  {
    hide Cat, Blank;
    var rest, c;
    f, rest := CatSplit(w, first, Cat(Blank(), Cat(Word(","), Cat(Blank(), next))));
    s, rest := CatSplit(rest, Blank(), Cat(Word(","), Cat(Blank(), next)));
    c, rest := CatSplit(rest, Word(","), Cat(Blank(), next));
    t, n := CatSplit(rest, Blank(), next);
    Assoc(f, s, "," + (t + n));
    Assoc(f + s, ",", t + n);
  }

  function PairText(key: string, v: string): string {
    ("\"" + key + "\"") + (":" + v)
  }

  lemma PairIntro(m: Member, v: string)
    requires v in Reading(m.value, EMITTED)
    ensures PairText(m.key, v) in PairReading(m, EMITTED)
  {
    hide Cat, Blank, Reading;
    BlankHasEmpty();
    var l, k := Reading(m.value, EMITTED), "\"" + m.key + "\"";
    EmptyLeft(v, Blank(), l);
    CatIntro(":", v, Word(":"), Cat(Blank(), l));
    EmptyLeft(":" + v, Blank(), Cat(Word(":"), Cat(Blank(), l)));
    CatIntro(k, ":" + v, Word(k), Cat(Blank(), Cat(Word(":"), Cat(Blank(), l))));
  }

  // Key, colon and value of a pair.
  lemma ColonSplit(w: string, key: Lang, l: Lang) returns (k: string, s: string, t: string, v: string)
    requires w in Cat(key, Cat(Blank(), Cat(Word(":"), Cat(Blank(), l))))
    ensures k in key && s in Blank() && t in Blank() && v in l && w == k + (s + (":" + (t + v)))
  {
    hide Cat, Blank;
    var rest, c;
    k, rest := CatSplit(w, key, Cat(Blank(), Cat(Word(":"), Cat(Blank(), l))));
    s, rest := CatSplit(rest, Blank(), Cat(Word(":"), Cat(Blank(), l)));
    c, rest := CatSplit(rest, Word(":"), Cat(Blank(), l));
    t, v := CatSplit(rest, Blank(), l);
  }

  lemma PairSplit(w: string, m: Member, style: Style) returns (s: string, t: string, v: string)
    requires w in PairReading(m, style)
    ensures s in Blank() && t in Blank() && v in Reading(m.value, style)
    ensures w == KeyText(m.key, style) + (s + (":" + (t + v)))
  {
    hide Cat, Blank, Reading;
    var k;
    k, s, t, v := ColonSplit(w, Word(KeyText(m.key, style)), Reading(m.value, style));
  }

  // ---------------------------------------------------------------- literals

  lemma {:induction false} PrintFits(d: nat, v: Json)
    ensures Unquoted(Print(v)) ==> FitsAt(d, Print(v))
    decreases v, 0
  {
    match v
    case JNull => PlainFits(d, "null");
    case JBool(b) => PlainFits(d, "true"); PlainFits(d, "false");
    case JNumber(text) => PlainFits(d, text);
    case JString(s) => assert Print(v)[0] == '"';
    case JArray(items) =>
      var inner := PrintItems(items);
      PrintItemsFit(d + 1, items);
      assert Print(v) == ['['] + inner + [']'];
      if Unquoted(Print(v)) {
        assert forall i :: 0 <= i < |inner| ==> Print(v)[i + 1] == inner[i];
        BracketsFit(d, '[', inner, ']');
      }
    case JObject(members) =>
      var inner := PrintMembers(members);
      assert Print(v) == ['{'] + inner + ['}'];
      if members == [] {
        PlainFits(d + 1, "");
        BracketsFit(d, '{', inner, '}');
      } else {
        assert inner[0] == '"' && Print(v)[1] == '"';
      }
  }

  lemma {:induction false} PrintItemsFit(d: nat, items: seq<Json>)
    requires d > 0
    ensures Unquoted(PrintItems(items)) ==> FitsAt(d, PrintItems(items))
    decreases items, 1
  {
    if items == [] {
      PlainFits(d, "");
    } else {
      var w, first := PrintItems(items), Print(items[0]);
      PrintFits(d, items[0]);
      assert forall i :: 0 <= i < |first| ==> w[i] == first[i];
      if |items| == 1 {
        assert w == first;
      } else {
        var rest := PrintItems(items[1..]);
        PrintItemsFit(d, items[1..]);
        assert w == first + ("," + rest);
        assert forall i :: 0 <= i < |rest| ==> w[|first| + 1 + i] == rest[i];
        if Unquoted(w) {
          CommaFits(d);
          FitsConcat(d, ",", rest);
          FitsConcat(d, first, "," + rest);
        }
      }
    }
  }

  lemma ValueTextFits(d: nat, v: Json)
    requires ExpressibleValue(v)
    ensures FitsAt(d, ValueText(v))
  {
    if v.JString? {
      UnquotedIsInner(v.s);
      QuotedFits(d, v.s);
    } else {
      PrintFits(d, v);
    }
  }

  // ---------------------------------------------------------------- languages

  lemma EnclosedFits(d: nat, open: char, inner: Lang, close: char)
    requires open == '[' || open == '{'
    requires close == ']' || close == '}'
    requires AllFit(d + 1, inner)
    ensures AllFit(d, Enclosed([open], inner, [close]))
  {
    hide Enclosed, FitsAt;
    BlankFits(d + 1);
    forall w | w in Enclosed([open], inner, [close]) ensures FitsAt(d, w) {
      var s, m, t := EnclosedSplit(w, [open], inner, [close]);
      FitsConcat(d + 1, s, m);
      FitsConcat(d + 1, s + m, t);
      BracketsFit(d, open, s + m + t, close);
    }
  }

  lemma CommasFit(d: nat)
    requires d > 0
    ensures AllFit(d, Comma()) && AllFit(d, SpacedComma())
  {
    hide AllFit, Cat, Blank, Word;
    BlankFits(d);
    CommaFits(d);
    WordFits(d, ",");
    CatFits(d, Word(","), Blank());
    CatFits(d, Blank(), Comma());
  }

  lemma AnyItemsFit(d: nat)
    ensures AllFit(d, AnyItem())
  {
    hide AllFit, StringToken, IntegerToken, Keywords;
    StringsFit(d);
    IntegersFit(d);
    KeywordsFit(d);
    UnionFits(d, IntegerToken(), Keywords());
    UnionFits(d, StringToken(), IntegerToken() + Keywords());
  }

  lemma AnyPairsFit(d: nat)
    ensures AllFit(d, AnyPair())
  {
    hide AllFit, StringToken, ShortNumberToken, Keywords, Cat, Blank, Word;
    StringsFit(d);
    NumbersFit(d);
    KeywordsFit(d);
    BlankFits(d);
    PlainWordFits(d, ":");
    var values := StringToken() + (ShortNumberToken() + Keywords());
    UnionFits(d, ShortNumberToken(), Keywords());
    UnionFits(d, StringToken(), ShortNumberToken() + Keywords());
    CatFits(d, Blank(), values);
    CatFits(d, Word(":"), Cat(Blank(), values));
    CatFits(d, Blank(), Cat(Word(":"), Cat(Blank(), values)));
    CatFits(d, StringToken(), Cat(Blank(), Cat(Word(":"), Cat(Blank(), values))));
  }

  lemma {:induction false} JsonInnerIsInner(w: string)
    requires JsonInner(w)
    ensures StringInner(w)
    decreases |w|
  {
    if w != "" {
      if w[0] != '\\' {
        JsonInnerIsInner(w[1..]);
      } else if |w| >= 6 && w[1] == 'u' {
        JsonInnerIsInner(w[6..]);
        assert w[5..][1..] == w[6..] && w[4..][1..] == w[5..] && w[3..][1..] == w[4..] && w[2..][1..] == w[3..];
        assert StringInner(w[5..]) && StringInner(w[4..]) && StringInner(w[3..]) && StringInner(w[2..]);
      } else {
        JsonInnerIsInner(w[2..]);
      }
    }
  }

  lemma {:induction false} EscapedIsJsonInner(s: string)
    ensures JsonInner(Escape(s))
  {
    if s != "" {
      EscapedIsJsonInner(s[1..]);
      EscapeCharIsJsonInner(s[0], Escape(s[1..]));
    }
  }

  lemma EscapeCharIsJsonInner(c: char, rest: string)
    requires JsonInner(rest)
    ensures JsonInner(EscapeChar(c) + rest)
  {
    hide EscapeChar, PlainChar, IsEscaped, IsHex;
    var e := EscapeChar(c);
    var w := e + rest;
    EscapeForms(c);
    assert w[|e|..] == rest;
  }

  // A plain character, a named escape, or four hexadecimal digits.
  lemma EscapeForms(c: char)
    ensures var e := EscapeChar(c);
            || (|e| == 1 && PlainChar(e[0]))
            || (|e| == 2 && e[0] == '\\' && IsEscaped(e[1]))
            || (|e| == 6 && e[0] == '\\' && e[1] == 'u' && IsHex(e[2]) && IsHex(e[3]) && IsHex(e[4]) && IsHex(e[5]))
  {
  }

  lemma EscapedIsInner(s: string)
    ensures StringInner(Escape(s))
  {
    EscapedIsJsonInner(s);
    JsonInnerIsInner(Escape(s));
  }

  // Quoted and escaped, every text is a JSON string.
  lemma QuotedIsJson(s: string)
    ensures "\"" + Escape(s) + "\"" in JsonString()
  {
    var inner := Escape(s);
    EscapedIsJsonInner(s);
    hide Escape, JsonInner;
    var w := "\"" + inner + "\"";
    assert w[0] == '"' && w[|w| - 1] == '"' && w[1..|w| - 1] == inner;
    assert IsJsonString(w);
  }

  lemma JsonStringsFit(d: nat)
    ensures AllFit(d, JsonString())
  {
    forall w | w in JsonString() ensures FitsAt(d, w) {
      var inner := w[1..|w| - 1];
      JsonInnerIsInner(inner);
      QuotedFits(d, inner);
      assert w == "\"" + inner + "\"";
    }
  }

  lemma JsonIntsFit(d: nat)
    ensures AllFit(d, JsonInt())
  {
    forall w | w in JsonInt() ensures FitsAt(d, w) {
      assert forall i :: 0 <= i < |w| ==> IsDigit(w[i]);
      PlainFits(d, w);
    }
  }

  lemma JsonNumbersFit(d: nat)
    ensures AllFit(d, JsonInteger()) && AllFit(d, JsonNumber()) && AllFit(d, JsonShortNumber())
  {
    hide AllFit, Cat, JsonInt, Maybe, Word, Fraction, Exponent;
    JsonIntsFit(d);
    FractionsFit(d);
    ExponentsFit(d);
    PlainWordFits(d, "-");
    MaybeFits(d, Word("-"));
    CatFits(d, Maybe(Word("-")), JsonInt());
    CatFits(d, JsonInt(), Fraction());
    CatFits(d, Maybe(Word("-")), Cat(JsonInt(), Fraction()));
    CatFits(d, Fraction(), Exponent());
    CatFits(d, JsonInt(), Cat(Fraction(), Exponent()));
    CatFits(d, Maybe(Word("-")), Cat(JsonInt(), Cat(Fraction(), Exponent())));
  }

  lemma JsonItemsFit(d: nat)
    ensures AllFit(d, JsonItem()) && AllFit(d, JsonOpenValue())
  {
    hide AllFit, JsonString, JsonInteger, JsonShortNumber, Keywords;
    JsonStringsFit(d);
    JsonNumbersFit(d);
    KeywordsFit(d);
    UnionFits(d, JsonInteger(), Keywords());
    UnionFits(d, JsonString(), JsonInteger() + Keywords());
    UnionFits(d, JsonShortNumber(), Keywords());
    UnionFits(d, JsonString(), JsonShortNumber() + Keywords());
  }

  lemma NamedFit(d: nat, value: Lang)
    requires AllFit(d, value)
    ensures AllFit(d, NamedOf(value))
  {
    hide AllFit, JsonString, Cat, Blank, Word;
    JsonStringsFit(d);
    BlankFits(d);
    PlainWordFits(d, ":");
    CatFits(d, Blank(), value);
    CatFits(d, Word(":"), Cat(Blank(), value));
    CatFits(d, Blank(), Cat(Word(":"), Cat(Blank(), value)));
    CatFits(d, JsonString(), Cat(Blank(), Cat(Word(":"), Cat(Blank(), value))));
  }

  lemma JsonPairsFit(d: nat)
    ensures AllFit(d, JsonPair())
  {
    hide AllFit, JsonOpenValue, NamedOf;
    JsonItemsFit(d);
    NamedFit(d, JsonOpenValue());
  }

  lemma ScalarsFit(d: nat, kind: Kind, style: Style)
    requires IsScalar(kind)
    ensures AllFit(d, ScalarIn(kind, style))
  {
    hide AllFit, StringToken, NumberToken, IntegerToken, BooleanToken, Word, JsonString, JsonNumber, JsonInteger;
    StringsFit(d);
    NumbersFit(d);
    IntegersFit(d);
    KeywordsFit(d);
    JsonStringsFit(d);
    JsonNumbersFit(d);
  }

  lemma LiteralFits(d: nat, v: Json, style: Style)
    requires ExpressibleValue(v)
    ensures FitsAt(d, Literal(v, style))
  {
    if style.rawTokens {
      ValueTextFits(d, v);
    } else if v.JString? {
      EscapedIsInner(v.s);
      QuotedFits(d, Escape(v.s));
    } else {
      PrintFits(d, v);
    }
  }

  // Every choice is one of the literals, or the empty text for an empty enum.
  lemma ChoiceIsLiteral(w: string, values: seq<Json>, style: Style) returns (i: nat)
    requires w in Choices(values, style) && values != []
    ensures i < |values| && w == Literal(values[i], style)
  {
    i :| i < |values| && w == Literal(values[i], style);
  }

  lemma ChoicesFit(d: nat, values: seq<Json>, style: Style)
    requires forall i :: 0 <= i < |values| ==> ExpressibleValue(values[i])
    ensures AllFit(d, Choices(values, style))
  {
    hide FitsAt, Literal, ExpressibleValue;
    PlainFits(d, "");
    forall w | w in Choices(values, style) ensures FitsAt(d, w) {
      if values != [] {
        var i := ChoiceIsLiteral(w, values, style);
        LiteralFits(d, values[i], style);
      } else {
        NoChoices(w, style);
      }
    }
  }

  lemma NoChoices(w: string, style: Style)
    requires w in Choices([], style)
    ensures w == ""
  {
  }

  lemma OpenPairsFit(d: nat, style: Style)
    ensures AllFit(d, OpenPairIn(style)) && AllFit(d, ItemIn(style))
  {
    hide AllFit, AnyPair, AnyItem, JsonPair, JsonItem;
    AnyPairsFit(d);
    AnyItemsFit(d);
    JsonPairsFit(d);
    JsonItemsFit(d);
  }

  lemma OpenObjectsFit(d: nat, style: Style)
    ensures AllFit(d, Enclosed("{", Maybe(ListOf(OpenPairIn(style), SpacedComma())), "}"))
  {
    hide AllFit, Enclosed, ListOf, OpenPairIn, SpacedComma, Maybe;
    OpenPairsFit(d + 1, style);
    CommasFit(d + 1);
    ListFits(d + 1, OpenPairIn(style), SpacedComma());
    MaybeFits(d + 1, ListOf(OpenPairIn(style), SpacedComma()));
    EnclosedFits(d, '{', Maybe(ListOf(OpenPairIn(style), SpacedComma())), '}');
  }

  lemma ArraysFit(d: nat, item: Lang)
    requires AllFit(d + 1, item)
    ensures AllFit(d, Enclosed("[", Maybe(ListOf(item, Comma())), "]"))
  {
    hide AllFit, Enclosed, ListOf, Comma, Maybe;
    CommasFit(d + 1);
    ListFits(d + 1, item, Comma());
    MaybeFits(d + 1, ListOf(item, Comma()));
    EnclosedFits(d, '[', Maybe(ListOf(item, Comma())), ']');
  }

  lemma LeafFits(d: nat, schema: Json, style: Style)
    requires Expressible(schema) && IsLeaf(schema)
    ensures AllFit(d, Reading(schema, style))
  {
    hide AllFit, Word, Choices, ScalarIn, Literal, ExpressibleValue, SchemaKind, Get;
    if HasEnum(schema) {
      ChoicesFit(d, Get(schema, "enum").value.items, style);
    } else if HasConst(schema) {
      LiteralFits(d, Get(schema, "const").value, style);
      WordFits(d, Literal(Get(schema, "const").value, style));
    } else {
      ScalarsFit(d, SchemaKind(schema), style);
    }
  }

  lemma ObjectFits(d: nat, schema: Json, style: Style)
    requires Expressible(schema) && IsObject(schema)
    ensures AllFit(d, Reading(schema, style))
    decreases schema, 1
  {
    hide AllFit, Enclosed, ListOf, Maybe, OpenPairIn, MembersReading, SchemaKind;
    if Get(schema, "properties").Some? {
      var members := Get(schema, "properties").value.members;
      MembersFit(d + 1, members, Required(schema), style);
      EnclosedFits(d, '{', MembersReading(members, Required(schema), style), '}');
    } else {
      OpenObjectsFit(d, style);
    }
  }

  lemma ArrayFits(d: nat, schema: Json, style: Style)
    requires Expressible(schema) && IsArray(schema)
    ensures AllFit(d, Reading(schema, style))
    decreases schema, 1
  {
    hide AllFit, Enclosed, ListOf, Maybe, ItemIn, SchemaKind;
    if Get(schema, "items").Some? {
      ReadingFits(d + 1, Get(schema, "items").value, style);
      ArraysFit(d, Reading(Get(schema, "items").value, style));
    } else {
      OpenPairsFit(d + 1, style);
      ArraysFit(d, ItemIn(style));
    }
  }

  lemma {:induction false} ReadingFits(d: nat, schema: Json, style: Style)
    requires Expressible(schema)
    ensures AllFit(d, Reading(schema, style))
    decreases schema, 2
  {
    hide AllFit, Reading, Expressible, SchemaKind;
    if IsObject(schema) {
      ObjectFits(d, schema, style);
    } else if IsArray(schema) {
      ArrayFits(d, schema, style);
    } else {
      LeafFits(d, schema, style);
    }
  }

  lemma PairFits(d: nat, m: Member, style: Style)
    requires Unquoted(m.key) && AllFit(d, Reading(m.value, style))
    ensures AllFit(d, PairReading(m, style))
  {
    hide AllFit, Reading, Cat, Blank, Word, Escape;
    var l, k := Reading(m.value, style), KeyText(m.key, style);
    UnquotedIsInner(m.key);
    EscapedIsInner(m.key);
    QuotedFits(d, m.key);
    QuotedFits(d, Escape(m.key));
    WordFits(d, k);
    PlainWordFits(d, ":");
    BlankFits(d);
    CatFits(d, Blank(), l);
    CatFits(d, Word(":"), Cat(Blank(), l));
    CatFits(d, Blank(), Cat(Word(":"), Cat(Blank(), l)));
    CatFits(d, Word(k), Cat(Blank(), Cat(Word(":"), Cat(Blank(), l))));
  }

  lemma SeparatedFits(d: nat, first: Lang, next: Lang)
    requires d > 0 && AllFit(d, first) && AllFit(d, next)
    ensures AllFit(d, Separated(first, next))
  {
    hide AllFit, Cat, Blank, Word;
    BlankFits(d);
    CommaFits(d);
    WordFits(d, ",");
    CatFits(d, Blank(), next);
    CatFits(d, Word(","), Cat(Blank(), next));
    CatFits(d, Blank(), Cat(Word(","), Cat(Blank(), next)));
    CatFits(d, first, Cat(Blank(), Cat(Word(","), Cat(Blank(), next))));
  }

  lemma {:induction false} MembersFit(d: nat, members: seq<Member>, required: seq<string>, style: Style)
    requires d > 0 && ExpressibleMembers(members)
    ensures AllFit(d, CommasKept(members, required, style))
    ensures AllFit(d, Selected(members, required, style))
    ensures AllFit(d, MembersReading(members, required, style))
    decreases members, 1
  {
    hide FitsAt, Separated, PairReading, Reading;
    PlainFits(d, "");
    if members != [] {
      var m, rest := members[0], members[1..];
      ReadingFits(d, m.value, style);
      PairFits(d, m, style);
      MembersFit(d, rest, required, style);
      MaybeFits(d, PairReading(m, style));
      var first := if m.key in required then PairReading(m, style) else Maybe(PairReading(m, style));
      SeparatedFits(d, first, CommasKept(rest, required, style));
      SeparatedFits(d, PairReading(m, style), Selected(rest, required, style));
    }
  }
}
