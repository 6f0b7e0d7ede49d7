// JSON texts as RFC 8259 defines them (sections 2 to 7), independently of any schema.
module JsonTexts {
  import opened Text
  import opened Json
  import opened Grammar
  import opened Languages
  import opened SchemaReading
  import opened Nesting
  import opened SchemaNesting
  import opened SchemaPadding
  import opened SchemaTokens

  ghost function JsonLeaf(): Lang {
    JsonString() + (JsonNumber() + Keywords())
  }

  ghost function ArrayOf(value: Lang): Lang {
    Enclosed("[", Maybe(ListOf(value, SpacedComma())), "]")
  }

  ghost function RecordOf(value: Lang): Lang {
    Enclosed("{", Maybe(ListOf(NamedOf(value), SpacedComma())), "}")
  }

  // Values with at most n arrays and objects around any part.
  ghost function JsonValue(n: nat): Lang {
    if n == 0 then JsonLeaf() else JsonLeaf() + (ArrayOf(JsonValue(n - 1)) + RecordOf(JsonValue(n - 1)))
  }

  // A value with blanks around it.
  ghost predicate IsJsonText(w: string) {
    exists n: nat :: w in Padded(JsonValue(n))
  }

  // ---------------------------------------------------------------- larger depths

  lemma CatMono(a: Lang, b: Lang, c: Lang, d: Lang)
    requires a <= c && b <= d
    ensures Cat(a, b) <= Cat(c, d)
  {
  }

  lemma EnclosedMono(open: string, a: Lang, b: Lang, close: string)
    requires a <= b
    ensures Enclosed(open, a, close) <= Enclosed(open, b, close)
  {
    hide Cat, Blank;
    CatMono(a, Cat(Blank(), Word(close)), b, Cat(Blank(), Word(close)));
    CatMono(Blank(), Cat(a, Cat(Blank(), Word(close))), Blank(), Cat(b, Cat(Blank(), Word(close))));
    CatMono(Word(open), Cat(Blank(), Cat(a, Cat(Blank(), Word(close)))),
            Word(open), Cat(Blank(), Cat(b, Cat(Blank(), Word(close)))));
  }

  lemma NamedMono(key: Lang, a: Lang, b: Lang)
    requires key <= JsonString() && a <= b
    ensures Cat(key, Cat(Blank(), Cat(Word(":"), Cat(Blank(), a)))) <= NamedOf(b)
  {
    hide Cat, Blank, JsonString;
    CatMono(Blank(), a, Blank(), b);
    CatMono(Word(":"), Cat(Blank(), a), Word(":"), Cat(Blank(), b));
    CatMono(Blank(), Cat(Word(":"), Cat(Blank(), a)), Blank(), Cat(Word(":"), Cat(Blank(), b)));
    CatMono(key, Cat(Blank(), Cat(Word(":"), Cat(Blank(), a))),
            JsonString(), Cat(Blank(), Cat(Word(":"), Cat(Blank(), b))));
  }

  lemma ListsGrow(a: Lang, b: Lang)
    requires a <= b
    ensures Maybe(ListOf(a, SpacedComma())) <= Maybe(ListOf(b, SpacedComma()))
  {
    hide ListOf, SpacedComma;
    ListMono(a, b, SpacedComma(), SpacedComma());
  }

  lemma ArraysGrow(a: Lang, b: Lang)
    requires a <= b
    ensures ArrayOf(a) <= ArrayOf(b)
  {
    hide ListOf, SpacedComma, Enclosed, Maybe;
    ListsGrow(a, b);
    EnclosedMono("[", Maybe(ListOf(a, SpacedComma())), Maybe(ListOf(b, SpacedComma())), "]");
  }

  lemma NamedGrow(a: Lang, b: Lang)
    requires a <= b
    ensures NamedOf(a) <= NamedOf(b)
  {
    NamedMono(JsonString(), a, b);
  }

  lemma RecordsGrow(a: Lang, b: Lang)
    requires a <= b
    ensures RecordOf(a) <= RecordOf(b)
  {
    hide ListOf, SpacedComma, Enclosed, Maybe, NamedOf;
    NamedGrow(a, b);
    ListsGrow(NamedOf(a), NamedOf(b));
    EnclosedMono("{", Maybe(ListOf(NamedOf(a), SpacedComma())), Maybe(ListOf(NamedOf(b), SpacedComma())), "}");
  }

  lemma {:induction false} ValuesGrow(n: nat, m: nat)
    requires n <= m
    ensures JsonValue(n) <= JsonValue(m)
    decreases m
  {
    hide JsonLeaf, ArrayOf, RecordOf;
    if 0 < n {
      ValuesGrow(n - 1, m - 1);
      ArraysGrow(JsonValue(n - 1), JsonValue(m - 1));
      RecordsGrow(JsonValue(n - 1), JsonValue(m - 1));
    }
  }

  // ---------------------------------------------------------------- how values begin

  lemma NumberStart(x: string)
    requires x in JsonNumber()
    ensures x != "" && (x[0] == '-' || IsDigit(x[0]))
  {
    hide Cat, Maybe, Fraction, Exponent;
    var m, n := CatSplit(x, Maybe(Word("-")), Cat(JsonInt(), Cat(Fraction(), Exponent())));
    var i, r := CatSplit(n, JsonInt(), Cat(Fraction(), Exponent()));
    MaybeMinus(m);
    assert m == "" ==> x == i + r;
    assert IsDigit(i[0]);
  }

  lemma EnclosedStart(x: string, open: string, inner: Lang, close: string)
    requires x in Enclosed(open, inner, close) && open != ""
    ensures x != "" && x[0] == open[0]
  {
    hide Enclosed, Blank;
    var s, m, t := EnclosedSplit(x, open, inner, close);
  }

  // The first character tells strings, arrays and objects.
  lemma ValueStart(x: string, n: nat)
    requires x in JsonValue(n)
    ensures NoLeadingZero(x)
    ensures x[0] == '"' ==> x in JsonString()
    ensures x[0] == '[' ==> n > 0 && x in ArrayOf(JsonValue(n - 1))
    ensures x[0] == '{' ==> n > 0 && x in RecordOf(JsonValue(n - 1))
  {
    hide JsonString, JsonNumber, Keywords, ArrayOf, RecordOf, IsDigit;
    LeafStart(x);
    if n > 0 {
      BracketStart(x, JsonValue(n - 1));
    }
  }

  lemma LeafStart(x: string)
    ensures x in JsonLeaf() ==> NoLeadingZero(x) && x[0] != '[' && x[0] != '{'
    ensures x in JsonLeaf() && x[0] == '"' ==> x in JsonString()
  {
    hide JsonNumber;
    JsonNumbersHaveNoLeadingZero();
    if x in JsonNumber() {
      NumberStart(x);
    }
  }

  lemma BracketStart(x: string, value: Lang)
    ensures x in ArrayOf(value) ==> x != "" && x[0] == '['
    ensures x in RecordOf(value) ==> x != "" && x[0] == '{'
  {
    hide Enclosed, ListOf, Maybe, NamedOf, SpacedComma;
    if x in ArrayOf(value) {
      EnclosedStart(x, "[", Maybe(ListOf(value, SpacedComma())), "]");
    }
    if x in RecordOf(value) {
      EnclosedStart(x, "{", Maybe(ListOf(NamedOf(value), SpacedComma())), "}");
    }
  }

  // ---------------------------------------------------------------- values are whole

  lemma ListsFit(d: nat, item: Lang)
    requires d > 0 && AllFit(d, item)
    ensures AllFit(d, Maybe(ListOf(item, SpacedComma())))
  {
    hide AllFit, ListOf, SpacedComma, Maybe;
    CommasFit(d);
    ListFits(d, item, SpacedComma());
    MaybeFits(d, ListOf(item, SpacedComma()));
  }

  lemma LeavesFit(d: nat)
    ensures AllFit(d, JsonLeaf())
  {
    hide AllFit, JsonString, JsonNumber, Keywords;
    JsonStringsFit(d);
    JsonNumbersFit(d);
    KeywordsFit(d);
    UnionFits(d, JsonNumber(), Keywords());
    UnionFits(d, JsonString(), JsonNumber() + Keywords());
  }

  lemma {:induction false} ValuesFit(d: nat, n: nat)
    ensures AllFit(d, JsonValue(n))
    decreases n
  {
    hide AllFit, JsonLeaf, Enclosed, ListOf, Maybe, NamedOf, SpacedComma;
    LeavesFit(d);
    if n > 0 {
      var v := JsonValue(n - 1);
      ValuesFit(d + 1, n - 1);
      NamedFit(d + 1, v);
      ListsFit(d + 1, v);
      ListsFit(d + 1, NamedOf(v));
      EnclosedFits(d, '[', Maybe(ListOf(v, SpacedComma())), ']');
      EnclosedFits(d, '{', Maybe(ListOf(NamedOf(v), SpacedComma())), '}');
      UnionFits(d, ArrayOf(v), RecordOf(v));
      UnionFits(d, JsonLeaf(), ArrayOf(v) + RecordOf(v));
    }
  }

  // ---------------------------------------------------------------- building lists

  lemma OneInList(w: string, item: Lang)
    requires w in item
    ensures w in ListOf(item, SpacedComma())
  {
    hide SpacedComma;
    OneItem(item, SpacedComma());
    assert IsListed(item, SpacedComma(), w);
  }

  lemma ListFold(w: string, item: Lang)
    requires w in Separated(item, ListOf(item, SpacedComma()))
    ensures w in ListOf(item, SpacedComma())
  {
    hide Cat, Blank, Separated, ListOf;
    var f, s, t, n := SeparatedSplit(w, item, ListOf(item, SpacedComma()));
    SpacedCommaIntro(s, t);
    MoreInList(f, s + ("," + t), n, item);
    Assoc(s, "," + t, n);
    Assoc(",", t, n);
    Assoc(f, s, "," + (t + n));
    Assoc(f + s, ",", t + n);
  }

  lemma SpacedCommaIntro(s: string, t: string)
    requires s in Blank() && t in Blank()
    ensures s + ("," + t) in SpacedComma()
  {
    hide Cat, Blank;
    CatIntro(",", t, Word(","), Blank());
    CatIntro(s, "," + t, Blank(), Comma());
  }

  lemma MoreInList(f: string, c: string, n: string, item: Lang)
    requires f in item && c in SpacedComma() && n in ListOf(item, SpacedComma())
    ensures f + (c + n) in ListOf(item, SpacedComma())
  {
    hide SpacedComma, Listed;
    var count: nat :| count >= 1 && n in Listed(item, SpacedComma(), count);
    OneMore(item, SpacedComma(), f, c, n, count);
    assert IsListed(item, SpacedComma(), f + (c + n));
  }

  lemma CommaInList(f: string, n: string, item: Lang)
    requires f in item && n in ListOf(item, SpacedComma())
    ensures f + ("," + n) in ListOf(item, SpacedComma())
  {
    BlankHasEmpty();
    SpacedCommaIntro("", "");
    assert "" + ("," + "") == ",";
    MoreInList(f, ",", n, item);
  }

  // ---------------------------------------------------------------- printed values are JSON

  // Every number is spelled as JSON spells numbers.
  ghost predicate ProperNumbers(v: Json) {
    match v
    case JNumber(text) => text in JsonNumber()
    case JArray(items) => forall i :: 0 <= i < |items| ==> ProperNumbers(items[i])
    case JObject(members) => forall i :: 0 <= i < |members| ==> ProperNumbers(members[i].value)
    case _ => true
  }

  lemma {:induction false} PrintIsJson(v: Json) returns (n: nat)
    requires ProperNumbers(v)
    ensures Print(v) in JsonValue(n)
    decreases v, 0
  {
    match v
    case JArray(items) => n := PrintedArray(items);
    case JObject(members) => n := PrintedObject(members);
    case _ => n := 0; PrintedLeaf(v);
  }

  lemma PrintedLeaf(v: Json)
    requires ProperNumbers(v) && !v.JArray? && !v.JObject?
    ensures Print(v) in JsonLeaf()
  {
    hide JsonString, JsonNumber, Escape;
    if v.JString? {
      QuotedIsJson(v.s);
    }
  }

  lemma PrintedArray(items: seq<Json>) returns (n: nat)
    requires forall i :: 0 <= i < |items| ==> ProperNumbers(items[i])
    ensures "[" + PrintItems(items) + "]" in JsonValue(n)
    decreases items, 2
  {
    hide JsonLeaf, Enclosed, ListOf, SpacedComma, NamedOf, ProperNumbers;
    var m := 0;
    if items != [] {
      m := PrintedItems(items);
    }
    EnclosedIntro("[", PrintItems(items), "]", Maybe(ListOf(JsonValue(m), SpacedComma())));
    n := m + 1;
  }

  lemma PrintedObject(members: seq<Member>) returns (n: nat)
    requires forall i :: 0 <= i < |members| ==> ProperNumbers(members[i].value)
    ensures "{" + PrintMembers(members) + "}" in JsonValue(n)
    decreases members, 2
  {
    hide JsonLeaf, Enclosed, ListOf, SpacedComma, NamedOf, ProperNumbers, Escape, Print;
    var m := 0;
    if members != [] {
      m := PrintedMembers(members);
    }
    EnclosedIntro("{", PrintMembers(members), "}", Maybe(ListOf(NamedOf(JsonValue(m)), SpacedComma())));
    n := m + 1;
  }

  lemma {:induction false} PrintedItems(items: seq<Json>) returns (n: nat)
    requires items != [] && forall i :: 0 <= i < |items| ==> ProperNumbers(items[i])
    ensures PrintItems(items) in ListOf(JsonValue(n), SpacedComma())
    decreases items, 1
  {
    hide JsonValue, ListOf, SpacedComma, ProperNumbers, Print;
    var first := Print(items[0]);
    var a := PrintIsJson(items[0]);
    if |items| == 1 {
      n := a;
      assert PrintItems(items) == first;
      OneInList(first, JsonValue(n));
    } else {
      var b := PrintedItems(items[1..]);
      n := if a < b then b else a;
      ValuesGrow(a, n);
      ValuesGrow(b, n);
      ListMono(JsonValue(b), JsonValue(n), SpacedComma(), SpacedComma());
      CommaInList(first, PrintItems(items[1..]), JsonValue(n));
    }
  }

  lemma {:induction false} PrintedMembers(members: seq<Member>) returns (n: nat)
    requires members != [] && forall i :: 0 <= i < |members| ==> ProperNumbers(members[i].value)
    ensures PrintMembers(members) in ListOf(NamedOf(JsonValue(n)), SpacedComma())
    decreases members, 1
  {
    hide JsonValue, ListOf, SpacedComma, ProperNumbers, NamedOf, Escape;
    var m := members[0];
    var first := ("\"" + Escape(m.key) + "\"") + (":" + Print(m.value));
    var a := PrintIsJson(m.value);
    NamedIntro(m, JsonValue(a));
    if |members| == 1 {
      n := a;
      OneInList(first, NamedOf(JsonValue(n)));
      PrintedMember(members);
    } else {
      var b := PrintedMembers(members[1..]);
      n := if a < b then b else a;
      ValuesGrow(a, n);
      ValuesGrow(b, n);
      NamedGrow(JsonValue(a), JsonValue(n));
      NamedGrow(JsonValue(b), JsonValue(n));
      ListMono(NamedOf(JsonValue(b)), NamedOf(JsonValue(n)), SpacedComma(), SpacedComma());
      CommaInList(first, PrintMembers(members[1..]), NamedOf(JsonValue(n)));
      PrintedMember(members);
    }
  }

  lemma PrintedMember(members: seq<Member>)
    requires members != []
    ensures var first := ("\"" + Escape(members[0].key) + "\"") + (":" + Print(members[0].value));
            PrintMembers(members) == if |members| == 1 then first else first + ("," + PrintMembers(members[1..]))
  {
    hide Escape, Print;
    var rest := if |members| == 1 then "" else "," + PrintMembers(members[1..]);
    PairAndRest("\"" + Escape(members[0].key), Print(members[0].value), rest);
  }

  lemma PairAndRest(k: string, v: string, rest: string)
    ensures k + "\":" + v + rest == ((k + "\"") + (":" + v)) + rest
    ensures ((k + "\"") + (":" + v)) + "" == (k + "\"") + (":" + v)
  {
    assert k + "\":" == (k + "\"") + ":";
    Assoc(k + "\"", ":", v);
  }

  lemma NamedIntro(m: Member, value: Lang)
    requires Print(m.value) in value
    ensures ("\"" + Escape(m.key) + "\"") + (":" + Print(m.value)) in NamedOf(value)
  {
    hide Cat, Blank, JsonString, Print;
    BlankHasEmpty();
    QuotedIsJson(m.key);
    var v, k := Print(m.value), "\"" + Escape(m.key) + "\"";
    EmptyLeft(v, Blank(), value);
    CatIntro(":", v, Word(":"), Cat(Blank(), value));
    EmptyLeft(":" + v, Blank(), Cat(Word(":"), Cat(Blank(), value)));
    CatIntro(k, ":" + v, JsonString(), Cat(Blank(), Cat(Word(":"), Cat(Blank(), value))));
  }
}
