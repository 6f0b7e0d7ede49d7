// What the grammar derives for each type name, and which parts of a schema it goes by, with names and
// texts written out.
module SchemaKinds {
  import opened Wrappers
  import opened Text
  import opened Json
  import opened Grammar
  import opened SchemaModel
  import opened SchemaNames
  import opened SchemaUniqueness
  import opened Languages
  import opened SchemaReading
  import opened SchemaMeaning
  import opened SchemaNesting
  import opened SchemaPadding
  import opened SchemaTheorems

  // {"type": t}
  function Typed(t: string): Json {
    JObject([Member("type", JString(t))])
  }

  // The words derivable for a schema, if it compiles.
  ghost predicate Derives(schema: Json, w: string) {
    Compile(schema).Ok? && w in Language(Compile(schema).value, "root")
  }

  // ---------------------------------------------------------------- tokens, spelled out

  // One or more digits, with a minus in front or not.
  predicate IsIntegerText(w: string) {
    || (w != "" && forall i :: 0 <= i < |w| ==> '0' <= w[i] <= '9')
    || (|w| > 1 && w[0] == '-' && forall i :: 1 <= i < |w| ==> '0' <= w[i] <= '9')
  }

  predicate IsDigits(w: string) {
    w != "" && forall i :: 0 <= i < |w| ==> '0' <= w[i] <= '9'
  }

  // Sign, digits, a fraction or not, an exponent or not.
  ghost predicate IsNumberText(w: string) {
    exists m: string, i: string, f: string, e: string ::
      IsNumberOf(m, i, f, e) && w == m + (i + (f + e))
  }

  predicate IsNumberOf(m: string, i: string, f: string, e: string) {
    && (m == "" || m == "-") && IsDigits(i)
    && (f == "" || (f[0] == '.' && IsDigits(f[1..])))
    && (e == "" || ((e[0] == 'e' || e[0] == 'E')
                    && (IsDigits(e[1..]) || (|e| > 1 && (e[1] == '+' || e[1] == '-') && IsDigits(e[2..])))))
  }

  // Between quotes: no bare quote, and behind each backslash another character.
  predicate IsQuotedInner(w: string) {
    if w == "" then true
    else if w[0] == '\\' then |w| > 1 && IsQuotedInner(w[2..])
    else w[0] != '"' && IsQuotedInner(w[1..])
  }

  predicate IsStringText(w: string) {
    |w| >= 2 && w[0] == '"' && w[|w| - 1] == '"' && IsQuotedInner(w[1..|w| - 1])
  }

  lemma {:induction false} InnerIff(w: string)
    ensures StringInner(w) <==> IsQuotedInner(w)
    decreases |w|
  {
    if w != "" {
      InnerIff(w[1..]);
      if |w| >= 2 {
        InnerIff(w[2..]);
      }
    }
  }

  lemma StringIff(w: string)
    ensures w in StringToken() <==> IsStringText(w)
  {
    if |w| >= 2 {
      InnerIff(w[1..|w| - 1]);
    }
  }

  lemma DigitsIff(w: string)
    ensures w in DigitRun() <==> IsDigits(w)
  {
    if w in DigitRun() {
      assert forall i :: 0 <= i < |w| ==> IsDigit(w[i]);
    }
    if IsDigits(w) {
      assert forall i :: 0 <= i < |w| ==> IsDigit(w[i]);
      assert AllDigits(w);
    }
  }

  lemma SignIff(m: string)
    ensures m in Maybe(Word("-")) <==> m == "" || m == "-"
  {
  }

  lemma IntegerIff(w: string)
    ensures w in IntegerToken() <==> IsIntegerText(w)
  {
    hide Cat, DigitRun, Maybe;
    if w in IntegerToken() {
      var m, i := CatSplit(w, Maybe(Word("-")), DigitRun());
      SignIff(m);
      DigitsIff(i);
      assert m == "" ==> w == i;
      assert m == "-" ==> forall k :: 1 <= k < |w| ==> w[k] == i[k - 1];
    }
    if IsIntegerText(w) {
      var m, i := if w[0] == '-' then "-" else "", if w[0] == '-' then w[1..] else w;
      SignIff(m);
      DigitsIff(i);
      CatIntro(m, i, Maybe(Word("-")), DigitRun());
      assert w == m + i;
    }
  }

  lemma FractionIff(f: string)
    ensures f in Fraction() <==> f == "" || (f[0] == '.' && IsDigits(f[1..]))
  {
    hide DigitRun;
    if f != "" {
      DigitsIff(f[1..]);
      if f in Fraction() {
        var u, v := CatSplit(f, Word("."), DigitRun());
        assert f[1..] == v;
      }
      if f[0] == '.' && f[1..] in DigitRun() {
        CatIntro(".", f[1..], Word("."), DigitRun());
        assert f == "." + f[1..];
      }
    }
  }

  // Digits behind a sign or none.
  lemma SignedIff(x: string)
    ensures x in Cat(Maybe(Word("+") + Word("-")), DigitRun())
            <==> IsDigits(x) || (x != "" && (x[0] == '+' || x[0] == '-') && IsDigits(x[1..]))
  {
    hide DigitRun, Cat;
    var signs := Maybe(Word("+") + Word("-"));
    DigitsIff(x);
    if x in Cat(signs, DigitRun()) {
      var u, v := CatSplit(x, signs, DigitRun());
      DigitsIff(v);
      assert u == "" || u == "+" || u == "-";
      assert u == "" ==> x == v;
      assert u != "" ==> x[1..] == v;
    }
    if IsDigits(x) {
      EmptyLeft(x, signs, DigitRun());
    }
    if x != "" && (x[0] == '+' || x[0] == '-') && IsDigits(x[1..]) {
      DigitsIff(x[1..]);
      assert [x[0]] in signs by { assert [x[0]] == "+" || [x[0]] == "-"; }
      CatIntro([x[0]], x[1..], signs, DigitRun());
      assert x == [x[0]] + x[1..];
    }
  }

  lemma ExponentIff(e: string)
    ensures e in Exponent()
            <==> || e == ""
                 || ((e[0] == 'e' || e[0] == 'E')
                     && (IsDigits(e[1..]) || (|e| > 1 && (e[1] == '+' || e[1] == '-') && IsDigits(e[2..]))))
  {
    hide DigitRun, Cat, IsDigits;
    var marks, power := Word("e") + Word("E"), Cat(Maybe(Word("+") + Word("-")), DigitRun());
    if e != "" {
      var x := e[1..];
      SignedIff(x);
      assert |x| > 0 ==> x[1..] == e[2..];
      if e in Exponent() {
        var u, v := CatSplit(e, marks, power);
        assert x == v;
      }
      if (e[0] == 'e' || e[0] == 'E') && x in power {
        assert [e[0]] in marks by { assert [e[0]] == "e" || [e[0]] == "E"; }
        CatIntro([e[0]], x, marks, power);
        assert e == [e[0]] + x;
      }
    }
  }

  lemma NumberIff(w: string)
    ensures w in NumberToken() <==> IsNumberText(w)
  {
    hide DigitRun, Cat, Maybe, Fraction, Exponent, IsDigits;
    var sign, tail := Maybe(Word("-")), Cat(Fraction(), Exponent());
    if w in NumberToken() {
      var m, x := CatSplit(w, sign, Cat(DigitRun(), tail));
      var i, y := CatSplit(x, DigitRun(), tail);
      var f, e := CatSplit(y, Fraction(), Exponent());
      SignIff(m);
      DigitsIff(i);
      FractionIff(f);
      ExponentIff(e);
      assert IsNumberOf(m, i, f, e);
    }
    if IsNumberText(w) {
      var m, i, f, e :| IsNumberOf(m, i, f, e) && w == m + (i + (f + e));
      SignIff(m);
      DigitsIff(i);
      FractionIff(f);
      ExponentIff(e);
      CatIntro(f, e, Fraction(), Exponent());
      CatIntro(i, f + e, DigitRun(), tail);
      CatIntro(m, i + (f + e), sign, Cat(DigitRun(), tail));
    }
  }

  // ---------------------------------------------------------------- the seven type names

  lemma TypedIs(t: string)
    ensures Get(Typed(t), "enum") == None && Get(Typed(t), "const") == None
    ensures Get(Typed(t), "type") == Some(JString(t))
    ensures Get(Typed(t), "properties") == None && Get(Typed(t), "items") == None
  {
  }

  // Any schema that has this type name and neither an enum nor a const.
  ghost predicate GoesByType(schema: Json, t: string) {
    && Get(schema, "enum") == None && Get(schema, "const") == None && Get(schema, "type") == Some(JString(t))
  }

  lemma LeafDerivation(schema: Json, w: string)
    requires IsLeaf(schema) && GenRule(schema, ROOT).result.Ok?
    ensures Derives(schema, w) <==> w in Derived(schema)
  {
    hide Derived, Language;
    assert NodePaths(schema, ROOT) == [ROOT];
    LanguageIsDerived(schema);
  }

  lemma ScalarDerivation(schema: Json, t: string, w: string)
    requires GoesByType(schema, t) && IsScalar(KindOf(t))
    ensures Derives(schema, w) <==> w in ScalarReading(KindOf(t))
  {
    hide Derives, ScalarReading, KindOf, Get;
    LeafDerivation(schema, w);
  }

  lemma KindNames()
    ensures KindOf("string") == KString && KindOf("number") == KNumber && KindOf("integer") == KInteger
    ensures KindOf("boolean") == KBoolean && KindOf("null") == KNull
  {
  }

  // Exactly the words below are derived for a schema that names one of the scalar types.
  lemma ScalarTypes(schema: Json, w: string)
    ensures GoesByType(schema, "boolean") ==> (Derives(schema, w) <==> w == "true" || w == "false")
    ensures GoesByType(schema, "null") ==> (Derives(schema, w) <==> w == "null")
    ensures GoesByType(schema, "integer") ==> (Derives(schema, w) <==> IsIntegerText(w))
    ensures GoesByType(schema, "number") ==> (Derives(schema, w) <==> IsNumberText(w))
    ensures GoesByType(schema, "string") ==> (Derives(schema, w) <==> IsStringText(w))
  {
    hide Derives, StringToken, IntegerToken, NumberToken, IsNumberText, IsStringText, IsIntegerText, GoesByType, KindOf;
    KindNames();
    IntegerIff(w);
    NumberIff(w);
    StringIff(w);
    if GoesByType(schema, "boolean") {
      ScalarDerivation(schema, "boolean", w);
    }
    if GoesByType(schema, "null") {
      ScalarDerivation(schema, "null", w);
    }
    if GoesByType(schema, "integer") {
      ScalarDerivation(schema, "integer", w);
    }
    if GoesByType(schema, "number") {
      ScalarDerivation(schema, "number", w);
    }
    if GoesByType(schema, "string") {
      ScalarDerivation(schema, "string", w);
    }
  }

  // Without a type, or with one that is no string, a schema counts as a string.
  lemma NoTypeIsString(schema: Json, w: string)
    requires Get(schema, "enum") == None && Get(schema, "const") == None
    requires Get(schema, "type").Some? ==> !Get(schema, "type").value.JString?
    ensures Derives(schema, w) <==> IsStringText(w)
  {
    hide Derives, StringToken, IsStringText, Get;
    StringIff(w);
    LeafDerivation(schema, w);
  }

  // Any other type name is refused.
  lemma OtherTypesAreRefused(schema: Json, t: string)
    requires GoesByType(schema, t)
    requires t !in {"object", "array", "string", "number", "integer", "boolean", "null"}
    ensures Compile(schema) == Err("Unsupported JSON Schema type: " + t)
  {
    hide Get;
  }

  // ---------------------------------------------------------------- enum and const

  // Strings between quotes, other values as compact JSON.
  function LiteralOf(v: Json): string {
    match v
    case JString(s) => "\"" + s + "\""
    case JNull => "null"
    case JBool(b) => if b then "true" else "false"
    case JNumber(text) => text
    case _ => Print(v)
  }

  lemma LiteralOfIs(v: Json)
    ensures ValueText(v) == LiteralOf(v)
  {
  }

  // An enum array decides, whatever else the schema holds; an empty one derives the empty text.
  lemma EnumDecides(schema: Json, values: seq<Json>, w: string)
    requires Get(schema, "enum") == Some(JArray(values))
    requires forall i :: 0 <= i < |values| ==> ExpressibleValue(values[i])
    ensures Derives(schema, w)
            <==> (values == [] && w == "") || exists i :: 0 <= i < |values| && w == LiteralOf(values[i])
  {
    hide Derives, ExpressibleValue, ValueText, SpelledChoices, Get, LiteralOf;
    LeafDerivation(schema, w);
    PlainChoicesAreSpelled(values);
    forall i | 0 <= i < |values| ensures ValueText(values[i]) == LiteralOf(values[i]) {
      LiteralOfIs(values[i]);
    }
    if i :| 0 <= i < |values| && w == LiteralOf(values[i]) {
      assert ValueText(values[i]) in OneOf(values);
    }
  }

  // Without an enum array a const decides.
  lemma ConstDecides(schema: Json, v: Json, w: string)
    requires Get(schema, "enum").Some? ==> !Get(schema, "enum").value.JArray?
    requires Get(schema, "const") == Some(v) && ExpressibleValue(v)
    ensures Derives(schema, w) <==> w == LiteralOf(v)
  {
    hide Derives, ExpressibleValue, ValueText, SpelledValue, Get, LiteralOf;
    LeafDerivation(schema, w);
    PlainValueIsSpelled(v);
    LiteralOfIs(v);
  }

  // ---------------------------------------------------------------- arrays

  // Spaces, tabs, line feeds and carriage returns.
  predicate IsGap(w: string) {
    forall i :: 0 <= i < |w| ==> w[i] == ' ' || w[i] == '\t' || w[i] == '\n' || w[i] == '\r'
  }

  lemma GapIff(w: string)
    ensures w in Blank() <==> IsGap(w)
  {
    if w in Blank() {
      assert forall i :: 0 <= i < |w| ==> InClass(Blanks, w[i]);
    }
    if IsGap(w) {
      assert forall i :: 0 <= i < |w| ==> InClass(Blanks, w[i]);
      assert AllBlank(w);
    }
  }

  // Items with a comma and a gap between neighbours.
  ghost predicate IsItems(l: Lang, w: string)
    decreases |w|
  {
    w in l || exists f: string, g: string, rest: string ::
      |rest| < |w| && f in l && IsGap(g) && w == f + ("," + (g + rest)) && IsItems(l, rest)
  }

  lemma {:induction false} ItemsOfList(l: Lang, w: string, count: nat)
    requires count >= 1 && w in Listed(l, Comma(), count)
    ensures IsItems(l, w)
    decreases count
  {
    hide Cat, Blank;
    if count > 1 {
      var f, more := CatSplit(w, l, Cat(Comma(), Listed(l, Comma(), count - 1)));
      var c, rest := CatSplit(more, Comma(), Listed(l, Comma(), count - 1));
      var x, g := CatSplit(c, Word(","), Blank());
      GapIff(g);
      ItemsOfList(l, rest, count - 1);
      Assoc(",", g, rest);
      assert w == f + ("," + (g + rest));
    }
  }

  lemma {:induction false} ListOfItems(l: Lang, w: string) returns (count: nat)
    requires IsItems(l, w)
    ensures count >= 1 && w in Listed(l, Comma(), count)
    decreases |w|
  {
    hide Cat, Blank, Listed;
    if w in l {
      count := 1;
      OneItem(l, Comma());
    } else {
      var f, g, rest :| |rest| < |w| && f in l && IsGap(g) && w == f + ("," + (g + rest)) && IsItems(l, rest);
      var k := ListOfItems(l, rest);
      GapIff(g);
      CatIntro(",", g, Word(","), Blank());
      OneMore(l, Comma(), f, "," + g, rest, k);
      Assoc(",", g, rest);
      count := k + 1;
    }
  }

  ghost predicate IsArrayText(l: Lang, w: string) {
    exists a: string, m: string, b: string ::
      IsGap(a) && IsGap(b) && (m == "" || IsItems(l, m)) && w == "[" + (a + m + b) + "]"
  }

  lemma ArrayTextIff(l: Lang, w: string)
    ensures w in Enclosed("[", Maybe(ListOf(l, Comma())), "]") <==> IsArrayText(l, w)
  {
    hide Enclosed, Blank, Listed, IsGap, Comma;
    var list := Maybe(ListOf(l, Comma()));
    if w in Enclosed("[", list, "]") {
      var a, m, b := EnclosedSplit(w, "[", list, "]");
      GapIff(a);
      GapIff(b);
      if m != "" {
        var count: nat :| count >= 1 && m in Listed(l, Comma(), count);
        ItemsOfList(l, m, count);
      }
    }
    if IsArrayText(l, w) {
      var a, m, b :| IsGap(a) && IsGap(b) && (m == "" || IsItems(l, m)) && w == "[" + (a + m + b) + "]";
      GapIff(a);
      GapIff(b);
      if m != "" {
        var count := ListOfItems(l, m);
        assert IsListed(l, Comma(), m);
      }
      EnclosedJoin("[", a, m, b, "]", list);
    }
  }

  lemma EnclosedJoin(open: string, a: string, m: string, b: string, close: string, inner: Lang)
    requires a in Blank() && m in inner && b in Blank()
    ensures open + (a + m + b) + close in Enclosed(open, inner, close)
  {
    hide Cat, Blank;
    CatIntro(b, close, Blank(), Word(close));
    CatIntro(m, b + close, inner, Cat(Blank(), Word(close)));
    CatIntro(a, m + (b + close), Blank(), Cat(inner, Cat(Blank(), Word(close))));
    CatIntro(open, a + (m + (b + close)), Word(open), Cat(Blank(), Cat(inner, Cat(Blank(), Word(close)))));
    Regroup(open, a, m, b, close);
  }

  // The items of an array without `items`: strings, integers and the three keywords.
  ghost function SimpleItems(): Lang {
    iset x: string | IsStringText(x) || IsIntegerText(x) || x in {"true", "false", "null"} :: x
  }

  lemma SimpleItemsAre()
    ensures AnyItem() == SimpleItems()
  {
    hide StringToken, IntegerToken, IsStringText, IsIntegerText;
    forall x ensures x in AnyItem() <==> x in SimpleItems() {
      StringIff(x);
      IntegerIff(x);
    }
  }

  // An array derives brackets around items with commas, each item as its own schema has it.
  lemma ArrayTypes(schema: Json, w: string)
    requires GoesByType(schema, "array") && Compile(schema).Ok? && PathsDistinct(schema)
    ensures match Get(schema, "items")
            case None => Derives(schema, w) <==> IsArrayText(SimpleItems(), w)
            case Some(items) => Derives(schema, w) <==> IsArrayText(Derived(items), w)
  {
    hide Get, IsArrayText, Language, Enclosed, ListOf, AnyItem, SimpleItems, Comma, PathsDistinct, Compile;
    LanguageIsDerived(schema);
    SimpleItemsAre();
    match Get(schema, "items")
    case None => ArrayTextIff(AnyItem(), w);
    case Some(items) => ArrayTextIff(Derived(items), w);
  }

  // ---------------------------------------------------------------- objects

  // A quoted name, a colon and a value, with gaps around the colon.
  ghost predicate IsPairText(key: string, l: Lang, w: string) {
    exists a: string, b: string, v: string ::
      IsGap(a) && IsGap(b) && v in l && w == ("\"" + key + "\"") + (a + (":" + (b + v)))
  }

  lemma PairTextIff(m: Member, w: string)
    requires Unquoted(m.key)
    ensures w in DerivedPair(m) <==> IsPairText(m.key, Derived(m.value), w)
  {
    hide Cat, Blank, Derived, IsGap, Spelled;
    PlainKeyIsSpelled(m.key);
    var l, k := Derived(m.value), "\"" + m.key + "\"";
    if w in DerivedPair(m) {
      var k1, a, b, v := ColonSplit(w, Word(k), l);
      GapIff(a);
      GapIff(b);
    }
    if IsPairText(m.key, l, w) {
      var a, b, v :| IsGap(a) && IsGap(b) && v in l && w == k + (a + (":" + (b + v)));
      GapIff(a);
      GapIff(b);
      CatIntro(b, v, Blank(), l);
      CatIntro(":", b + v, Word(":"), Cat(Blank(), l));
      CatIntro(a, ":" + (b + v), Blank(), Cat(Word(":"), Cat(Blank(), l)));
      CatIntro(k, a + (":" + (b + v)), Word(k), Cat(Blank(), Cat(Word(":"), Cat(Blank(), l))));
    }
  }

  // The `required` array lists the name.
  ghost predicate IsRequired(schema: Json, key: string) {
    match Get(schema, "required")
    case Some(JArray(items)) => exists i :: 0 <= i < |items| && items[i] == JString(key)
    case _ => false
  }

  lemma {:induction false} ListedNames(items: seq<Json>, key: string)
    ensures key in Strings(items) <==> exists i :: 0 <= i < |items| && items[i] == JString(key)
  {
    if items != [] {
      ListedNames(items[1..], key);
      assert forall i :: 1 <= i < |items| ==> items[i] == items[1..][i - 1];
      assert key in Strings(items) <==> items[0] == JString(key) || key in Strings(items[1..]);
    }
  }

  lemma RequiredIff(schema: Json, key: string)
    ensures key in Required(schema) <==> IsRequired(schema, key)
  {
    hide Get, Strings;
    match Get(schema, "required")
    case Some(JArray(items)) => ListedNames(items, key);
    case _ =>
  }

  // A property's pair, or nothing if the property is not required.
  ghost predicate IsPartText(schema: Json, m: Member, w: string) {
    IsPairText(m.key, Derived(m.value), w) || (w == "" && !IsRequired(schema, m.key))
  }

  // The parts in their order, with a comma and gaps between neighbours.
  ghost predicate IsMembersText(schema: Json, members: seq<Member>, w: string)
    decreases |members|
  {
    if members == [] then w == ""
    else if |members| == 1 then IsPartText(schema, members[0], w)
    else exists p: string, a: string, b: string, rest: string ::
      && IsPartText(schema, members[0], p) && IsGap(a) && IsGap(b) && IsMembersText(schema, members[1..], rest)
      && w == p + (a + ("," + (b + rest)))
  }

  ghost function PartReading(schema: Json, m: Member): Lang {
    if m.key in Required(schema) then DerivedPair(m) else Maybe(DerivedPair(m))
  }

  lemma PartIff(schema: Json, m: Member, w: string)
    requires Unquoted(m.key)
    ensures w in PartReading(schema, m) <==> IsPartText(schema, m, w)
  {
    hide DerivedPair, Derived, IsPairText, Unquoted, Required, IsRequired;
    RequiredIff(schema, m.key);
    PairTextIff(m, w);
  }

  lemma DerivedMembersStep(schema: Json, members: seq<Member>)
    requires members != []
    ensures var part := PartReading(schema, members[0]);
            DerivedMembers(members, Required(schema))
            == if |members| == 1 then part else Separated(part, DerivedMembers(members[1..], Required(schema)))
  {
    hide DerivedPair, Separated, Required;
  }

  lemma SeparatedIff(first: Lang, next: Lang, w: string)
    ensures w in Separated(first, next)
            <==> exists p: string, a: string, b: string, rest: string ::
                   p in first && IsGap(a) && IsGap(b) && rest in next && w == p + (a + ("," + (b + rest)))
  {
    hide Separated, Blank, IsGap;
    if w in Separated(first, next) {
      var p, a, b, rest := SeparatedSplit(w, first, next);
      GapIff(a);
      GapIff(b);
      Assoc(p, a, "," + (b + rest));
      Assoc(p + a, ",", b + rest);
      assert w == p + (a + ("," + (b + rest)));
    }
    if p, a, b, rest :| p in first && IsGap(a) && IsGap(b) && rest in next && w == p + (a + ("," + (b + rest))) {
      GapIff(a);
      GapIff(b);
      SeparatedJoin(p, a, b, rest, first, next);
    }
  }

  lemma {:induction false} MembersTextIff(schema: Json, members: seq<Member>, w: string)
    requires forall i :: 0 <= i < |members| ==> Unquoted(members[i].key)
    ensures w in DerivedMembers(members, Required(schema)) <==> IsMembersText(schema, members, w)
    decreases |members|
  {
    hide DerivedMembers, PartReading, IsPartText, Separated, Unquoted, Required, IsGap;
    if members == [] {
      NoMembers(schema);
    } else {
      DerivedMembersStep(schema, members);
      var first, tail := PartReading(schema, members[0]), DerivedMembers(members[1..], Required(schema));
      forall p ensures p in first <==> IsPartText(schema, members[0], p) {
        PartIff(schema, members[0], p);
      }
      if |members| > 1 {
        forall rest ensures rest in tail <==> IsMembersText(schema, members[1..], rest) {
          MembersTextIff(schema, members[1..], rest);
        }
        SeparatedIff(first, tail, w);
      }
    }
  }

  lemma NoMembers(schema: Json)
    ensures DerivedMembers([], Required(schema)) == Word("")
  {
  }

  ghost predicate IsObjectText(schema: Json, members: seq<Member>, w: string) {
    exists a: string, t: string, b: string ::
      IsGap(a) && IsGap(b) && IsMembersText(schema, members, t) && w == "{" + (a + t + b) + "}"
  }

  // An object derives braces around the pairs of its properties, in order, those that are not required
  // left out or not - but not their commas.
  lemma ObjectTypes(schema: Json, members: seq<Member>, w: string)
    requires GoesByType(schema, "object") && Get(schema, "properties") == Some(JObject(members))
    requires forall i :: 0 <= i < |members| ==> Unquoted(members[i].key)
    requires Compile(schema).Ok? && PathsDistinct(schema)
    ensures Derives(schema, w) <==> IsObjectText(schema, members, w)
  {
    hide Get, Required, Enclosed, DerivedMembers, IsMembersText, IsGap, Unquoted, Language, Compile, PathsDistinct;
    hide Blank;
    LanguageIsDerived(schema);
    var inner := DerivedMembers(members, Required(schema));
    if w in Enclosed("{", inner, "}") {
      var a, t, b := EnclosedSplit(w, "{", inner, "}");
      MembersTextIff(schema, members, t);
      GapIff(a);
      GapIff(b);
    }
    if IsObjectText(schema, members, w) {
      var a, t, b :| IsGap(a) && IsGap(b) && IsMembersText(schema, members, t) && w == "{" + (a + t + b) + "}";
      MembersTextIff(schema, members, t);
      GapIff(a);
      GapIff(b);
      EnclosedJoin("{", a, t, b, "}", inner);
    }
  }

  // A string, a number without an exponent or a keyword.
  ghost predicate IsOpenValue(v: string) {
    IsStringText(v) || IsShortNumberText(v) || v in {"true", "false", "null"}
  }

  ghost predicate IsShortNumberText(w: string) {
    exists m: string, i: string, f: string :: IsNumberOf(m, i, f, "") && w == m + (i + f)
  }

  lemma ShortNumberIff(w: string)
    ensures w in ShortNumberToken() <==> IsShortNumberText(w)
  {
    hide DigitRun, Cat, Maybe, Fraction, IsDigits;
    var sign := Maybe(Word("-"));
    if w in ShortNumberToken() {
      var m, x := CatSplit(w, sign, Cat(DigitRun(), Fraction()));
      var i, f := CatSplit(x, DigitRun(), Fraction());
      SignIff(m);
      DigitsIff(i);
      FractionIff(f);
      assert IsNumberOf(m, i, f, "");
    }
    if IsShortNumberText(w) {
      var m, i, f :| IsNumberOf(m, i, f, "") && w == m + (i + f);
      SignIff(m);
      DigitsIff(i);
      FractionIff(f);
      CatIntro(i, f, DigitRun(), Fraction());
      CatIntro(m, i + f, sign, Cat(DigitRun(), Fraction()));
    }
  }

  // Any name, a colon and such a value, with gaps around the colon.
  ghost predicate IsOpenPair(w: string) {
    exists k: string, a: string, b: string, v: string ::
      IsStringText(k) && IsGap(a) && IsGap(b) && IsOpenValue(v) && w == k + (a + (":" + (b + v)))
  }

  ghost function OpenValues(): Lang {
    StringToken() + (ShortNumberToken() + Keywords())
  }

  lemma OpenValueIff(v: string)
    ensures v in OpenValues() <==> IsOpenValue(v)
  {
    hide StringToken, ShortNumberToken, IsStringText, IsShortNumberText;
    StringIff(v);
    ShortNumberIff(v);
  }

  lemma AnyPairIs()
    ensures AnyPair() == Cat(StringToken(), Cat(Blank(), Cat(Word(":"), Cat(Blank(), OpenValues()))))
  {
  }

  lemma OpenPairIff(w: string)
    ensures w in AnyPair() <==> IsOpenPair(w)
  {
    hide Cat, Blank, IsGap, StringToken, IsStringText, OpenValues, IsOpenValue, AnyPair;
    AnyPairIs();
    var l := OpenValues();
    if w in AnyPair() {
      var k, a, b, v := ColonSplit(w, StringToken(), l);
      StringIff(k);
      GapIff(a);
      GapIff(b);
      OpenValueIff(v);
    }
    if IsOpenPair(w) {
      var k, a, b, v :| IsStringText(k) && IsGap(a) && IsGap(b) && IsOpenValue(v) && w == k + (a + (":" + (b + v)));
      StringIff(k);
      GapIff(a);
      GapIff(b);
      OpenValueIff(v);
      CatIntro(b, v, Blank(), l);
      CatIntro(":", b + v, Word(":"), Cat(Blank(), l));
      CatIntro(a, ":" + (b + v), Blank(), Cat(Word(":"), Cat(Blank(), l)));
      CatIntro(k, a + (":" + (b + v)), StringToken(), Cat(Blank(), Cat(Word(":"), Cat(Blank(), l))));
    }
  }

  // Such pairs with a comma between neighbours and gaps around it.
  ghost predicate IsOpenPairs(w: string)
    decreases |w|
  {
    IsOpenPair(w) || exists f: string, a: string, b: string, rest: string ::
      |rest| < |w| && IsOpenPair(f) && IsGap(a) && IsGap(b) && w == f + (a + ("," + (b + rest))) && IsOpenPairs(rest)
  }

  lemma {:induction false} PairsOfList(w: string, count: nat)
    requires count >= 1 && w in Listed(AnyPair(), SpacedComma(), count)
    ensures IsOpenPairs(w)
    decreases count
  {
    hide Cat, Blank, AnyPair, IsOpenPair, IsGap;
    if count == 1 {
      OpenPairIff(w);
    } else {
      var f, more := CatSplit(w, AnyPair(), Cat(SpacedComma(), Listed(AnyPair(), SpacedComma(), count - 1)));
      var sep, rest := CatSplit(more, SpacedComma(), Listed(AnyPair(), SpacedComma(), count - 1));
      var a, c := CatSplit(sep, Blank(), Comma());
      var x, b := CatSplit(c, Word(","), Blank());
      OpenPairIff(f);
      GapIff(a);
      GapIff(b);
      PairsOfList(rest, count - 1);
      assert w == f + (a + ("," + (b + rest)));
    }
  }

  lemma OnePairMore(f: string, a: string, b: string, rest: string, count: nat)
    requires IsOpenPair(f) && IsGap(a) && IsGap(b) && count >= 1 && rest in Listed(AnyPair(), SpacedComma(), count)
    ensures f + (a + ("," + (b + rest))) in Listed(AnyPair(), SpacedComma(), count + 1)
  {
    hide Cat, Blank, Listed, AnyPair, IsOpenPair, IsGap;
    OpenPairIff(f);
    GapIff(a);
    GapIff(b);
    CatIntro(",", b, Word(","), Blank());
    CatIntro(a, "," + b, Blank(), Comma());
    OneMore(AnyPair(), SpacedComma(), f, a + ("," + b), rest, count);
    assert (a + ("," + b)) + rest == a + ("," + (b + rest));
  }

  lemma {:induction false} ListOfPairs(w: string) returns (count: nat)
    requires IsOpenPairs(w)
    ensures count >= 1 && w in Listed(AnyPair(), SpacedComma(), count)
    decreases |w|
  {
    hide Listed, AnyPair, SpacedComma, IsOpenPair, IsGap;
    if IsOpenPair(w) {
      count := 1;
      OpenPairIff(w);
      OneItem(AnyPair(), SpacedComma());
    } else {
      var f, a, b, rest :| && |rest| < |w| && IsOpenPair(f) && IsGap(a) && IsGap(b)
                           && w == f + (a + ("," + (b + rest))) && IsOpenPairs(rest);
      var k := ListOfPairs(rest);
      OnePairMore(f, a, b, rest, k);
      count := k + 1;
    }
  }

  // An object without properties derives braces around such pairs, or around nothing.
  lemma OpenObjects(schema: Json, w: string)
    requires GoesByType(schema, "object") && Get(schema, "properties") == None
    ensures Derives(schema, w)
            <==> exists a: string, m: string, b: string ::
                   IsGap(a) && IsGap(b) && (m == "" || IsOpenPairs(m)) && w == "{" + (a + m + b) + "}"
  {
    hide Get, Language, Enclosed, Listed, AnyPair, SpacedComma, IsGap, IsOpenPairs, Blank;
    assert NodePaths(schema, ROOT) == [ROOT];
    assert GenRule(schema, ROOT).result.Ok?;
    LanguageIsDerived(schema);
    var list := Maybe(ListOf(AnyPair(), SpacedComma()));
    if w in Enclosed("{", list, "}") {
      var a, m, b := EnclosedSplit(w, "{", list, "}");
      GapIff(a);
      GapIff(b);
      if m != "" {
        var count: nat :| count >= 1 && m in Listed(AnyPair(), SpacedComma(), count);
        PairsOfList(m, count);
      }
    }
    if a, m, b :| IsGap(a) && IsGap(b) && (m == "" || IsOpenPairs(m)) && w == "{" + (a + m + b) + "}" {
      GapIff(a);
      GapIff(b);
      if m != "" {
        var count := ListOfPairs(m);
        assert IsListed(AnyPair(), SpacedComma(), m);
      }
      EnclosedJoin("{", a, m, b, "}", list);
    }
  }

  // Properties that are no object are an error.
  lemma PropertiesMustBeObject(schema: Json)
    requires GoesByType(schema, "object") && Get(schema, "properties").Some?
    requires !Get(schema, "properties").value.JObject?
    ensures Compile(schema) == Err("properties must be an object")
  {
    hide Get;
    assert IsObject(schema);
    assert GenObject(schema, ROOT).result == Err("properties must be an object");
  }
}
