// Schemas that show each fault of the emitted grammars, and one that shows a hyphen need not be one.
module SchemaWitnesses {
  import opened Wrappers
  import opened Text
  import opened Json
  import opened Grammar
  import opened SchemaModel
  import opened SchemaNames
  import opened SchemaUniqueness
  import opened Languages
  import opened SchemaReading
  import opened SchemaMeaning
  import opened SchemaNesting
  import opened SchemaPadding
  import opened SchemaTokens
  import opened SchemaTheorems
  import opened SchemaFaults
  import opened SchemaLiterals
  import opened JsonTexts
  import opened SchemaJson

  const TYPE := "type"
  const PROPERTIES := "properties"
  const REQUIRED := "required"

  // {"type": "object", "properties": {...}, "required": [...]}
  function ObjectOf(members: seq<Member>, required: seq<Json>): Json {
    JObject([Member(TYPE, JString("object")), Member(PROPERTIES, JObject(members)), Member(REQUIRED, JArray(required))])
  }

  // {}: read as a string
  const ANY := JObject([])

  lemma ObjectOfIs(members: seq<Member>, required: seq<Json>)
    ensures var schema := ObjectOf(members, required);
            && IsObject(schema) && Get(schema, "properties") == Some(JObject(members))
            && Required(schema) == Strings(required)
  {
    hide Lookup, Strings;
    var kind, props := Member(TYPE, JString("object")), Member(PROPERTIES, JObject(members));
    var req := Member(REQUIRED, JArray(required));
    ThreeKeys(kind, props, req, "enum");
    ThreeKeys(kind, props, req, "const");
    ThreeKeys(kind, props, req, "type");
    ThreeKeys(kind, props, req, "properties");
    ThreeKeys(kind, props, req, "required");
    KeysDiffer();
  }

  lemma ObjectReading(members: seq<Member>, required: seq<Json>, style: Style)
    ensures Reading(ObjectOf(members, required), style)
            == Enclosed("{", MembersReading(members, Strings(required), style), "}")
  {
    hide ObjectOf, Strings, MembersReading, Enclosed;
    ObjectOfIs(members, required);
  }

  lemma KeysDiffer()
    ensures TYPE != "enum" && TYPE != "const" && TYPE != "properties" && TYPE != "required"
    ensures PROPERTIES != "enum" && PROPERTIES != "const" && PROPERTIES != "required"
    ensures REQUIRED != "enum" && REQUIRED != "const"
  {
    assert PROPERTIES[0] == 'p' && REQUIRED[0] == 'r';
  }

  lemma ThreeKeys(a: Member, b: Member, c: Member, key: string)
    ensures Lookup([a, b, c], key)
            == if a.key == key then Some(a.value)
               else if b.key == key then Some(b.value)
               else if c.key == key then Some(c.value) else None
  {
    assert [a, b, c][1..] == [b, c] && [b, c][1..] == [c] && [c][1..] == [];
    assert Lookup([c], key) == if c.key == key then Some(c.value) else None;
    assert Lookup([b, c], key) == if b.key == key then Some(b.value) else Lookup([c], key);
  }

  lemma AnyIsString()
    ensures IsLeaf(ANY) && !HasEnum(ANY) && !HasConst(ANY) && SchemaKind(ANY) == KString
    ensures Expressible(ANY)
  {
    assert Get(ANY, "type") == None;
  }

  // ---------------------------------------------------------------- hyphens

  // Property `a` with a nested `k`, and a flat property `a-k`.
  function Colliding(): Json {
    ObjectOf([Member("a", ObjectOf([Member("k", ANY)], [])), Member("a-k", ANY)], [])
  }

  lemma PathsOfAny(name: string)
    ensures NodePaths(ANY, name) == [name]
  {
    AnyIsString();
  }

  lemma PathsOfObject(members: seq<Member>, required: seq<Json>, name: string)
    ensures NodePaths(ObjectOf(members, required), name) == [name] + PropPaths(members, name)
  {
    ObjectOfIs(members, required);
  }

  lemma PathsOfOne(m: Member, name: string)
    ensures PropPaths([m], name) == NodePaths(m.value, ChildName(name, m.key))
  {
    assert [m][1..] == [];
  }

  lemma ObjectIsExpressible(members: seq<Member>, required: seq<Json>)
    requires ExpressibleMembers(members)
    ensures Expressible(ObjectOf(members, required))
  {
    ObjectOfIs(members, required);
  }

  lemma OneIsExpressible(m: Member)
    requires Unquoted(m.key) && Expressible(m.value)
    ensures ExpressibleMembers([m])
  {
    assert [m][1..] == [];
  }

  lemma TwoAreExpressible(m: Member, n: Member)
    requires Unquoted(m.key) && Expressible(m.value) && Unquoted(n.key) && Expressible(n.value)
    ensures ExpressibleMembers([m, n])
  {
    OneIsExpressible(n);
    assert [m, n][1..] == [n];
  }

  lemma CompilesIfExpressible(schema: Json)
    requires Expressible(schema)
    ensures Compile(schema).Ok?
  {
    hide GenRule;
    ExpressibleCompiles(schema, ROOT);
  }

  // A hyphenated property name and a nested property can meet in one rule name: `root-a-k` is defined
  // twice, so the grammar is not well formed.
  lemma HyphenCollision()
    ensures Compile(Colliding()).Ok?
    ensures Occurrences(Compile(Colliding()).value, "root-a-k") == 2
    ensures !PathsDistinct(Colliding()) && !EachDefinedOnce(Compile(Colliding()).value)
  {
    hide Compile, NodePaths, PropPaths, Expressible, ExpressibleMembers, Occurrences, EachDefinedOnce, ObjectOf,
      IsLeaf, HasEnum, HasConst, SchemaKind;
    var k, flat := Member("k", ANY), Member("a-k", ANY);
    var nested := Member("a", ObjectOf([k], []));
    AnyIsString();
    OneIsExpressible(k);
    ObjectIsExpressible([k], []);
    TwoAreExpressible(nested, flat);
    ObjectIsExpressible([nested, flat], []);
    CompilesIfExpressible(Colliding());
    CollidingPaths();
    CollidingTwice();
    CompiledCounts(Colliding(), "root-a-k");
    NoDuplicatesIff(NodePaths(Colliding(), ROOT));
    DefinedExactlyOnce(Colliding());
  }

  lemma CollidingPaths()
    ensures NodePaths(Colliding(), ROOT) == ["root", "root-a", "root-a-k", "root-a-k"]
  {
    var k, flat := Member("k", ANY), Member("a-k", ANY);
    var nested := Member("a", ObjectOf([k], []));
    hide NodePaths, IsObject, IsArray;
    PathsOfObject([nested, flat], [], ROOT);
    assert [nested, flat][1..] == [flat];
    PathsOfOne(flat, ROOT);
    PathsOfAny("root-a-k");
    PathsOfObject([k], [], "root-a");
    PathsOfOne(k, "root-a");
    assert "root" + "-" + "a" == "root-a";
    assert "root-a" + "-" + "k" == "root-a-k" && "root" + "-" + "a-k" == "root-a-k";
  }

  lemma CollidingTwice()
    ensures multiset(["root", "root-a", "root-a-k", "root-a-k"])["root-a-k"] == 2
  {
    assert "root" != "root-a-k" && "root-a" != "root-a-k";
  }

  // A property name with a hyphen that meets no other path does no harm.
  lemma LoneHyphen()
    ensures var schema := ObjectOf([Member("content-type", ANY)], []);
            && !HyphenFree(schema) && PathsDistinct(schema) && Expressible(schema)
  {
    var m := Member("content-type", ANY);
    hide NodePaths, PropPaths, Expressible, PathsDistinct;
    AnyIsString();
    PathsOfAny(ChildName(ROOT, m.key));
    assert '"' !in m.key && '\\' !in m.key;
    OneIsExpressible(m);
    ObjectIsExpressible([m], []);
    ObjectOfIs([m], []);
    assert m.key[7] == '-';
    assert !HyphenFreeMembers([m]);
    OnePath(m, []);
  }

  lemma OnePath(m: Member, required: seq<Json>)
    requires NodePaths(m.value, ChildName(ROOT, m.key)) == [ChildName(ROOT, m.key)]
    ensures PathsDistinct(ObjectOf([m], required))
  {
    hide NodePaths, PropPaths;
    PathsOfObject([m], required, ROOT);
    PathsOfOne(m, ROOT);
    assert |ChildName(ROOT, m.key)| > |ROOT|;
    assert NodePaths(ObjectOf([m], required), ROOT) == [ROOT, ChildName(ROOT, m.key)];
  }

  // ---------------------------------------------------------------- commas

  // Properties `a` and `b`, of which only `a` is required.
  function OneOptional(): Json {
    ObjectOf([Member("a", ANY), Member("b", ANY)], [JString("a")])
  }

  lemma OneOptionalIs()
    ensures Expressible(OneOptional()) && PathsDistinct(OneOptional())
    ensures IsObject(OneOptional()) && Required(OneOptional()) == ["a"]
    ensures Get(OneOptional(), "properties") == Some(JObject([Member("a", ANY), Member("b", ANY)]))
  {
    hide NodePaths, Expressible;
    var a, b := Member("a", ANY), Member("b", ANY);
    AnyIsString();
    TwoAreExpressible(a, b);
    ObjectIsExpressible([a, b], [JString("a")]);
    ObjectOfIs([a, b], [JString("a")]);
    OneString("a");
    TwoPaths(a, b, [JString("a")]);
  }

  lemma TwoPaths(a: Member, b: Member, required: seq<Json>)
    requires a.value == ANY && b.value == ANY && a.key == "a" && b.key == "b"
    ensures PathsDistinct(ObjectOf([a, b], required))
  {
    PathsOfObject([a, b], required, ROOT);
    assert [a, b][1..] == [b];
    PathsOfOne(b, ROOT);
    PathsOfAny(ChildName(ROOT, "a"));
    PathsOfAny(ChildName(ROOT, "b"));
    assert ChildName(ROOT, "a")[5] == 'a' && ChildName(ROOT, "b")[5] == 'b';
    assert NodePaths(ObjectOf([a, b], required), ROOT) == [ROOT, ChildName(ROOT, "a"), ChildName(ROOT, "b")];
  }

  // {"a":"",} is derivable: the comma in front of the omitted last pair stays.
  lemma TrailingComma()
    ensures Compile(OneOptional()).Ok?
    ensures var w := "{" + (PairText("a", "\"\"") + [','] + "") + "}";
            && w in Language(Compile(OneOptional()).value, "root")
            && w !in Reading(OneOptional(), NO_STRAY_COMMAS)
  {
    hide Language, Compile, Expressible, PathsDistinct, Padded, CommasKept, Selected, PairReading, Enclosed,
      ObjectOf, Reading, Strings, IsObject, Get, Required;
    var schema, a, b := OneOptional(), Member("a", ANY), Member("b", ANY);
    OneOptionalIs();
    OneString("a");
    ObjectReading([a, b], [JString("a")], EMITTED);
    ObjectReading([a, b], [JString("a")], NO_STRAY_COMMAS);
    CompilationPreservesMeaning(schema);
    var t := PairText("a", "\"\"") + [','] + "";
    TrailingPair(a, b);
    KeptCommas([a, b], ["a"], EMITTED);
    EnclosedIntro("{", t, "}", CommasKept([a, b], ["a"], EMITTED));
    ObjectNotPadded(t, Selected([a, b], ["a"], NO_STRAY_COMMAS));
    NotPaddedNotIn("{" + t + "}", Enclosed("{", Selected([a, b], ["a"], NO_STRAY_COMMAS), "}"));
    assert [a, b][0].key in ["a"];
  }

  lemma TrailingPair(a: Member, b: Member)
    requires a == Member("a", ANY) && b == Member("b", ANY)
    ensures var t := PairText("a", "\"\"") + [','] + "";
            && t in CommasKept([a, b], ["a"], EMITTED)
            && t !in Padded(Selected([a, b], ["a"], NO_STRAY_COMMAS))
  {
    hide PairReading, Separated, Padded, Reading, Expressible;
    var p := PairText("a", "\"\"");
    AnyIsString();
    EmptyStringWord();
    PairIntro(a, "\"\"");
    assert [a, b][1..] == [b] && [b][1..] == [];
    assert "" in CommasKept([b], ["a"], EMITTED);
    var t := JoinFirst([a, b], ["a"], p, "");
    FirstFits(a, ["a"], NO_STRAY_COMMAS);
    PairIsWhole(a, p);
    var pair, later := PairReading(a, NO_STRAY_COMMAS), Selected([b], ["a"], NO_STRAY_COMMAS);
    NoPairInFront("", [b], ["a"], NO_STRAY_COMMAS);
    SeparatedNotPadded(p, "", pair, later);
    WholeNotPadded(p, "", pair);
    PaddedUnion(p + [','] + "", Separated(pair, later), pair);
  }

  lemma EmptyStringWord()
    ensures "\"\"" in Reading(ANY, EMITTED)
  {
    hide IsLeaf, Expressible, SchemaKind, Get;
    AnyIsString();
    assert "\"\""[1..1] == "";
  }

  // ---------------------------------------------------------------- empty enums

  // {"enum": []}
  const NO_CHOICE := JObject([Member("enum", JArray([]))])

  lemma NoChoiceIs()
    ensures HasEnum(NO_CHOICE) && Get(NO_CHOICE, "enum").value.items == [] && Expressible(NO_CHOICE)
    ensures Reading(NO_CHOICE, NO_BLANK_ENUMS) == iset{} && "" in Reading(NO_CHOICE, EMITTED)
  {
    assert Get(NO_CHOICE, "enum") == Some(JArray([]));
    assert OneOf([]) == iset{};
  }

  // A required property `a` with an empty enum: nothing fits the schema, but {"a":} is derivable.
  lemma EmptyEnumBelow()
    ensures var schema := ObjectOf([Member("a", NO_CHOICE)], [JString("a")]);
            && Compile(schema).Ok?
            && "{" + PairText("a", "") + "}" in Language(Compile(schema).value, "root")
            && "{" + PairText("a", "") + "}" !in Reading(schema, NO_BLANK_ENUMS)
  {
    hide Language, Compile, Expressible, PathsDistinct, Padded, PairReading, Enclosed, CommasKept, Reading,
      ObjectOf, MembersReading, Strings;
    var schema, a := ObjectOf([Member("a", NO_CHOICE)], [JString("a")]), Member("a", NO_CHOICE);
    NoChoiceIs();
    OneIsExpressible(a);
    ObjectIsExpressible([a], [JString("a")]);
    OneString("a");
    ObjectReading([a], [JString("a")], EMITTED);
    ObjectReading([a], [JString("a")], NO_BLANK_ENUMS);
    EnumPaths(a);
    CompilationPreservesMeaning(schema);
    var t := PairText("a", "");
    EmptyValue(a);
    KeptCommas([a], ["a"], EMITTED);
    KeptCommas([a], ["a"], NO_BLANK_ENUMS);
    EnclosedIntro("{", t, "}", CommasKept([a], ["a"], EMITTED));
    ObjectNotPadded(t, CommasKept([a], ["a"], NO_BLANK_ENUMS));
    NotPaddedNotIn("{" + t + "}", Enclosed("{", CommasKept([a], ["a"], NO_BLANK_ENUMS), "}"));
  }

  lemma OneString(s: string)
    ensures Strings([JString(s)]) == [s]
  {
    assert [JString(s)][1..] == [];
  }

  lemma EmptyValue(a: Member)
    requires a == Member("a", NO_CHOICE)
    ensures PairText("a", "") in CommasKept([a], ["a"], EMITTED)
    ensures PairText("a", "") !in Padded(CommasKept([a], ["a"], NO_BLANK_ENUMS))
  {
    hide Padded, PairReading;
    var t := PairText("a", "");
    NoChoiceIs();
    PairIntro(a, "");
    NothingPadded();
    PairNotPadded(a, "", NO_BLANK_ENUMS);
    FewerPadded(t, PairReading(a, NO_BLANK_ENUMS));
    assert [a][0].key in ["a"];
  }

  lemma EnumPaths(a: Member)
    requires a == Member("a", NO_CHOICE)
    ensures PathsDistinct(ObjectOf([a], [JString("a")]))
  {
    NoChoiceIs();
    assert NodePaths(NO_CHOICE, ChildName(ROOT, "a")) == [ChildName(ROOT, "a")];
    OnePath(a, [JString("a")]);
  }

  // ---------------------------------------------------------------- tokens that are no JSON

  // {"type": "integer"}
  const INTEGER := JObject([Member(TYPE, JString("integer"))])

  lemma IntegerKind()
    ensures !HasEnum(INTEGER) && !HasConst(INTEGER) && SchemaKind(INTEGER) == KInteger
  {
    assert Get(INTEGER, "type") == Some(JString("integer"));
  }

  lemma IntegerIs()
    ensures IsLeaf(INTEGER) && Expressible(INTEGER)
    ensures Reading(INTEGER, EMITTED) == IntegerToken() && Reading(INTEGER, JSON_TOKENS) == JsonInteger()
  {
    IntegerKind();
    hide IntegerToken, JsonInteger, HasEnum, HasConst, SchemaKind, Get, Choices, Literal;
  }

  // 007 is derivable for an integer.
  lemma LeadingZeros()
    ensures Compile(INTEGER).Ok?
    ensures ZEROS in Language(Compile(INTEGER).value, "root") && ZEROS !in Reading(INTEGER, JSON_TOKENS)
  {
    hide Language, Compile, Padded, JsonInteger, IntegerToken, Reading, Expressible, IsLeaf, PathsDistinct;
    IntegerIs();
    LeafPath(INTEGER);
    CompilationPreservesMeaning(INTEGER);
    ZerosAreEmitted();
    JsonIntegersHaveNoLeadingZero();
    ZerosNotPadded(JsonInteger());
    NotPaddedNotIn(ZEROS, JsonInteger());
  }

  // A quoted line feed is derivable for {}.
  lemma RawLineFeed()
    ensures Compile(ANY).Ok?
    ensures RAW_NEWLINE in Language(Compile(ANY).value, "root") && RAW_NEWLINE !in Reading(ANY, JSON_TOKENS)
  {
    hide Language, Compile, Padded, JsonString, StringToken;
    AnyIsString();
    LeafPath(ANY);
    CompilationPreservesMeaning(ANY);
    RawNewlineShows();
    NotPaddedNotIn(RAW_NEWLINE, JsonString());
  }

  lemma LeafPath(schema: Json)
    requires IsLeaf(schema)
    ensures PathsDistinct(schema)
  {
    assert NodePaths(schema, ROOT) == [ROOT];
  }

  // {"const": ...}
  function ConstOf(s: string): Json {
    JObject([Member("const", JString(s))])
  }

  lemma ConstOfIs(s: string)
    ensures var schema := ConstOf(s);
            && IsLeaf(schema) && !HasEnum(schema) && Get(schema, "const") == Some(JString(s))
  {
    assert Get(ConstOf(s), "const") == Some(JString(s));
  }

  lemma ConstLanguage(s: string)
    ensures Compile(ConstOf(s)).Ok?
    ensures Language(Compile(ConstOf(s)).value, "root") == SpelledValue(JString(s))
  {
    var schema := ConstOf(s);
    ConstOfIs(s);
    hide ConstOf, Get, SpelledValue, Language, NodePaths;
    LeafPath(schema);
    assert GenRule(schema, ROOT).result.Ok?;
    LanguageIsDerived(schema);
  }

  // A const line feed is put between quotes as it stands: {"const": "\n"} derives no JSON.
  lemma ConstLineFeed()
    ensures Compile(ConstOf("\n")).Ok?
    ensures RAW_NEWLINE in Language(Compile(ConstOf("\n")).value, "root") && !IsJsonText(RAW_NEWLINE)
    ensures ValueText(JString("\n")) == RAW_NEWLINE && RAW_NEWLINE != Print(JString("\n"))
  {
    hide Compile, Language, IsJsonText, Print;
    var v := JString("\n");
    ConstLanguage("\n");
    PlainValueIsSpelled(v);
    assert ValueText(v) == RAW_NEWLINE;
    assert !PlainChar(v.s[0]);
    ValueTextIsJsonIff(v);
    RawNewlineIsNoJson();
  }

  // ---------------------------------------------------------------- quotes

  // A bare quote ends the emitted literal: {"const": "\""} derives nothing at all.
  lemma BareQuote()
    ensures Compile(ConstOf("\"")).Ok?
    ensures Language(Compile(ConstOf("\"")).value, "root") == iset{}
  {
    hide Compile, Language;
    ConstLanguage("\"");
    KeySplit("\"");
  }

  lemma QuoteInside(a: string, rest: string)
    requires Unquoted(a)
    ensures Spelled(KeyLiteral(a + "\"" + rest)) == iset{}
  {
    KeySplit(a + "\"" + rest);
    var tail := "\"" + rest + "\\\"";
    assert (a + "\"" + rest) + "\\\"" == a + tail;
    assert tail[0] == '"';
    PlainPrefix(a, tail);
  }

  const A := "\"a\""
  const A_COMMA_A := "\"a\",\"a\""
  const TWO_TEXTS := [JString("a"), JString("a\",\"a")]
  const CHOICES := JObject([Member("enum", JArray(TWO_TEXTS))])
  // {"type": "array", "items": {"enum": ["a", "a\",\"a"]}}
  const LIST := JObject([Member(TYPE, JString("array")), Member("items", CHOICES)])

  lemma ChoicesIs()
    ensures HasEnum(CHOICES) && Get(CHOICES, "enum") == Some(JArray(TWO_TEXTS))
  {
  }

  lemma ListIs()
    ensures !HasEnum(LIST) && !HasConst(LIST) && SchemaKind(LIST) == KArray && Get(LIST, "items") == Some(CHOICES)
  {
    var members := [Member(TYPE, JString("array")), Member("items", CHOICES)];
    assert members[1..] == [Member("items", CHOICES)] && members[1..][1..] == [];
    assert Lookup(members[1..], "items") == Some(CHOICES);
    assert Lookup(members, "enum") == None && Lookup(members, "const") == None;
  }

  lemma TextsDerived()
    ensures SpelledChoices(TWO_TEXTS) == Word(A) && Choices(TWO_TEXTS, EMITTED) == iset{A, A_COMMA_A}
    ensures !ExpressibleValue(TWO_TEXTS[1])
  {
    var a, b := TWO_TEXTS[0], TWO_TEXTS[1];
    assert ValueText(a) == A && ValueText(b) == A_COMMA_A;
    assert b.s[1] == '"' && b.s == "a" + "\"" + ",\"a";
    QuoteInside("a", ",\"a");
    PlainValueIsSpelled(a);
    hide SpelledValue, ValueText, ExpressibleValue;
    forall w ensures w in SpelledChoices(TWO_TEXTS) <==> w == A {
      if w == A {
        SpelledChoice(TWO_TEXTS, 0, w);
      }
    }
    assert forall i: nat :: i < 2 ==> TWO_TEXTS[i] == a || TWO_TEXTS[i] == b;
    assert OneOf(TWO_TEXTS) == iset{A, A_COMMA_A} by { TwoTexts(); }
  }

  lemma TwoTexts()
    ensures OneOf(TWO_TEXTS) == iset{A, A_COMMA_A}
  {
    var a, b := TWO_TEXTS[0], TWO_TEXTS[1];
    assert ValueText(a) == A && ValueText(b) == A_COMMA_A;
    hide ValueText;
    forall w ensures w in OneOf(TWO_TEXTS) <==> w == A || w == A_COMMA_A {
      assert ValueText(TWO_TEXTS[0]) in OneOf(TWO_TEXTS) && ValueText(TWO_TEXTS[1]) in OneOf(TWO_TEXTS);
    }
  }

  // Two items in one text are two items.
  lemma {:induction false} ItemsInItems(w: string, count: nat) returns (n: nat)
    requires count >= 1 && w in Listed(iset{A, A_COMMA_A}, Comma(), count)
    ensures n >= 1 && w in Listed(Word(A), Comma(), n)
    decreases count
  {
    hide Listed, Comma, Cat;
    var both, one := iset{A, A_COMMA_A}, Word(A);
    JustComma();
    OneItem(one, Comma());
    assert A_COMMA_A == A + ("," + A);
    if count == 1 {
      OneItem(both, Comma());
      n := 1;
      if w != A {
        OneMore(one, Comma(), A, ",", A, 1);
        n := 2;
      }
    } else {
      var f, c, rest := MoreItems(w, both, count);
      var k := ItemsInItems(rest, count - 1);
      OneMore(one, Comma(), A, c, rest, k);
      n := k + 1;
      if f != A {
        OneMore(one, Comma(), A, ",", A + (c + rest), n);
        Assoc(A, "," + A, c + rest);
        Assoc(",", A, c + rest);
        n := n + 1;
      }
    }
  }

  lemma JustComma()
    ensures "," in Comma()
  {
    hide Cat, Blank;
    BlankHasEmpty();
    CatIntro(",", "", Word(","), Blank());
    assert "," + "" == ",";
  }

  lemma MoreItems(w: string, item: Lang, count: nat) returns (f: string, c: string, rest: string)
    requires count > 1 && w in Listed(item, Comma(), count)
    ensures f in item && c in Comma() && rest in Listed(item, Comma(), count - 1) && w == f + (c + rest)
  {
    hide Comma, Cat;
    var more;
    f, more := CatSplit(w, item, Cat(Comma(), Listed(item, Comma(), count - 1)));
    c, rest := CatSplit(more, Comma(), Listed(item, Comma(), count - 1));
  }

  lemma SameLists()
    ensures ListOf(iset{A, A_COMMA_A}, Comma()) == ListOf(Word(A), Comma())
  {
    hide Listed, Comma;
    var both, one := iset{A, A_COMMA_A}, Word(A);
    ListMono(one, both, Comma(), Comma());
    forall w | w in ListOf(both, Comma()) ensures w in ListOf(one, Comma()) {
      var count: nat :| count >= 1 && w in Listed(both, Comma(), count);
      var n := ItemsInItems(w, count);
      assert IsListed(one, Comma(), w);
    }
  }

  // The root alone can derive what it reads as although a literal below does not: the second text of the
  // enum derives nothing, but in a list it reads like the first one twice.
  lemma RootAlone()
    ensures Compile(LIST).Ok? && PathsDistinct(LIST) && !Expressible(LIST)
    ensures Language(Compile(LIST).value, "root") == Reading(LIST, EMITTED)
    ensures !NodesMean(Compile(LIST).value, LIST, ROOT)
  {
    hide Compile, Language, ListOf, Comma, Enclosed, SpelledChoices, Choices, NodesMean, Reading,
      Derived, PathsDistinct, Expressible;
    ListCompiles();
    ListPaths();
    ListHasQuotes();
    TextsDerived();
    SameLists();
    ListReadings();
    LanguageIsDerived(LIST);
    EveryNodeMeansItselfIff(LIST);
  }

  lemma ListCompiles()
    ensures Compile(LIST).Ok?
  {
    ChoicesIs();
    ListIs();
    hide Get, HasEnum, HasConst, SchemaKind, Alternatives, ValueLiterals;
    assert GenRule(CHOICES, ChildName(ROOT, "item")).result.Ok?;
    ArrayCompiles(LIST, ROOT);
  }

  lemma ListPaths()
    ensures PathsDistinct(LIST)
  {
    ChoicesIs();
    ListIs();
    hide Get, HasEnum, HasConst, SchemaKind;
    var item := ChildName(ROOT, "item");
    assert NodePaths(CHOICES, item) == [item];
    assert NodePaths(LIST, ROOT) == [ROOT, item];
    assert |item| > |ROOT|;
  }

  lemma ListHasQuotes()
    ensures !Expressible(LIST)
  {
    ChoicesIs();
    ListIs();
    TextsDerived();
    hide Get, HasEnum, HasConst, SchemaKind, ExpressibleValue;
    assert !Expressible(CHOICES);
  }

  lemma ListReadings()
    ensures Derived(LIST) == Enclosed("[", Maybe(ListOf(SpelledChoices(TWO_TEXTS), Comma())), "]")
    ensures Reading(LIST, EMITTED) == Enclosed("[", Maybe(ListOf(Choices(TWO_TEXTS, EMITTED), Comma())), "]")
  {
    ChoicesIs();
    ListIs();
    hide Get, HasEnum, HasConst, SchemaKind, ListOf, Comma, Enclosed, SpelledChoices, Choices;
  }
}
