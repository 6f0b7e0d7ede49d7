// Compilation preserves meaning: every emitted rule derives the words of a direct recursive reading of
// its schema node.
module SchemaMeaning {
  import opened Json
  import opened Grammar
  import opened SchemaModel
  import opened SchemaNames
  import opened Languages
  import opened SchemaReading

  lemma ObjectCompiles(schema: Json, name: string)
    requires IsObject(schema)
    requires Get(schema, "properties").Some? ==>
               && Get(schema, "properties").value.JObject?
               && GenProperties(Properties(schema), name, Required(schema)).result.Ok?
    ensures GenRule(schema, name).result.Ok?
  {
    hide GenProperties, Required, ObjectBody, SchemaKind, Get;
  }

  lemma ArrayCompiles(schema: Json, name: string)
    requires IsArray(schema)
    requires Get(schema, "items").Some? ==> GenRule(Get(schema, "items").value, ChildName(name, "item")).result.Ok?
    ensures GenRule(schema, name).result.Ok?
  {
  }

  lemma LeafCompiles(schema: Json, name: string)
    requires IsLeaf(schema) && Expressible(schema)
    ensures GenRule(schema, name).result.Ok?
  {
  }

  lemma {:induction false} ExpressibleCompiles(schema: Json, name: string)
    requires Expressible(schema)
    ensures GenRule(schema, name).result.Ok?
    decreases schema, 1
  {
    hide GenRule, GenProperties;
    if IsObject(schema) {
      if Get(schema, "properties").Some? {
        ExpressibleMembersCompile(Properties(schema), name, Required(schema));
      }
      ObjectCompiles(schema, name);
    } else if IsArray(schema) {
      if Get(schema, "items").Some? {
        ExpressibleCompiles(Get(schema, "items").value, ChildName(name, "item"));
      }
      ArrayCompiles(schema, name);
    } else {
      LeafCompiles(schema, name);
    }
  }

  lemma {:induction false} ExpressibleMembersCompile(members: seq<Member>, name: string, required: seq<string>)
    requires ExpressibleMembers(members)
    ensures GenProperties(members, name, required).result.Ok?
    decreases members, 0
  {
    if members != [] {
      ExpressibleCompiles(members[0].value, ChildName(name, members[0].key));
      ExpressibleMembersCompile(members[1..], name, required);
    }
  }

  // ---------------------------------------------------------------- name resolution

  // Always true; mentioning it is what makes the verifier unfold a name at that depth.
  ghost predicate UnfoldAt(depth: nat) {
    true
  }

  // The rules whose name stands for their body, one unfolding later.
  ghost function Resolved(rules: seq<Rule>): iset<Rule> {
    iset d: Rule |
      forall depth: nat {:trigger UnfoldAt(depth)} ::
        UnfoldAt(depth) && depth > 0 ==> Denotes(rules, depth, Ref(d.name), Den(rules, depth - 1, d.body))
  }

  ghost predicate AllResolved(rules: seq<Rule>, defs: seq<Rule>) {
    forall i: nat :: i < |defs| ==> defs[i] in Resolved(rules)
  }

  lemma AllResolvedSplit(rules: seq<Rule>, a: seq<Rule>, b: seq<Rule>)
    requires AllResolved(rules, a + b)
    ensures AllResolved(rules, a) && AllResolved(rules, b)
  {
    forall i: nat | i < |a| ensures a[i] in Resolved(rules) {
      assert (a + b)[i] == a[i];
    }
    forall i: nat | i < |b| ensures b[i] in Resolved(rules) {
      assert (a + b)[|a| + i] == b[i];
    }
  }

  // A rule that is in the list, and has the body of every rule of its name, is resolved.
  lemma DefinedIsResolved(rules: seq<Rule>, d: Rule)
    requires d in rules
    requires forall i: nat :: i < |rules| && rules[i].name == d.name ==> rules[i].body == d.body
    ensures d in Resolved(rules)
  {
    var i: nat :| i < |rules| && rules[i] == d;
    forall depth: nat, w | depth > 0
      ensures w in Den(rules, depth, Ref(d.name)) <==> w in Den(rules, depth - 1, d.body)
    {
      if FromSomeRule(rules, depth, d.name, w) {
        var j: nat :| j < |rules| && rules[j].name == d.name && w in Den(rules, depth - 1, rules[j].body);
        assert rules[j].body == d.body;
      }
      if w in Den(rules, depth - 1, d.body) {
        assert rules[i].name == d.name && w in Den(rules, depth - 1, rules[i].body);
      }
    }
    assert forall depth: nat :: depth > 0 ==> Den(rules, depth, Ref(d.name)) == Den(rules, depth - 1, d.body);
  }

  lemma DenResolved(rules: seq<Rule>, depth: nat, d: Rule)
    requires d in Resolved(rules) && depth > 0
    ensures Denotes(rules, depth, Ref(d.name), Den(rules, depth - 1, d.body))
  {
    assert UnfoldAt(depth);
  }

  lemma DenWs(rules: seq<Rule>, depth: nat)
    requires WS_RULE in Resolved(rules) && depth > 0
    ensures Denotes(rules, depth, WS, Blank())
  {
    DenResolved(rules, depth, WS_RULE);
    DenBlanks(rules, depth - 1);
  }

  lemma DenEnclosed(rules: seq<Rule>, depth: nat, open: string, g: Gram, close: string, inner: Lang)
    requires WS_RULE in Resolved(rules) && depth > 0
    requires Unquoted(open) && Unquoted(close) && Denotes(rules, depth, g, inner)
    ensures Denotes(rules, depth, Then5(Lit(open), WS, g, WS, Lit(close)), Enclosed(open, inner, close))
  {
    DenWs(rules, depth);
    DenPlain(rules, depth, open);
    DenPlain(rules, depth, close);
    DenThen5(rules, depth, Lit(open), WS, g, WS, Lit(close), Word(open), Blank(), inner, Blank(), Word(close));
  }

  // ---------------------------------------------------------------- arrays and open objects

  lemma CommaIsNotEmpty()
    ensures "" !in Comma() && "" !in SpacedComma()
  {
    forall w | w in Comma() ensures w != "" {
      var u, v := CatSplit(w, Word(","), Blank());
    }
    forall w | w in SpacedComma() ensures w != "" {
      var u, v := CatSplit(w, Blank(), Comma());
    }
  }

  lemma DenArrayBody(rules: seq<Rule>, depth: nat, item: string, l: Lang)
    requires WS_RULE in Resolved(rules) && depth > 0 && Denotes(rules, depth, Ref(item), l)
    ensures Denotes(rules, depth, ArrayBody(item), Enclosed("[", Maybe(ListOf(l, Comma())), "]"))
  {
    DenWs(rules, depth);
    DenPlain(rules, depth, ",");
    var next := Then3(Lit(","), WS, Ref(item));
    DenThen(rules, depth, WS, Ref(item), Blank(), l);
    DenThen(rules, depth, Lit(","), Then(WS, Ref(item)), Word(","), Cat(Blank(), l));
    CatAssoc(Word(","), Blank(), l);
    assert Denotes(rules, depth, Star(next), Many(Cat(Comma(), l)));
    DenThen(rules, depth, Ref(item), Star(next), l, Many(Cat(Comma(), l)));
    CommaIsNotEmpty();
    StarIsList(l, Comma());
    DenEnclosed(rules, depth, "[", Opt(Then(Ref(item), Star(next))), "]", Maybe(ListOf(l, Comma())));
  }

  lemma DenAnyObjectBody(rules: seq<Rule>, depth: nat, pair: Lang)
    requires WS_RULE in Resolved(rules) && depth > 0 && Denotes(rules, depth, Ref("pair"), pair)
    ensures Denotes(rules, depth, ANY_OBJECT_BODY, Enclosed("{", Maybe(ListOf(pair, SpacedComma())), "}"))
  {
    DenWs(rules, depth);
    DenPlain(rules, depth, ",");
    var after := Then3(Lit(","), WS, Ref("pair"));
    var next := Then(WS, after);
    DenThen(rules, depth, WS, Ref("pair"), Blank(), pair);
    DenThen(rules, depth, Lit(","), Then(WS, Ref("pair")), Word(","), Cat(Blank(), pair));
    DenThen(rules, depth, WS, after, Blank(), Cat(Word(","), Cat(Blank(), pair)));
    CatAssoc(Word(","), Blank(), pair);
    CatAssoc(Blank(), Comma(), pair);
    assert Denotes(rules, depth, Star(next), Many(Cat(SpacedComma(), pair)));
    DenThen(rules, depth, Ref("pair"), Star(next), pair, Many(Cat(SpacedComma(), pair)));
    CommaIsNotEmpty();
    StarIsList(pair, SpacedComma());
    DenEnclosed(rules, depth, "{", Opt(Then(Ref("pair"), Star(next))), "}", Maybe(ListOf(pair, SpacedComma())));
  }

  lemma DenValueBody(rules: seq<Rule>, depth: nat, text: Lang, number: Lang)
    requires Denotes(rules, depth, Ref("string"), text) && Denotes(rules, depth, Ref("number"), number)
    ensures Denotes(rules, depth, VALUE_BODY, text + (number + Keywords()))
  {
    DenKeywords(rules, depth);
    var rest := Or(Lit("true"), Or(Lit("false"), Lit("null")));
    DenOr(rules, depth, Ref("number"), rest, number, Keywords());
    DenOr(rules, depth, Ref("string"), Or(Ref("number"), rest), text, number + Keywords());
  }

  lemma DenPairBody(rules: seq<Rule>, depth: nat, text: Lang, value: Lang)
    requires WS_RULE in Resolved(rules) && depth > 0
    requires Denotes(rules, depth, Ref("string"), text) && Denotes(rules, depth, Ref("value"), value)
    ensures Denotes(rules, depth, PAIR_BODY, Cat(text, Cat(Blank(), Cat(Word(":"), Cat(Blank(), value)))))
  {
    DenWs(rules, depth);
    DenPlain(rules, depth, ":");
    DenThen5(rules, depth, Ref("string"), WS, Lit(":"), WS, Ref("value"), text, Blank(), Word(":"), Blank(), value);
  }

  ghost predicate SharedResolved(rules: seq<Rule>) {
    && Rule("pair", PAIR_BODY) in Resolved(rules) && Rule("value", VALUE_BODY) in Resolved(rules)
    && Rule("string", STRING_BODY) in Resolved(rules) && Rule("number", SHORT_NUMBER_BODY) in Resolved(rules)
  }

  lemma SharedRules(rules: seq<Rule>)
    requires AllResolved(rules, SHARED_RULES)
    ensures SharedResolved(rules)
  {
    assert SHARED_RULES[0] == Rule("pair", PAIR_BODY) && SHARED_RULES[1] == Rule("value", VALUE_BODY);
    assert SHARED_RULES[2] == Rule("string", STRING_BODY) && SHARED_RULES[3] == Rule("number", SHORT_NUMBER_BODY);
  }

  lemma DenRule(rules: seq<Rule>, depth: nat, name: string, body: Gram, l: Lang)
    requires Rule(name, body) in Resolved(rules) && depth > 0 && Denotes(rules, depth - 1, body, l)
    ensures Denotes(rules, depth, Ref(name), l)
  {
    DenResolved(rules, depth, Rule(name, body));
  }

  lemma DenSharedString(rules: seq<Rule>, depth: nat)
    requires Rule("string", STRING_BODY) in Resolved(rules) && depth > 0
    ensures Denotes(rules, depth, Ref("string"), StringToken())
  {
    DenString(rules, depth - 1);
    DenRule(rules, depth, "string", STRING_BODY, StringToken());
  }

  lemma DenSharedNumber(rules: seq<Rule>, depth: nat)
    requires Rule("number", SHORT_NUMBER_BODY) in Resolved(rules) && depth > 0
    ensures Denotes(rules, depth, Ref("number"), ShortNumberToken())
  {
    hide Den, ShortNumberToken, Resolved, Denotes;
    DenNumber(rules, depth - 1);
    DenRule(rules, depth, "number", SHORT_NUMBER_BODY, ShortNumberToken());
  }

  lemma DenSharedValue(rules: seq<Rule>, depth: nat, text: Lang, number: Lang)
    requires Rule("value", VALUE_BODY) in Resolved(rules) && depth > 0
    requires Denotes(rules, depth - 1, Ref("string"), text) && Denotes(rules, depth - 1, Ref("number"), number)
    ensures Denotes(rules, depth, Ref("value"), text + (number + Keywords()))
  {
    DenValueBody(rules, depth - 1, text, number);
    DenRule(rules, depth, "value", VALUE_BODY, text + (number + Keywords()));
  }

  lemma DenSharedPair(rules: seq<Rule>, depth: nat, text: Lang, value: Lang)
    requires WS_RULE in Resolved(rules) && Rule("pair", PAIR_BODY) in Resolved(rules) && depth > 1
    requires Denotes(rules, depth - 1, Ref("string"), text) && Denotes(rules, depth - 1, Ref("value"), value)
    ensures Denotes(rules, depth, Ref("pair"), Cat(text, Cat(Blank(), Cat(Word(":"), Cat(Blank(), value)))))
  {
    DenPairBody(rules, depth - 1, text, value);
    DenRule(rules, depth, "pair", PAIR_BODY, Cat(text, Cat(Blank(), Cat(Word(":"), Cat(Blank(), value)))));
  }

  lemma DenShared(rules: seq<Rule>, depth: nat)
    requires WS_RULE in Resolved(rules) && SharedResolved(rules) && depth >= 4
    ensures Denotes(rules, depth, Ref("pair"), AnyPair())
  {
    hide Den;
    DenSharedString(rules, depth - 2);
    DenSharedNumber(rules, depth - 2);
    DenSharedValue(rules, depth - 1, StringToken(), ShortNumberToken());
    DenSharedString(rules, depth - 1);
    DenSharedPair(rules, depth, StringToken(), StringToken() + (ShortNumberToken() + Keywords()));
  }

  lemma DenAnyItem(rules: seq<Rule>, depth: nat)
    ensures Denotes(rules, depth, ANY_ITEM_BODY, AnyItem())
  {
    DenString(rules, depth);
    DenInteger(rules, depth);
    DenKeywords(rules, depth);
    var rest := Or(Lit("true"), Or(Lit("false"), Lit("null")));
    DenOr(rules, depth, INTEGER_BODY, rest, IntegerToken(), Keywords());
    DenOr(rules, depth, STRING_BODY, Or(INTEGER_BODY, rest), StringToken(), IntegerToken() + Keywords());
  }

  // ---------------------------------------------------------------- literals

  lemma DenLiteral(rules: seq<Rule>, depth: nat, raw: string)
    ensures Denotes(rules, depth, Lit(raw), Spelled(raw))
  {
  }

  lemma DenValue(rules: seq<Rule>, depth: nat, v: Json)
    ensures Denotes(rules, depth, ValueLiteral(v), SpelledValue(v))
  {
    DenLiteral(rules, depth, ValueLiteral(v).raw);
  }

  lemma SpelledChoice(values: seq<Json>, i: nat, w: string)
    requires i < |values| && w in SpelledValue(values[i])
    ensures w in SpelledChoices(values)
  {
    hide SpelledValue;
    assert IsSpelledChoice(values, w);
  }

  lemma ChoicesSplit(values: seq<Json>)
    requires |values| > 1
    ensures Same(SpelledChoices(values), SpelledValue(values[0]) + SpelledChoices(values[1..]))
  {
    hide SpelledValue;
    var rest := values[1..];
    forall w ensures w in SpelledChoices(values) <==> w in SpelledValue(values[0]) + SpelledChoices(rest) {
      if w in SpelledChoices(rest) {
        var i: nat :| i < |rest| && w in SpelledValue(rest[i]);
        SpelledChoice(values, i + 1, w);
      }
      if w in SpelledValue(values[0]) {
        SpelledChoice(values, 0, w);
      }
      if w in SpelledChoices(values) {
        var i: nat :| i < |values| && w in SpelledValue(values[i]);
        if i > 0 {
          assert rest[i - 1] == values[i];
          SpelledChoice(rest, i - 1, w);
        }
      }
    }
    assert SpelledChoices(values) == SpelledValue(values[0]) + SpelledChoices(rest);
  }

  lemma OneChoice(v: Json)
    ensures Same(SpelledChoices([v]), SpelledValue(v))
  {
    hide SpelledValue;
    forall w | w in SpelledValue(v) ensures w in SpelledChoices([v]) {
      SpelledChoice([v], 0, w);
    }
    assert SpelledChoices([v]) == SpelledValue(v);
  }

  lemma {:induction false} DenChoices(rules: seq<Rule>, depth: nat, values: seq<Json>)
    ensures Denotes(rules, depth, Alternatives(ValueLiterals(values)), SpelledChoices(values))
  {
    if values == [] {
      DenEps(rules, depth);
    } else {
      var first, rest := values[0], values[1..];
      var options := ValueLiterals(values);
      assert options[0] == ValueLiteral(first) && options[1..] == ValueLiterals(rest);
      hide SpelledChoices, SpelledValue, ValueLiteral;
      DenValue(rules, depth, first);
      if rest == [] {
        assert values == [first];
        OneChoice(first);
      } else {
        DenChoices(rules, depth, rest);
        ChoicesSplit(values);
        DenOr(rules, depth, options[0], Alternatives(options[1..]), SpelledValue(first), SpelledChoices(rest));
      }
    }
  }

  // ---------------------------------------------------------------- nodes

  // An unfolding depth that reaches every rule of a schema.
  function Height(schema: Json): nat
    decreases schema, 1
  {
    if IsObject(schema) then
      (match Get(schema, "properties")
       case Some(JObject(members)) => 2 + HeightOf(members)
       case _ => 5)
    else if IsArray(schema) then
      (match Get(schema, "items")
       case Some(items) => 2 + Height(items)
       case None => 2)
    else 1
  }

  function HeightOf(members: seq<Member>): nat
    decreases members, 0
  {
    if members == [] then 0 else Height(members[0].value) + HeightOf(members[1..])
  }

  lemma {:induction false} NodeDerives(rules: seq<Rule>, schema: Json, name: string, depth: nat)
    requires GenRule(schema, name).result.Ok?
    requires WS_RULE in Resolved(rules) && AllResolved(rules, Defs(schema, name))
    requires depth >= Height(schema)
    ensures Denotes(rules, depth, Ref(name), Derived(schema))
    decreases schema, 2
  {
    if IsObject(schema) {
      if Get(schema, "properties").Some? {
        ObjectDerives(rules, schema, name, depth);
      } else {
        OpenObjectDerives(rules, schema, name, depth);
      }
    } else if IsArray(schema) {
      ArrayDerives(rules, schema, name, depth);
    } else {
      LeafDerives(rules, schema, name, depth);
    }
  }

  lemma DerivedOfObject(schema: Json)
    requires IsObject(schema) && Get(schema, "properties").Some? && Get(schema, "properties").value.JObject?
    ensures Same(Derived(schema),
                 Enclosed("{", DerivedMembers(Properties(schema), Required(schema)), "}"))
  {
  }

  lemma DerivedOfArray(schema: Json)
    requires IsArray(schema)
    ensures var item := if Get(schema, "items").Some? then Derived(Get(schema, "items").value) else AnyItem();
            Same(Derived(schema), Enclosed("[", Maybe(ListOf(item, Comma())), "]"))
  {
  }

  lemma DerivedOfLeaf(schema: Json)
    ensures HasEnum(schema) ==> Same(Derived(schema), SpelledChoices(Get(schema, "enum").value.items))
    ensures !HasEnum(schema) && HasConst(schema)
            ==> Same(Derived(schema), SpelledValue(Get(schema, "const").value))
    ensures !HasEnum(schema) && !HasConst(schema) && IsScalar(SchemaKind(schema)) ==>
              Same(Derived(schema), ScalarReading(SchemaKind(schema)))
  {
    hide SpelledChoices, SpelledValue, Enclosed, DerivedMembers, ListOf, AnyPair, AnyItem, ScalarReading, Word, Maybe;
  }

  lemma DenotesSame(rules: seq<Rule>, depth: nat, g: Gram, l: Lang, same: Lang)
    requires Denotes(rules, depth, g, l) && Same(same, l)
    ensures Denotes(rules, depth, g, same)
  {
  }

  lemma LeafDerives(rules: seq<Rule>, schema: Json, name: string, depth: nat)
    requires IsLeaf(schema) && GenRule(schema, name).result.Ok?
    requires AllResolved(rules, Defs(schema, name)) && depth >= 1
    ensures Denotes(rules, depth, Ref(name), Derived(schema))
  {
    hide Den, AllResolved, Defs, GenRule, ValueLiterals, Alternatives, ValueLiteral, ScalarBody, SpelledChoices,
      SpelledValue, ScalarReading;
    hide Derived, Word, Denotes, Same;
    DerivedOfLeaf(schema);
    if HasEnum(schema) {
      EnumRule(schema, name);
      var values := Get(schema, "enum").value.items;
      DenChoices(rules, depth - 1, values);
      OnlyRule(rules, depth, name, Alternatives(ValueLiterals(values)), SpelledChoices(values));
      DenotesSame(rules, depth, Ref(name), SpelledChoices(values), Derived(schema));
    } else if HasConst(schema) {
      ConstRule(schema, name);
      var v := Get(schema, "const").value;
      DenValue(rules, depth - 1, v);
      OnlyRule(rules, depth, name, ValueLiteral(v), SpelledValue(v));
      DenotesSame(rules, depth, Ref(name), SpelledValue(v), Derived(schema));
    } else {
      LeafIsScalar(schema, name);
      ScalarRule(schema, name);
      var kind := SchemaKind(schema);
      ScalarMeaning(rules, kind, depth - 1);
      OnlyRule(rules, depth, name, ScalarBody(kind), ScalarReading(kind));
      DenotesSame(rules, depth, Ref(name), ScalarReading(kind), Derived(schema));
    }
  }

  lemma LeafIsScalar(schema: Json, name: string)
    requires IsLeaf(schema) && !HasEnum(schema) && !HasConst(schema) && GenRule(schema, name).result.Ok?
    ensures IsScalar(SchemaKind(schema))
  {
  }

  lemma OnlyRule(rules: seq<Rule>, depth: nat, name: string, body: Gram, l: Lang)
    requires AllResolved(rules, [Rule(name, body)]) && depth > 0 && Denotes(rules, depth - 1, body, l)
    ensures Denotes(rules, depth, Ref(name), l)
  {
    LastResolved(rules, Rule(name, body));
    DenRule(rules, depth, name, body, l);
  }

  lemma EnumRule(schema: Json, name: string)
    requires HasEnum(schema)
    ensures Defs(schema, name) == [Rule(name, Alternatives(ValueLiterals(Get(schema, "enum").value.items)))]
  {
  }

  lemma ConstRule(schema: Json, name: string)
    requires !HasEnum(schema) && HasConst(schema)
    ensures Defs(schema, name) == [Rule(name, ValueLiteral(Get(schema, "const").value))]
  {
  }

  lemma ScalarRule(schema: Json, name: string)
    requires !HasEnum(schema) && !HasConst(schema) && IsScalar(SchemaKind(schema))
    ensures GenRule(schema, name).result.Ok?
    ensures Defs(schema, name) == [Rule(name, ScalarBody(SchemaKind(schema)))]
  {
  }

  lemma ScalarMeaning(rules: seq<Rule>, kind: Kind, depth: nat)
    requires IsScalar(kind)
    ensures Denotes(rules, depth, ScalarBody(kind), ScalarReading(kind))
  {
    match kind
    case KString => DenString(rules, depth);
    case KNumber => DenNumber(rules, depth);
    case KInteger => DenInteger(rules, depth);
    case KBoolean => DenKeywords(rules, depth);
    case KNull => DenKeywords(rules, depth);
  }

  lemma OpenObjectDerives(rules: seq<Rule>, schema: Json, name: string, depth: nat)
    requires IsObject(schema) && Get(schema, "properties").None?
    requires WS_RULE in Resolved(rules) && AllResolved(rules, Defs(schema, name)) && depth >= 5
    ensures Denotes(rules, depth, Ref(name), Derived(schema))
  {
    ObjectDefs(schema, name);
    OpenObjectBody(rules, name, depth);
  }

  lemma OpenObjectBody(rules: seq<Rule>, name: string, depth: nat)
    requires WS_RULE in Resolved(rules) && AllResolved(rules, [Rule(name, ANY_OBJECT_BODY)] + SHARED_RULES)
             && depth >= 5
    ensures Denotes(rules, depth, Ref(name), Enclosed("{", Maybe(ListOf(AnyPair(), SpacedComma())), "}"))
  {
    var own := Rule(name, ANY_OBJECT_BODY);
    AllResolvedSplit(rules, [own], SHARED_RULES);
    assert [own][0] == own;
    SharedRules(rules);
    DenResolved(rules, depth, own);
    DenShared(rules, depth - 1);
    DenAnyObjectBody(rules, depth - 1, AnyPair());
  }

  lemma ArrayRule(rules: seq<Rule>, depth: nat, name: string, item: string, l: Lang)
    requires WS_RULE in Resolved(rules) && Rule(name, ArrayBody(item)) in Resolved(rules) && depth >= 2
    requires Denotes(rules, depth - 1, Ref(item), l)
    ensures Denotes(rules, depth, Ref(name), Enclosed("[", Maybe(ListOf(l, Comma())), "]"))
  {
    DenResolved(rules, depth, Rule(name, ArrayBody(item)));
    DenArrayBody(rules, depth - 1, item, l);
  }

  lemma ArrayParts(schema: Json)
    requires IsArray(schema)
    ensures match Get(schema, "items")
            case None => Height(schema) == 2
            case Some(items) => Height(schema) == 2 + Height(items)
  {
  }

  lemma ArrayDerives(rules: seq<Rule>, schema: Json, name: string, depth: nat)
    requires IsArray(schema) && GenRule(schema, name).result.Ok?
    requires WS_RULE in Resolved(rules) && AllResolved(rules, Defs(schema, name))
    requires depth >= Height(schema)
    ensures Denotes(rules, depth, Ref(name), Derived(schema))
    decreases schema, 1
  {
    hide Den, Derived, GenRule, Resolved, Height, Defs, Enclosed, ListOf, AnyItem, ArrayBody, Comma;
    hide Denotes, Same, AllResolved, Maybe, Get, SchemaKind, HasEnum, HasConst;
    ArrayDefs(schema, name);
    DerivedOfArray(schema);
    ArrayParts(schema);
    var item := ChildName(name, "item");
    match Get(schema, "items")
    case None =>
      OpenArrayBody(rules, name, item, depth);
      DenotesSame(rules, depth, Ref(name), Enclosed("[", Maybe(ListOf(AnyItem(), Comma())), "]"),
                   Derived(schema));
    case Some(items) =>
      ItemsResolved(rules, items, name, item);
      NodeDerives(rules, items, item, depth - 1);
      ArrayRule(rules, depth, name, item, Derived(items));
      DenotesSame(rules, depth, Ref(name), Enclosed("[", Maybe(ListOf(Derived(items), Comma())), "]"),
                   Derived(schema));
  }

  lemma LastResolved(rules: seq<Rule>, d: Rule)
    requires AllResolved(rules, [d])
    ensures d in Resolved(rules)
  {
    assert [d][0] == d;
  }

  lemma ItemsResolved(rules: seq<Rule>, items: Json, name: string, item: string)
    requires GenRule(items, item).result.Ok?
    requires AllResolved(rules, Defs(items, item) + [Rule(name, ArrayBody(item))])
    ensures AllResolved(rules, Defs(items, item)) && Rule(name, ArrayBody(item)) in Resolved(rules)
  {
    hide GenRule, Resolved;
    AllResolvedSplit(rules, Defs(items, item), [Rule(name, ArrayBody(item))]);
    LastResolved(rules, Rule(name, ArrayBody(item)));
  }

  lemma OpenArrayBody(rules: seq<Rule>, name: string, item: string, depth: nat)
    requires WS_RULE in Resolved(rules) && depth >= 2
    requires AllResolved(rules, [Rule(item, ANY_ITEM_BODY), Rule(name, ArrayBody(item))])
    ensures Denotes(rules, depth, Ref(name), Enclosed("[", Maybe(ListOf(AnyItem(), Comma())), "]"))
  {
    hide Den, Resolved, AnyItem, ListOf, Enclosed, ArrayBody;
    var first, second := Rule(item, ANY_ITEM_BODY), Rule(name, ArrayBody(item));
    assert [first, second] == [first] + [second];
    AllResolvedSplit(rules, [first], [second]);
    LastResolved(rules, first);
    LastResolved(rules, second);
    DenAnyItem(rules, depth - 2);
    DenRule(rules, depth - 1, item, ANY_ITEM_BODY, AnyItem());
    ArrayRule(rules, depth, name, item, AnyItem());
  }

  lemma ObjectRule(rules: seq<Rule>, depth: nat, name: string, parts: seq<Gram>, l: Lang)
    requires WS_RULE in Resolved(rules) && Rule(name, ObjectBody(parts)) in Resolved(rules) && depth >= 2
    requires Denotes(rules, depth - 1, JoinParts(parts), l)
    ensures Denotes(rules, depth, Ref(name), Enclosed("{", l, "}"))
  {
    DenResolved(rules, depth, Rule(name, ObjectBody(parts)));
    DenEnclosed(rules, depth - 1, "{", JoinParts(parts), "}", l);
  }

  lemma ObjectDerives(rules: seq<Rule>, schema: Json, name: string, depth: nat)
    requires IsObject(schema) && Get(schema, "properties").Some?
    requires GenRule(schema, name).result.Ok?
    requires WS_RULE in Resolved(rules) && AllResolved(rules, Defs(schema, name))
    requires depth >= Height(schema)
    ensures Denotes(rules, depth, Ref(name), Derived(schema))
    decreases schema, 1
  {
    ObjectDefs(schema, name);
    DerivedOfObject(schema);
    PropertiesDerive(rules, Properties(schema), name, Required(schema), depth);
  }

  lemma PropertiesDerive(rules: seq<Rule>, members: seq<Member>, name: string, required: seq<string>, depth: nat)
    requires GenProperties(members, name, required).result.Ok?
    requires WS_RULE in Resolved(rules) && depth >= 2 + HeightOf(members)
    requires AllResolved(rules, PropDefs(members, name, required)
                                + [Rule(name, ObjectBody(GenProperties(members, name, required).result.value))])
    ensures Denotes(rules, depth, Ref(name), Enclosed("{", DerivedMembers(members, required), "}"))
    decreases members, 2
  {
    hide Den, Derived, GenProperties, DerivedMembers, Enclosed, ObjectBody, AllResolved, Resolved, Denotes;
    var parts := GenProperties(members, name, required).result.value;
    var own := Rule(name, ObjectBody(parts));
    AllResolvedSplit(rules, PropDefs(members, name, required), [own]);
    LastResolved(rules, own);
    MembersDerive(rules, members, name, required, depth - 1);
    ObjectRule(rules, depth, name, parts, DerivedMembers(members, required));
  }

  lemma DenPair(rules: seq<Rule>, depth: nat, name: string, m: Member, required: seq<string>)
    requires WS_RULE in Resolved(rules) && depth > 0
    requires Denotes(rules, depth, Ref(ChildName(name, m.key)), Derived(m.value))
    ensures Denotes(rules, depth, PairGram(name, m.key, required),
                    if m.key in required then DerivedPair(m) else Maybe(DerivedPair(m)))
  {
    hide Den, Derived, Spelled;
    DenWs(rules, depth);
    DenLiteral(rules, depth, KeyLiteral(m.key));
    DenPlain(rules, depth, ":");
    var key := Lit(KeyLiteral(m.key));
    DenThen5(rules, depth, key, WS, Lit(":"), WS, Ref(ChildName(name, m.key)),
             Spelled(KeyLiteral(m.key)), Blank(), Word(":"), Blank(), Derived(m.value));
    DenOpt(rules, depth, Then5(key, WS, Lit(":"), WS, Ref(ChildName(name, m.key))), DerivedPair(m));
  }

  lemma DenJoin(rules: seq<Rule>, depth: nat, parts: seq<Gram>, first: Lang, rest: Lang)
    requires WS_RULE in Resolved(rules) && depth > 0 && |parts| > 1
    requires Denotes(rules, depth, parts[0], first) && Denotes(rules, depth, JoinParts(parts[1..]), rest)
    ensures Denotes(rules, depth, JoinParts(parts), Cat(first, Cat(Blank(), Cat(Word(","), Cat(Blank(), rest)))))
  {
    DenWs(rules, depth);
    DenPlain(rules, depth, ",");
    DenThen5(rules, depth, parts[0], WS, Lit(","), WS, JoinParts(parts[1..]), first, Blank(), Word(","), Blank(), rest);
  }

  lemma {:induction false} MembersDerive(rules: seq<Rule>, members: seq<Member>, name: string,
                                          required: seq<string>, depth: nat)
    requires GenProperties(members, name, required).result.Ok?
    requires WS_RULE in Resolved(rules) && AllResolved(rules, PropDefs(members, name, required))
    requires depth > HeightOf(members)
    ensures Denotes(rules, depth, JoinParts(GenProperties(members, name, required).result.value),
                    DerivedMembers(members, required))
    decreases members, 1
  {
    hide Den, Derived, Resolved, GenRule, Defs, Height, PairGram, DerivedPair;
    DenEps(rules, depth);
    if members != [] {
      PropDefsStep(members, name, required);
      var m := members[0];
      var child := ChildName(name, m.key);
      AllResolvedSplit(rules, Defs(m.value, child), PropDefs(members[1..], name, required));
      NodeDerives(rules, m.value, child, depth);
      MembersDerive(rules, members[1..], name, required, depth);
      DenPair(rules, depth, name, m, required);
      var parts := GenProperties(members, name, required).result.value;
      var rest := GenProperties(members[1..], name, required).result.value;
      assert parts == [PairGram(name, m.key, required)] + rest && parts[1..] == rest;
      PartsPerMember(members[1..], name, required);
      if |members| > 1 {
        DenJoin(rules, depth, parts,
                if m.key in required then DerivedPair(m) else Maybe(DerivedPair(m)),
                DerivedMembers(members[1..], required));
      }
    }
  }

  lemma {:induction false} PartsPerMember(members: seq<Member>, name: string, required: seq<string>)
    requires GenProperties(members, name, required).result.Ok?
    ensures |GenProperties(members, name, required).result.value| == |members|
    decreases |members|
  {
    if members != [] {
      PropDefsStep(members, name, required);
      PartsPerMember(members[1..], name, required);
    }
  }

  // ---------------------------------------------------------------- without quotes and backslashes

  lemma PlainKeyIsSpelled(key: string)
    requires Unquoted(key)
    ensures Spelled(KeyLiteral(key)) == Word("\"" + key + "\"")
  {
    QuotedLiteral(key);
  }

  lemma PlainValueIsSpelled(v: Json)
    requires ExpressibleValue(v)
    ensures SpelledValue(v) == Word(ValueText(v))
  {
    if v.JString? {
      PlainKeyIsSpelled(v.s);
    } else {
      PlainLiteral(Print(v));
    }
  }

  lemma PlainChoicesAreSpelled(values: seq<Json>)
    requires forall i :: 0 <= i < |values| ==> ExpressibleValue(values[i])
    ensures SpelledChoices(values) == Choices(values, EMITTED)
  {
    hide SpelledValue, ValueText, ExpressibleValue;
    forall i: nat | i < |values| ensures SpelledValue(values[i]) == Word(ValueText(values[i])) {
      PlainValueIsSpelled(values[i]);
    }
    if values != [] {
      forall w ensures w in SpelledChoices(values) <==> w in OneOf(values) {
        if w in SpelledChoices(values) {
          var i: nat :| i < |values| && w in SpelledValue(values[i]);
          assert w == ValueText(values[i]);
        }
        if w in OneOf(values) {
          var i: nat :| i < |values| && w == ValueText(values[i]);
          SpelledChoice(values, i, w);
        }
      }
    }
  }

  // Then names and literals are taken for what they are.
  lemma {:induction false} DerivedIsReading(schema: Json)
    requires Expressible(schema)
    ensures Derived(schema) == Reading(schema, EMITTED)
    decreases schema, 2
  {
    hide Enclosed, ListOf, Maybe, Choices, SpelledChoices, SpelledValue, Comma, AnyItem, AnyPair, SchemaKind,
      ScalarReading, Word, ValueText, ExpressibleValue, CommasKept, DerivedMembers;
    if HasEnum(schema) {
      PlainChoicesAreSpelled(Get(schema, "enum").value.items);
    } else if HasConst(schema) {
      PlainValueIsSpelled(Get(schema, "const").value);
    } else if IsObject(schema) {
      if Get(schema, "properties").Some? {
        MembersAreReading(Properties(schema), Required(schema));
      }
    } else if IsArray(schema) {
      if Get(schema, "items").Some? {
        DerivedIsReading(Get(schema, "items").value);
      }
    }
  }

  lemma PairIsReading(m: Member)
    requires Unquoted(m.key) && Derived(m.value) == Reading(m.value, EMITTED)
    ensures DerivedPair(m) == PairReading(m, EMITTED)
  {
    hide Derived, Reading, Cat, Blank, Spelled;
    PlainKeyIsSpelled(m.key);
  }

  lemma {:induction false} MembersAreReading(members: seq<Member>, required: seq<string>)
    requires ExpressibleMembers(members)
    ensures DerivedMembers(members, required) == CommasKept(members, required, EMITTED)
    decreases members, 1
  {
    hide Derived, Reading, Separated, Maybe, DerivedPair, PairReading;
    if members != [] {
      DerivedIsReading(members[0].value);
      PairIsReading(members[0]);
      MembersAreReading(members[1..], required);
    }
  }

  lemma NodeMeaning(rules: seq<Rule>, schema: Json, name: string, depth: nat)
    requires Expressible(schema) && GenRule(schema, name).result.Ok?
    requires WS_RULE in Resolved(rules) && AllResolved(rules, Defs(schema, name))
    requires depth >= Height(schema)
    ensures Denotes(rules, depth, Ref(name), Reading(schema, EMITTED))
  {
    hide Den, Derived, Reading, Resolved, GenRule, Expressible, Height;
    NodeDerives(rules, schema, name, depth);
    DerivedIsReading(schema);
  }

  lemma MembersMeaning(rules: seq<Rule>, members: seq<Member>, name: string, required: seq<string>, depth: nat)
    requires ExpressibleMembers(members) && GenProperties(members, name, required).result.Ok?
    requires WS_RULE in Resolved(rules) && AllResolved(rules, PropDefs(members, name, required))
    requires depth > HeightOf(members)
    ensures Denotes(rules, depth, JoinParts(GenProperties(members, name, required).result.value),
                    CommasKept(members, required, EMITTED))
  {
    hide Den, DerivedMembers, CommasKept, Resolved, GenProperties, ExpressibleMembers, HeightOf;
    MembersDerive(rules, members, name, required, depth);
    MembersAreReading(members, required);
  }
}
