// Well-formedness of the emitted rule list: the root comes first, every nonterminal used is defined,
// and hyphen-free property names give every schema node a rule name of its own.
module SchemaNames {
  import opened Json
  import opened Grammar
  import opened SchemaModel

  // ---------------------------------------------------------------- rules of a schema node

  lemma FlattenConcat(a: seq<Block>, b: seq<Block>)
    ensures Flatten(a + b) == Flatten(a) + Flatten(b)
  {
    if a == [] {
      assert a + b == b;
    } else {
      assert (a + b)[1..] == a[1..] + b;
      FlattenConcat(a[1..], b);
    }
  }

  lemma FlattenOne(block: Block)
    ensures Flatten([block]) == block
  {
    assert [block][1..] == [];
  }

  // All rules emitted for a node: what was pushed, then its own entry.
  function Defs(schema: Json, name: string): seq<Rule>
    requires GenRule(schema, name).result.Ok?
  {
    Flatten(GenRule(schema, name).pushed) + GenRule(schema, name).result.value
  }

  function PropDefs(members: seq<Member>, name: string, required: seq<string>): seq<Rule> {
    Flatten(GenProperties(members, name, required).pushed)
  }

  predicate IsLeaf(schema: Json) {
    HasEnum(schema) || HasConst(schema) || (SchemaKind(schema) != KObject && SchemaKind(schema) != KArray)
  }

  predicate IsObject(schema: Json) {
    !HasEnum(schema) && !HasConst(schema) && SchemaKind(schema) == KObject
  }

  predicate IsArray(schema: Json) {
    !HasEnum(schema) && !HasConst(schema) && SchemaKind(schema) == KArray
  }

  function Properties(schema: Json): seq<Member>
    requires Get(schema, "properties").Some? && Get(schema, "properties").value.JObject?
  {
    Get(schema, "properties").value.members
  }

  lemma PropDefsStep(members: seq<Member>, name: string, required: seq<string>)
    requires members != [] && GenProperties(members, name, required).result.Ok?
    ensures var key := members[0].key;
            && GenRule(members[0].value, ChildName(name, key)).result.Ok?
            && GenProperties(members[1..], name, required).result.Ok?
            && PropDefs(members, name, required)
               == Defs(members[0].value, ChildName(name, key)) + PropDefs(members[1..], name, required)
  {
    var own := GenRule(members[0].value, ChildName(name, members[0].key));
    var rest := GenProperties(members[1..], name, required);
    FlattenConcat(own.pushed, [own.result.value]);
    FlattenOne(own.result.value);
    FlattenConcat(own.pushed + [own.result.value], rest.pushed);
  }

  lemma ObjectDefs(schema: Json, name: string)
    requires IsObject(schema) && GenRule(schema, name).result.Ok?
    ensures Get(schema, "properties").None? ==>
              Defs(schema, name) == [Rule(name, ANY_OBJECT_BODY)] + SHARED_RULES
    ensures Get(schema, "properties").Some? ==>
              && Get(schema, "properties").value.JObject?
              && GenProperties(Properties(schema), name, Required(schema)).result.Ok?
              && Defs(schema, name)
                 == PropDefs(Properties(schema), name, Required(schema))
                    + [Rule(name, ObjectBody(GenProperties(Properties(schema), name, Required(schema)).result.value))]
  {
  }

  lemma ArrayDefs(schema: Json, name: string)
    requires IsArray(schema) && GenRule(schema, name).result.Ok?
    ensures var item := ChildName(name, "item");
            match Get(schema, "items")
            case None => Defs(schema, name) == [Rule(item, ANY_ITEM_BODY), Rule(name, ArrayBody(item))]
            case Some(items) =>
              && GenRule(items, item).result.Ok?
              && Defs(schema, name) == Defs(items, item) + [Rule(name, ArrayBody(item))]
  {
    var item := ChildName(name, "item");
    match Get(schema, "items")
    case None => FlattenOne([Rule(item, ANY_ITEM_BODY)]);
    case Some(items) =>
      var g := GenRule(items, item);
      if g.result.Ok? {
        FlattenConcat(g.pushed, [g.result.value]);
        FlattenOne(g.result.value);
      }
  }

  lemma CompiledRules(schema: Json)
    requires Compile(schema).Ok?
    ensures GenRule(schema, ROOT).result.Ok?
    ensures Compile(schema).value == GenRule(schema, ROOT).result.value + [WS_RULE]
            + Flatten(GenRule(schema, ROOT).pushed)
  {
    hide GenRule;
    var g := GenRule(schema, ROOT);
    assert [g.result.value, [WS_RULE]] + g.pushed == [g.result.value] + ([[WS_RULE]] + g.pushed);
    FlattenConcat([g.result.value], [[WS_RULE]] + g.pushed);
    FlattenOne(g.result.value);
    FlattenConcat([[WS_RULE]], g.pushed);
    FlattenOne([WS_RULE]);
  }

  // The node's own rule comes first in its entry.
  lemma OwnRuleFirst(schema: Json, name: string)
    requires GenRule(schema, name).result.Ok?
    ensures var block := GenRule(schema, name).result.value;
            block != [] && block[0].name == name
  {
  }

  // ---------------------------------------------------------------- every reference is defined

  function Refs(g: Gram): set<string> {
    match g
    case Ref(name) => {name}
    case Then(a, b) => Refs(a) + Refs(b)
    case Or(a, b) => Refs(a) + Refs(b)
    case Opt(a) => Refs(a)
    case Star(a) => Refs(a)
    case Plus(a) => Refs(a)
    case _ => {}
  }

  lemma RefsThen3(a: Gram, b: Gram, c: Gram)
    ensures Refs(Then3(a, b, c)) == Refs(a) + (Refs(b) + Refs(c))
  {
    assert Refs(Then(b, c)) == Refs(b) + Refs(c);
  }

  lemma RefsThen(a: Gram, b: Gram)
    ensures Refs(Then(a, b)) == Refs(a) + Refs(b)
  {
  }

  lemma RefsThen5(a: Gram, b: Gram, c: Gram, d: Gram, e: Gram)
    ensures Refs(Then5(a, b, c, d, e)) == Refs(a) + (Refs(b) + (Refs(c) + (Refs(d) + Refs(e))))
  {
    hide Refs;
    RefsThen3(c, d, e);
    RefsThen(b, Then3(c, d, e));
    RefsThen(a, Then(b, Then3(c, d, e)));
  }

  lemma RefsOr(a: Gram, b: Gram, s: set<string>)
    requires Refs(b) == s
    ensures Refs(Or(a, b)) == Refs(a) + s
  {
  }

  lemma RefsOr5(a: Gram, b: Gram, c: Gram, d: Gram, e: Gram)
    ensures Refs(Or5(a, b, c, d, e)) == Refs(a) + (Refs(b) + (Refs(c) + (Refs(d) + Refs(e))))
  {
    var de := Refs(d) + Refs(e);
    RefsOr(d, e, Refs(e));
    RefsOr(c, Or(d, e), de);
    RefsOr(b, Or(c, Or(d, e)), Refs(c) + de);
    RefsOr(a, Or(b, Or(c, Or(d, e))), Refs(b) + (Refs(c) + de));
  }

  lemma RefsString()
    ensures Refs(STRING_BODY) == {}
  {
    var escape := Then(Lit("\\\\"), Chars(AnyChar));
    var inner := Or(Chars(NotQuoteOrBackslash), escape);
    assert Refs(escape) == {} && Refs(inner) == {};
    RefsThen3(QUOTE, Star(inner), QUOTE);
  }

  lemma RefsPlain()
    ensures Refs(Plus(Chars(Digits))) == {} && Refs(FRACTION) == {} && Refs(EXPONENT) == {}
  {
    var digits := Plus(Chars(Digits));
    assert Refs(Chars(Digits)) == {} && Refs(digits) == {};
    assert Refs(Then(Lit("."), digits)) == {};
    var mark, sign := Or(Lit("e"), Lit("E")), Or(Lit("+"), Lit("-"));
    assert Refs(mark) == {} && Refs(sign) == {} && Refs(Opt(sign)) == {};
    RefsThen3(mark, Opt(sign), digits);
  }

  lemma RefsNumbers()
    ensures Refs(INTEGER_BODY) == {} && Refs(SHORT_NUMBER_BODY) == {} && Refs(NUMBER_BODY) == {}
  {
    var digits := Plus(Chars(Digits));
    RefsPlain();
    assert Refs(Opt(Lit("-"))) == {};
    RefsThen3(Opt(Lit("-")), digits, FRACTION);
    RefsThen3(digits, FRACTION, EXPONENT);
  }

  lemma RefsAnyItem()
    ensures Refs(ANY_ITEM_BODY) == {}
  {
    RefsString();
    RefsNumbers();
    RefsOr5(STRING_BODY, INTEGER_BODY, Lit("true"), Lit("false"), Lit("null"));
  }

  lemma RefsScalar(kind: Kind)
    requires IsScalar(kind)
    ensures Refs(ScalarBody(kind)) == {}
  {
    RefsString();
    RefsNumbers();
    assert Refs(BOOLEAN_BODY) == {};
  }

  lemma RefsArray(item: string)
    ensures Refs(ArrayBody(item)) == {item, "ws"}
  {
    var next := Then3(Lit(","), WS, Ref(item));
    RefsThen3(Lit(","), WS, Ref(item));
    var list := Then(Ref(item), Star(next));
    assert Refs(list) == {item, "ws"};
    assert Refs(Opt(list)) == Refs(list);
    RefsThen5(Lit("["), WS, Opt(list), WS, Lit("]"));
  }

  lemma RefsAnyObject()
    ensures Refs(ANY_OBJECT_BODY) == {"pair", "ws"}
  {
    var next := Then(WS, Then3(Lit(","), WS, Ref("pair")));
    RefsThen3(Lit(","), WS, Ref("pair"));
    assert Refs(next) == {"ws", "pair"};
    var list := Then(Ref("pair"), Star(next));
    assert Refs(list) == {"ws", "pair"};
    assert Refs(Opt(list)) == Refs(list);
    RefsThen5(Lit("{"), WS, Opt(list), WS, Lit("}"));
  }

  lemma RefsPairAndValue()
    ensures Refs(PAIR_BODY) == {"string", "ws", "value"}
    ensures Refs(VALUE_BODY) == {"string", "number"}
  {
    RefsThen5(Ref("string"), WS, Lit(":"), WS, Ref("value"));
    RefsOr5(Ref("string"), Ref("number"), Lit("true"), Lit("false"), Lit("null"));
  }

  function Names(rules: seq<Rule>): set<string> {
    set i | 0 <= i < |rules| :: rules[i].name
  }

  ghost predicate Closed(rules: seq<Rule>, names: set<string>) {
    forall i :: 0 <= i < |rules| ==> Refs(rules[i].body) <= names
  }

  lemma NamesConcat(a: seq<Rule>, b: seq<Rule>)
    ensures Names(a + b) == Names(a) + Names(b)
  {
    forall x | x in Names(a) + Names(b) ensures x in Names(a + b) {
      if x in Names(a) {
        var i :| 0 <= i < |a| && a[i].name == x;
        assert (a + b)[i] == a[i];
      } else {
        var i :| 0 <= i < |b| && b[i].name == x;
        assert (a + b)[|a| + i] == b[i];
      }
    }
  }

  lemma ClosedConcat(a: seq<Rule>, b: seq<Rule>, s: set<string>, t: set<string>, u: set<string>)
    requires Closed(a, s) && Closed(b, t) && s <= u && t <= u
    ensures Closed(a + b, u)
  {
    forall i | 0 <= i < |a + b| ensures Refs((a + b)[i].body) <= u {
      if i < |a| {
        assert (a + b)[i] == a[i];
      } else {
        assert (a + b)[i] == b[i - |a|];
      }
    }
  }

  lemma {:induction false} LiteralsHaveNoRefs(values: seq<Json>)
    ensures Refs(Alternatives(ValueLiterals(values))) == {}
  {
    if values != [] {
      LiteralsHaveNoRefs(values[1..]);
      var g := ValueLiterals(values);
      assert g[1..] == ValueLiterals(values[1..]);
    }
  }

  lemma {:induction false} DefsClosed(schema: Json, name: string)
    requires GenRule(schema, name).result.Ok?
    ensures name in Names(Defs(schema, name))
    ensures Closed(Defs(schema, name), Names(Defs(schema, name)) + {"ws"})
    decreases schema, 1
  {
    var defs := Defs(schema, name);
    OwnNameDefined(schema, name);
    if IsObject(schema) {
      ObjectDefs(schema, name);
      if Get(schema, "properties").Some? {
        ObjectDefsClosed(schema, name);
      } else {
        AnyObjectClosed(name);
      }
    } else if IsArray(schema) {
      ArrayDefs(schema, name);
      var item := ChildName(name, "item");
      RefsArray(item);
      match Get(schema, "items")
      case None =>
        RefsAnyItem();
        assert defs[0].name == item;
      case Some(items) =>
        DefsClosed(items, item);
        var own := [Rule(name, ArrayBody(item))];
        NamesConcat(Defs(items, item), own);
        ClosedConcat(Defs(items, item), own, Names(Defs(items, item)) + {"ws"}, {item, "ws"}, Names(defs) + {"ws"});
    } else if HasEnum(schema) {
      LiteralsHaveNoRefs(Get(schema, "enum").value.items);
    } else if !HasConst(schema) {
      RefsScalar(SchemaKind(schema));
    }
  }

  lemma OwnNameDefined(schema: Json, name: string)
    requires GenRule(schema, name).result.Ok?
    ensures name in Names(Defs(schema, name))
  {
    OwnRuleFirst(schema, name);
    var pushed := Flatten(GenRule(schema, name).pushed);
    assert Defs(schema, name)[|pushed|].name == name;
  }

  lemma AnyObjectClosed(name: string)
    ensures var defs := [Rule(name, ANY_OBJECT_BODY)] + SHARED_RULES;
            Closed(defs, Names(defs) + {"ws"})
  {
    var defs := [Rule(name, ANY_OBJECT_BODY)] + SHARED_RULES;
    assert defs[1].name == "pair" && defs[2].name == "value" && defs[3].name == "string" && defs[4].name == "number";
    RefsAnyObject();
    RefsPairAndValue();
    RefsString();
    RefsNumbers();
    forall i | 0 <= i < |defs| ensures Refs(defs[i].body) <= Names(defs) + {"ws"} {
      assert i == 0 || i == 1 || i == 2 || i == 3 || i == 4;
    }
  }

  lemma ObjectDefsClosed(schema: Json, name: string)
    requires IsObject(schema) && GenRule(schema, name).result.Ok?
    requires Get(schema, "properties").Some?
    ensures Closed(Defs(schema, name), Names(Defs(schema, name)) + {"ws"})
    decreases schema, 0
  {
    ObjectDefs(schema, name);
    var members, required := Properties(schema), Required(schema);
    PropDefsClosed(members, name, required);
    var parts := GenProperties(members, name, required).result.value;
    var own := [Rule(name, ObjectBody(parts))];
    var props := PropDefs(members, name, required);
    NamesConcat(props, own);
    RefsThen5(Lit("{"), WS, JoinParts(parts), WS, Lit("}"));
    ClosedConcat(props, own, Names(props) + {"ws"}, Names(props) + {"ws"}, Names(Defs(schema, name)) + {"ws"});
  }

  lemma RefsJoin(parts: seq<Gram>)
    requires parts != []
    ensures Refs(JoinParts(parts)) <= Refs(parts[0]) + Refs(JoinParts(parts[1..])) + {"ws"}
  {
    if |parts| > 1 {
      var rest := JoinParts(parts[1..]);
      RefsThen3(Lit(","), WS, rest);
      assert Refs(Then(WS, Then3(Lit(","), WS, rest))) == {"ws"} + Refs(rest);
    }
  }

  lemma {:induction false} PropDefsClosed(members: seq<Member>, name: string, required: seq<string>)
    requires GenProperties(members, name, required).result.Ok?
    ensures var g := GenProperties(members, name, required);
            var names := Names(PropDefs(members, name, required)) + {"ws"};
            && Closed(PropDefs(members, name, required), names)
            && Refs(JoinParts(g.result.value)) <= names
    decreases members, 1
  {
    if members != [] {
      PropDefsStep(members, name, required);
      var child := ChildName(name, members[0].key);
      var head := Defs(members[0].value, child);
      var tail := PropDefs(members[1..], name, required);
      DefsClosed(members[0].value, child);
      PropDefsClosed(members[1..], name, required);
      NamesConcat(head, tail);
      var names := Names(head + tail) + {"ws"};
      ClosedConcat(head, tail, Names(head) + {"ws"}, Names(tail) + {"ws"}, names);
      var parts := GenProperties(members, name, required).result.value;
      var pair := PairGram(name, members[0].key, required);
      assert parts[0] == pair && parts[1..] == GenProperties(members[1..], name, required).result.value;
      RefsThen5(Lit("\\\"" + members[0].key + "\\\""), WS, Lit(":"), WS, Ref(child));
      assert Refs(pair) == {"ws", child};
      RefsJoin(parts);
    }
  }

  lemma RuleListNames(block: seq<Rule>, pushed: seq<Rule>)
    ensures Names(block + [WS_RULE] + pushed) == Names(pushed + block) + {"ws"}
  {
    NamesConcat(pushed, block);
    NamesConcat(block + [WS_RULE], pushed);
    NamesConcat(block, [WS_RULE]);
    assert [WS_RULE][0].name == "ws";
    assert Names([WS_RULE]) == {"ws"};
  }

  lemma RuleListClosed(block: seq<Rule>, pushed: seq<Rule>, names: set<string>)
    requires Closed(pushed + block, names)
    ensures Closed(block + [WS_RULE] + pushed, names)
  {
    hide Refs;
    var rules := block + [WS_RULE] + pushed;
    assert Refs(WS_RULE.body) == {} by { RefsOfSpace(); }
    forall i | 0 <= i < |rules| ensures Refs(rules[i].body) <= names {
      if i < |block| {
        assert rules[i] == (pushed + block)[|pushed| + i];
      } else if i > |block| {
        assert rules[i] == (pushed + block)[i - |block| - 1];
      }
    }
  }

  lemma RefsOfSpace()
    ensures Refs(WS_RULE.body) == {}
  {
    assert Refs(Chars(Blanks)) == {};
  }

  // For every schema that compiles: `root` is the first rule, and every nonterminal any rule uses is
  // defined in the list.
  lemma GrammarIsClosed(schema: Json)
    requires Compile(schema).Ok?
    ensures var rules := Compile(schema).value;
            rules != [] && rules[0].name == "root" && Closed(rules, Names(rules))
  {
    hide Compile, GenRule, Names, Closed, Flatten;
    CompiledRules(schema);
    OwnRuleFirst(schema, ROOT);
    DefsClosed(schema, ROOT);
    var block := GenRule(schema, ROOT).result.value;
    var pushed := Flatten(GenRule(schema, ROOT).pushed);
    RuleListNames(block, pushed);
    RuleListClosed(block, pushed, Names(pushed + block) + {"ws"});
  }
}
