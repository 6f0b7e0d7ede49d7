// The main theorem of the schema compiler.
module SchemaTheorems {
  import opened Json
  import opened Grammar
  import opened SchemaModel
  import opened SchemaNames
  import opened SchemaUniqueness
  import opened SchemaReading
  import opened SchemaMeaning

  // ---------------------------------------------------------------- shared rules agree

  function SharedBody(name: string): Gram
    requires IsShared(name)
  {
    if name == "pair" then PAIR_BODY
    else if name == "value" then VALUE_BODY
    else if name == "string" then STRING_BODY
    else SHORT_NUMBER_BODY
  }

  ghost predicate SharedAgree(rules: seq<Rule>) {
    forall i :: 0 <= i < |rules| && IsShared(rules[i].name) ==> rules[i].body == SharedBody(rules[i].name)
  }

  lemma SharedAgreeConcat(a: seq<Rule>, b: seq<Rule>)
    requires SharedAgree(a) && SharedAgree(b)
    ensures SharedAgree(a + b)
  {
    forall i | 0 <= i < |a + b| && IsShared((a + b)[i].name)
      ensures (a + b)[i].body == SharedBody((a + b)[i].name)
    {
      assert (a + b)[i] == if i < |a| then a[i] else b[i - |a|];
    }
  }

  lemma ChildIsNotShared(name: string, key: string)
    ensures !IsShared(ChildName(name, key))
  {
    var child := ChildName(name, key);
    assert child[|name|] == '-';
    if IsShared(child) {
      assert child[..|name|] == name;
      SharedNamesHaveNoHyphen(name, child);
    }
  }

  lemma OneRuleAgrees(name: string, body: Gram)
    requires !IsShared(name)
    ensures SharedAgree([Rule(name, body)])
  {
  }

  lemma SharedRulesAgree()
    ensures SharedAgree(SHARED_RULES)
  {
    var s := SHARED_RULES;
    assert s[0] == Rule("pair", PAIR_BODY) && s[1] == Rule("value", VALUE_BODY);
    assert s[2] == Rule("string", STRING_BODY) && s[3] == Rule("number", SHORT_NUMBER_BODY);
    forall i | 0 <= i < |s| && IsShared(s[i].name) ensures s[i].body == SharedBody(s[i].name) {
      assert i == 0 || i == 1 || i == 2 || i == 3;
    }
  }

  lemma {:induction false} DefsAgree(schema: Json, name: string)
    requires GenRule(schema, name).result.Ok? && !IsShared(name)
    ensures SharedAgree(Defs(schema, name))
    decreases schema, 1
  {
    hide GenRule, Defs, PropDefs;
    if IsObject(schema) {
      ObjectDefs(schema, name);
      if Get(schema, "properties").Some? {
        var members, required := Properties(schema), Required(schema);
        var body := ObjectBody(GenProperties(members, name, required).result.value);
        PropsAgree(members, name, required);
        OneRuleAgrees(name, body);
        SharedAgreeConcat(PropDefs(members, name, required), [Rule(name, body)]);
      } else {
        OneRuleAgrees(name, ANY_OBJECT_BODY);
        SharedRulesAgree();
        SharedAgreeConcat([Rule(name, ANY_OBJECT_BODY)], SHARED_RULES);
      }
    } else if IsArray(schema) {
      ArrayAgrees(schema, name);
    } else {
      OneRuleOnly(schema, name);
    }
  }

  lemma ArrayAgrees(schema: Json, name: string)
    requires IsArray(schema) && GenRule(schema, name).result.Ok? && !IsShared(name)
    ensures SharedAgree(Defs(schema, name))
    decreases schema, 0
  {
    hide GenRule, Defs, SharedAgree, ArrayBody, IsShared;
    ArrayDefs(schema, name);
    var item := ChildName(name, "item");
    ChildIsNotShared(name, "item");
    OneRuleAgrees(name, ArrayBody(item));
    match Get(schema, "items")
    case None =>
      OneRuleAgrees(item, ANY_ITEM_BODY);
      SharedAgreeConcat([Rule(item, ANY_ITEM_BODY)], [Rule(name, ArrayBody(item))]);
      assert Defs(schema, name) == [Rule(item, ANY_ITEM_BODY)] + [Rule(name, ArrayBody(item))];
    case Some(items) =>
      DefsAgree(items, item);
      SharedAgreeConcat(Defs(items, item), [Rule(name, ArrayBody(item))]);
  }

  lemma {:induction false} PropsAgree(members: seq<Member>, name: string, required: seq<string>)
    requires GenProperties(members, name, required).result.Ok?
    ensures SharedAgree(PropDefs(members, name, required))
    decreases members, 0
  {
    if members != [] {
      PropDefsStep(members, name, required);
      var child := ChildName(name, members[0].key);
      ChildIsNotShared(name, members[0].key);
      DefsAgree(members[0].value, child);
      PropsAgree(members[1..], name, required);
      SharedAgreeConcat(Defs(members[0].value, child), PropDefs(members[1..], name, required));
    }
  }

  // ---------------------------------------------------------------- every name resolves

  lemma RulesOfSameName(schema: Json, i: nat, j: nat)
    requires Compile(schema).Ok? && PathsDistinct(schema)
    requires i < |Compile(schema).value| && j < |Compile(schema).value|
    requires Compile(schema).value[i].name == Compile(schema).value[j].name
    ensures Compile(schema).value[i].body == Compile(schema).value[j].body
  {
    hide Compile, GenRule;
    var rules := Compile(schema).value;
    var x := rules[i].name;
    if IsShared(x) {
      CompiledAgree(schema);
    } else {
      CompiledCounts(schema, x);
      AtMostOnce(NodePaths(schema, ROOT), x);
      if i < j {
        OccurrencesAtLeastTwo(rules, i, j);
      } else if j < i {
        OccurrencesAtLeastTwo(rules, j, i);
      }
    }
  }

  lemma CompiledAgree(schema: Json)
    requires Compile(schema).Ok?
    ensures SharedAgree(Compile(schema).value)
  {
    hide Compile, GenRule;
    CompiledRules(schema);
    var block := GenRule(schema, ROOT).result.value;
    var pushed := Flatten(GenRule(schema, ROOT).pushed);
    DefsAgree(schema, ROOT);
    var defs := Defs(schema, ROOT);
    assert forall i :: 0 <= i < |block| ==> block[i] == defs[|pushed| + i];
    assert forall i :: 0 <= i < |pushed| ==> pushed[i] == defs[i];
    OneRuleAgrees("ws", WS_RULE.body);
    SharedAgreeConcat(block, [WS_RULE]);
    SharedAgreeConcat(block + [WS_RULE], pushed);
  }

  lemma Rearranged(block: seq<Rule>, pushed: seq<Rule>, i: nat) returns (k: nat)
    requires i < |pushed + block|
    ensures k < |block + [WS_RULE] + pushed| && (block + [WS_RULE] + pushed)[k] == (pushed + block)[i]
  {
    k := if i < |pushed| then |block| + 1 + i else i - |pushed|;
  }

  lemma AllNamesResolve(schema: Json)
    requires Compile(schema).Ok? && PathsDistinct(schema)
    ensures GenRule(schema, ROOT).result.Ok?
    ensures WS_RULE in Resolved(Compile(schema).value)
    ensures AllResolved(Compile(schema).value, Defs(schema, ROOT))
  {
    hide Compile, GenRule, Resolved, Den, PathsDistinct, Flatten;
    CompiledRules(schema);
    var rules := Compile(schema).value;
    var block := GenRule(schema, ROOT).result.value;
    var pushed := Flatten(GenRule(schema, ROOT).pushed);
    var defs := Defs(schema, ROOT);
    RuleResolves(schema, |block|);
    assert rules[|block|] == WS_RULE;
    forall i: nat | i < |defs| ensures defs[i] in Resolved(rules) {
      var k := Rearranged(block, pushed, i);
      RuleResolves(schema, k);
    }
  }

  lemma RuleResolves(schema: Json, k: nat)
    requires Compile(schema).Ok? && PathsDistinct(schema) && k < |Compile(schema).value|
    ensures Compile(schema).value[k] in Resolved(Compile(schema).value)
  {
    hide Compile, GenRule, Resolved, Den, PathsDistinct;
    var rules := Compile(schema).value;
    forall i: nat | i < |rules| && rules[i].name == rules[k].name ensures rules[i].body == rules[k].body {
      RulesOfSameName(schema, i, k);
    }
    DefinedIsResolved(rules, rules[k]);
  }

  // ---------------------------------------------------------------- the theorem

  // For every schema that compiles and whose nodes have distinct paths, the words derivable from `root`
  // are exactly those of the derived reading, whatever its names and literals are.
  lemma LanguageIsDerived(schema: Json)
    requires Compile(schema).Ok? && PathsDistinct(schema)
    ensures Language(Compile(schema).value, "root") == Derived(schema)
  {
    hide GenRule, Derived, Den, Resolved, PathsDistinct;
    var rules := Compile(schema).value;
    AllNamesResolve(schema);
    forall depth: nat | Height(schema) <= depth ensures Den(rules, depth, Ref(ROOT)) == Derived(schema) {
      NodeDerives(rules, schema, ROOT, depth);
    }
    LanguageSettles(rules, ROOT, Height(schema), Derived(schema));
  }

  // For every schema whose names and literals need no escaping and whose nodes have distinct paths,
  // compilation succeeds and the words derivable from `root` are exactly the words of the direct
  // reading - with an empty enum read as the empty text, and all commas kept.
  lemma CompilationPreservesMeaning(schema: Json)
    requires Expressible(schema) && PathsDistinct(schema)
    ensures Compile(schema).Ok?
    ensures Language(Compile(schema).value, "root") == Reading(schema, EMITTED)
  {
    hide GenRule, Reading, Derived, Language, PathsDistinct, Expressible;
    ExpressibleCompiles(schema, ROOT);
    LanguageIsDerived(schema);
    DerivedIsReading(schema);
  }
}
