// How often each rule name is defined: once for every schema node whose path, joined with '-', spells
// it, and the four shared names once for every object without `properties`.
module SchemaUniqueness {
  import opened Text
  import opened Json
  import opened Grammar
  import opened SchemaModel
  import opened SchemaNames

  function Occurrences(rules: seq<Rule>, name: string): nat {
    if rules == [] then 0
    else (if rules[0].name == name then 1 else 0) + Occurrences(rules[1..], name)
  }

  lemma OccurrencesConcat(a: seq<Rule>, b: seq<Rule>, name: string)
    ensures Occurrences(a + b, name) == Occurrences(a, name) + Occurrences(b, name)
  {
    if a == [] {
      assert a + b == b;
    } else {
      assert (a + b)[1..] == a[1..] + b;
      OccurrencesConcat(a[1..], b, name);
    }
  }

  lemma OccurrencesOne(rule: Rule, name: string)
    ensures Occurrences([rule], name) == if rule.name == name then 1 else 0
  {
    assert [rule][1..] == [];
  }

  predicate IsShared(name: string) {
    name == "pair" || name == "value" || name == "string" || name == "number"
  }

  lemma SharedOccurrences(name: string)
    ensures Occurrences(SHARED_RULES, name) == if IsShared(name) then 1 else 0
  {
    var pair, value := Rule("pair", PAIR_BODY), Rule("value", VALUE_BODY);
    var text, number := Rule("string", STRING_BODY), Rule("number", SHORT_NUMBER_BODY);
    assert SHARED_RULES == [pair] + ([value] + ([text] + [number]));
    OccurrencesConcat([pair], [value] + ([text] + [number]), name);
    OccurrencesConcat([value], [text] + [number], name);
    OccurrencesConcat([text], [number], name);
    OccurrencesOne(pair, name);
    OccurrencesOne(value, name);
    OccurrencesOne(text, name);
    OccurrencesOne(number, name);
  }

  // ---------------------------------------------------------------- paths

  // x names a node strictly below the node called `name`.
  predicate Below(name: string, x: string) {
    |x| > |name| && x[..|name|] == name && x[|name|] == '-'
  }

  // The property name right below `name` on the path x.
  function NextKey(name: string, x: string): string
    requires Below(name, x)
  {
    var rest := x[|name| + 1..];
    rest[..FindAny(rest, {'-'})]
  }

  lemma NextKeyOfChild(name: string, key: string, x: string)
    requires '-' !in key
    requires x == ChildName(name, key) || Below(ChildName(name, key), x)
    ensures Below(name, x) && NextKey(name, x) == key
  {
    var child := ChildName(name, key);
    assert child[..|name|] == name && child[|name|] == '-';
    assert x[..|child|] == child;
    assert x[..|name|] == x[..|child|][..|name|];
    assert x[|name|] == x[..|child|][|name|];
    var rest := x[|name| + 1..];
    assert rest[..|key|] == x[..|child|][|name| + 1..] == key;
    assert forall k :: 0 <= k < |key| ==> rest[k] == key[k];
    assert |rest| > |key| ==> rest[|key|] == x[|child|];
    assert FindAny(rest, {'-'}) == |key|;
  }

  lemma SharedNamesHaveNoHyphen(name: string, x: string)
    requires IsShared(x)
    ensures !Below(name, x)
  {
    if x == "pair" { assert '-' !in "pair"; }
    if x == "value" { assert '-' !in "value"; }
    if x == "string" { assert '-' !in "string"; }
    if x == "number" { assert '-' !in "number"; }
  }

  // ---------------------------------------------------------------- schemas

  // Property names the compiler reads contain no '-'.
  predicate HyphenFree(schema: Json)
    decreases schema, 1
  {
    if IsObject(schema) then
      (match Get(schema, "properties")
       case Some(JObject(members)) => DistinctKeys(members) && HyphenFreeMembers(members)
       case _ => true)
    else if IsArray(schema) then
      (match Get(schema, "items")
       case Some(items) => HyphenFree(items)
       case None => true)
    else true
  }

  predicate HyphenFreeMembers(members: seq<Member>)
    decreases members, 0
  {
    members == [] || ('-' !in members[0].key && HyphenFree(members[0].value) && HyphenFreeMembers(members[1..]))
  }

  // Number of objects without `properties` that the compiler reads.
  function OpenObjects(schema: Json): nat
    decreases schema, 1
  {
    if IsObject(schema) then
      (match Get(schema, "properties")
       case None => 1
       case Some(JObject(members)) => OpenObjectsIn(members)
       case _ => 0)
    else if IsArray(schema) then
      (match Get(schema, "items")
       case Some(items) => OpenObjects(items)
       case None => 0)
    else 0
  }

  function OpenObjectsIn(members: seq<Member>): nat
    decreases members, 0
  {
    if members == [] then 0 else OpenObjects(members[0].value) + OpenObjectsIn(members[1..])
  }

  // ---------------------------------------------------------------- node paths

  // The names of all nodes the compiler visits: the property names on the way, joined with '-'.
  function NodePaths(schema: Json, name: string): seq<string>
    decreases schema, 1
  {
    [name]
    + if IsObject(schema) then
        (match Get(schema, "properties")
         case Some(JObject(members)) => PropPaths(members, name)
         case _ => [])
      else if IsArray(schema) then
        (match Get(schema, "items")
         case Some(items) => NodePaths(items, ChildName(name, "item"))
         case None => [ChildName(name, "item")])
      else []
  }

  function PropPaths(members: seq<Member>, name: string): seq<string>
    decreases members, 0
  {
    if members == [] then []
    else NodePaths(members[0].value, ChildName(name, members[0].key)) + PropPaths(members[1..], name)
  }

  predicate NoDuplicates(paths: seq<string>) {
    forall i, j :: 0 <= i < j < |paths| ==> paths[i] != paths[j]
  }

  predicate PathsDistinct(schema: Json) {
    NoDuplicates(NodePaths(schema, ROOT))
  }

  lemma {:induction false} NoDuplicatesIff(paths: seq<string>)
    ensures NoDuplicates(paths) <==> forall x :: multiset(paths)[x] <= 1
  {
    if NoDuplicates(paths) {
      forall x ensures multiset(paths)[x] <= 1 {
        AtMostOnce(paths, x);
      }
    } else {
      var i, j :| 0 <= i < j < |paths| && paths[i] == paths[j];
      Twice(paths, i, j);
    }
  }

  lemma {:induction false} AtMostOnce(paths: seq<string>, x: string)
    requires NoDuplicates(paths)
    ensures multiset(paths)[x] <= 1
  {
    if paths != [] {
      var init, last := paths[..|paths| - 1], paths[|paths| - 1];
      AtMostOnce(init, x);
      assert paths == init + [last];
      assert last !in init;
    }
  }

  lemma Twice(paths: seq<string>, i: nat, j: nat)
    requires i < j < |paths| && paths[i] == paths[j]
    ensures multiset(paths)[paths[i]] >= 2
  {
    assert paths == paths[..j] + [paths[j]] + paths[j + 1..];
    assert paths[i] in paths[..j];
  }

  // ---------------------------------------------------------------- counting

  function SharedCount(schema: Json, x: string): nat {
    if IsShared(x) then OpenObjects(schema) else 0
  }

  // Every node defines its path once; every open object defines the shared names once.
  lemma {:induction false} DefsCounted(schema: Json, name: string, x: string)
    requires GenRule(schema, name).result.Ok?
    ensures Occurrences(Defs(schema, name), x) == multiset(NodePaths(schema, name))[x] + SharedCount(schema, x)
    decreases schema, 1
  {
    if IsObject(schema) {
      ObjectCounted(schema, name, x);
    } else if IsArray(schema) {
      ArrayCounted(schema, name, x);
    } else {
      OneRuleOnly(schema, name);
      OccurrencesOne(Defs(schema, name)[0], x);
    }
  }

  lemma ObjectCounted(schema: Json, name: string, x: string)
    requires IsObject(schema) && GenRule(schema, name).result.Ok?
    ensures Occurrences(Defs(schema, name), x) == multiset(NodePaths(schema, name))[x] + SharedCount(schema, x)
    decreases schema, 0
  {
    hide GenRule, Occurrences, Defs, PropDefs;
    ObjectDefs(schema, name);
    if Get(schema, "properties").Some? {
      var members, required := Properties(schema), Required(schema);
      var parts := GenProperties(members, name, required).result.value;
      PropsCounted(members, name, required, x);
      var own := Rule(name, ObjectBody(parts));
      OccurrencesConcat(PropDefs(members, name, required), [own], x);
      OccurrencesOne(own, x);
    } else {
      OccurrencesConcat([Rule(name, ANY_OBJECT_BODY)], SHARED_RULES, x);
      OccurrencesOne(Rule(name, ANY_OBJECT_BODY), x);
      SharedOccurrences(x);
    }
  }

  lemma ArrayPaths(schema: Json, name: string)
    requires IsArray(schema)
    ensures var item := ChildName(name, "item");
            NodePaths(schema, name)
            == [name] + match Get(schema, "items") case Some(items) => NodePaths(items, item) case None => [item]
    ensures OpenObjects(schema) == match Get(schema, "items") case Some(items) => OpenObjects(items) case None => 0
  {
  }

  lemma ArrayCounted(schema: Json, name: string, x: string)
    requires IsArray(schema) && GenRule(schema, name).result.Ok?
    ensures Occurrences(Defs(schema, name), x) == multiset(NodePaths(schema, name))[x] + SharedCount(schema, x)
    decreases schema, 0
  {
    hide GenRule, Occurrences, Defs, NodePaths, ArrayBody;
    ArrayDefs(schema, name);
    ArrayPaths(schema, name);
    var item := ChildName(name, "item");
    var own := Rule(name, ArrayBody(item));
    OccurrencesOne(own, x);
    match Get(schema, "items")
    case None =>
      OccurrencesConcat([Rule(item, ANY_ITEM_BODY)], [own], x);
      assert Defs(schema, name) == [Rule(item, ANY_ITEM_BODY)] + [own];
      OccurrencesOne(Rule(item, ANY_ITEM_BODY), x);
    case Some(items) =>
      DefsCounted(items, item, x);
      OccurrencesConcat(Defs(items, item), [own], x);
  }

  lemma OneRuleOnly(schema: Json, name: string)
    requires IsLeaf(schema) && GenRule(schema, name).result.Ok?
    ensures |Defs(schema, name)| == 1 && Defs(schema, name)[0].name == name
    ensures Defs(schema, name) == [Defs(schema, name)[0]]
  {
  }

  lemma {:induction false} PropsCounted(members: seq<Member>, name: string, required: seq<string>, x: string)
    requires GenProperties(members, name, required).result.Ok?
    ensures Occurrences(PropDefs(members, name, required), x)
            == multiset(PropPaths(members, name))[x] + if IsShared(x) then OpenObjectsIn(members) else 0
    decreases members, 0
  {
    if members != [] {
      hide GenRule, Occurrences, Defs, PropDefs;
      PropDefsStep(members, name, required);
      var child := ChildName(name, members[0].key);
      DefsCounted(members[0].value, child, x);
      PropsCounted(members[1..], name, required, x);
      OccurrencesConcat(Defs(members[0].value, child), PropDefs(members[1..], name, required), x);
    } else {
      assert PropDefs(members, name, required) == [];
    }
  }

  lemma OccurrencesDrop(rules: seq<Rule>, x: string)
    requires rules != []
    ensures Occurrences(rules, x) == (if rules[0].name == x then 1 else 0) + Occurrences(rules[1..], x)
  {
  }

  lemma OccurrencesAtLeast(rules: seq<Rule>, i: nat)
    requires i < |rules|
    ensures Occurrences(rules, rules[i].name) >= 1
  {
    hide Occurrences;
    OccurrencesDrop(rules, rules[i].name);
    if i > 0 {
      assert rules[1..][i - 1] == rules[i];
      OccurrencesAtLeast(rules[1..], i - 1);
    }
  }

  lemma OccurrencesAtLeastTwo(rules: seq<Rule>, i: nat, j: nat)
    requires i < j < |rules| && rules[i].name == rules[j].name
    ensures Occurrences(rules, rules[i].name) >= 2
  {
    hide Occurrences;
    OccurrencesDrop(rules, rules[i].name);
    assert rules[1..][j - 1] == rules[j];
    if i > 0 {
      assert rules[1..][i - 1] == rules[i];
      OccurrencesAtLeastTwo(rules[1..], i - 1, j - 1);
    } else {
      OccurrencesAtLeast(rules[1..], j - 1);
    }
  }

  lemma BelowIsTransitive(name: string, child: string, x: string)
    requires Below(name, child) && (x == child || Below(child, x))
    ensures Below(name, x)
  {
    if x != child {
      assert x[..|name|] == x[..|child|][..|name|];
      assert x[|name|] == x[..|child|][|name|];
    }
  }

  lemma ChildBelow(name: string, key: string)
    ensures Below(name, ChildName(name, key))
  {
    var child := ChildName(name, key);
    assert child[..|name|] == name && child[|name|] == '-';
  }

  // All paths lie at or below the node's own name.
  lemma {:induction false} PathsBelow(schema: Json, name: string, x: string)
    requires x in NodePaths(schema, name)
    ensures x == name || Below(name, x)
    decreases schema, 1
  {
    hide Below;
    if x != name {
      ChildBelow(name, "item");
      if IsObject(schema) {
        PropPathsBelow(Properties(schema), name, x);
      } else if IsArray(schema) && Get(schema, "items").Some? {
        PathsBelow(Get(schema, "items").value, ChildName(name, "item"), x);
        BelowIsTransitive(name, ChildName(name, "item"), x);
      }
    }
  }

  lemma {:induction false} PropPathsBelow(members: seq<Member>, name: string, x: string)
    requires x in PropPaths(members, name)
    ensures Below(name, x)
    decreases members, 0
  {
    hide Below;
    var child := ChildName(name, members[0].key);
    if x in NodePaths(members[0].value, child) {
      ChildBelow(name, members[0].key);
      PathsBelow(members[0].value, child, x);
      BelowIsTransitive(name, child, x);
    } else {
      PropPathsBelow(members[1..], name, x);
    }
  }

  // No node of a schema is named like a shared rule or like `ws`.
  lemma RootPathsAreOwn(schema: Json, x: string)
    requires IsShared(x) || x == "ws"
    ensures x !in NodePaths(schema, ROOT)
  {
    if x in NodePaths(schema, ROOT) {
      PathsBelow(schema, ROOT, x);
      if IsShared(x) {
        SharedNamesHaveNoHyphen(ROOT, x);
      }
    }
  }

  // How often the whole rule list defines any name.
  lemma CompiledCounts(schema: Json, x: string)
    requires Compile(schema).Ok?
    ensures Occurrences(Compile(schema).value, x)
            == if x == "ws" then 1
               else if IsShared(x) then OpenObjects(schema)
               else multiset(NodePaths(schema, ROOT))[x]
  {
    hide Compile, GenRule, Flatten, Occurrences, NodePaths, IsShared, OpenObjects;
    CompiledRules(schema);
    DefsCounted(schema, ROOT, x);
    var block := GenRule(schema, ROOT).result.value;
    var pushed := Flatten(GenRule(schema, ROOT).pushed);
    OccurrencesConcat(pushed, block, x);
    OccurrencesConcat(block + [WS_RULE], pushed, x);
    OccurrencesConcat(block, [WS_RULE], x);
    OccurrencesOne(WS_RULE, x);
    WsIsNotShared();
    if IsShared(x) || x == "ws" {
      RootPathsAreOwn(schema, x);
    }
  }

  lemma WsIsNotShared()
    ensures !IsShared("ws")
  {
  }

  lemma IsDefined(rules: seq<Rule>, x: string)
    requires Occurrences(rules, x) >= 1
    ensures exists i :: 0 <= i < |rules| && rules[i].name == x
  {
    if rules[0].name != x {
      IsDefined(rules[1..], x);
      var i :| 0 <= i < |rules[1..]| && rules[1..][i].name == x;
      assert rules[i + 1].name == x;
    }
  }

  ghost predicate EachDefinedOnce(rules: seq<Rule>) {
    forall i :: 0 <= i < |rules| ==> Occurrences(rules, rules[i].name) == 1
  }

  lemma TwiceDefined(rules: seq<Rule>, x: string)
    requires Occurrences(rules, x) > 1
    ensures !EachDefinedOnce(rules)
  {
    IsDefined(rules, x);
  }

  // Every nonterminal is defined exactly once if and only if the paths of the schema's nodes are
  // pairwise distinct and at most one object lacks `properties`.
  lemma DefinedExactlyOnce(schema: Json)
    requires Compile(schema).Ok?
    ensures EachDefinedOnce(Compile(schema).value) <==> PathsDistinct(schema) && OpenObjects(schema) <= 1
  {
    hide Compile, Occurrences, NodePaths, OpenObjects;
    var rules := Compile(schema).value;
    NoDuplicatesIff(NodePaths(schema, ROOT));
    if PathsDistinct(schema) && OpenObjects(schema) <= 1 {
      forall i | 0 <= i < |rules| ensures Occurrences(rules, rules[i].name) == 1 {
        OccurrencesAtLeast(rules, i);
        CompiledCounts(schema, rules[i].name);
      }
    }
    if OpenObjects(schema) > 1 {
      CompiledCounts(schema, "pair");
      TwiceDefined(rules, "pair");
    }
    if !PathsDistinct(schema) {
      var x :| multiset(NodePaths(schema, ROOT))[x] > 1;
      if IsShared(x) || x == "ws" {
        RootPathsAreOwn(schema, x);
      }
      CompiledCounts(schema, x);
      TwiceDefined(rules, x);
    }
  }

  // ---------------------------------------------------------------- hyphen-free names

  ghost predicate KeyAmong(members: seq<Member>, key: string) {
    exists i :: 0 <= i < |members| && members[i].key == key
  }

  // Joining hyphen-free property names is injective.
  lemma HyphenFreePathsAreDistinct(schema: Json)
    requires HyphenFree(schema)
    ensures PathsDistinct(schema)
  {
    forall x ensures multiset(NodePaths(schema, ROOT))[x] <= 1 {
      PathsOnce(schema, ROOT, x);
    }
    NoDuplicatesIff(NodePaths(schema, ROOT));
  }

  lemma {:induction false} PathsOnce(schema: Json, name: string, x: string)
    requires HyphenFree(schema)
    ensures multiset(NodePaths(schema, name))[x] <= 1
    decreases schema, 1
  {
    hide Below;
    ChildBelow(name, "item");
    NotBelowItself(name);
    if IsObject(schema) {
      if Get(schema, "properties").Some? && Get(schema, "properties").value.JObject? {
        PropPathsOnce(Properties(schema), name, x);
        if x in PropPaths(Properties(schema), name) {
          PropPathsBelow(Properties(schema), name, x);
        }
      }
    } else if IsArray(schema) && Get(schema, "items").Some? {
      var items, item := Get(schema, "items").value, ChildName(name, "item");
      PathsOnce(items, item, x);
      if x in NodePaths(items, item) {
        PathsBelow(items, item, x);
        BelowIsTransitive(name, item, x);
      }
    }
  }

  lemma NotBelowItself(name: string)
    ensures !Below(name, name)
  {
  }

  lemma {:induction false} PropPathsOnce(members: seq<Member>, name: string, x: string)
    requires DistinctKeys(members) && HyphenFreeMembers(members)
    ensures multiset(PropPaths(members, name))[x] <= 1
    ensures x in PropPaths(members, name) ==> Below(name, x) && KeyAmong(members, NextKey(name, x))
    decreases members, 0
  {
    if members != [] {
      var key, rest := members[0].key, members[1..];
      var child := ChildName(name, key);
      PathsOnce(members[0].value, child, x);
      PropPathsOnce(rest, name, x);
      if x in NodePaths(members[0].value, child) {
        PathsBelow(members[0].value, child, x);
        NextKeyOfChild(name, key, x);
        assert members[0].key == NextKey(name, x);
      }
      if x in PropPaths(rest, name) {
        var i :| 0 <= i < |rest| && rest[i].key == NextKey(name, x);
        assert members[i + 1].key == NextKey(name, x);
      }
    }
  }
}
