// The compiler as it runs: recursion over the schema that pushes on one shared rule vector.
module SchemaCompilers {
  import opened Wrappers
  import opened Json
  import opened Grammar
  import opened SchemaModel

  class SchemaCompiler {
    var rules: seq<Block>

    constructor ()
      ensures rules == []
    {
      rules := [];
    }

    // json_schema_to_gbnf: `ws` first, the root rule inserted in front of everything at the end.
    method JsonSchemaToGbnf(schema: Json) returns (r: Result<seq<Rule>, string>)
      requires rules == []
      modifies this
      ensures r == Compile(schema)
    {
      rules := [[WS_RULE]];
      var root := GenerateRule(schema, ROOT);
      match root {
        case Err(e) => return Err(e);
        case Ok(block) =>
          rules := [block] + rules;
          assert rules == [block, [WS_RULE]] + GenRule(schema, ROOT).pushed;
          return Ok(Flatten(rules));
      }
    }

    method GenerateRule(schema: Json, name: string) returns (r: Result<Block, string>)
      modifies this
      ensures r == GenRule(schema, name).result
      ensures rules == old(rules) + GenRule(schema, name).pushed
      decreases schema, 2
    {
      if HasEnum(schema) {
        return Ok([Rule(name, Alternatives(ValueLiterals(Get(schema, "enum").value.items)))]);
      }
      if HasConst(schema) {
        return Ok([Rule(name, ValueLiteral(Get(schema, "const").value))]);
      }
      match SchemaKind(schema) {
        case KObject => r := GenerateObjectRule(schema, name);
        case KArray => r := GenerateArrayRule(schema, name);
        case KOther(other) => r := Err("Unsupported JSON Schema type: " + other);
        case kind => r := Ok([Rule(name, ScalarBody(kind))]);
      }
    }

    method GenerateObjectRule(schema: Json, name: string) returns (r: Result<Block, string>)
      modifies this
      ensures r == GenObject(schema, name).result
      ensures rules == old(rules) + GenObject(schema, name).pushed
      decreases schema, 1
    {
      hide GenRule, PairGram, ObjectBody, Required;
      var properties := Get(schema, "properties");
      if properties.None? {
        return Ok([Rule(name, ANY_OBJECT_BODY)] + SHARED_RULES);
      }
      if !properties.value.JObject? {
        return Err("properties must be an object");
      }
      var members := properties.value.members;
      var required := Required(schema);
      var parts: seq<Gram> := [];
      var i := 0;
      assert members[0..] == members;
      assert forall s: seq<Gram> :: parts + s == s;
      while i < |members|
        invariant i <= |members|
        invariant var rest := GenProperties(members[i..], name, required);
                  && old(rules) + GenProperties(members, name, required).pushed == rules + rest.pushed
                  && GenProperties(members, name, required).result
                     == if rest.result.Ok? then Ok(parts + rest.result.value) else rest.result
      {
        var key := members[i].key;
        assert members[i..][0] == members[i] && members[i..][1..] == members[i + 1..];
        var rule := GenerateRule(members[i].value, ChildName(name, key));
        if rule.Err? {
          return Err(rule.error);
        }
        rules := rules + [rule.value];
        assert forall s :: parts + ([PairGram(name, key, required)] + s) == parts + [PairGram(name, key, required)] + s;
        parts := parts + [PairGram(name, key, required)];
        i := i + 1;
      }
      assert members[i..] == [] && parts + [] == parts;
      return Ok([Rule(name, ObjectBody(parts))]);
    }

    method GenerateArrayRule(schema: Json, name: string) returns (r: Result<Block, string>)
      modifies this
      ensures r == GenArray(schema, name).result
      ensures rules == old(rules) + GenArray(schema, name).pushed
      decreases schema, 1
    {
      var item := ChildName(name, "item");
      var items := Get(schema, "items");
      if items.Some? {
        var rule := GenerateRule(items.value, item);
        if rule.Err? {
          return Err(rule.error);
        }
        rules := rules + [rule.value];
      } else {
        rules := rules + [[Rule(item, ANY_ITEM_BODY)]];
      }
      return Ok([Rule(name, ArrayBody(item))]);
    }
  }
}
