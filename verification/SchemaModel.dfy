// The JSON-Schema-to-GBNF compiler of crates/hivebear-inference/src/structured_output.rs as pure
// functions: the rule returned for a schema and the rules pushed on the shared list meanwhile.
module SchemaModel {
  import opened Wrappers
  import opened Json
  import opened Grammar

  // One entry of the rule vector. Only the entry for an object without `properties` holds more than
  // one rule.
  type Block = seq<Rule>

  // ---------------------------------------------------------------- fixed rule bodies

  function Alternatives(options: seq<Gram>): Gram {
    if options == [] then Eps
    else if |options| == 1 then options[0]
    else Or(options[0], Alternatives(options[1..]))
  }

  function Then3(a: Gram, b: Gram, c: Gram): Gram {
    Then(a, Then(b, c))
  }

  function Then5(a: Gram, b: Gram, c: Gram, d: Gram, e: Gram): Gram {
    Then(a, Then(b, Then3(c, d, e)))
  }

  function Or5(a: Gram, b: Gram, c: Gram, d: Gram, e: Gram): Gram {
    Or(a, Or(b, Or(c, Or(d, e))))
  }

  const ROOT := "root"
  const WS := Ref("ws")
  const QUOTE := Lit("\\\"")
  const STRING_BODY :=
    Then3(QUOTE, Star(Or(Chars(NotQuoteOrBackslash), Then(Lit("\\\\"), Chars(AnyChar)))), QUOTE)
  const INTEGER_BODY := Then(Opt(Lit("-")), Plus(Chars(Digits)))
  const FRACTION := Opt(Then(Lit("."), Plus(Chars(Digits))))
  const EXPONENT :=
    Opt(Then3(Or(Lit("e"), Lit("E")), Opt(Or(Lit("+"), Lit("-"))), Plus(Chars(Digits))))
  const NUMBER_BODY := Then(Opt(Lit("-")), Then3(Plus(Chars(Digits)), FRACTION, EXPONENT))
  const SHORT_NUMBER_BODY := Then3(Opt(Lit("-")), Plus(Chars(Digits)), FRACTION)
  const BOOLEAN_BODY := Or(Lit("true"), Lit("false"))
  const ANY_ITEM_BODY := Or5(STRING_BODY, INTEGER_BODY, Lit("true"), Lit("false"), Lit("null"))
  const WS_RULE := Rule("ws", Star(Chars(Blanks)))

  // The four shared rules an object without `properties` brings along.
  const PAIR_BODY := Then5(Ref("string"), WS, Lit(":"), WS, Ref("value"))
  const VALUE_BODY := Or5(Ref("string"), Ref("number"), Lit("true"), Lit("false"), Lit("null"))
  const SHARED_RULES: Block :=
    [Rule("pair", PAIR_BODY), Rule("value", VALUE_BODY), Rule("string", STRING_BODY), Rule("number", SHORT_NUMBER_BODY)]

  const ANY_OBJECT_BODY :=
    Then5(Lit("{"), WS,
          Opt(Then(Ref("pair"), Star(Then(WS, Then3(Lit(","), WS, Ref("pair")))))),
          WS, Lit("}"))

  // ---------------------------------------------------------------- literals of enum and const

  function ValueLiteral(v: Json): Gram {
    if v.JString? then Lit("\\\"" + v.s + "\\\"") else Lit(Print(v))
  }

  function ValueLiterals(values: seq<Json>): (r: seq<Gram>)
    ensures |r| == |values|
  {
    if values == [] then [] else [ValueLiteral(values[0])] + ValueLiterals(values[1..])
  }

  // ---------------------------------------------------------------- schema access

  function TypeName(schema: Json): string {
    match Get(schema, "type")
    case Some(JString(s)) => s
    case _ => "string"
  }

  // The type names the compiler knows.
  datatype Kind = KObject | KArray | KString | KNumber | KInteger | KBoolean | KNull | KOther(name: string)

  function KindOf(name: string): Kind {
    if name == "object" then KObject
    else if name == "array" then KArray
    else if name == "string" then KString
    else if name == "number" then KNumber
    else if name == "integer" then KInteger
    else if name == "boolean" then KBoolean
    else if name == "null" then KNull
    else KOther(name)
  }

  function SchemaKind(schema: Json): Kind {
    KindOf(TypeName(schema))
  }

  function Strings(items: seq<Json>): seq<string> {
    if items == [] then []
    else (if items[0].JString? then [items[0].s] else []) + Strings(items[1..])
  }

  function Required(schema: Json): seq<string> {
    match Get(schema, "required")
    case Some(JArray(items)) => Strings(items)
    case _ => []
  }

  predicate HasEnum(schema: Json) {
    Get(schema, "enum").Some? && Get(schema, "enum").value.JArray?
  }

  predicate HasConst(schema: Json) {
    Get(schema, "const").Some?
  }

  function ChildName(name: string, key: string): string {
    name + "-" + key
  }

  // ---------------------------------------------------------------- generation

  // What a call returns, and what it pushed on the vector before returning.
  datatype Gen<+T> = Gen(result: Result<T, string>, pushed: seq<Block>)

  function GenRule(schema: Json, name: string): Gen<Block>
    decreases schema, 2
  {
    if HasEnum(schema) then
      Gen(Ok([Rule(name, Alternatives(ValueLiterals(Get(schema, "enum").value.items)))]), [])
    else if HasConst(schema) then
      Gen(Ok([Rule(name, ValueLiteral(Get(schema, "const").value))]), [])
    else
      match SchemaKind(schema)
      case KObject => GenObject(schema, name)
      case KArray => GenArray(schema, name)
      case KOther(other) => Gen(Err("Unsupported JSON Schema type: " + other), [])
      case kind => Gen(Ok([Rule(name, ScalarBody(kind))]), [])
  }

  predicate IsScalar(kind: Kind) {
    !kind.KObject? && !kind.KArray? && !kind.KOther?
  }

  function ScalarBody(kind: Kind): Gram
    requires IsScalar(kind)
  {
    match kind
    case KString => STRING_BODY
    case KNumber => NUMBER_BODY
    case KInteger => INTEGER_BODY
    case KBoolean => BOOLEAN_BODY
    case KNull => Lit("null")
  }

  function GenObject(schema: Json, name: string): Gen<Block>
    decreases schema, 1
  {
    match Get(schema, "properties")
    case None => Gen(Ok([Rule(name, ANY_OBJECT_BODY)] + SHARED_RULES), [])
    case Some(JObject(members)) =>
      var g := GenProperties(members, name, Required(schema));
      (match g.result
       case Err(e) => Gen(Err(e), g.pushed)
       case Ok(parts) => Gen(Ok([Rule(name, ObjectBody(parts))]), g.pushed))
    case Some(_) => Gen(Err("properties must be an object"), [])
  }

  function PairGram(name: string, key: string, required: seq<string>): Gram {
    var pair := Then5(Lit("\\\"" + key + "\\\""), WS, Lit(":"), WS, Ref(ChildName(name, key)));
    if key in required then pair else Opt(pair)
  }

  // The property loop: one rule pushed and one part collected per property, up to the first error.
  function GenProperties(members: seq<Member>, name: string, required: seq<string>): Gen<seq<Gram>>
    decreases members, 0
  {
    if members == [] then Gen(Ok([]), [])
    else
      var own := GenRule(members[0].value, ChildName(name, members[0].key));
      match own.result
      case Err(e) => Gen(Err(e), own.pushed)
      case Ok(block) =>
        var rest := GenProperties(members[1..], name, required);
        var pushed := own.pushed + [block] + rest.pushed;
        match rest.result
        case Err(e) => Gen(Err(e), pushed)
        case Ok(parts) => Gen(Ok([PairGram(name, members[0].key, required)] + parts), pushed)
  }

  // parts.join(" ws \",\" ws ")
  function JoinParts(parts: seq<Gram>): Gram {
    if parts == [] then Eps
    else if |parts| == 1 then parts[0]
    else Then(parts[0], Then(WS, Then(Lit(","), Then(WS, JoinParts(parts[1..])))))
  }

  function ObjectBody(parts: seq<Gram>): Gram {
    Then5(Lit("{"), WS, JoinParts(parts), WS, Lit("}"))
  }

  function ArrayBody(item: string): Gram {
    Then5(Lit("["), WS,
          Opt(Then(Ref(item), Star(Then3(Lit(","), WS, Ref(item))))),
          WS, Lit("]"))
  }

  function GenArray(schema: Json, name: string): Gen<Block>
    decreases schema, 1
  {
    var item := ChildName(name, "item");
    match Get(schema, "items")
    case None => Gen(Ok([Rule(name, ArrayBody(item))]), [[Rule(item, ANY_ITEM_BODY)]])
    case Some(items) =>
      var g := GenRule(items, item);
      match g.result
      case Err(e) => Gen(Err(e), g.pushed)
      case Ok(block) => Gen(Ok([Rule(name, ArrayBody(item))]), g.pushed + [block])
  }

  // The rule vector of a whole compilation: the root entry, then `ws`, then the rest.
  function CompileBlocks(schema: Json): Result<seq<Block>, string> {
    var g := GenRule(schema, ROOT);
    match g.result
    case Err(e) => Err(e)
    case Ok(block) => Ok([block, [WS_RULE]] + g.pushed)
  }

  function Flatten(blocks: seq<Block>): seq<Rule> {
    if blocks == [] then [] else blocks[0] + Flatten(blocks[1..])
  }

  // The joined text, as the rules it lists.
  function Compile(schema: Json): Result<seq<Rule>, string> {
    match CompileBlocks(schema)
    case Err(e) => Err(e)
    case Ok(blocks) => Ok(Flatten(blocks))
  }
}
