// What a schema stands for: a direct recursive reading, in the style of the emitted grammar or in
// styles one would rather have.
module SchemaReading {
  import opened Text
  import opened Json
  import opened Grammar
  import opened SchemaModel
  import opened Languages

  // ---------------------------------------------------------------- the direct reading

  // An enum or const value: strings between quotes as they stand, other values as compact JSON.
  function ValueText(v: Json): string {
    if v.JString? then "\"" + v.s + "\"" else Print(v)
  }

  // Strings are put between quotes without escaping: that is their JSON text exactly when nothing in
  // them needs an escape.
  lemma ValueTextIsJsonIff(v: Json)
    ensures ValueText(v) == Print(v) <==> (v.JString? ==> forall i :: 0 <= i < |v.s| ==> PlainChar(v.s[i]))
  {
    if v.JString? {
      EscapeIsIdentity(v.s);
      var quoted, printed := "\"" + v.s + "\"", "\"" + Escape(v.s) + "\"";
      assert quoted[1..|quoted| - 1] == v.s && printed[1..|printed| - 1] == Escape(v.s);
    }
  }

  ghost function OneOf(values: seq<Json>): Lang {
    iset i: nat | i < |values| :: ValueText(values[i])
  }

  ghost function Comma(): Lang {
    Cat(Word(","), Blank())
  }

  ghost function SpacedComma(): Lang {
    Cat(Blank(), Comma())
  }

  ghost function Enclosed(open: string, inner: Lang, close: string): Lang {
    Cat(Word(open), Cat(Blank(), Cat(inner, Cat(Blank(), Word(close)))))
  }

  ghost function AnyItem(): Lang {
    StringToken() + (IntegerToken() + Keywords())
  }

  ghost function AnyPair(): Lang {
    Cat(StringToken(), Cat(Blank(), Cat(Word(":"), Cat(Blank(), StringToken() + (ShortNumberToken() + Keywords())))))
  }

  ghost function ScalarReading(kind: Kind): Lang
    requires IsScalar(kind)
  {
    match kind
    case KString => StringToken()
    case KNumber => NumberToken()
    case KInteger => IntegerToken()
    case KBoolean => BooleanToken()
    case KNull => Word("null")
  }

  // ---------------------------------------------------------------- tokens as JSON spells them

  predicate IsHex(c: char) {
    '0' <= c <= '9' || 'a' <= c <= 'f' || 'A' <= c <= 'F'
  }

  predicate IsEscaped(c: char) {
    c == '"' || c == '\\' || c == '/' || c == 'b' || c == 'f' || c == 'n' || c == 'r' || c == 't'
  }

  // Between the quotes of a string (RFC 8259, section 7): no bare character below U+0020, and only the
  // named escapes.
  predicate JsonInner(w: string) {
    || w == ""
    || (PlainChar(w[0]) && JsonInner(w[1..]))
    || (w[0] == '\\' && |w| >= 2 && IsEscaped(w[1]) && JsonInner(w[2..]))
    || (w[0] == '\\' && |w| >= 6 && w[1] == 'u'
        && IsHex(w[2]) && IsHex(w[3]) && IsHex(w[4]) && IsHex(w[5]) && JsonInner(w[6..]))
  }

  predicate IsJsonString(w: string) {
    |w| >= 2 && w[0] == '"' && w[|w| - 1] == '"' && JsonInner(w[1..|w| - 1])
  }

  ghost function JsonString(): Lang {
    iset w: string | IsJsonString(w) :: w
  }

  // No leading zero (RFC 8259, section 6).
  predicate IsJsonInt(w: string) {
    w != "" && AllDigits(w) && (|w| == 1 || w[0] != '0')
  }

  ghost function JsonInt(): Lang {
    iset w: string | IsJsonInt(w) :: w
  }

  ghost function JsonInteger(): Lang {
    Cat(Maybe(Word("-")), JsonInt())
  }

  ghost function JsonNumber(): Lang {
    Cat(Maybe(Word("-")), Cat(JsonInt(), Cat(Fraction(), Exponent())))
  }

  ghost function JsonShortNumber(): Lang {
    Cat(Maybe(Word("-")), Cat(JsonInt(), Fraction()))
  }

  ghost function JsonScalar(kind: Kind): Lang
    requires IsScalar(kind)
  {
    match kind
    case KString => JsonString()
    case KNumber => JsonNumber()
    case KInteger => JsonInteger()
    case KBoolean => BooleanToken()
    case KNull => Word("null")
  }

  // The choices the grammar gives where the schema leaves items or pairs open.
  ghost function JsonItem(): Lang {
    JsonString() + (JsonInteger() + Keywords())
  }

  ghost function JsonOpenValue(): Lang {
    JsonString() + (JsonShortNumber() + Keywords())
  }

  // A name, a colon and a value.
  ghost function NamedOf(value: Lang): Lang {
    Cat(JsonString(), Cat(Blank(), Cat(Word(":"), Cat(Blank(), value))))
  }

  ghost function JsonPair(): Lang {
    NamedOf(JsonOpenValue())
  }

  ghost function Printed(values: seq<Json>): Lang {
    iset i: nat | i < |values| :: Print(values[i])
  }

  // ---------------------------------------------------------------- styles of reading

  // How a schema is read.
  datatype Style = Style(
    blankForEmptyEnum: bool,    // an empty enum stands for the empty text rather than for nothing
    keepCommas: bool,           // the commas around an omitted pair stay
    rawTokens: bool)            // strings, numbers and literals as the grammar spells them, not as JSON does

  // What the emitted grammar does.
  const EMITTED := Style(true, true, true)

  ghost function Choices(values: seq<Json>, style: Style): Lang {
    if values == [] && style.blankForEmptyEnum then Word("")
    else if style.rawTokens then OneOf(values)
    else Printed(values)
  }

  function Literal(v: Json, style: Style): string {
    if style.rawTokens then ValueText(v) else Print(v)
  }

  function KeyText(key: string, style: Style): string {
    "\"" + (if style.rawTokens then key else Escape(key)) + "\""
  }

  ghost function ScalarIn(kind: Kind, style: Style): Lang
    requires IsScalar(kind)
  {
    if style.rawTokens then ScalarReading(kind) else JsonScalar(kind)
  }

  ghost function ItemIn(style: Style): Lang {
    if style.rawTokens then AnyItem() else JsonItem()
  }

  ghost function OpenPairIn(style: Style): Lang {
    if style.rawTokens then AnyPair() else JsonPair()
  }

  // The words a schema stands for.
  ghost function Reading(schema: Json, style: Style): Lang
    decreases schema, 2
  {
    if HasEnum(schema) then Choices(Get(schema, "enum").value.items, style)
    else if HasConst(schema) then Word(Literal(Get(schema, "const").value, style))
    else if SchemaKind(schema) == KObject then
      (match Get(schema, "properties")
       case None => Enclosed("{", Maybe(ListOf(OpenPairIn(style), SpacedComma())), "}")
       case Some(JObject(members)) => Enclosed("{", MembersReading(members, Required(schema), style), "}")
       case Some(_) => iset{})
    else if SchemaKind(schema) == KArray then
      (match Get(schema, "items")
       case None => Enclosed("[", Maybe(ListOf(ItemIn(style), Comma())), "]")
       case Some(items) => Enclosed("[", Maybe(ListOf(Reading(items, style), Comma())), "]"))
    else if IsScalar(SchemaKind(schema)) then ScalarIn(SchemaKind(schema), style)
    else iset{}
  }

  // "key" : value, with the value read by its own subschema.
  ghost function PairReading(m: Member, style: Style): Lang
    decreases m, 0
  {
    Cat(Word(KeyText(m.key, style)), Cat(Blank(), Cat(Word(":"), Cat(Blank(), Reading(m.value, style)))))
  }

  predicate NoneRequired(members: seq<Member>, required: seq<string>) {
    forall i :: 0 <= i < |members| ==> members[i].key !in required
  }

  ghost function MembersReading(members: seq<Member>, required: seq<string>, style: Style): Lang
    decreases members, 1
  {
    if style.keepCommas then CommasKept(members, required, style)
    else if NoneRequired(members, required) then Maybe(Selected(members, required, style))
    else Selected(members, required, style)
  }

  // One text and the next with a comma between.
  ghost function Separated(first: Lang, next: Lang): Lang {
    Cat(first, Cat(Blank(), Cat(Word(","), Cat(Blank(), next))))
  }

  // The declared pairs in iteration order with commas between neighbours. A pair that is not required
  // may be blank, but the commas around it stay.
  ghost function CommasKept(members: seq<Member>, required: seq<string>, style: Style): Lang
    decreases members, 0
  {
    if members == [] then Word("")
    else
      var pair := PairReading(members[0], style);
      var first := if members[0].key in required then pair else Maybe(pair);
      if |members| == 1 then first else Separated(first, CommasKept(members[1..], required, style))
  }

  // One or more of the declared pairs in iteration order, the required ones among them, with commas
  // between the chosen pairs only.
  ghost function Selected(members: seq<Member>, required: seq<string>, style: Style): Lang
    decreases members, 0
  {
    if members == [] then iset{}
    else
      var pair := PairReading(members[0], style);
      var later := Selected(members[1..], required, style);
      Separated(pair, later)
      + (if NoneRequired(members[1..], required) then pair else iset{})
      + (if members[0].key in required then iset{} else later)
  }

  // ---------------------------------------------------------------- schemas the reading is exact for

  predicate Unquoted(s: string) {
    '"' !in s && '\\' !in s
  }

  predicate ExpressibleValue(v: Json) {
    Unquoted(if v.JString? then v.s else Print(v))
  }

  // Every name and literal is free of quotes and backslashes, and the types are known ones.
  predicate Expressible(schema: Json)
    decreases schema, 1
  {
    if HasEnum(schema) then
      var values := Get(schema, "enum").value.items;
      forall i :: 0 <= i < |values| ==> ExpressibleValue(values[i])
    else if HasConst(schema) then ExpressibleValue(Get(schema, "const").value)
    else if SchemaKind(schema) == KObject then
      (match Get(schema, "properties")
       case None => true
       case Some(JObject(members)) => ExpressibleMembers(members)
       case Some(_) => false)
    else if SchemaKind(schema) == KArray then
      (match Get(schema, "items")
       case None => true
       case Some(items) => Expressible(items))
    else IsScalar(SchemaKind(schema))
  }

  predicate ExpressibleMembers(members: seq<Member>)
    decreases members, 0
  {
    members == []
    || (Unquoted(members[0].key) && Expressible(members[0].value) && ExpressibleMembers(members[1..]))
  }

  // ---------------------------------------------------------------- every schema

  // The words of the text between the quotes of a grammar literal: one, or none if it is malformed.
  ghost function Spelled(raw: string): Lang {
    if Unescape(raw).Some? then Word(Unescape(raw).value) else iset{}
  }

  ghost function SpelledValue(v: Json): Lang {
    Spelled(ValueLiteral(v).raw)
  }

  function KeyLiteral(key: string): string {
    "\\\"" + key + "\\\""
  }

  ghost predicate IsSpelledChoice(values: seq<Json>, w: string) {
    exists i: nat :: i < |values| && w in SpelledValue(values[i])
  }

  ghost function SpelledChoices(values: seq<Json>): Lang {
    if values == [] then Word("") else iset w: string | IsSpelledChoice(values, w) :: w
  }

  // The reading in the grammar's own style, with quotes and backslashes in names and literals taken as
  // the grammar takes them. It makes no assumption about the schema.
  ghost function Derived(schema: Json): Lang
    decreases schema, 2
  {
    if HasEnum(schema) then SpelledChoices(Get(schema, "enum").value.items)
    else if HasConst(schema) then SpelledValue(Get(schema, "const").value)
    else if SchemaKind(schema) == KObject then
      (match Get(schema, "properties")
       case None => Enclosed("{", Maybe(ListOf(AnyPair(), SpacedComma())), "}")
       case Some(JObject(members)) => Enclosed("{", DerivedMembers(members, Required(schema)), "}")
       case Some(_) => iset{})
    else if SchemaKind(schema) == KArray then
      (match Get(schema, "items")
       case None => Enclosed("[", Maybe(ListOf(AnyItem(), Comma())), "]")
       case Some(items) => Enclosed("[", Maybe(ListOf(Derived(items), Comma())), "]"))
    else if IsScalar(SchemaKind(schema)) then ScalarReading(SchemaKind(schema))
    else iset{}
  }

  ghost function DerivedPair(m: Member): Lang
    decreases m, 0
  {
    Cat(Spelled(KeyLiteral(m.key)), Cat(Blank(), Cat(Word(":"), Cat(Blank(), Derived(m.value)))))
  }

  ghost function DerivedMembers(members: seq<Member>, required: seq<string>): Lang
    decreases members, 0
  {
    if members == [] then Word("")
    else
      var pair := DerivedPair(members[0]);
      var first := if members[0].key in required then pair else Maybe(pair);
      if |members| == 1 then first else Separated(first, DerivedMembers(members[1..], required))
  }
}
