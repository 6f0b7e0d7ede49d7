// Quotes and backslashes in names and literals: the grammar takes a text for itself exactly when it has
// none, so every rule derives what its schema node reads as exactly when no name and no literal has any.
module SchemaLiterals {
  import opened Wrappers
  import opened Text
  import opened Json
  import opened Grammar
  import opened SchemaModel
  import opened SchemaNames
  import opened SchemaUniqueness
  import opened Languages
  import opened SchemaReading
  import opened SchemaMeaning
  import opened Nesting
  import opened SchemaNesting
  import opened SchemaPadding
  import opened SchemaTheorems
  import opened SchemaFaults

  // ---------------------------------------------------------------- printed values

  // Before any backslash there is a quote.
  predicate QuoteFirst(w: string) {
    w == "" || w[0] == '"' || (w[0] != '\\' && QuoteFirst(w[1..]))
  }

  lemma {:induction false} QuoteFirstConcat(a: string, b: string)
    requires QuoteFirst(a) && QuoteFirst(b)
    ensures QuoteFirst(a + b)
  {
    if a == "" {
      assert a + b == b;
    } else {
      assert (a + b)[1..] == a[1..] + b;
      if a[0] != '"' {
        QuoteFirstConcat(a[1..], b);
      }
    }
  }

  lemma {:induction false} NoBackslashes(w: string)
    requires '\\' !in w
    ensures QuoteFirst(w)
  {
    if w != "" {
      NoBackslashes(w[1..]);
    }
  }

  lemma {:induction false} PrintIsQuoteFirst(v: Json)
    ensures QuoteFirst(Print(v))
    decreases v, 0
  {
    match v
    case JNull => NoBackslashes("null");
    case JBool(b) => NoBackslashes(Print(v));
    case JNumber(text) => NoBackslashes(text);
    case JString(s) => assert Print(v)[0] == '"';
    case JArray(items) =>
      ItemsAreQuoteFirst(items);
      BracketsAreQuoteFirst("[", PrintItems(items), "]");
    case JObject(members) =>
      assert members != [] ==> PrintMembers(members)[0] == '"';
      BracketsAreQuoteFirst("{", PrintMembers(members), "}");
  }

  lemma {:induction false} ItemsAreQuoteFirst(items: seq<Json>)
    ensures QuoteFirst(PrintItems(items))
    decreases items, 1
  {
    if items != [] {
      PrintIsQuoteFirst(items[0]);
      var rest := if |items| == 1 then "" else "," + PrintItems(items[1..]);
      if |items| > 1 {
        ItemsAreQuoteFirst(items[1..]);
        NoBackslashes(",");
        QuoteFirstConcat(",", PrintItems(items[1..]));
      }
      QuoteFirstConcat(Print(items[0]), rest);
    }
  }

  lemma BracketsAreQuoteFirst(open: string, inner: string, close: string)
    requires QuoteFirst(inner) && '\\' !in open && '\\' !in close
    ensures QuoteFirst(open + inner + close)
  {
    NoBackslashes(open);
    NoBackslashes(close);
    QuoteFirstConcat(open, inner);
    QuoteFirstConcat(open + inner, close);
  }

  // A bare quote in front of any backslash spoils the literal.
  lemma {:induction false} BareQuoteSpoils(w: string)
    requires QuoteFirst(w) && Unescape(w).Some?
    ensures Unquoted(w)
  {
    if w != "" {
      BareQuoteSpoils(w[1..]);
    }
  }

  // ---------------------------------------------------------------- strings and names

  // Undoing escapes makes a text shorter.
  lemma {:induction false} EscapesShorten(s: string)
    requires Unescape(s + "\\\"").Some?
    ensures |Unescape(s + "\\\"").value| <= |s| + 1
    ensures !Unquoted(s) ==> |Unescape(s + "\\\"").value| <= |s|
    decreases |s|
  {
    var raw := s + "\\\"";
    if s == "" {
      EscapedQuote();
    } else if s[0] != '\\' {
      assert raw[1..] == s[1..] + "\\\"";
      EscapesShorten(s[1..]);
    } else {
      LoneBackslash();
      assert |s| == 1 ==> s == "\\";
      assert raw[2..] == s[2..] + "\\\"";
      EscapesShorten(s[2..]);
    }
  }

  // A backslash at the very end would escape the backslash of the closing quote.
  lemma LoneBackslash()
    ensures Unescape("\\" + "\\\"").None?
  {
    var raw := "\\" + "\\\"";
    assert raw[2..] == "\"";
  }

  lemma KeySplit(key: string)
    ensures Unescape(KeyLiteral(key))
            == if Unescape(key + "\\\"").None? then None else Some("\"" + Unescape(key + "\\\"").value)
  {
    var raw := KeyLiteral(key);
    assert raw[2..] == key + "\\\"";
  }

  lemma KeysShorten(key: string, w: string)
    requires w in Spelled(KeyLiteral(key)) && !Unquoted(key)
    ensures |w| < |key| + 2
  {
    KeySplit(key);
    EscapesShorten(key);
  }

  // What a literal derives is shorter than its text, if it is not the text.
  lemma ValuesShorten(v: Json, w: string)
    requires w in SpelledValue(v) && !ExpressibleValue(v)
    ensures |w| < |ValueText(v)|
  {
    if v.JString? {
      assert ValueLiteral(v).raw == KeyLiteral(v.s);
      KeysShorten(v.s, w);
    } else {
      PrintIsQuoteFirst(v);
      BareQuoteSpoils(Print(v));
    }
  }

  // The literal emitted for an enum or const value derives its text, if and only if there are no quotes
  // and no backslashes in it.
  lemma LiteralIsTextIff(rules: seq<Rule>, depth: nat, v: Json)
    ensures Den(rules, depth, ValueLiteral(v)) == Word(ValueText(v)) <==> ExpressibleValue(v)
  {
    hide ValueText, ExpressibleValue, Spelled;
    DenValue(rules, depth, v);
    if ExpressibleValue(v) {
      PlainValueIsSpelled(v);
    } else if SpelledValue(v) == Word(ValueText(v)) {
      ValuesShorten(v, ValueText(v));
    }
  }

  // The same for the literal of a property name.
  lemma NameIsTextIff(rules: seq<Rule>, depth: nat, key: string)
    ensures Den(rules, depth, Lit(KeyLiteral(key))) == Word("\"" + key + "\"") <==> Unquoted(key)
  {
    hide Unquoted, Spelled;
    DenLiteral(rules, depth, KeyLiteral(key));
    if Unquoted(key) {
      PlainKeyIsSpelled(key);
    } else if Spelled(KeyLiteral(key)) == Word("\"" + key + "\"") {
      KeysShorten(key, "\"" + key + "\"");
    }
  }

  // ---------------------------------------------------------------- enums

  lemma SameTextSameKind(v: Json, other: Json)
    requires ValueText(v) == ValueText(other)
    ensures ExpressibleValue(v) == ExpressibleValue(other)
  {
    NotQuotedAtStart(v);
    NotQuotedAtStart(other);
    if v.JString? {
      var text := ValueText(v);
      assert text[0] == '"';
      assert text[1..|text| - 1] == v.s == other.s;
    }
  }

  lemma NotQuotedAtStart(v: Json)
    ensures v.JString? || Print(v) == "" || Print(v)[0] != '"'
  {
  }

  function TextLengths(values: seq<Json>): nat {
    if values == [] then 0 else |ValueText(values[0])| + TextLengths(values[1..])
  }

  lemma {:induction false} LengthIsCounted(values: seq<Json>, i: nat)
    requires i < |values|
    ensures |ValueText(values[i])| <= TextLengths(values)
  {
    if i > 0 {
      LengthIsCounted(values[1..], i - 1);
    }
  }

  // If the texts are derived at all, an inexpressible one comes from a longer inexpressible one.
  lemma {:induction false} NoLongest(values: seq<Json>, i: nat)
    requires i < |values| && !ExpressibleValue(values[i])
    requires OneOf(values) <= SpelledChoices(values)
    ensures false
    decreases TextLengths(values) - |ValueText(values[i])|
  {
    hide ValueText, ExpressibleValue, SpelledValue;
    LengthIsCounted(values, i);
    var w := ValueText(values[i]);
    assert w in OneOf(values);
    var j: nat :| j < |values| && w in SpelledValue(values[j]);
    LengthIsCounted(values, j);
    if ExpressibleValue(values[j]) {
      PlainValueIsSpelled(values[j]);
      SameTextSameKind(values[i], values[j]);
    } else {
      ValuesShorten(values[j], w);
      NoLongest(values, j);
    }
  }

  lemma ChoicesAreTextIff(values: seq<Json>)
    ensures SpelledChoices(values) == Choices(values, EMITTED)
            <==> forall i :: 0 <= i < |values| ==> ExpressibleValue(values[i])
  {
    hide ExpressibleValue, SpelledValue, ValueText;
    if i :| 0 <= i < |values| && !ExpressibleValue(values[i]) {
      if SpelledChoices(values) == Choices(values, EMITTED) {
        NoLongest(values, i);
      }
    } else {
      PlainChoicesAreSpelled(values);
    }
  }

  // ---------------------------------------------------------------- names in objects

  function Slashes(m: nat): string {
    seq(m, _ => '\\')
  }

  // Behind a run of backslashes, what is derived falls back behind the text.
  lemma {:induction false} BehindSlashes(m: nat, s: string) returns (k: nat)
    requires m > 0 && Unescape(s + "\\\"").Some?
    ensures var u := Unescape(s + "\\\"").value;
            k < |u| && k < m + |s| + 1 && u[k] != (Slashes(m) + s + "\"")[k]
    decreases |s|
  {
    var raw := s + "\\\"";
    k := 0;
    if s == "" {
      EscapedQuote();
    } else if s[0] == '\\' {
      LoneBackslash();
      assert |s| == 1 ==> s == "\\";
      assert raw[1] == s[1] && raw[2..] == s[2..] + "\\\"";
      if s[1] == '\\' {
        k := BehindSlashes(m + 1, s[2..]);
        assert (Slashes(m) + s + "\"")[k + 1] == (Slashes(m + 1) + s[2..] + "\"")[k];
        k := k + 1;
      }
    }
  }

  // A name with quotes or backslashes and what its literal derives differ at some character of both.
  lemma {:induction false} FirstDifference(s: string) returns (k: nat)
    requires Unescape(s + "\\\"").Some? && !Unquoted(s)
    ensures var u := Unescape(s + "\\\"").value;
            k < |u| && k < |s| + 1 && u[k] != (s + "\"")[k]
    decreases |s|
  {
    var raw := s + "\\\"";
    if s[0] == '\\' {
      LoneBackslash();
      assert |s| == 1 ==> s == "\\";
      assert raw[1] == s[1] && raw[2..] == s[2..] + "\\\"";
      k := 0;
      if s[1] == '\\' {
        k := BehindSlashes(1, s[2..]);
        assert (s + "\"")[k + 1] == (Slashes(1) + s[2..] + "\"")[k];
        k := k + 1;
      }
    } else {
      assert raw[1..] == s[1..] + "\\\"";
      k := FirstDifference(s[1..]);
      assert (s + "\"")[k + 1] == (s[1..] + "\"")[k];
      k := k + 1;
    }
  }

  lemma NamesDiffer(key: string, k: string, x: string, y: string)
    requires k in Spelled(KeyLiteral(key)) && !Unquoted(key)
    ensures k + x != ("\"" + key + "\"") + y
  {
    KeySplit(key);
    hide Unescape, Unquoted;
    var i := FirstDifference(key);
    var w, z := k + x, ("\"" + key + "\"") + y;
    assert w[i + 1] == k[i + 1] == Unescape(key + "\\\"").value[i];
    assert z[i + 1] == (key + "\"")[i];
  }

  // A text that starts with such a name is no padded pair of that member, alone or with more behind it.
  lemma NotThatPair(m: Member, v: string, rest: string, next: Lang)
    requires !Unquoted(m.key)
    ensures PairText(m.key, v) !in Padded(Maybe(DerivedPair(m)))
    ensures PairText(m.key, v) + rest !in Padded(Separated(Maybe(DerivedPair(m)), next))
  {
    hide Padded, Blank, DerivedPair, Separated, Unquoted;
    var first, name := Maybe(DerivedPair(m)), "\"" + m.key + "\"";
    if PairText(m.key, v) in Padded(first) {
      var s, f, t := PaddedSplit(PairText(m.key, v), first);
      BlankEnds(t, "");
      assert t + "" == t;
      NoSuchStart(m, s, f, t, name, ":" + v);
    }
    var w := PairText(m.key, v) + rest;
    if w in Padded(Separated(first, next)) {
      var s, x, t := PaddedSplit(w, Separated(first, next));
      var f, b, b2, n := SeparatedSplit(x, first, next);
      Assoc(name, ":" + v, rest);
      Assoc(f + b, [','], b2 + n);
      Assoc(f, b, [','] + (b2 + n));
      Assoc(f, b + ([','] + (b2 + n)), t);
      BlankThenComma(b, b2 + n, t);
      NoSuchStart(m, s, f, b + ([','] + (b2 + n)) + t, name, ":" + v + rest);
    }
  }

  lemma BlankThenComma(b: string, n: string, t: string)
    requires b in Blank()
    ensures var w := b + ([','] + n) + t; w != "" && w[0] != '"'
  {
    assert b != "" ==> InClass(Blanks, b[0]);
  }

  // Blanks, the pair or nothing, and a tail that starts with no quote.
  lemma NoSuchStart(m: Member, s: string, f: string, tail: string, name: string, rest: string)
    requires !Unquoted(m.key) && name == "\"" + m.key + "\""
    requires s in Blank() && f in Maybe(DerivedPair(m)) && (tail == "" || tail[0] != '"')
    ensures name + rest != s + (f + tail)
  {
    hide Blank, DerivedPair, Unquoted;
    var w := name + rest;
    assert w[0] == '"';
    if w == s + (f + tail) {
      NoBlankInFront(s, f + tail, w);
      assert f == "" ==> f + tail == tail;
      var k, after := PairStart(m, f);
      Assoc(k, after, tail);
      NamesDiffer(m.key, k, after + tail, rest);
    }
  }

  lemma PairStart(m: Member, f: string) returns (k: string, after: string)
    requires f in DerivedPair(m)
    ensures k in Spelled(KeyLiteral(m.key)) && f == k + after
  {
    hide Cat, Blank, Derived, Spelled;
    var s, t, v;
    k, s, t, v := ColonSplit(f, Spelled(KeyLiteral(m.key)), Derived(m.value));
    after := s + (":" + (t + v));
  }

  // ---------------------------------------------------------------- objects

  predicate ValuesExpressible(members: seq<Member>) {
    forall i :: 0 <= i < |members| ==> Expressible(members[i].value)
  }

  lemma ValuesOfRest(members: seq<Member>)
    requires members != [] && ValuesExpressible(members)
    ensures ValuesExpressible(members[1..])
  {
  }

  // Some word for all properties, whatever their names are.
  lemma {:induction false} AnyMembers(members: seq<Member>, required: seq<string>) returns (t: string)
    requires ValuesExpressible(members)
    ensures t in CommasKept(members, required, EMITTED)
  {
    hide Reading, PairReading, Separated, ValuesExpressible;
    if members == [] {
      t := "";
    } else {
      FirstExpressible(members);
      ValuesOfRest(members);
      var v := SomeWord(members[0].value);
      PairIntro(members[0], v);
      t := PairText(members[0].key, v);
      if |members| > 1 {
        var x := AnyMembers(members[1..], required);
        t := JoinFirst(members, required, t, x);
      }
    }
  }

  lemma FirstExpressible(members: seq<Member>)
    requires members != [] && ValuesExpressible(members)
    ensures Expressible(members[0].value)
  {
  }

  // With all values expressible but not all names, some text is read that is not derived.
  lemma {:induction false} NameFault(members: seq<Member>, required: seq<string>) returns (t: string)
    requires ValuesExpressible(members) && !ExpressibleMembers(members)
    ensures t in CommasKept(members, required, EMITTED)
    ensures t !in Padded(DerivedMembers(members, required))
  {
    hide Padded, Reading, PairReading, Separated, DerivedPair, ValuesExpressible, Unquoted, Whole, AllFit;
    FirstExpressible(members);
    ValuesOfRest(members);
    var m, rest := members[0], members[1..];
    var pair := DerivedPair(m);
    var first := if m.key in required then pair else Maybe(pair);
    if !Unquoted(m.key) {
      var v := SomeWord(m.value);
      PairIntro(m, v);
      var p := PairText(m.key, v);
      if |members| == 1 {
        t := p;
        NotThatPair(m, v, "", iset{});
        FewerPadded(p, pair);
      } else {
        var x := AnyMembers(rest, required);
        t := JoinFirst(members, required, p, x);
        var next := DerivedMembers(rest, required);
        Assoc(p, [','], x);
        NotThatPair(m, v, [','] + x, next);
        FewerSeparated(t, pair, next);
      }
    } else {
      assert rest != [];
      var p := SomePair(m);
      var x := NameFault(rest, required);
      t := JoinFirst(members, required, p, x);
      DerivedIsReading(m.value);
      PairIsReading(m);
      FirstFits(m, required, EMITTED);
      SeparatedNotPadded(p, x, first, DerivedMembers(rest, required));
    }
  }

  lemma FewerSeparated(t: string, pair: Lang, next: Lang)
    requires t !in Padded(Separated(Maybe(pair), next))
    ensures t !in Padded(Separated(pair, next))
  {
    hide Padded, Cat, Blank;
    var more := Cat(Blank(), Cat(Word(","), Cat(Blank(), next)));
    OperatorsMonotone(pair, Maybe(pair), more, more);
    if t in Padded(Separated(pair, next)) {
      PaddedMono(t, Separated(pair, next), Separated(Maybe(pair), next));
    }
  }

  // ---------------------------------------------------------------- whole schemas

  // Every node's own rule derives the words that node reads as.
  ghost predicate NodesMean(rules: seq<Rule>, schema: Json, name: string)
    decreases schema, 1
  {
    && Language(rules, name) == Reading(schema, EMITTED)
    && (IsObject(schema) ==>
          match Get(schema, "properties")
          case Some(JObject(members)) => MembersMean(rules, members, name)
          case _ => true)
    && (IsArray(schema) ==>
          match Get(schema, "items")
          case Some(items) => NodesMean(rules, items, ChildName(name, "item"))
          case None => true)
  }

  ghost predicate MembersMean(rules: seq<Rule>, members: seq<Member>, name: string)
    decreases members, 0
  {
    members == []
    || (&& NodesMean(rules, members[0].value, ChildName(name, members[0].key))
        && MembersMean(rules, members[1..], name))
  }

  lemma NodeLanguage(rules: seq<Rule>, schema: Json, name: string)
    requires GenRule(schema, name).result.Ok?
    requires WS_RULE in Resolved(rules) && AllResolved(rules, Defs(schema, name))
    ensures Language(rules, name) == Derived(schema)
  {
    hide GenRule, Derived, Den, Resolved;
    forall depth: nat | Height(schema) <= depth ensures Den(rules, depth, Ref(name)) == Derived(schema) {
      NodeDerives(rules, schema, name, depth);
    }
    LanguageSettles(rules, name, Height(schema), Derived(schema));
  }

  lemma LeafIsReadIff(schema: Json, name: string)
    requires IsLeaf(schema) && GenRule(schema, name).result.Ok?
    ensures Derived(schema) == Reading(schema, EMITTED) <==> Expressible(schema)
  {
    hide SpelledChoices, SpelledValue, Choices, ValueText, ExpressibleValue, ScalarReading, SchemaKind, Get;
    if HasEnum(schema) {
      ChoicesAreTextIff(Get(schema, "enum").value.items);
    } else if HasConst(schema) {
      var v := Get(schema, "const").value;
      DenValue([], 0, v);
      LiteralIsTextIff([], 0, v);
    }
  }

  // An object whose values are expressible is read as it is derived exactly when its names are too.
  lemma ObjectIsReadIff(schema: Json)
    requires IsObject(schema) && Get(schema, "properties").Some? && Get(schema, "properties").value.JObject?
    requires ValuesExpressible(Properties(schema))
    ensures Derived(schema) == Reading(schema, EMITTED) <==> Expressible(schema)
  {
    var members, required := Properties(schema), Required(schema);
    hide SchemaKind, Get, Required, Enclosed, CommasKept, DerivedMembers, ExpressibleMembers, ValuesExpressible,
      MembersReading, Padded;
    if ExpressibleMembers(members) {
      DerivedIsReading(schema);
    } else {
      var t := NameFault(members, required);
      KeptCommas(members, required, EMITTED);
      EnclosedIntro("{", t, "}", CommasKept(members, required, EMITTED));
      ObjectNotPadded(t, DerivedMembers(members, required));
      NotPaddedNotIn("{" + t + "}", Enclosed("{", DerivedMembers(members, required), "}"));
      assert "{" + t + "}" in Reading(schema, EMITTED);
    }
  }

  lemma {:induction false} NodesMeanIff(rules: seq<Rule>, schema: Json, name: string)
    requires GenRule(schema, name).result.Ok?
    requires WS_RULE in Resolved(rules) && AllResolved(rules, Defs(schema, name))
    ensures NodesMean(rules, schema, name) <==> Expressible(schema)
    decreases schema, 2
  {
    hide GenRule, Derived, Reading, Language, Resolved, AllResolved, Defs, SchemaKind, HasEnum, HasConst;
    NodeLanguage(rules, schema, name);
    if IsObject(schema) {
      ObjectDefs(schema, name);
      if Get(schema, "properties").Some? {
        ObjectNodesIff(rules, schema, name);
      } else {
        DerivedIsReading(schema);
      }
    } else if IsArray(schema) {
      ArrayNodesIff(rules, schema, name);
    } else {
      LeafIsReadIff(schema, name);
    }
  }

  lemma ObjectNodesIff(rules: seq<Rule>, schema: Json, name: string)
    requires GenRule(schema, name).result.Ok? && Language(rules, name) == Derived(schema)
    requires WS_RULE in Resolved(rules) && AllResolved(rules, Defs(schema, name))
    requires IsObject(schema) && Get(schema, "properties").Some? && Get(schema, "properties").value.JObject?
    ensures NodesMean(rules, schema, name) <==> Expressible(schema)
    decreases schema, 1
  {
    var members, required := Properties(schema), Required(schema);
    hide GenRule, Derived, Reading, Language, Resolved, AllResolved, SchemaKind, Get, MembersMean, Defs, PropDefs,
      ExpressibleMembers, ValuesExpressible, GenProperties, HasEnum, HasConst;
    ObjectDefs(schema, name);
    var own := Rule(name, ObjectBody(GenProperties(members, name, required).result.value));
    AllResolvedSplit(rules, PropDefs(members, name, required), [own]);
    MembersMeanIff(rules, members, name, required);
    MembersHaveValues(members);
    if ValuesExpressible(members) {
      ObjectIsReadIff(schema);
    }
  }

  lemma {:induction false} MembersHaveValues(members: seq<Member>)
    ensures ExpressibleMembers(members) ==> ValuesExpressible(members)
  {
    hide Expressible, Unquoted;
    if members != [] {
      MembersHaveValues(members[1..]);
      assert forall i :: 0 < i < |members| ==> members[i] == members[1..][i - 1];
    }
  }

  lemma {:induction false} MembersMeanIff(rules: seq<Rule>, members: seq<Member>, name: string, required: seq<string>)
    requires GenProperties(members, name, required).result.Ok?
    requires WS_RULE in Resolved(rules) && AllResolved(rules, PropDefs(members, name, required))
    ensures MembersMean(rules, members, name) <==> ValuesExpressible(members)
    decreases members, 0
  {
    hide GenRule, Resolved, NodesMean, Expressible, Defs, GenProperties, PropDefs, AllResolved;
    if members != [] {
      PropDefsStep(members, name, required);
      var child := ChildName(name, members[0].key);
      AllResolvedSplit(rules, Defs(members[0].value, child), PropDefs(members[1..], name, required));
      NodesMeanIff(rules, members[0].value, child);
      MembersMeanIff(rules, members[1..], name, required);
      assert forall i :: 0 < i < |members| ==> members[i] == members[1..][i - 1];
      assert forall i :: 0 <= i < |members| - 1 ==> members[1..][i] == members[i + 1];
    }
  }

  lemma ArrayNodesIff(rules: seq<Rule>, schema: Json, name: string)
    requires GenRule(schema, name).result.Ok? && Language(rules, name) == Derived(schema)
    requires WS_RULE in Resolved(rules) && AllResolved(rules, Defs(schema, name)) && IsArray(schema)
    ensures NodesMean(rules, schema, name) <==> Expressible(schema)
    decreases schema, 1
  {
    hide GenRule, Derived, Reading, Language, Resolved, SchemaKind, Get, Defs, HasEnum, HasConst, ArrayBody;
    ArrayDefs(schema, name);
    ArrayParts(schema);
    if Get(schema, "items").Some? {
      var items, item := Get(schema, "items").value, ChildName(name, "item");
      ItemsResolved(rules, items, name, item);
      NodesMeanIff(rules, items, item);
    }
    if Expressible(schema) {
      DerivedIsReading(schema);
    }
  }

  // For every schema that compiles and whose nodes have distinct paths: each node's rule derives exactly
  // the words that node reads as, if and only if no name and no literal has a quote or a backslash.
  lemma EveryNodeMeansItselfIff(schema: Json)
    requires Compile(schema).Ok? && PathsDistinct(schema)
    ensures NodesMean(Compile(schema).value, schema, ROOT) <==> Expressible(schema)
  {
    hide Compile, NodesMean, Expressible, PathsDistinct, Resolved, Defs, GenRule, AllResolved;
    AllNamesResolve(schema);
    NodesMeanIff(Compile(schema).value, schema, ROOT);
  }
}
