// When the emitted grammar derives JSON texts only.
module SchemaJson {
  import opened Json
  import opened Grammar
  import opened SchemaModel
  import opened SchemaNames
  import opened SchemaUniqueness
  import opened Languages
  import opened SchemaReading
  import opened Nesting
  import opened SchemaNesting
  import opened SchemaPadding
  import opened SchemaTokens
  import opened SchemaTheorems
  import opened SchemaFaults
  import opened JsonTexts

  // No blanks for empty enums, no stray commas, and only JSON tokens.
  const STRICT := Style(false, false, false)

  // ---------------------------------------------------------------- strict readings are JSON

  lemma GetProper(schema: Json, key: string)
    requires ProperNumbers(schema) && Get(schema, key).Some?
    ensures ProperNumbers(Get(schema, key).value)
  {
  }

  lemma {:induction false} PrintedAreJson(values: seq<Json>) returns (n: nat)
    requires forall i :: 0 <= i < |values| ==> ProperNumbers(values[i])
    ensures Printed(values) <= JsonValue(n)
  {
    hide JsonValue, ProperNumbers, Print;
    if values == [] {
      n := 0;
    } else {
      var a := PrintIsJson(values[0]);
      var b := PrintedAreJson(values[1..]);
      n := if a < b then b else a;
      ValuesGrow(a, n);
      ValuesGrow(b, n);
      forall w | w in Printed(values) ensures w in JsonValue(n) {
        var i: nat :| i < |values| && w == Print(values[i]);
        assert i > 0 ==> values[i] == values[1..][i - 1];
        assert i > 0 ==> w in Printed(values[1..]);
      }
    }
  }

  lemma ShortNumbers()
    ensures JsonInteger() <= JsonNumber() && JsonShortNumber() <= JsonNumber()
  {
    hide Cat, Maybe, JsonInt, Fraction, Exponent;
    var minus, ints, more := Maybe(Word("-")), JsonInt(), Cat(Fraction(), Exponent());
    NoExponent();
    forall x | x in JsonInteger() ensures x in JsonNumber() {
      var m, i := CatSplit(x, minus, ints);
      CatIntro(i, "", ints, more);
      assert i + "" == i;
      CatIntro(m, i, minus, Cat(ints, more));
    }
    forall x | x in JsonShortNumber() ensures x in JsonNumber() {
      var m, r := CatSplit(x, minus, Cat(ints, Fraction()));
      var i, f := CatSplit(r, ints, Fraction());
      CatIntro(f, "", Fraction(), Exponent());
      assert f + "" == f;
      CatIntro(i, f, ints, more);
      CatIntro(m, r, minus, Cat(ints, more));
    }
  }

  lemma NoExponent()
    ensures "" in Exponent() && "" in Cat(Fraction(), Exponent())
  {
    hide Cat;
    EmptyLeft("", Fraction(), Exponent());
  }

  lemma ScalarsAreJson(kind: Kind)
    requires IsScalar(kind)
    ensures JsonScalar(kind) <= JsonLeaf()
  {
    hide JsonString, JsonNumber, JsonInteger;
    ShortNumbers();
  }

  lemma OpenAreJson()
    ensures JsonItem() <= JsonLeaf() && JsonPair() <= NamedOf(JsonLeaf())
  {
    hide JsonString, JsonNumber, JsonInteger, JsonShortNumber, Cat, Keywords;
    ShortNumbers();
    NamedMono(JsonString(), JsonOpenValue(), JsonLeaf());
  }

  lemma RecordsAreJson(inner: Lang, n: nat)
    requires inner <= Maybe(ListOf(NamedOf(JsonValue(n)), SpacedComma()))
    ensures Enclosed("{", inner, "}") <= JsonValue(n + 1)
  {
    hide Enclosed, ListOf, Maybe, NamedOf, SpacedComma, JsonLeaf;
    EnclosedMono("{", inner, Maybe(ListOf(NamedOf(JsonValue(n)), SpacedComma())), "}");
  }

  lemma ArraysAreJson(item: Lang, n: nat)
    requires item <= JsonValue(n)
    ensures Enclosed("[", Maybe(ListOf(item, Comma())), "]") <= JsonValue(n + 1)
  {
    hide Enclosed, ListOf, Comma, SpacedComma, JsonLeaf;
    CommaIsSpaced();
    ListMono(item, JsonValue(n), Comma(), SpacedComma());
    EnclosedMono("[", Maybe(ListOf(item, Comma())), Maybe(ListOf(JsonValue(n), SpacedComma())), "]");
  }

  lemma {:induction false} ReadingIsJson(schema: Json) returns (n: nat)
    requires Expressible(schema) && ProperNumbers(schema)
    ensures Reading(schema, STRICT) <= JsonValue(n)
    decreases schema, 2
  {
    hide SchemaKind, JsonValue, ProperNumbers, Enclosed, ListOf, Maybe, MembersReading, Print, Comma, SpacedComma,
      JsonScalar, JsonItem, JsonPair, NamedOf, ExpressibleValue;
    if HasEnum(schema) {
      GetProper(schema, "enum");
      ItemsProper(Get(schema, "enum").value);
      n := PrintedAreJson(Get(schema, "enum").value.items);
    } else if HasConst(schema) {
      GetProper(schema, "const");
      n := PrintIsJson(Get(schema, "const").value);
    } else if IsObject(schema) {
      n := ObjectIsJson(schema);
    } else if IsArray(schema) {
      n := ArrayIsJson(schema);
    } else {
      ScalarsAreJson(SchemaKind(schema));
      n := 0;
      NoBrackets();
    }
  }

  lemma NoBrackets()
    ensures JsonValue(0) == JsonLeaf()
  {
  }

  lemma ItemsProper(v: Json)
    requires v.JArray? && ProperNumbers(v)
    ensures forall i :: 0 <= i < |v.items| ==> ProperNumbers(v.items[i])
  {
  }

  lemma MembersProper(v: Json)
    requires v.JObject? && ProperNumbers(v)
    ensures forall i :: 0 <= i < |v.members| ==> ProperNumbers(v.members[i].value)
  {
  }

  lemma ObjectIsJson(schema: Json) returns (n: nat)
    requires Expressible(schema) && ProperNumbers(schema) && IsObject(schema)
    ensures Reading(schema, STRICT) <= JsonValue(n)
    decreases schema, 1
  {
    hide SchemaKind, JsonValue, ProperNumbers, Enclosed, ListOf, Maybe, MembersReading, SpacedComma, JsonPair, NamedOf,
      Required, Get, JsonLeaf, Selected, Choices, ScalarIn, Literal;
    if Get(schema, "properties").Some? {
      var members, required := Properties(schema), Required(schema);
      GetProper(schema, "properties");
      MembersProper(Get(schema, "properties").value);
      var m := SelectedIsJson(members, required);
      SelectionIsList(members, required, NamedOf(JsonValue(m)));
      RecordsAreJson(MembersReading(members, required, STRICT), m);
      n := m + 1;
    } else {
      OpenAreJson();
      NoBrackets();
      ListsGrow(JsonPair(), NamedOf(JsonLeaf()));
      RecordsAreJson(Maybe(ListOf(JsonPair(), SpacedComma())), 0);
      n := 1;
    }
  }

  lemma SelectionIsList(members: seq<Member>, required: seq<string>, item: Lang)
    requires Selected(members, required, STRICT) <= ListOf(item, SpacedComma())
    ensures MembersReading(members, required, STRICT) <= Maybe(ListOf(item, SpacedComma()))
  {
    hide Selected, ListOf, SpacedComma;
  }

  lemma ArrayIsJson(schema: Json) returns (n: nat)
    requires Expressible(schema) && ProperNumbers(schema) && IsArray(schema)
    ensures Reading(schema, STRICT) <= JsonValue(n)
    decreases schema, 1
  {
    hide SchemaKind, JsonValue, ProperNumbers, Enclosed, ListOf, Maybe, Comma, JsonItem,
      Required, Get, JsonLeaf, MembersReading, Choices, ScalarIn, Literal;
    if Get(schema, "items").Some? {
      GetProper(schema, "items");
      var m := ReadingIsJson(Get(schema, "items").value);
      ArraysAreJson(Reading(Get(schema, "items").value, STRICT), m);
      n := m + 1;
    } else {
      OpenAreJson();
      NoBrackets();
      ArraysAreJson(JsonItem(), 0);
      n := 1;
    }
  }

  lemma PairIsJson(m: Member, value: Lang)
    requires Reading(m.value, STRICT) <= value
    ensures PairReading(m, STRICT) <= NamedOf(value)
  {
    hide Cat, Blank, Reading, Escape, NamedOf, JsonString;
    QuotedIsJson(m.key);
    NamedMono(Word(KeyText(m.key, STRICT)), Reading(m.value, STRICT), value);
  }

  lemma {:induction false} SelectedIsJson(members: seq<Member>, required: seq<string>) returns (n: nat)
    requires ExpressibleMembers(members) && forall i :: 0 <= i < |members| ==> ProperNumbers(members[i].value)
    ensures Selected(members, required, STRICT) <= ListOf(NamedOf(JsonValue(n)), SpacedComma())
    decreases members, 1
  {
    hide JsonValue, ListOf, SpacedComma, ProperNumbers, NamedOf, Reading, PairReading, Separated, Selected;
    if members == [] {
      n := 0;
      NothingSelected(required);
    } else {
      var a := ReadingIsJson(members[0].value);
      var b := SelectedIsJson(members[1..], required);
      n := if a < b then b else a;
      ValuesGrow(a, n);
      ValuesGrow(b, n);
      PairIsJson(members[0], JsonValue(n));
      NamedGrow(JsonValue(b), JsonValue(n));
      ListMono(NamedOf(JsonValue(b)), NamedOf(JsonValue(n)), SpacedComma(), SpacedComma());
      SelectedStep(members, required, NamedOf(JsonValue(n)));
    }
  }

  lemma NothingSelected(required: seq<string>)
    ensures Selected([], required, STRICT) == iset{}
  {
  }

  lemma SelectedStep(members: seq<Member>, required: seq<string>, item: Lang)
    requires members != [] && PairReading(members[0], STRICT) <= item
    requires Selected(members[1..], required, STRICT) <= ListOf(item, SpacedComma())
    ensures Selected(members, required, STRICT) <= ListOf(item, SpacedComma())
  {
    hide ListOf, SpacedComma, PairReading, Separated;
    var pair, later := PairReading(members[0], STRICT), Selected(members[1..], required, STRICT);
    var list := ListOf(item, SpacedComma());
    forall w | w in Selected(members, required, STRICT) ensures w in list {
      if w in Separated(pair, later) {
        SeparatedMono(pair, later, item, list);
        ListFold(w, item);
      } else if w in pair {
        OneInList(w, item);
      }
    }
  }

  lemma SeparatedMono(a: Lang, b: Lang, c: Lang, d: Lang)
    requires a <= c && b <= d
    ensures Separated(a, b) <= Separated(c, d)
  {
    hide Cat, Blank;
    CatMono(Blank(), b, Blank(), d);
    CatMono(Word(","), Cat(Blank(), b), Word(","), Cat(Blank(), d));
    CatMono(Blank(), Cat(Word(","), Cat(Blank(), b)), Blank(), Cat(Word(","), Cat(Blank(), d)));
    CatMono(a, Cat(Blank(), Cat(Word(","), Cat(Blank(), b))), c, Cat(Blank(), Cat(Word(","), Cat(Blank(), d))));
  }

  // ---------------------------------------------------------------- faults are no JSON

  lemma JsonIsNotEmpty()
    ensures !IsJsonText("")
  {
    hide Padded, JsonValue;
    forall n: nat ensures "" !in Padded(JsonValue(n)) {
      if "" in Padded(JsonValue(n)) {
        var s, w, t := PaddedSplit("", JsonValue(n));
        ValueStart(w, n);
      }
    }
  }

  // A text without blanks at its ends is JSON only if it is a value.
  lemma JsonByStart(w: string, n: nat)
    requires w != "" && !InClass(Blanks, w[0]) && !InClass(Blanks, w[|w| - 1])
    requires w in Padded(JsonValue(n))
    ensures NoLeadingZero(w)
    ensures w[0] == '"' ==> w in JsonString()
    ensures w[0] == '[' ==> n > 0 && w in ArrayOf(JsonValue(n - 1))
    ensures w[0] == '{' ==> n > 0 && w in RecordOf(JsonValue(n - 1))
  {
    hide Padded, JsonValue, ArrayOf, RecordOf, JsonString, NoLeadingZero;
    NoBlanksAround(w, JsonValue(n));
    ValueStart(w, n);
  }

  lemma ZerosAreNoJson()
    ensures !IsJsonText(ZEROS)
  {
    hide Padded, JsonValue;
    forall n: nat ensures ZEROS !in Padded(JsonValue(n)) {
      assert !NoLeadingZero(ZEROS);
      if ZEROS in Padded(JsonValue(n)) {
        JsonByStart(ZEROS, n);
      }
    }
  }

  lemma RawTextIsNoJson(s: string)
    requires Unquoted(s) && !AllPlain(s)
    ensures !IsJsonText("\"" + s + "\"")
  {
    hide Padded, JsonValue, IsJsonString, AllPlain, Unquoted;
    var w := "\"" + s + "\"";
    assert w[0] == '"' && w[|w| - 1] == '"';
    forall n: nat ensures w !in Padded(JsonValue(n)) {
      if w in Padded(JsonValue(n)) {
        JsonByStart(w, n);
        QuotedIsPlain(s);
      }
    }
  }

  lemma RawNewlineIsNoJson()
    ensures !IsJsonText(RAW_NEWLINE)
  {
    var s := "\n";
    assert !PlainChar(s[0]);
    assert RAW_NEWLINE == "\"" + s + "\"";
    RawTextIsNoJson(s);
  }

  lemma TwiceIsNoJson(v: string)
    requires !IsJsonText(v) && Whole(v)
    ensures !IsJsonText("[" + (v + [','] + v) + "]")
  {
    hide Padded, JsonValue, Whole, ListOf, Maybe, SpacedComma, Enclosed;
    var t := v + [','] + v;
    var w := "[" + t + "]";
    assert w[0] == '[' && w[|w| - 1] == ']';
    forall n: nat ensures w !in Padded(JsonValue(n)) {
      if w in Padded(JsonValue(n)) {
        JsonByStart(w, n);
        var list := Maybe(ListOf(JsonValue(n - 1), SpacedComma()));
        ValuesFit(0, n - 1);
        TwiceNotPadded(v, JsonValue(n - 1));
        BracketsNotPadded('[', t, list, ']');
        NotPaddedNotIn(w, Enclosed("[", list, "]"));
      }
    }
  }

  // What stands between the braces is no list of pairs.
  ghost predicate Unlisted(t: string) {
    forall n: nat :: t !in Padded(ListOf(NamedOf(JsonValue(n)), SpacedComma()))
  }

  lemma RecordIsNoJson(t: string)
    requires Unlisted(t) && t !in Blank()
    ensures !IsJsonText("{" + t + "}")
  {
    hide Padded, JsonValue, ListOf, NamedOf, Maybe, SpacedComma, Enclosed, Blank;
    var w := "{" + t + "}";
    assert w[0] == '{' && w[|w| - 1] == '}';
    forall n: nat ensures w !in Padded(JsonValue(n)) {
      if w in Padded(JsonValue(n)) {
        JsonByStart(w, n);
        var list := ListOf(NamedOf(JsonValue(n - 1)), SpacedComma());
        MaybePadded(t, list);
        ObjectNotPadded(t, Maybe(list));
        NotPaddedNotIn(w, Enclosed("{", Maybe(list), "}"));
      }
    }
  }

  // A part in front that is no pair, or a rest that is no list, gives no list.
  lemma CommaUnlisted(p: string, x: string)
    requires Whole(p) && (Unlisted(x) || forall n: nat :: p !in Padded(NamedOf(JsonValue(n))))
    ensures Unlisted(p + [','] + x)
  {
    hide Padded, JsonValue, ListOf, NamedOf, SpacedComma, Whole;
    forall n: nat ensures p + [','] + x !in Padded(ListOf(NamedOf(JsonValue(n)), SpacedComma())) {
      ValuesFit(0, n);
      NamedFit(0, JsonValue(n));
      ListNotPadded(p, x, NamedOf(JsonValue(n)));
    }
  }

  lemma PairUnlisted(p: string)
    requires Whole(p) && forall n: nat :: p !in Padded(NamedOf(JsonValue(n)))
    ensures Unlisted(p)
  {
    hide Padded, JsonValue, ListOf, NamedOf, SpacedComma, Whole;
    forall n: nat ensures p !in Padded(ListOf(NamedOf(JsonValue(n)), SpacedComma())) {
      ValuesFit(0, n);
      NamedFit(0, JsonValue(n));
      OneNotPadded(p, NamedOf(JsonValue(n)));
    }
  }

  // No pair is empty.
  lemma EmptyIsNoPair(n: nat)
    ensures "" !in Padded(NamedOf(JsonValue(n)))
  {
    hide Padded, JsonValue, Blank;
    if "" in Padded(NamedOf(JsonValue(n))) {
      var s, w, t := PaddedSplit("", NamedOf(JsonValue(n)));
      var k, s2, t2, v := ColonSplit(w, JsonString(), JsonValue(n));
    }
  }

  lemma PairIsNoJson(m: Member) returns (p: string)
    requires Unquoted(m.key) && Expressible(m.value) && !CleanMember(m, STRICT)
    ensures p in PairReading(m, EMITTED) && p != "" && p[0] == '"' && Whole(p)
    ensures forall n: nat :: p !in Padded(NamedOf(JsonValue(n)))
    decreases m, 6
  {
    hide Padded, Reading, PairReading, Clean, AllPlain, JsonValue, NamedOf, Whole, Unquoted;
    var v;
    if !Clean(m.value, STRICT) {
      v := FaultIsNoJson(m.value);
    } else {
      v := SomeWord(m.value);
    }
    PairIntro(m, v);
    p := PairText(m.key, v);
    PairIsWhole(m, p);
    forall n: nat ensures p !in Padded(NamedOf(JsonValue(n))) {
      NamedNotPadded(m.key, v, JsonValue(n));
    }
  }

  lemma {:induction false} MembersAreNoJson(members: seq<Member>, required: seq<string>) returns (t: string)
    requires ExpressibleMembers(members)
    requires !CleanMembers(members, STRICT) || !AllRequired(members, required)
    ensures t in CommasKept(members, required, EMITTED) && Unlisted(t)
    ensures t in Blank() ==> |members| == 1 && CleanMembers(members, STRICT)
    decreases members, 2
  {
    hide Padded, Reading, PairReading, Separated, CleanMember, Whole, Blank, Unlisted, AllRequired, JsonValue, NamedOf;
    NothingAtFault(required);
    assert members != [];
    var m, rest := members[0], members[1..];
    if !CleanMember(m, STRICT) {
      var p := PairIsNoJson(m);
      if |members| == 1 {
        t := p;
        PairUnlisted(p);
        NotBlank(t, '"');
      } else {
        t := HeadFault(members, required, p);
      }
    } else if m.key !in required {
      EmptyWhole();
      forall n: nat ensures "" !in Padded(NamedOf(JsonValue(n))) {
        EmptyIsNoPair(n);
      }
      if |members| == 1 {
        t := "";
        PairUnlisted("");
        OneClean(members);
      } else {
        t := HeadFault(members, required, "");
      }
    } else {
      assert !CleanMembers(rest, STRICT) || !AllRequired(rest, required) by { FaultInRest(members, required); }
      assert rest != [];
      var p := SomePair(m);
      var x := MembersAreNoJson(rest, required);
      t := JoinFirst(members, required, p, x);
      CommaUnlisted(p, x);
      CommaNotBlank(p, x);
    }
  }

  lemma EmptyWhole()
    ensures Whole("")
  {
  }

  lemma OneClean(members: seq<Member>)
    requires |members| == 1 && CleanMember(members[0], STRICT)
    ensures CleanMembers(members, STRICT)
  {
    assert members[1..] == [];
  }

  lemma FaultInRest(members: seq<Member>, required: seq<string>)
    requires members != [] && CleanMember(members[0], STRICT) && members[0].key in required
    requires !CleanMembers(members, STRICT) || !AllRequired(members, required)
    ensures members[1..] != [] && (!CleanMembers(members[1..], STRICT) || !AllRequired(members[1..], required))
  {
    hide CleanMember, AllRequired;
    NothingAtFault(required);
    if !AllRequired(members, required) {
      RestHasOptional(members, required);
    }
  }

  lemma NothingAtFault(required: seq<string>)
    ensures AllRequired([], required) && CleanMembers([], STRICT)
  {
  }

  lemma HeadFault(members: seq<Member>, required: seq<string>, p: string) returns (t: string)
    requires ExpressibleMembers(members) && |members| >= 2 && Whole(p)
    requires p in PairReading(members[0], EMITTED) || (p == "" && members[0].key !in required)
    requires forall n: nat :: p !in Padded(NamedOf(JsonValue(n)))
    ensures t in CommasKept(members, required, EMITTED) && Unlisted(t) && t !in Blank()
  {
    hide Padded, PairReading, Separated, Whole, Blank, Unlisted, JsonValue, NamedOf, CommasKept;
    var x := SomeMembers(members[1..], required);
    t := JoinFirst(members, required, p, x);
    CommaUnlisted(p, x);
    CommaNotBlank(p, x);
  }

  // A schema that is not clean derives a word that is no JSON text.
  lemma {:induction false} FaultIsNoJson(schema: Json) returns (w: string)
    requires Expressible(schema) && !Clean(schema, STRICT)
    ensures w in Reading(schema, EMITTED) && !IsJsonText(w)
    decreases schema, 5
  {
    hide SchemaKind, IsJsonText, Choices, ValueText, ScalarIn;
    if HasEnum(schema) {
      w := ChoiceIsNoJson(Get(schema, "enum").value.items);
    } else if HasConst(schema) {
      w := ValueText(Get(schema, "const").value);
      LiteralIsNoJson(Get(schema, "const").value);
    } else if IsObject(schema) {
      w := ObjectIsNoJson(schema);
    } else if IsArray(schema) {
      w := ArrayIsNoJson(schema);
    } else {
      w := ScalarIsNoJson(SchemaKind(schema));
    }
  }

  lemma LiteralIsNoJson(v: Json)
    requires ExpressibleValue(v) && !NeedsNoEscape(v)
    ensures !IsJsonText(ValueText(v))
  {
    hide IsJsonText, AllPlain;
    RawTextIsNoJson(v.s);
  }

  lemma ChoiceIsNoJson(values: seq<Json>) returns (w: string)
    requires forall i :: 0 <= i < |values| ==> ExpressibleValue(values[i])
    requires values == [] || exists i :: 0 <= i < |values| && !NeedsNoEscape(values[i])
    ensures w in Choices(values, EMITTED) && !IsJsonText(w)
  {
    hide IsJsonText, ValueText, ExpressibleValue, NeedsNoEscape;
    if values == [] {
      w := "";
      JsonIsNotEmpty();
    } else {
      var i :| 0 <= i < |values| && !NeedsNoEscape(values[i]);
      w := ValueText(values[i]);
      LiteralIsNoJson(values[i]);
    }
  }

  lemma ScalarIsNoJson(kind: Kind) returns (w: string)
    requires IsScalar(kind) && kind != KBoolean && kind != KNull
    ensures w in ScalarIn(kind, EMITTED) && !IsJsonText(w)
  {
    hide IsJsonText, StringToken, NumberToken, IntegerToken;
    ZerosAreEmitted();
    RawNewlineShows();
    ZerosAreNoJson();
    RawNewlineIsNoJson();
    w := if kind == KString then RAW_NEWLINE else ZEROS;
  }

  lemma ArrayIsNoJson(schema: Json) returns (w: string)
    requires Expressible(schema) && IsArray(schema) && !Clean(schema, STRICT)
    ensures w in Reading(schema, EMITTED) && !IsJsonText(w)
    decreases schema, 4
  {
    hide SchemaKind, IsJsonText, Enclosed, ListOf, Maybe, Comma, AnyItem;
    if Get(schema, "items").Some? {
      var items := Get(schema, "items").value;
      var v := FaultIsNoJson(items);
      ReadingFits(0, items, EMITTED);
      TwoItems(v, Reading(items, EMITTED));
      TwiceIsNoJson(v);
      w := "[" + (v + [','] + v) + "]";
    } else {
      ItemShows();
      AnyItemsFit(0);
      TwoItems(ZEROS, AnyItem());
      ZerosAreNoJson();
      TwiceIsNoJson(ZEROS);
      w := "[" + (ZEROS + [','] + ZEROS) + "]";
    }
  }

  lemma ObjectIsNoJson(schema: Json) returns (w: string)
    requires Expressible(schema) && IsObject(schema) && !Clean(schema, STRICT)
    ensures w in Reading(schema, EMITTED) && !IsJsonText(w)
    decreases schema, 4
  {
    hide SchemaKind, IsJsonText, Enclosed, MembersReading, CommasKept, AllRequired, Blank, Unlisted;
    if Get(schema, "properties").Some? {
      var members, required := Properties(schema), Required(schema);
      var t := MembersAreNoJson(members, required);
      KeptCommas(members, required, EMITTED);
      EnclosedIntro("{", t, "}", MembersReading(members, required, EMITTED));
      RecordIsNoJson(t);
      w := "{" + t + "}";
    } else {
      w := OpenObjectIsNoJson();
    }
  }

  lemma OpenObjectIsNoJson() returns (w: string)
    ensures w in Enclosed("{", Maybe(ListOf(AnyPair(), SpacedComma())), "}") && !IsJsonText(w)
  {
    var t := OpenPair();
    hide Padded, Blank, Enclosed, AnyPair, SpacedComma, JsonValue, NamedOf, PairText;
    OpenPairIsEmitted();
    OneInList(t, AnyPair());
    EnclosedIntro("{", t, "}", Maybe(ListOf(AnyPair(), SpacedComma())));
    AnyPairsFit(0);
    ZerosAreNoJson();
    forall n: nat ensures t !in Padded(NamedOf(JsonValue(n))) {
      NamedNotPadded("", ZEROS, JsonValue(n));
    }
    PairUnlisted(t);
    OpenPairStart();
    RecordIsNoJson(t);
    w := "{" + t + "}";
  }

  // ---------------------------------------------------------------- the theorem

  // Everything derivable from `root` is a JSON text exactly when the schema holds none of the deviations.
  lemma DerivesOnlyJsonIff(schema: Json)
    requires Expressible(schema) && PathsDistinct(schema) && ProperNumbers(schema)
    ensures Compile(schema).Ok?
    ensures (forall w :: w in Language(Compile(schema).value, "root") ==> IsJsonText(w)) <==> Clean(schema, STRICT)
  {
    hide Reading, Language, Compile, Clean, PathsDistinct, ProperNumbers, JsonValue, Padded;
    CompilationPreservesMeaning(schema);
    if Clean(schema, STRICT) {
      CleanAgrees(schema, STRICT);
      var n := ReadingIsJson(schema);
      forall w | w in Reading(schema, EMITTED) ensures IsJsonText(w) {
        ValueIsText(w, n);
      }
    } else {
      var w := FaultIsNoJson(schema);
    }
  }

  lemma ValueIsText(w: string, n: nat)
    requires w in JsonValue(n)
    ensures IsJsonText(w)
  {
    hide JsonValue, Padded;
    BlankHasEmpty();
    PaddedIntro("", w, "", JsonValue(n));
    assert "" + (w + "") == w;
  }
}
