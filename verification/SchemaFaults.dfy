// When the emitted grammar means what another style of reading wants. The styles name three deviations:
// blanks for empty enums, commas that stay without their pair, and tokens that are no JSON.
module SchemaFaults {
  import opened Text
  import opened Json
  import opened Grammar
  import opened SchemaModel
  import opened SchemaNames
  import opened SchemaUniqueness
  import opened Languages
  import opened SchemaReading
  import opened Nesting
  import opened SchemaNesting
  import opened SchemaPadding
  import opened SchemaTokens
  import opened SchemaTheorems

  // An empty enum stands for nothing.
  const NO_BLANK_ENUMS := Style(false, true, true)
  // An omitted pair takes its comma along.
  const NO_STRAY_COMMAS := Style(true, false, true)
  // Strings, numbers and literals are JSON texts.
  const JSON_TOKENS := Style(true, true, false)

  predicate AllRequired(members: seq<Member>, required: seq<string>) {
    forall i :: 0 <= i < |members| ==> members[i].key in required
  }

  // Written as it stands, the literal is its JSON text.
  predicate NeedsNoEscape(v: Json) {
    v.JString? ==> AllPlain(v.s)
  }

  // Nothing the compiler reads is read differently in this style.
  predicate Clean(schema: Json, style: Style)
    decreases schema, 1
  {
    if HasEnum(schema) then
      var values := Get(schema, "enum").value.items;
      && (style.blankForEmptyEnum || values != [])
      && (style.rawTokens || forall i :: 0 <= i < |values| ==> NeedsNoEscape(values[i]))
    else if HasConst(schema) then style.rawTokens || NeedsNoEscape(Get(schema, "const").value)
    else if IsObject(schema) then
      (match Get(schema, "properties")
       case Some(JObject(members)) =>
         && CleanMembers(members, style)
         && (style.keepCommas || |members| <= 1 || AllRequired(members, Required(schema)))
       case _ => style.rawTokens)
    else if IsArray(schema) then
      (match Get(schema, "items")
       case Some(items) => Clean(items, style)
       case None => style.rawTokens)
    else style.rawTokens || SchemaKind(schema) == KBoolean || SchemaKind(schema) == KNull
  }

  predicate CleanMember(m: Member, style: Style)
    decreases m, 0
  {
    Clean(m.value, style) && (style.rawTokens || AllPlain(m.key))
  }

  predicate CleanMembers(members: seq<Member>, style: Style)
    decreases members, 0
  {
    members == [] || (CleanMember(members[0], style) && CleanMembers(members[1..], style))
  }

  // ---------------------------------------------------------------- clean schemas

  // Without optional pairs, or with a single one, it does not matter what happens to commas.
  lemma {:induction false} NoCommasToLose(members: seq<Member>, required: seq<string>, style: Style)
    requires AllRequired(members, required) && members != []
    ensures Selected(members, required, style) == CommasKept(members, required, style)
  {
    hide PairReading, Separated;
    var rest := members[1..];
    if rest == [] {
      NothingFollows(PairReading(members[0], style));
    } else {
      NoCommasToLose(rest, required, style);
      assert rest[0].key in required;
    }
  }

  lemma NothingFollows(first: Lang)
    ensures Separated(first, iset{}) == iset{}
  {
    forall w | w in Separated(first, iset{}) ensures false {
      var f, s, t, n := SeparatedSplit(w, first, iset{});
    }
  }

  lemma ShapesAgree(members: seq<Member>, required: seq<string>, style: Style)
    requires |members| <= 1 || AllRequired(members, required)
    ensures MembersReading(members, required, style) == CommasKept(members, required, style)
  {
    hide PairReading, Separated;
    if members == [] {
      assert Maybe(iset{}) == Word("");
    } else if AllRequired(members, required) {
      NoCommasToLose(members, required, style);
      assert members[0].key in required;
    } else {
      NothingFollows(PairReading(members[0], style));
      assert Selected(members[1..], required, style) == iset{};
    }
  }

  lemma {:induction false} CleanAgrees(schema: Json, style: Style)
    requires Expressible(schema) && Clean(schema, style)
    ensures Reading(schema, style) == Reading(schema, EMITTED)
    decreases schema, 2
  {
    hide Enclosed, ListOf, Maybe, Choices, MembersReading, Comma, ItemIn, OpenPairIn, SchemaKind, ScalarIn, Word;
    if HasEnum(schema) {
      ChoicesAgree(Get(schema, "enum").value.items, style);
    } else if HasConst(schema) {
      LiteralAgrees(Get(schema, "const").value, style);
    } else if IsObject(schema) {
      if Get(schema, "properties").Some? {
        var members, required := Properties(schema), Required(schema);
        CleanMembersAgree(members, required, style);
        if style.keepCommas {
          KeptCommas(members, required, style);
        } else {
          ShapesAgree(members, required, style);
        }
        KeptCommas(members, required, EMITTED);
      } else {
        OpenAgree(style);
      }
    } else if IsArray(schema) {
      if Get(schema, "items").Some? {
        CleanAgrees(Get(schema, "items").value, style);
      } else {
        OpenAgree(style);
      }
    } else {
      ScalarsAgree(SchemaKind(schema), style);
    }
  }

  lemma LiteralAgrees(v: Json, style: Style)
    requires style.rawTokens || NeedsNoEscape(v)
    ensures Literal(v, style) == ValueText(v)
  {
    ValueTextIsJsonIff(v);
  }

  lemma ChoicesAgree(values: seq<Json>, style: Style)
    requires style.blankForEmptyEnum || values != []
    requires style.rawTokens || forall i :: 0 <= i < |values| ==> NeedsNoEscape(values[i])
    ensures Choices(values, style) == Choices(values, EMITTED)
  {
    hide NeedsNoEscape, ValueText, Print;
    if !style.rawTokens {
      forall i | 0 <= i < |values| ensures Print(values[i]) == ValueText(values[i]) {
        LiteralAgrees(values[i], style);
      }
      SameTexts(values);
    }
  }

  lemma SameTexts(values: seq<Json>)
    requires forall i :: 0 <= i < |values| ==> Print(values[i]) == ValueText(values[i])
    ensures Printed(values) == OneOf(values)
  {
    hide ValueText, Print;
    forall w ensures w in Printed(values) <==> w in OneOf(values) {
      if w in Printed(values) {
        var i: nat :| i < |values| && w == Print(values[i]);
        assert w == ValueText(values[i]);
      }
      if w in OneOf(values) {
        var i: nat :| i < |values| && w == ValueText(values[i]);
        assert w == Print(values[i]);
      }
    }
  }

  lemma OpenAgree(style: Style)
    requires style.rawTokens
    ensures ItemIn(style) == ItemIn(EMITTED) && OpenPairIn(style) == OpenPairIn(EMITTED)
  {
  }

  lemma ScalarsAgree(kind: Kind, style: Style)
    requires IsScalar(kind) && (style.rawTokens || kind == KBoolean || kind == KNull)
    ensures ScalarIn(kind, style) == ScalarIn(kind, EMITTED)
  {
  }

  lemma KeptCommas(members: seq<Member>, required: seq<string>, style: Style)
    requires style.keepCommas
    ensures MembersReading(members, required, style) == CommasKept(members, required, style)
  {
  }

  lemma {:induction false} CleanMembersAgree(members: seq<Member>, required: seq<string>, style: Style)
    requires ExpressibleMembers(members) && CleanMembers(members, style)
    ensures CommasKept(members, required, style) == CommasKept(members, required, EMITTED)
    decreases members, 1
  {
    hide Reading, Separated, Cat, Maybe, KeyText, AllPlain;
    if members != [] {
      SameKey(members[0].key, style);
      CleanAgrees(members[0].value, style);
      CleanMembersAgree(members[1..], required, style);
    }
  }

  // ---------------------------------------------------------------- some word

  lemma ScalarWord(kind: Kind) returns (w: string)
    requires IsScalar(kind)
    ensures w in ScalarReading(kind)
  {
    match kind
    case KString => w := "\"\"";
      assert w[1..1] == "";
    case KNumber => w := "0";
      NumberWord();
    case KInteger => w := "0";
      IntegerWord();
    case KBoolean => w := "true";
    case KNull => w := "null";
  }

  lemma ZeroIsDigits()
    ensures "0" in DigitRun()
  {
    assert AllDigits("0");
  }

  lemma IntegerWord()
    ensures "0" in IntegerToken()
  {
    hide DigitRun, Cat, Maybe;
    ZeroIsDigits();
    EmptyIsMaybe(Word("-"));
    EmptyLeft("0", Maybe(Word("-")), DigitRun());
  }

  lemma NumberWord()
    ensures "0" in NumberToken()
  {
    hide DigitRun, Cat, Maybe;
    ZeroIsDigits();
    EmptyIsMaybe(Word("-"));
    EmptyIsMaybe(Cat(Word("."), DigitRun()));
    EmptyIsMaybe(Cat(Word("e") + Word("E"), Cat(Maybe(Word("+") + Word("-")), DigitRun())));
    EmptyLeft("", Fraction(), Exponent());
    CatIntro("0", "", DigitRun(), Cat(Fraction(), Exponent()));
    assert "0" + "" == "0";
    EmptyLeft("0", Maybe(Word("-")), Cat(DigitRun(), Cat(Fraction(), Exponent())));
  }

  lemma ChoiceWord(values: seq<Json>) returns (w: string)
    ensures w in Choices(values, EMITTED)
  {
    if values == [] {
      w := "";
    } else {
      w := ValueText(values[0]);
      assert w in OneOf(values);
    }
  }

  // The emitted grammar derives some word for every schema.
  lemma {:induction false} SomeWord(schema: Json) returns (w: string)
    requires Expressible(schema)
    ensures w in Reading(schema, EMITTED)
    decreases schema, 2
  {
    hide Enclosed, ListOf, MembersReading, Comma, AnyItem, AnyPair, SchemaKind, ScalarReading, Choices, ValueText;
    if HasEnum(schema) {
      w := ChoiceWord(Get(schema, "enum").value.items);
    } else if HasConst(schema) {
      w := ValueText(Get(schema, "const").value);
    } else if IsObject(schema) {
      if Get(schema, "properties").Some? {
        var members, required := Properties(schema), Required(schema);
        var t := SomeMembers(members, required);
        KeptCommas(members, required, EMITTED);
        EnclosedIntro("{", t, "}", MembersReading(members, required, EMITTED));
        w := "{" + t + "}";
      } else {
        EnclosedIntro("{", "", "}", Maybe(ListOf(AnyPair(), SpacedComma())));
        w := "{" + "" + "}";
      }
    } else if IsArray(schema) {
      var item := if Get(schema, "items").Some? then Reading(Get(schema, "items").value, EMITTED) else AnyItem();
      EnclosedIntro("[", "", "]", Maybe(ListOf(item, Comma())));
      w := "[" + "" + "]";
    } else {
      w := ScalarWord(SchemaKind(schema));
    }
  }

  lemma SomePair(m: Member) returns (w: string)
    requires Unquoted(m.key) && Expressible(m.value)
    ensures w in PairReading(m, EMITTED) && w != "" && w[0] == '"' && Whole(w)
    decreases m, 3
  {
    hide Reading, PairReading;
    var v := SomeWord(m.value);
    PairIntro(m, v);
    w := PairText(m.key, v);
    ReadingFits(0, m.value, EMITTED);
    PairFits(0, m, EMITTED);
  }

  lemma {:induction false} SomeMembers(members: seq<Member>, required: seq<string>) returns (t: string)
    requires ExpressibleMembers(members)
    ensures t in CommasKept(members, required, EMITTED)
    decreases members, 4
  {
    hide Reading, PairReading, Separated;
    if members == [] {
      t := "";
    } else {
      var p := SomePair(members[0]);
      if |members| == 1 {
        t := p;
      } else {
        var x := SomeMembers(members[1..], required);
        t := JoinFirst(members, required, p, x);
      }
    }
  }

  // A first pair and the words of the rest.
  lemma JoinFirst(members: seq<Member>, required: seq<string>, p: string, x: string) returns (t: string)
    requires |members| >= 2 && x in CommasKept(members[1..], required, EMITTED)
    requires p in PairReading(members[0], EMITTED) || (p == "" && members[0].key !in required)
    ensures t == p + [','] + x && t in CommasKept(members, required, EMITTED)
  {
    hide PairReading, Separated;
    var pair := PairReading(members[0], EMITTED);
    var first := if members[0].key in required then pair else Maybe(pair);
    SeparatedIntro(p, x, first, CommasKept(members[1..], required, EMITTED));
    t := p + [','] + x;
  }

  // ---------------------------------------------------------------- faults show

  // A schema that is not clean derives a word that its reading in that style does not contain, not even
  // with blanks around it.
  lemma {:induction false} FaultShows(schema: Json, style: Style) returns (w: string)
    requires Expressible(schema) && !Clean(schema, style)
    ensures w in Reading(schema, EMITTED) && w !in Padded(Reading(schema, style))
    decreases schema, 5
  {
    hide SchemaKind, Padded, Choices, ValueText, ScalarIn;
    if HasEnum(schema) {
      w := EnumFault(Get(schema, "enum").value.items, style);
    } else if HasConst(schema) {
      w := ValueText(Get(schema, "const").value);
      LiteralShows(Get(schema, "const").value, [], style);
    } else if IsObject(schema) {
      w := ObjectFault(schema, style);
    } else if IsArray(schema) {
      w := ArrayFault(schema, style);
    } else {
      w := ScalarFault(SchemaKind(schema), style);
    }
  }

  lemma EnumFault(values: seq<Json>, style: Style) returns (w: string)
    requires forall i :: 0 <= i < |values| ==> ExpressibleValue(values[i])
    requires || (values == [] && !style.blankForEmptyEnum)
             || (!style.rawTokens && exists i :: 0 <= i < |values| && !NeedsNoEscape(values[i]))
    ensures w in Choices(values, EMITTED) && w !in Padded(Choices(values, style))
  {
    hide Padded, ValueText, Print, ExpressibleValue, NeedsNoEscape;
    if values == [] {
      w := "";
      NothingPadded();
      assert OneOf([]) == iset{} && Printed([]) == iset{};
    } else {
      var i :| 0 <= i < |values| && !NeedsNoEscape(values[i]);
      w := ValueText(values[i]);
      NeedsEscape(values[i]);
      LiteralShows(values[i], values, style);
    }
  }

  lemma NeedsEscape(v: Json)
    requires !NeedsNoEscape(v)
    ensures v.JString? && !AllPlain(v.s)
  {
  }

  lemma ScalarFault(kind: Kind, style: Style) returns (w: string)
    requires IsScalar(kind) && !style.rawTokens && kind != KBoolean && kind != KNull
    ensures w in ScalarIn(kind, EMITTED) && w !in Padded(ScalarIn(kind, style))
  {
    hide Padded, ScalarReading, JsonScalar;
    w := ScalarShows(kind);
  }

  lemma ArrayFault(schema: Json, style: Style) returns (w: string)
    requires Expressible(schema) && IsArray(schema) && !Clean(schema, style)
    ensures w in Reading(schema, EMITTED) && w !in Padded(Reading(schema, style))
    decreases schema, 4
  {
    hide SchemaKind, Padded, Enclosed, ListOf, Maybe, Comma, AnyItem, JsonItem;
    if Get(schema, "items").Some? {
      var items := Get(schema, "items").value;
      var v := FaultShows(items, style);
      ReadingFits(0, items, EMITTED);
      ReadingFits(0, items, style);
      w := TwiceShows(v, Reading(items, EMITTED), Reading(items, style));
    } else {
      ItemShows();
      AnyItemsFit(0);
      JsonItemsFit(0);
      w := TwiceShows(ZEROS, AnyItem(), JsonItem());
    }
  }

  lemma TwiceShows(v: string, emitted: Lang, wanted: Lang) returns (w: string)
    requires v in emitted && v !in Padded(wanted) && AllFit(0, emitted) && AllFit(0, wanted)
    ensures w in Enclosed("[", Maybe(ListOf(emitted, Comma())), "]")
    ensures w !in Padded(Enclosed("[", Maybe(ListOf(wanted, Comma())), "]"))
  {
    hide Padded, Enclosed, ListOf, Maybe, Comma;
    TwoItems(v, emitted);
    w := "[" + (v + [','] + v) + "]";
    ArrayNotPadded(v, wanted);
  }

  lemma TwoItems(v: string, item: Lang)
    requires v in item
    ensures "[" + (v + [','] + v) + "]" in Enclosed("[", Maybe(ListOf(item, Comma())), "]")
  {
    hide Enclosed, Cat, Blank;
    BlankHasEmpty();
    CatIntro(",", "", Word(","), Blank());
    assert "," + "" == ",";
    hide Comma;
    assert Listed(item, Comma(), 1) == item;
    OneMore(item, Comma(), v, ",", v, 1);
    Assoc(v, ",", v);
    assert IsListed(item, Comma(), v + [','] + v);
    EnclosedIntro("[", v + [','] + v, "]", Maybe(ListOf(item, Comma())));
  }

  lemma ObjectFault(schema: Json, style: Style) returns (w: string)
    requires Expressible(schema) && IsObject(schema) && !Clean(schema, style)
    ensures w in Reading(schema, EMITTED) && w !in Padded(Reading(schema, style))
    decreases schema, 4
  {
    hide SchemaKind, Padded, Enclosed, MembersReading, CommasKept, AllRequired, ListOf, Maybe, AnyPair, JsonPair;
    if Get(schema, "properties").Some? {
      var members, required := Properties(schema), Required(schema);
      var t := MembersFault(members, required, style);
      KeptCommas(members, required, EMITTED);
      EnclosedIntro("{", t, "}", MembersReading(members, required, EMITTED));
      ObjectNotPadded(t, MembersReading(members, required, style));
      w := "{" + t + "}";
    } else {
      w := OpenObjectShows();
    }
  }

  lemma MembersFault(members: seq<Member>, required: seq<string>, style: Style) returns (t: string)
    requires ExpressibleMembers(members)
    requires || !CleanMembers(members, style)
             || (!style.keepCommas && |members| >= 2 && !AllRequired(members, required))
    ensures t in CommasKept(members, required, EMITTED)
    ensures t !in Padded(MembersReading(members, required, style))
    decreases members, 3
  {
    hide Padded, CommasKept, Selected, AllRequired, CleanMembers;
    if style.keepCommas {
      t := ValueFault(members, required, style);
      KeptCommas(members, required, style);
    } else if |members| <= 1 || AllRequired(members, required) {
      t := ValueFault(members, required, style);
      ShapesAgree(members, required, style);
    } else {
      t := CommaFault(members, required, style);
      MaybePadded(t, Selected(members, required, style));
    }
  }

  // A value that is not clean, or a name that lacks an escape, shows in the pair.
  lemma PairFault(m: Member, style: Style) returns (p: string)
    requires Unquoted(m.key) && Expressible(m.value) && !CleanMember(m, style)
    ensures p in PairReading(m, EMITTED) && p !in Padded(Maybe(PairReading(m, style)))
    decreases m, 6
  {
    hide Padded, Reading, PairReading, Clean, AllPlain;
    var v;
    if !Clean(m.value, style) {
      v := FaultShows(m.value, style);
    } else {
      v := SomeWord(m.value);
    }
    PairIntro(m, v);
    p := PairText(m.key, v);
    PairNotPadded(m, v, style);
  }

  // And in the list of pairs.
  lemma {:induction false} ValueFault(members: seq<Member>, required: seq<string>, style: Style) returns (t: string)
    requires ExpressibleMembers(members) && !CleanMembers(members, style)
    ensures t in CommasKept(members, required, EMITTED)
    ensures t !in Padded(CommasKept(members, required, style))
    decreases members, 2
  {
    hide Padded, Reading, PairReading, Separated, CleanMember, AllFit, Whole;
    var m, rest := members[0], members[1..];
    var pair := PairReading(m, style);
    var first := if m.key in required then pair else Maybe(pair);
    FirstFits(m, required, style);
    if !CleanMember(m, style) {
      var p := PairFault(m, style);
      FewerPadded(p, pair);
      if |members| == 1 {
        t := p;
      } else {
        var x := SomeMembers(rest, required);
        t := JoinFirst(members, required, p, x);
        PairIsWhole(m, p);
        SeparatedNotPadded(p, x, first, CommasKept(rest, required, style));
      }
    } else {
      var p := SomePair(m);
      var x := ValueFault(rest, required, style);
      assert rest != [];
      t := JoinFirst(members, required, p, x);
      SeparatedNotPadded(p, x, first, CommasKept(rest, required, style));
    }
  }

  lemma FirstFits(m: Member, required: seq<string>, style: Style)
    requires Unquoted(m.key) && Expressible(m.value)
    ensures var pair := PairReading(m, style); AllFit(0, pair) && AllFit(0, Maybe(pair))
  {
    hide PairReading, Reading;
    ReadingFits(0, m.value, style);
    PairFits(0, m, style);
    MaybeFits(0, PairReading(m, style));
  }

  lemma PairIsWhole(m: Member, p: string)
    requires Unquoted(m.key) && Expressible(m.value) && p in PairReading(m, EMITTED)
    ensures Whole(p)
  {
    FirstFits(m, [], EMITTED);
  }

  // Leaving out an optional pair but not its comma shows.
  lemma {:induction false} CommaFault(members: seq<Member>, required: seq<string>, style: Style) returns (t: string)
    requires ExpressibleMembers(members) && !AllRequired(members, required)
    ensures t in CommasKept(members, required, EMITTED)
    ensures t !in Padded(Selected(members, required, style))
    ensures |members| >= 2 ==> t !in Blank()
    decreases members, 2
  {
    hide Padded, Reading, PairReading, Separated, AllFit, Whole, Blank, Selected, CommasKept;
    var m, rest := members[0], members[1..];
    if m.key !in required {
      if |members| == 1 {
        t := "";
        MayBeLeftOut(members, required);
      } else {
        var x := SomeMembers(rest, required);
        t := JoinFirst(members, required, "", x);
        NotBlank(t, ',');
      }
      NoPairInFront(t, members, required, style);
    } else {
      assert !AllRequired(rest, required) by { RestHasOptional(members, required); }
      var p := SomePair(m);
      var x := CommaFault(rest, required, style);
      t := JoinFirst(members, required, p, x);
      NotBlank(t, '"');
      SelectionNotPadded(members, required, style, p, x);
    }
  }

  // Behind a required pair, no padded selection of the rest gives no padded selection.
  lemma SelectionNotPadded(members: seq<Member>, required: seq<string>, style: Style, p: string, x: string)
    requires members != [] && members[0].key in required && Whole(p)
    requires Unquoted(members[0].key) && Expressible(members[0].value)
    requires x !in Padded(Selected(members[1..], required, style))
    ensures p + [','] + x !in Padded(Selected(members, required, style))
  {
    hide Padded, Reading, PairReading, Separated, AllFit, Whole, Expressible;
    var pair, later := PairReading(members[0], style), Selected(members[1..], required, style);
    FirstFits(members[0], required, style);
    SeparatedNotPadded(p, x, pair, later);
    WholeNotPadded(p, x, pair);
    PaddedUnion(p + [','] + x, Separated(pair, later), pair);
  }

  lemma MayBeLeftOut(members: seq<Member>, required: seq<string>)
    requires |members| == 1 && members[0].key !in required
    ensures "" in CommasKept(members, required, EMITTED)
  {
  }

  lemma RestHasOptional(members: seq<Member>, required: seq<string>)
    requires members != [] && members[0].key in required && !AllRequired(members, required)
    ensures !AllRequired(members[1..], required)
  {
    var i :| 0 <= i < |members| && members[i].key !in required;
    assert members[1..][i - 1] == members[i];
  }

  // Every selection starts with a quoted key.
  lemma {:induction false} SelectedStart(w: string, members: seq<Member>, required: seq<string>, style: Style)
    requires w in Selected(members, required, style)
    ensures w != "" && w[0] == '"'
  {
    hide Reading, PairReading, Separated;
    var m, rest := members[0], members[1..];
    var pair, later := PairReading(m, style), Selected(rest, required, style);
    if w in Separated(pair, later) {
      var f, s, t, n := SeparatedSplit(w, pair, later);
      var s2, t2, v := PairSplit(f, m, style);
      assert w[0] == f[0];
    } else if w in pair {
      var s2, t2, v := PairSplit(w, m, style);
    } else {
      SelectedStart(w, rest, required, style);
    }
  }

  lemma PaddedStart(x: string, members: seq<Member>, required: seq<string>, style: Style)
    requires x in Padded(Selected(members, required, style))
    ensures x != "" && (InClass(Blanks, x[0]) || x[0] == '"')
  {
    hide Padded, Selected;
    var s, w, u := PaddedSplit(x, Selected(members, required, style));
    SelectedStart(w, members, required, style);
    BlankEnds(s, w + u);
    assert s == "" ==> s + (w + u) == w + u;
  }

  lemma NoPairInFront(t: string, members: seq<Member>, required: seq<string>, style: Style)
    requires t == "" || t[0] == ','
    ensures t !in Padded(Selected(members, required, style))
  {
    hide Padded, Selected;
    if t in Padded(Selected(members, required, style)) {
      PaddedStart(t, members, required, style);
    }
  }

  // ---------------------------------------------------------------- the theorems

  // The words derivable from `root` are those of the reading in any style exactly when the schema holds
  // nothing that this style reads differently.
  lemma MeansWhatIsWantedIff(schema: Json, style: Style)
    requires Expressible(schema) && PathsDistinct(schema)
    ensures Compile(schema).Ok?
    ensures Language(Compile(schema).value, "root") == Reading(schema, style) <==> Clean(schema, style)
  {
    hide Reading, Language, Compile, Clean, Padded, PathsDistinct;
    CompilationPreservesMeaning(schema);
    if Clean(schema, style) {
      CleanAgrees(schema, style);
    } else {
      var w := FaultShows(schema, style);
      NotPaddedNotIn(w, Reading(schema, style));
    }
  }
}
