// Telling words apart when blanks may stand around them: if a word is no padded word of a language,
// putting it in an array, an object or a list of pairs gives no padded word of the larger language.
module SchemaPadding {
  import opened Text
  import opened Grammar
  import opened Languages
  import opened SchemaReading
  import opened Nesting
  import opened SchemaNesting

  // With blanks on either side.
  ghost function Padded(l: Lang): Lang {
    Cat(Blank(), Cat(l, Blank()))
  }

  lemma PaddedIntro(s: string, w: string, t: string, l: Lang)
    requires s in Blank() && w in l && t in Blank()
    ensures s + (w + t) in Padded(l)
  {
    hide Cat, Blank;
    CatIntro(w, t, l, Blank());
    CatIntro(s, w + t, Blank(), Cat(l, Blank()));
  }

  lemma PaddedSplit(x: string, l: Lang) returns (s: string, w: string, t: string)
    requires x in Padded(l)
    ensures s in Blank() && w in l && t in Blank() && x == s + (w + t)
  {
    hide Cat, Blank;
    var rest;
    s, rest := CatSplit(x, Blank(), Cat(l, Blank()));
    w, t := CatSplit(rest, l, Blank());
  }

  lemma BlankEnds(s: string, x: string)
    requires s in Blank()
    ensures s != "" ==> InClass(Blanks, (s + x)[0]) && InClass(Blanks, (x + s)[|x + s| - 1])
  {
    assert s != "" ==> InClass(Blanks, s[0]) && InClass(Blanks, s[|s| - 1]);
  }

  lemma BlankConcat(s: string, t: string)
    requires s in Blank() && t in Blank()
    ensures s + t in Blank()
  {
    var w := s + t;
    forall i | 0 <= i < |w| ensures InClass(Blanks, w[i]) {
      assert w[i] == if i < |s| then s[i] else t[i - |s|];
      assert i < |s| ==> InClass(Blanks, s[i]);
      assert i >= |s| ==> InClass(Blanks, t[i - |s|]);
    }
    assert AllBlank(w);
  }

  // If a text starts with no blank, the blanks in front of it are none.
  lemma NoBlankInFront(s: string, x: string, w: string)
    requires s in Blank() && s + x == w && w != "" && !InClass(Blanks, w[0])
    ensures s == "" && x == w
  {
    BlankEnds(s, x);
    assert (s + x)[0] == w[0];
    assert s == "";
    assert "" + x == x;
  }

  lemma SameTail(k: string, x: string, y: string)
    requires k + x == k + y
    ensures x == y
  {
    assert x == (k + x)[|k|..] && y == (k + y)[|k|..];
  }

  // A padded separated text, cut at its first comma outside brackets.
  lemma PaddedSeparatedSplit(w: string, first: Lang, next: Lang) returns (a: string, b: string)
    requires w in Padded(Separated(first, next)) && AllFit(0, first)
    ensures a in Padded(first) && b in Padded(next) && Whole(a) && w == a + [','] + b
  {
    hide Blank, Padded, Separated;
    var s, x, t := PaddedSplit(w, Separated(first, next));
    var f, s2, t2, n := SeparatedSplit(x, first, next);
    PaddedIntro(s, f, s2, first);
    PaddedIntro(t2, n, t, next);
    a, b := s + (f + s2), t2 + (n + t);
    BlankFits(0);
    FitsConcat(0, f, s2);
    FitsConcat(0, s, f + s2);
    CommaBetween(s, f + s2, t2, n, t);
  }

  lemma CommaBetween(s: string, f: string, t: string, n: string, u: string)
    ensures s + ((f + [','] + (t + n)) + u) == (s + f) + [','] + (t + (n + u))
  {
    Assoc(t, n, u);
    Assoc(f + [','], t + n, u);
    Assoc(s, f, [',']);
    Assoc(s, f + [','], (t + n) + u);
  }

  // A whole first part that is no padded first, or a rest that is no padded rest, gives no padded whole.
  lemma SeparatedNotPadded(p: string, x: string, first: Lang, next: Lang)
    requires Whole(p) && AllFit(0, first)
    requires p !in Padded(first) || x !in Padded(next)
    ensures p + [','] + x !in Padded(Separated(first, next))
  {
    hide Padded, Separated, Whole;
    if p + [','] + x in Padded(Separated(first, next)) {
      var a, b := PaddedSeparatedSplit(p + [','] + x, first, next);
      CutIsUnique(p, ',', x, a, ',', b);
    }
  }

  lemma NothingPadded()
    ensures Padded(iset{}) == iset{}
  {
    forall w | w in Padded(iset{}) ensures false {
      var s, x, t := PaddedSplit(w, iset{});
    }
  }

  lemma MaybePadded(t: string, l: Lang)
    requires t !in Padded(l) && t !in Blank()
    ensures t !in Padded(Maybe(l))
  {
    hide Padded;
    if t in Padded(Maybe(l)) {
      var s, w, u := PaddedSplit(t, Maybe(l));
      assert w == "" ==> w + u == u;
      if w in l {
        PaddedIntro(s, w, u, l);
      } else {
        BlankConcat(s, u);
      }
    }
  }

  lemma FewerPadded(p: string, l: Lang)
    requires p !in Padded(Maybe(l))
    ensures p !in Padded(l)
  {
    hide Padded;
    if p in Padded(l) {
      var s, w, t := PaddedSplit(p, l);
      PaddedIntro(s, w, t, Maybe(l));
    }
  }

  lemma NotBlank(t: string, c: char)
    requires t != "" && t[0] == c && !InClass(Blanks, c)
    ensures t !in Blank()
  {
    assert t + "" == t;
    if t in Blank() {
      BlankEnds(t, "");
    }
  }

  lemma WholeNotPadded(p: string, x: string, l: Lang)
    requires Whole(p) && AllFit(0, l)
    ensures p + [','] + x !in Padded(l)
  {
    hide Padded, Blank;
    if p + [','] + x in Padded(l) {
      var s, w, t := PaddedSplit(p + [','] + x, l);
      BlankFits(0);
      FitsConcat(0, w, t);
      FitsConcat(0, s, w + t);
      WholeHasNoCut(p, ',', x);
    }
  }

  // The words of Selected for a list whose first pair is required.
  lemma PaddedUnion(t: string, a: Lang, b: Lang)
    requires t !in Padded(a) && t !in Padded(b)
    ensures t !in Padded(a + b + iset{}) && t !in Padded(a + iset{} + iset{})
  {
    hide Padded;
    if t in Padded(a + b + iset{}) {
      var s, w, u := PaddedSplit(t, a + b + iset{});
      if w in a {
        PaddedIntro(s, w, u, a);
      } else {
        PaddedIntro(s, w, u, b);
      }
    }
    if t in Padded(a + iset{} + iset{}) {
      var s, w, u := PaddedSplit(t, a + iset{} + iset{});
      PaddedIntro(s, w, u, a);
    }
  }

  lemma NotPaddedNotIn(w: string, l: Lang)
    requires w !in Padded(l)
    ensures w !in l
  {
    hide Padded;
    assert "" + (w + "") == w;
    BlankHasEmpty();
    if w in l {
      PaddedIntro("", w, "", l);
    }
  }

  lemma PaddedMono(x: string, l: Lang, m: Lang)
    requires l <= m && x in Padded(l)
    ensures x in Padded(m)
  {
    hide Padded, Blank;
    var s, w, t := PaddedSplit(x, l);
    PaddedIntro(s, w, t, m);
  }

  // ---------------------------------------------------------------- lists

  lemma {:induction false} ListedMono(item: Lang, more: Lang, sep: Lang, wider: Lang, count: nat)
    requires item <= more && sep <= wider && count >= 1
    ensures Listed(item, sep, count) <= Listed(more, wider, count)
  {
    if count > 1 {
      ListedMono(item, more, sep, wider, count - 1);
    }
  }

  lemma ListMono(item: Lang, more: Lang, sep: Lang, wider: Lang)
    requires item <= more && sep <= wider
    ensures ListOf(item, sep) <= ListOf(more, wider)
  {
    hide Listed;
    forall w | w in ListOf(item, sep) ensures w in ListOf(more, wider) {
      var count: nat :| count >= 1 && w in Listed(item, sep, count);
      ListedMono(item, more, sep, wider, count);
      assert IsListed(more, wider, w);
    }
  }

  lemma CommaIsSpaced()
    ensures Comma() <= SpacedComma()
  {
    hide Blank, Cat;
    BlankHasEmpty();
    forall w | w in Comma() ensures w in SpacedComma() {
      EmptyLeft(w, Blank(), Comma());
    }
  }

  // A list is an item, or an item, a comma and a list.
  lemma ListUnfold(w: string, item: Lang)
    requires w in ListOf(item, SpacedComma())
    ensures w in item || w in Separated(item, ListOf(item, SpacedComma()))
  {
    hide Cat, Blank;
    var count: nat :| count >= 1 && w in Listed(item, SpacedComma(), count);
    if count > 1 {
      var f, rest := CatSplit(w, item, Cat(SpacedComma(), Listed(item, SpacedComma(), count - 1)));
      var c, more := CatSplit(rest, SpacedComma(), Listed(item, SpacedComma(), count - 1));
      assert IsListed(item, SpacedComma(), more);
      var b, comma := CatSplit(c, Blank(), Comma());
      var x, b2 := CatSplit(comma, Word(","), Blank());
      Assoc(b, "," + b2, more);
      Assoc(",", b2, more);
      SeparatedJoin(f, b, b2, more, item, ListOf(item, SpacedComma()));
    }
  }

  lemma SeparatedJoin(f: string, s: string, t: string, n: string, first: Lang, next: Lang)
    requires f in first && s in Blank() && t in Blank() && n in next
    ensures f + (s + ("," + (t + n))) in Separated(first, next)
  {
    hide Cat, Blank;
    CatIntro(t, n, Blank(), next);
    CatIntro(",", t + n, Word(","), Cat(Blank(), next));
    CatIntro(s, "," + (t + n), Blank(), Cat(Word(","), Cat(Blank(), next)));
    CatIntro(f, s + ("," + (t + n)), first, Cat(Blank(), Cat(Word(","), Cat(Blank(), next))));
  }

  lemma PaddedList(x: string, item: Lang)
    requires x in Padded(ListOf(item, SpacedComma()))
    ensures x in Padded(item) || x in Padded(Separated(item, ListOf(item, SpacedComma())))
  {
    hide Padded, Blank, Separated, ListOf, SpacedComma;
    var s, w, t := PaddedSplit(x, ListOf(item, SpacedComma()));
    ListUnfold(w, item);
    if w in item {
      PaddedIntro(s, w, t, item);
    } else {
      PaddedIntro(s, w, t, Separated(item, ListOf(item, SpacedComma())));
    }
  }

  // A whole text is a padded list only if it is a padded item.
  lemma OneNotPadded(v: string, item: Lang)
    requires v !in Padded(item) && Whole(v) && AllFit(0, item)
    ensures v !in Padded(ListOf(item, SpacedComma()))
  {
    hide Padded, Separated, ListOf, SpacedComma, Whole;
    if v in Padded(ListOf(item, SpacedComma())) {
      PaddedList(v, item);
      var a, b := PaddedSeparatedSplit(v, item, ListOf(item, SpacedComma()));
      WholeHasNoCut(a, ',', b);
    }
  }

  // A first part that is no padded item, or a rest that is no padded list, gives no padded list.
  lemma ListNotPadded(p: string, x: string, item: Lang)
    requires Whole(p) && AllFit(0, item)
    requires p !in Padded(item) || x !in Padded(ListOf(item, SpacedComma()))
    ensures p + [','] + x !in Padded(ListOf(item, SpacedComma()))
  {
    hide Padded, Separated, ListOf, SpacedComma, Whole, AllFit;
    if p + [','] + x in Padded(ListOf(item, SpacedComma())) {
      PaddedList(p + [','] + x, item);
      WholeNotPadded(p, x, item);
      SeparatedNotPadded(p, x, item, ListOf(item, SpacedComma()));
    }
  }

  lemma CommaNotBlank(p: string, x: string)
    ensures p + [','] + x !in Blank()
  {
    var w := p + [','] + x;
    assert w[|p|] == ',';
    assert w in Blank() ==> InClass(Blanks, w[|p|]);
  }

  // ---------------------------------------------------------------- objects and arrays

  lemma ObjectNotPadded(t: string, inner: Lang)
    requires t !in Padded(inner)
    ensures "{" + t + "}" !in Padded(Enclosed("{", inner, "}"))
  {
    BracketsNotPadded('{', t, inner, '}');
  }

  lemma BracketsNotPadded(open: char, t: string, inner: Lang, close: char)
    requires t !in Padded(inner) && !InClass(Blanks, open) && !InClass(Blanks, close)
    ensures [open] + t + [close] !in Padded(Enclosed([open], inner, [close]))
  {
    hide Blank, Padded, Enclosed;
    var w := [open] + t + [close];
    if w in Padded(Enclosed([open], inner, [close])) {
      assert w[0] == open && w[|w| - 1] == close;
      NoBlanksAround(w, Enclosed([open], inner, [close]));
      var s, m, u := EnclosedSplit(w, [open], inner, [close]);
      assert t == w[1..|w| - 1] == s + m + u;
      Assoc(s, m, u);
      PaddedIntro(s, m, u, inner);
    }
  }

  // A text that starts and ends with no blank is a padded word only if it is a word.
  lemma NoBlanksAround(w: string, l: Lang)
    requires w != "" && !InClass(Blanks, w[0]) && !InClass(Blanks, w[|w| - 1])
    ensures w in Padded(l) ==> w in l
  {
    hide Padded, Blank;
    if w in Padded(l) {
      var s, x, t := PaddedSplit(w, l);
      NoBlankInFront(s, x + t, w);
      BlankEnds(t, x);
      assert t == "" ==> x + t == x;
    }
  }

  // Twice a word that is no padded item is no list of items.
  lemma TwiceNotPadded(v: string, item: Lang)
    requires v !in Padded(item) && Whole(v) && AllFit(0, item)
    ensures v + [','] + v !in Padded(Maybe(ListOf(item, SpacedComma())))
  {
    hide Padded, Blank, ListOf, SpacedComma, Whole, AllFit;
    ListNotPadded(v, v, item);
    CommaNotBlank(v, v);
    MaybePadded(v + [','] + v, ListOf(item, SpacedComma()));
  }

  lemma ArrayNotPadded(v: string, item: Lang)
    requires v !in Padded(item) && Whole(v) && AllFit(0, item)
    ensures "[" + (v + [','] + v) + "]" !in Padded(Enclosed("[", Maybe(ListOf(item, Comma())), "]"))
  {
    hide Padded, ListOf, Comma, SpacedComma, Enclosed, Whole, AllFit;
    var t := v + [','] + v;
    TwiceNotPadded(v, item);
    CommaIsSpaced();
    ListMono(item, item, Comma(), SpacedComma());
    if t in Padded(Maybe(ListOf(item, Comma()))) {
      PaddedMono(t, Maybe(ListOf(item, Comma())), Maybe(ListOf(item, SpacedComma())));
    }
    BracketsNotPadded('[', t, Maybe(ListOf(item, Comma())), ']');
  }
}
