// GBNF grammars as syntax trees, and the language a rule list gives to each nonterminal: the least
// fixed point of its rules, reached by unfolding references to growing depth.
module Grammar {
  import opened Wrappers

  datatype CharClass = Digits | Blanks | NotQuoteOrBackslash | AnyChar

  predicate InClass(cl: CharClass, c: char) {
    match cl
    case Digits => '0' <= c <= '9'
    case Blanks => c == ' ' || c == '\t' || c == '\n' || c == '\r'
    case NotQuoteOrBackslash => c != '"' && c != '\\'
    case AnyChar => true
  }

  // Lit holds the text as it stands between the quotes of the grammar source.
  datatype Gram = Eps
                | Lit(raw: string)
                | Chars(cl: CharClass)
                | Ref(name: string)
                | Then(first: Gram, second: Gram)
                | Or(left: Gram, right: Gram)
                | Opt(inner: Gram)
                | Star(inner: Gram)
                | Plus(inner: Gram)

  datatype Rule = Rule(name: string, body: Gram)

  // What a literal denotes: backslash escapes are undone; a bare quote or an unknown escape is not a
  // literal at all.
  function Unescape(raw: string): Option<string> {
    if raw == "" then Some("")
    else if raw[0] == '"' then None
    else if raw[0] != '\\' then
      var rest := Unescape(raw[1..]);
      if rest.None? then None else Some([raw[0]] + rest.value)
    else if |raw| == 1 then None
    else
      var rest := Unescape(raw[2..]);
      if rest.None? then None
      else match raw[1]
        case '"' => Some("\"" + rest.value)
        case '\\' => Some("\\" + rest.value)
        case 'n' => Some("\n" + rest.value)
        case 'r' => Some("\r" + rest.value)
        case 't' => Some("\t" + rest.value)
        case _ => None
  }

  // ---------------------------------------------------------------- languages

  type Lang = iset<string>

  ghost function Word(w: string): Lang {
    iset{w}
  }

  ghost function Cat(a: Lang, b: Lang): Lang {
    iset w: string, i: nat | i <= |w| && w[..i] in a && w[i..] in b :: w
  }

  ghost function Maybe(a: Lang): Lang {
    a + iset{""}
  }

  ghost predicate InStar(a: Lang, w: string)
    decreases |w|
  {
    w == "" || exists i: nat :: 0 < i <= |w| && w[..i] in a && InStar(a, w[i..])
  }

  ghost function Many(a: Lang): Lang {
    iset w: string | InStar(a, w) :: w
  }

  ghost function Class(cl: CharClass): Lang {
    iset c: char | InClass(cl, c) :: [c]
  }

  // Words of g when references are unfolded at most `depth` times.
  ghost function Den(rules: seq<Rule>, depth: nat, g: Gram): Lang
    decreases depth, 1, g
  {
    match g
    case Eps => Word("")
    case Lit(raw) => if Unescape(raw).Some? then Word(Unescape(raw).value) else iset{}
    case Chars(cl) => Class(cl)
    case Ref(name) =>
      if depth == 0 then iset{}
      else iset w: string | FromSomeRule(rules, depth, name, w) :: w
    case Then(first, second) => Cat(Den(rules, depth, first), Den(rules, depth, second))
    case Or(left, right) => Den(rules, depth, left) + Den(rules, depth, right)
    case Opt(inner) => Maybe(Den(rules, depth, inner))
    case Star(inner) => Many(Den(rules, depth, inner))
    case Plus(inner) => Cat(Den(rules, depth, inner), Many(Den(rules, depth, inner)))
  }

  // Equality of languages as wholes: stated through a singleton so that proofs that only replace
  // equals by equals never compare words.
  ghost predicate Same(a: Lang, b: Lang) {
    a in Only(b)
  }

  ghost function Only(l: Lang): iset<Lang> {
    iset{l}
  }

  ghost predicate Denotes(rules: seq<Rule>, depth: nat, g: Gram, l: Lang) {
    Same(Den(rules, depth, g), l)
  }

  ghost predicate FromSomeRule(rules: seq<Rule>, depth: nat, name: string, w: string)
    requires depth > 0
    decreases depth, 0
  {
    exists i: nat :: i < |rules| && rules[i].name == name && w in Den(rules, depth - 1, rules[i].body)
  }

  // The words derivable from a nonterminal.
  ghost function Language(rules: seq<Rule>, name: string): Lang {
    iset w: string, depth: nat | w in Den(rules, depth, Ref(name)) :: w
  }

  // ---------------------------------------------------------------- monotonicity

  lemma ManyMonotone(a: Lang, b: Lang, w: string)
    requires a <= b && InStar(a, w)
    ensures InStar(b, w)
    decreases |w|
  {
    if w != "" {
      var i: nat :| 0 < i <= |w| && w[..i] in a && InStar(a, w[i..]);
      ManyMonotone(a, b, w[i..]);
    }
  }

  lemma OperatorsMonotone(a: Lang, b: Lang, c: Lang, d: Lang)
    requires a <= b && c <= d
    ensures Cat(a, c) <= Cat(b, d) && Maybe(a) <= Maybe(b) && Many(a) <= Many(b)
  {
    forall w | w in Many(a) ensures w in Many(b) {
      ManyMonotone(a, b, w);
    }
  }

  // Unfolding further only adds words.
  lemma {:induction false} DenMonotone(rules: seq<Rule>, depth: nat, g: Gram)
    ensures Den(rules, depth, g) <= Den(rules, depth + 1, g)
    decreases depth, g
  {
    match g
    case Ref(name) =>
      if depth > 0 {
        forall w | FromSomeRule(rules, depth, name, w) ensures FromSomeRule(rules, depth + 1, name, w) {
          var i: nat :| i < |rules| && rules[i].name == name && w in Den(rules, depth - 1, rules[i].body);
          DenMonotone(rules, depth - 1, rules[i].body);
        }
      }
    case Then(first, second) =>
      DenMonotone(rules, depth, first);
      DenMonotone(rules, depth, second);
      OperatorsMonotone(Den(rules, depth, first), Den(rules, depth + 1, first),
                        Den(rules, depth, second), Den(rules, depth + 1, second));
    case Or(left, right) =>
      DenMonotone(rules, depth, left);
      DenMonotone(rules, depth, right);
    case Opt(inner) =>
      DenMonotone(rules, depth, inner);
    case Star(inner) =>
      DenMonotone(rules, depth, inner);
      OperatorsMonotone(Den(rules, depth, inner), Den(rules, depth + 1, inner), iset{}, iset{});
    case Plus(inner) =>
      DenMonotone(rules, depth, inner);
      var a, b := Den(rules, depth, inner), Den(rules, depth + 1, inner);
      OperatorsMonotone(a, b, iset{}, iset{});
      OperatorsMonotone(a, b, Many(a), Many(b));
    case _ =>
  }

  lemma {:induction false} DenMonotoneUpTo(rules: seq<Rule>, depth: nat, more: nat, g: Gram)
    requires depth <= more
    ensures Den(rules, depth, g) <= Den(rules, more, g)
    decreases more - depth
  {
    if depth < more {
      DenMonotone(rules, depth, g);
      DenMonotoneUpTo(rules, depth + 1, more, g);
    }
  }

  // A nonterminal whose unfolding has settled from some depth on has that language.
  lemma LanguageSettles(rules: seq<Rule>, name: string, enough: nat, l: Lang)
    requires forall depth: nat :: enough <= depth ==> Den(rules, depth, Ref(name)) == l
    ensures Language(rules, name) == l
  {
    forall w, depth: nat | w in Den(rules, depth, Ref(name)) ensures w in l {
      DenMonotoneUpTo(rules, depth, depth + enough, Ref(name));
      assert w in Den(rules, depth + enough, Ref(name));
    }
    forall w | w in l ensures w in Language(rules, name) {
      assert w in Den(rules, enough, Ref(name));
    }
  }
}
