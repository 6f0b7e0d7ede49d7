// String operations of the Rust standard library that the modelled code relies on.
// Strings are sequences of Unicode scalar values; every split point the code uses is an ASCII
// character, so positions counted in characters and in bytes cut at the same place.
module Text {
  import opened Wrappers

  // ---------------------------------------------------------------- searching

  // First position holding a character of cs, or |s| when there is none.
  function FindAny(s: string, cs: set<char>): (i: nat)
    ensures i <= |s|
    ensures forall k :: 0 <= k < i ==> s[k] !in cs
    ensures i < |s| ==> s[i] in cs
  {
    if s == "" then 0 else if s[0] in cs then 0 else 1 + FindAny(s[1..], cs)
  }

  // Last position of c.
  function LastIndexOf(s: string, c: char): (r: Option<nat>)
    ensures r.None? <==> c !in s
    ensures r.Some? ==> r.value < |s| && s[r.value] == c
    ensures r.Some? ==> forall k :: r.value < k < |s| ==> s[k] != c
    ensures r.Some? ==> c !in s[r.value + 1..]
  {
    if s == "" then None
    else if s[|s| - 1] == c then Some(|s| - 1)
    else
      assert forall k :: 0 <= k < |s| - 1 ==> s[..|s| - 1][k] == s[k];
      LastIndexOf(s[..|s| - 1], c)
  }

  lemma LastIndexOfUnique(s: string, c: char, i: nat)
    requires i < |s| && s[i] == c && c !in s[i + 1..]
    ensures LastIndexOf(s, c) == Some(i)
  {
    var j := LastIndexOf(s, c).value;
    assert forall k :: i < k < |s| ==> s[k] == s[i + 1..][k - i - 1];
    assert forall k :: j < k < |s| ==> s[k] == s[j + 1..][k - j - 1];
  }

  predicate MatchesAt(s: string, pat: string, i: nat) {
    i + |pat| <= |s| && s[i..i + |pat|] == pat
  }

  // First occurrence of pat in s, or |s| + 1 when there is none.
  function FindFrom(s: string, pat: string, i: nat): (r: nat)
    requires i <= |s|
    ensures r <= |s| ==> i <= r && MatchesAt(s, pat, r)
    ensures forall k :: i <= k < r && k <= |s| ==> !MatchesAt(s, pat, k)
    ensures r <= |s| + 1
    decreases |s| - i
  {
    if MatchesAt(s, pat, i) then i
    else if i == |s| then |s| + 1
    else FindFrom(s, pat, i + 1)
  }

  function Find(s: string, pat: string): (r: Option<nat>)
    ensures r.Some? ==> MatchesAt(s, pat, r.value) && forall k :: 0 <= k < r.value ==> !MatchesAt(s, pat, k)
    ensures r.None? ==> forall k :: 0 <= k <= |s| ==> !MatchesAt(s, pat, k)
  {
    var i := FindFrom(s, pat, 0);
    if i <= |s| then Some(i) else None
  }

  lemma FindUnique(s: string, pat: string, i: nat)
    requires MatchesAt(s, pat, i)
    requires forall k :: 0 <= k < i ==> !MatchesAt(s, pat, k)
    ensures Find(s, pat) == Some(i)
  {
    assert Find(s, pat).Some?;
  }

  predicate Contains(s: string, pat: string) {
    exists i :: 0 <= i <= |s| && MatchesAt(s, pat, i)
  }

  lemma AbsentWithout(s: string, pat: string, i: nat)
    requires i < |pat| && pat[i] !in s
    ensures !Contains(s, pat)
  {
    forall k | 0 <= k <= |s| ensures !MatchesAt(s, pat, k) {
      if k + |pat| <= |s| {
        assert s[k..k + |pat|][i] == s[k + i];
      }
    }
  }

  function Count(s: string, c: char): (n: nat)
    ensures n == 0 <==> c !in s
    ensures n <= |s|
  {
    if s == "" then 0 else (if s[0] == c then 1 else 0) + Count(s[1..], c)
  }

  lemma CountConcat(a: string, b: string, c: char)
    ensures Count(a + b, c) == Count(a, c) + Count(b, c)
  {
    if a == "" {
      assert a + b == b;
    } else {
      assert (a + b)[1..] == a[1..] + b;
      CountConcat(a[1..], b, c);
    }
  }

  // Concatenation regrouped: proofs about long texts name the one regrouping they need.
  lemma Assoc(a: string, b: string, c: string)
    ensures (a + b) + c == a + (b + c)
  {
  }

  lemma MatchShifts(s: string, pat: string, i: nat, front: string, back: string)
    requires i <= |s|
    ensures MatchesAt(s, pat, i) ==> MatchesAt(front + s + back, pat, |front| + i)
    ensures i + |pat| <= |s| && MatchesAt(front + s + back, pat, |front| + i) ==> MatchesAt(s, pat, i)
  {
    if i + |pat| <= |s| {
      assert (front + s + back)[|front| + i..|front| + i + |pat|] == s[i..i + |pat|];
    }
  }

  lemma MatchAvoids(s: string, pat: string, i: nat, sep: nat)
    requires MatchesAt(s, pat, i) && sep < |s| && s[sep] !in pat
    ensures i + |pat| <= sep || sep < i
  {
    assert forall k :: i <= k < i + |pat| ==> s[k] == s[i..i + |pat|][k - i];
  }

  // A separator that does not occur in the pattern keeps the two sides apart.
  lemma ContainsAcrossSeparator(a: string, sep: char, b: string, pat: string)
    requires pat != "" && sep !in pat
    ensures Contains(a + [sep] + b, pat) <==> Contains(a, pat) || Contains(b, pat)
  {
    var s := a + [sep] + b;
    assert s == "" + a + ([sep] + b) && s == (a + [sep]) + b + "";
    if Contains(a, pat) {
      var i :| 0 <= i <= |a| && MatchesAt(a, pat, i);
      MatchShifts(a, pat, i, "", [sep] + b);
    }
    if Contains(b, pat) {
      var i :| 0 <= i <= |b| && MatchesAt(b, pat, i);
      MatchShifts(b, pat, i, a + [sep], "");
    }
    if Contains(s, pat) {
      var i :| 0 <= i <= |s| && MatchesAt(s, pat, i);
      MatchAvoids(s, pat, i, |a|);
      if i + |pat| <= |a| {
        MatchShifts(a, pat, i, "", [sep] + b);
      } else {
        MatchShifts(b, pat, i - |a| - 1, a + [sep], "");
      }
    }
  }

  // ---------------------------------------------------------------- trimming

  // The Unicode White_Space property, which str::trim uses.
  predicate IsWhitespace(c: char) {
    || '\U{0009}' <= c <= '\U{000D}' || c == ' ' || c == '\U{0085}' || c == '\U{00A0}' || c == '\U{1680}'
    || '\U{2000}' <= c <= '\U{200A}' || c == '\U{2028}' || c == '\U{2029}' || c == '\U{202F}'
    || c == '\U{205F}' || c == '\U{3000}'
  }

  function TrimStart(s: string): (t: string)
    ensures |t| <= |s| && t == s[|s| - |t|..]
    ensures t != "" ==> !IsWhitespace(t[0])
    ensures forall i :: 0 <= i < |s| - |t| ==> IsWhitespace(s[i])
  {
    if s != "" && IsWhitespace(s[0]) then
      var t := TrimStart(s[1..]);
      assert forall i :: 0 <= i < |s| - 1 ==> s[1..][i] == s[i + 1];
      assert s[1..][|s| - 1 - |t|..] == s[|s| - |t|..];
      t
    else s
  }

  function TrimEnd(s: string): (t: string)
    ensures |t| <= |s| && t == s[..|t|]
    ensures t != "" ==> !IsWhitespace(t[|t| - 1])
    ensures forall i :: |t| <= i < |s| ==> IsWhitespace(s[i])
  {
    if s != "" && IsWhitespace(s[|s| - 1]) then TrimEnd(s[..|s| - 1]) else s
  }

  function Trim(s: string): (t: string)
    ensures t != "" ==> !IsWhitespace(t[0]) && !IsWhitespace(t[|t| - 1])
    ensures s != "" && !IsWhitespace(s[0]) && !IsWhitespace(s[|s| - 1]) ==> t == s
    ensures |t| <= |s|
  {
    TrimEnd(TrimStart(s))
  }

  // The 25 characters that have it.
  lemma WhitespaceIs(c: char)
    ensures IsWhitespace(c)
            <==> c as int in {9, 10, 11, 12, 13, 32, 133, 160, 5760, 8192, 8193, 8194, 8195, 8196, 8197, 8198, 8199,
                              8200, 8201, 8202, 8232, 8233, 8239, 8287, 12288}
  {
  }

  lemma {:induction false} FrontIsTrimmed(front: string, rest: string)
    requires rest != "" && !IsWhitespace(rest[0])
    requires forall i :: 0 <= i < |front| ==> IsWhitespace(front[i])
    ensures TrimStart(front + rest) == rest
  {
    hide IsWhitespace;
    if front == "" {
      assert front + rest == rest;
    } else {
      assert (front + rest)[0] == front[0] && (front + rest)[1..] == front[1..] + rest;
      FrontIsTrimmed(front[1..], rest);
    }
  }

  lemma {:induction false} BackIsTrimmed(text: string, back: string)
    requires text != "" && !IsWhitespace(text[|text| - 1])
    requires forall i :: 0 <= i < |back| ==> IsWhitespace(back[i])
    ensures TrimEnd(text + back) == text
  {
    hide IsWhitespace;
    var s, n := text + back, |back| - 1;
    if back == "" {
      assert s == text;
    } else {
      assert s[|s| - 1] == back[n] && s[..|s| - 1] == text + back[..n];
      BackIsTrimmed(text, back[..n]);
    }
  }

  lemma BlanksAreTrimmed(front: string, text: string, back: string)
    requires text != "" && !IsWhitespace(text[0]) && !IsWhitespace(text[|text| - 1])
    requires forall i :: 0 <= i < |front| ==> IsWhitespace(front[i])
    requires forall i :: 0 <= i < |back| ==> IsWhitespace(back[i])
    ensures Trim(front + text + back) == text
  {
    hide IsWhitespace;
    assert front + text + back == front + (text + back);
    FrontIsTrimmed(front, text + back);
    BackIsTrimmed(text, back);
  }

  // str::trim_end_matches with a single character.
  function TrimEndChar(s: string, c: char): (t: string)
    ensures |t| <= |s| && t == s[..|t|]
    ensures t != "" ==> t[|t| - 1] != c
    ensures forall i :: |t| <= i < |s| ==> s[i] == c
  {
    if s != "" && s[|s| - 1] == c then TrimEndChar(s[..|s| - 1], c) else s
  }

  // ---------------------------------------------------------------- letters

  function LowerChar(c: char): char {
    if 'A' <= c <= 'Z' then c - 'A' + 'a' else c
  }

  function ToLower(s: string): (t: string)
    ensures |t| == |s| && forall i :: 0 <= i < |s| ==> t[i] == LowerChar(s[i])
  {
    seq(|s|, i requires 0 <= i < |s| => LowerChar(s[i]))
  }

  // ---------------------------------------------------------------- decimal numbers

  const U16 := 0x1_0000
  const U32 := 0x1_0000_0000
  const U64 := 0x1_0000_0000_0000_0000

  predicate IsDigit(c: char) {
    '0' <= c <= '9'
  }

  predicate AllDigits(s: string) {
    forall i :: 0 <= i < |s| ==> IsDigit(s[i])
  }

  function DigitsValue(s: string): nat
    requires AllDigits(s)
  {
    if s == "" then 0 else 10 * DigitsValue(s[..|s| - 1]) + (s[|s| - 1] - '0') as nat
  }

  // str::parse for an unsigned type with `bound` values: one optional '+', then at least one digit.
  function ParseUnsigned(s: string, bound: nat): (r: Option<nat>)
    ensures r.Some? ==> r.value < bound
  {
    var digits := if |s| > 1 && s[0] == '+' then s[1..] else s;
    if digits == "" || !AllDigits(digits) then None
    else if DigitsValue(digits) >= bound then None
    else Some(DigitsValue(digits))
  }

  function Digit(d: nat): (c: char)
    requires d < 10
    ensures IsDigit(c) && (c - '0') as nat == d
  {
    '0' + d as char
  }

  // Display of an unsigned integer.
  function Decimal(n: nat): (s: string)
    ensures s != "" && AllDigits(s) && DigitsValue(s) == n
  {
    if n < 10 then [Digit(n)]
    else
      var front := Decimal(n / 10);
      var s := front + [Digit(n % 10)];
      assert s[..|s| - 1] == front;
      s
  }

  // Printing and parsing are inverse on every value the type holds.
  lemma ParseDecimal(n: nat, bound: nat)
    requires n < bound
    ensures ParseUnsigned(Decimal(n), bound) == Some(n)
  {
    assert IsDigit(Decimal(n)[0]);
  }

  lemma DecimalInjective(m: nat, n: nat)
    requires Decimal(m) == Decimal(n)
    ensures m == n
  {
    assert DigitsValue(Decimal(m)) == m;
  }

  // A plus sign in front makes no difference, nor do zeros; anything else but digits is no number, and
  // neither is nothing or a number out of range.
  lemma NumberForms(n: nat, bound: nat, s: string)
    requires s != "" && AllDigits(s)
    ensures ParseUnsigned("", bound) == None && ParseUnsigned("+", bound) == None
    ensures ParseUnsigned("+" + s, bound) == ParseUnsigned(s, bound) == ParseUnsigned("0" + s, bound)
    ensures ParseUnsigned(Decimal(n), bound) == if n < bound then Some(n) else None
  {
    assert !IsDigit("+"[0]) && IsDigit(Decimal(n)[0]) && IsDigit(s[0]);
    assert ("+" + s)[1..] == s;
    ZeroInFront(s);
  }

  lemma {:induction false} ZeroInFront(s: string)
    requires AllDigits(s)
    ensures AllDigits("0" + s) && DigitsValue("0" + s) == DigitsValue(s)
  {
    if s != "" {
      ZeroInFront(s[..|s| - 1]);
      assert ("0" + s)[..|s|] == "0" + s[..|s| - 1];
    }
  }

  lemma NoNumber(s: string, i: nat, bound: nat)
    requires i < |s| && !('0' <= s[i] <= '9') && (i > 0 || s[0] != '+')
    ensures ParseUnsigned(s, bound) == None
  {
    assert !IsDigit(s[i]);
    if |s| > 1 && s[0] == '+' {
      assert s[1..][i - 1] == s[i];
    }
  }
}
