// Normalization of coordinator URLs: exactly when it is idempotent, what its output looks like, and
// how it relates to strict validation.
module EndpointProofs {
  import opened Wrappers
  import opened Text
  import opened Endpoint

  // ---------------------------------------------------------------- the parts of an input

  function SchemeOf(raw: string): string {
    SplitScheme(Trim(raw)).0
  }

  function AuthorityOf(raw: string): string {
    SplitAuthority(SplitScheme(Trim(raw)).1).0
  }

  function TailOf(raw: string): string {
    SplitAuthority(SplitScheme(Trim(raw)).1).1
  }

  function AfterUserinfo(authority: string): string {
    authority[UserinfoLen(authority)..]
  }

  // The lenient authority: the host, with its port if that is usable.
  function KeptAuthority(authority: string): string {
    var hp := SplitHostPort(authority);
    match UseOf(hp.port)
    case Usable(n) => hp.host + ":" + Decimal(n)
    case _ => hp.host
  }

  predicate IsHttp(scheme: string) {
    scheme == "http" || scheme == "https"
  }

  // The input reaches the final formatting steps.
  predicate HasHost(raw: string) {
    Trim(raw) != "" && IsHttp(SchemeOf(raw)) && SplitHostPort(AuthorityOf(raw)).host != ""
  }

  function Assemble(scheme: string, authority: string, path: string): string {
    scheme + "://" + authority + path
  }

  lemma NormalizeForm(raw: string)
    ensures HasHost(raw) ==>
              Normalize(raw) == Assemble(SchemeOf(raw), KeptAuthority(AuthorityOf(raw)), NormalizePath(TailOf(raw)))
    ensures !HasHost(raw) ==>
              Normalize(raw) == if Trim(raw) != "" && !IsHttp(SchemeOf(raw)) then Trim(raw)
                                else DEFAULT_COORDINATOR_URL
  {
  }

  // ---------------------------------------------------------------- assembling and splitting back

  predicate NoneOf(s: string, cs: set<char>) {
    forall i :: 0 <= i < |s| ==> s[i] !in cs
  }

  predicate IsCleanPath(path: string) {
    && (path == "" || (path[0] == '/' && path[|path| - 1] != '/'))
    && NoneOf(path, PATH_END)
  }

  lemma PathIsClean(rest: string)
    ensures IsCleanPath(NormalizePath(SplitAuthority(rest).1)) && NoneOf(SplitAuthority(rest).0, AUTHORITY_END)
  {
  }

  lemma CleanPathIsStable(path: string)
    requires IsCleanPath(path)
    ensures NormalizePath(path) == path
  {
    assert path[..|path|] == path;
  }

  lemma AuthorityIsRecovered(authority: string, path: string)
    requires NoneOf(authority, AUTHORITY_END) && (path == "" || path[0] in AUTHORITY_END)
    ensures SplitAuthority(authority + path) == (authority, path)
  {
    var s := authority + path;
    assert forall i :: 0 <= i < |authority| ==> s[i] == authority[i];
    assert path != "" ==> s[|authority|] == path[0];
    var end := FindAny(s, AUTHORITY_END);
    assert end == |authority|;
    assert s[..end] == authority && s[end..] == path;
  }

  lemma SchemeIsRecovered(scheme: string, rest: string)
    requires IsHttp(scheme)
    ensures SplitScheme(scheme + "://" + rest) == (scheme, rest)
  {
    var s := scheme + "://" + rest;
    var n := |scheme|;
    assert ':' !in scheme;
    assert s[n..n + 3] == "://";
    forall k | 0 <= k < n ensures !MatchesAt(s, "://", k) {
      assert s[k] == scheme[k];
      if k + 3 <= |s| {
        assert s[k..k + 3][0] == s[k];
      }
    }
    FindUnique(s, "://", n);
    assert s[..n] == scheme && s[n + 3..] == rest;
    assert ToLower(scheme) == scheme;
  }

  lemma PartsAreRecovered(scheme: string, authority: string, path: string)
    requires IsHttp(scheme) && NoneOf(authority, AUTHORITY_END) && (path == "" || path[0] in AUTHORITY_END)
    ensures var (s, rest) := SplitScheme(Assemble(scheme, authority, path));
            s == scheme && SplitAuthority(rest) == (authority, path)
  {
    assert Assemble(scheme, authority, path) == scheme + "://" + (authority + path);
    SchemeIsRecovered(scheme, authority + path);
    AuthorityIsRecovered(authority, path);
  }

  // ---------------------------------------------------------------- host and port without userinfo

  function SplitAfter(after: string): HostPort {
    if IsBracketed(after) then
      var rest := after[BracketLen(after)..];
      HostPort(after[..BracketLen(after)], if rest != "" && rest[0] == ':' then Some(rest[1..]) else None)
    else if Count(after, ':') > 1 then HostPort("[" + after + "]", None)
    else match LastIndexOf(after, ':')
      case Some(i) => HostPort(after[..i], Some(after[i + 1..]))
      case None => HostPort(after, None)
  }

  function KeptAfter(after: string): string {
    var hp := SplitAfter(after);
    match UseOf(hp.port)
    case Usable(n) => hp.host + ":" + Decimal(n)
    case _ => hp.host
  }

  // Userinfo is everything up to and including the last '@'.
  predicate IsUserinfo(userinfo: string) {
    userinfo == "" || userinfo[|userinfo| - 1] == '@'
  }

  lemma UserinfoIsRecovered(userinfo: string, after: string)
    requires IsUserinfo(userinfo) && '@' !in after
    ensures UserinfoLen(userinfo + after) == |userinfo| && AfterUserinfo(userinfo + after) == after
  {
    var a := userinfo + after;
    assert a[|userinfo|..] == after;
    if userinfo != "" {
      LastIndexOfUnique(a, '@', |userinfo| - 1);
    }
  }

  lemma UserinfoSplit(authority: string)
    ensures var n := UserinfoLen(authority);
            && authority == authority[..n] + AfterUserinfo(authority)
            && IsUserinfo(authority[..n]) && '@' !in AfterUserinfo(authority)
  {
  }

  lemma HostPortParts(authority: string)
    ensures var u := authority[..UserinfoLen(authority)];
            && SplitHostPort(authority).host == u + SplitAfter(AfterUserinfo(authority)).host
            && SplitHostPort(authority).port == SplitAfter(AfterUserinfo(authority)).port
  {
    hide UserinfoLen, BracketLen, Count, LastIndexOf;
    var u, after := authority[..UserinfoLen(authority)], AfterUserinfo(authority);
    assert authority == u + after;
    Assoc(u, "[", after);
    Assoc(u, "[" + after, "]");
  }

  lemma UserinfoParts(authority: string)
    ensures KeptAuthority(authority) == authority[..UserinfoLen(authority)] + KeptAfter(AfterUserinfo(authority))
  {
    hide SplitHostPort, SplitAfter, AfterUserinfo, UserinfoLen;
    HostPortParts(authority);
    var u, hp := authority[..UserinfoLen(authority)], SplitAfter(AfterUserinfo(authority));
    if UseOf(hp.port).Usable? {
      var d := Decimal(UseOf(hp.port).port);
      Assoc(u, hp.host, ":");
      Assoc(u, hp.host + ":", d);
    }
  }

  // ---------------------------------------------------------------- brackets

  lemma BracketedIff(s: string)
    ensures IsBracketed(s) <==> s != "" && s[0] == '[' && ']' in s[1..]
    ensures IsBracketed(s) ==> s[BracketLen(s) - 1] == ']' && NoneOf(s[1..BracketLen(s) - 1], {']'})
  {
    if s != "" && s[0] == '[' {
      var close := FindAny(s[1..], {']'});
      assert close < |s| - 1 ==> s[1..][close] == s[close + 1];
      assert forall i :: 0 <= i < close ==> s[1..][i] == s[1 + i];
    }
  }

  // A bracketed prefix decides where the brackets end.
  lemma BracketPrefix(inner: string, rest: string)
    requires ']' !in inner
    ensures BracketLen("[" + inner + "]" + rest) == |inner| + 2
  {
    var s := "[" + inner + "]" + rest;
    var t := s[1..];
    assert t == inner + "]" + rest;
    assert forall i :: 0 <= i < |inner| ==> t[i] == inner[i];
    assert t[|inner|] == ']';
  }

  lemma BracketForm(s: string) returns (inner: string)
    requires IsBracketed(s)
    ensures ']' !in inner && s[..BracketLen(s)] == "[" + inner + "]"
  {
    BracketedIff(s);
    inner := s[1..BracketLen(s) - 1];
    assert s[..BracketLen(s)] == [s[0]] + inner + [s[BracketLen(s) - 1]];
  }

  lemma BracketsComeFromPrefix(s: string, i: nat, rest: string)
    requires i <= |s| && ']' !in rest && (rest != "" ==> rest[0] != '[')
    ensures IsBracketed(s[..i] + rest) ==> IsBracketed(s)
  {
    BracketedIff(s);
    var t := s[..i] + rest;
    BracketedIff(t);
    if IsBracketed(t) {
      var k :| 0 <= k < |t[1..]| && t[1..][k] == ']';
      assert t[k + 1] == ']';
      assert k + 1 < i && s[1..][k] == ']' && s[0] == t[0];
    }
  }

  // ---------------------------------------------------------------- keeping twice

  lemma UseOfDecimal(n: nat)
    requires 0 < n < U16
    ensures UseOf(Some(Decimal(n))) == Usable(n)
  {
    ParseDecimal(n, U16);
  }

  lemma DecimalLacks(n: nat)
    ensures ':' !in Decimal(n) && ']' !in Decimal(n) && '@' !in Decimal(n)
    ensures Decimal(n)[0] != '[' && NoneOf(Decimal(n), AUTHORITY_END)
  {
    var d := Decimal(n);
    assert forall i :: 0 <= i < |d| ==> IsDigit(d[i]);
  }

  // Reading `[inner]` and what follows it.
  lemma BracketedRead(inner: string, rest: string)
    requires ']' !in inner
    ensures var s := "[" + inner + "]" + rest;
            && IsBracketed(s)
            && SplitAfter(s)
               == HostPort("[" + inner + "]", if rest != "" && rest[0] == ':' then Some(rest[1..]) else None)
  {
    var host := "[" + inner + "]";
    BracketPrefix(inner, rest);
    assert (host + rest)[..|host|] == host && (host + rest)[|host|..] == rest;
  }

  // What is kept of a bracketed host: the brackets, and a usable port.
  lemma BracketedKept(after: string) returns (inner: string, rest: string)
    requires IsBracketed(after)
    ensures ']' !in inner && SplitAfter(after).host == "[" + inner + "]"
    ensures KeptAfter(after) == "[" + inner + "]" + rest
    ensures var use := UseOf(SplitAfter(after).port);
            rest == if use.Usable? then ":" + Decimal(use.port) else ""
  {
    inner := BracketForm(after);
    var use := UseOf(SplitAfter(after).port);
    rest := if use.Usable? then ":" + Decimal(use.port) else "";
    if use.Usable? {
      Assoc("[" + inner + "]", ":", Decimal(use.port));
    }
  }

  lemma BracketedKeptTwice(after: string)
    requires IsBracketed(after)
    ensures KeptAfter(KeptAfter(after)) == KeptAfter(after)
    ensures IsBracketed(KeptAfter(after)) && SplitAfter(KeptAfter(after)).host == SplitAfter(after).host
    ensures var use := UseOf(SplitAfter(after).port);
            SplitAfter(KeptAfter(after)).port == if use.Usable? then Some(Decimal(use.port)) else None
  {
    hide SplitAfter, Decimal, UseOf, IsBracketed;
    var use := UseOf(SplitAfter(after).port);
    var inner, rest := BracketedKept(after);
    BracketedRead(inner, rest);
    var host := "[" + inner + "]";
    if use.Usable? {
      assert rest[1..] == Decimal(use.port);
      UsableRange(SplitAfter(after).port);
      UseOfDecimal(use.port);
      Assoc(host, ":", Decimal(use.port));
    } else {
      NoPortUnset();
    }
  }

  lemma UsableRange(port: Option<string>)
    requires UseOf(port).Usable?
    ensures 0 < UseOf(port).port < U16
  {
  }

  lemma NoPortUnset()
    ensures UseOf(None) == Unset
  {
  }

  // A bare IPv6 literal is put in brackets; read again, everything behind its first ']' is lost.
  lemma BareKeptTwice(after: string)
    requires IsBareIpv6(after)
    ensures KeptAfter(KeptAfter(after)) == KeptAfter(after) <==> ']' !in after
    ensures IsBracketed(KeptAfter(after))
  {
    var m := "[" + after + "]";
    assert KeptAfter(after) == m;
    var inner, rest := FirstBracket(after);
    assert m == "[" + (after + "]") && "[" + (inner + "]" + rest) == "[" + inner + "]" + rest;
    RereadBrackets(inner, rest);
  }

  lemma FirstBracket(after: string) returns (inner: string, rest: string)
    ensures after + "]" == inner + "]" + rest && ']' !in inner
    ensures rest == "" <==> ']' !in after
    ensures rest != "" ==> rest[|rest| - 1] == ']'
  {
    var s := after + "]";
    assert s[|after|] == ']';
    var close := FindAny(s, {']'});
    inner, rest := s[..close], s[close + 1..];
    assert s == inner + [s[close]] + rest;
    assert forall i :: 0 <= i < |after| ==> s[i] == after[i];
  }

  lemma RereadBrackets(inner: string, rest: string)
    requires ']' !in inner && (rest != "" ==> rest[|rest| - 1] == ']')
    ensures IsBracketed("[" + inner + "]" + rest)
    ensures KeptAfter("[" + inner + "]" + rest) == "[" + inner + "]"
  {
    var m, host := "[" + inner + "]" + rest, "[" + inner + "]";
    BracketPrefix(inner, rest);
    assert m[..|host|] == host && m[|host|..] == rest;
    var port := SplitAfter(m).port;
    if port.Some? && port.value != "" {
      assert port.value == rest[1..] && port.value[|port.value| - 1] == ']';
      EndsInBracket(port.value);
    }
  }

  lemma EndsInBracket(text: string)
    requires text != "" && text[|text| - 1] == ']'
    ensures ParseUnsigned(text, U16) == None
  {
    assert !IsDigit(text[|text| - 1]);
    if |text| > 1 && text[0] == '+' {
      assert text[1..][|text| - 2] == ']';
    }
  }

  lemma PlainParts(after: string)
    requires !IsBracketed(after) && Count(after, ':') <= 1
    ensures var hp := SplitAfter(after);
            && ':' !in hp.host && !IsBracketed(hp.host)
            && (hp.port.None? ==> hp.host == after)
            && (hp.port.Some? ==> |hp.host| < |after| && hp.host == after[..|hp.host|])
  {
    match LastIndexOf(after, ':')
    case None =>
    case Some(i) =>
      assert after == after[..i] + ([':'] + after[i + 1..]);
      CountConcat(after[..i], [':'] + after[i + 1..], ':');
      assert Count([':'] + after[i + 1..], ':') >= 1;
      BracketsComeFromPrefix(after, i, "");
      assert after[..i] + "" == after[..i];
  }

  lemma HostWithPort(host: string, n: nat)
    requires ':' !in host && !IsBracketed(host) && 0 < n < U16
    ensures SplitAfter(host + ":" + Decimal(n)) == HostPort(host, Some(Decimal(n)))
    ensures !IsBracketed(host + ":" + Decimal(n)) && Count(host + ":" + Decimal(n), ':') == 1
  {
    var d := Decimal(n);
    DecimalLacks(n);
    var m := host + (":" + d);
    assert m == host + ":" + d;
    assert host[..|host|] == host;
    BracketsComeFromPrefix(host, |host|, ":" + d);
    CountConcat(host, ":" + d, ':');
    assert (":" + d)[1..] == d;
    assert m[|host| + 1..] == d && m[..|host|] == host;
    LastIndexOfUnique(m, ':', |host|);
  }

  lemma PlainKeptTwice(after: string)
    requires !IsBracketed(after) && Count(after, ':') <= 1
    ensures KeptAfter(KeptAfter(after)) == KeptAfter(after)
    ensures !IsBracketed(KeptAfter(after)) && Count(KeptAfter(after), ':') <= 1
    ensures SplitAfter(KeptAfter(after)).host == SplitAfter(after).host
    ensures !UseOf(SplitAfter(after).port).Usable? ==> ':' !in KeptAfter(after)
  {
    PlainParts(after);
    var hp := SplitAfter(after);
    if UseOf(hp.port).Usable? {
      var n := UseOf(hp.port).port;
      HostWithPort(hp.host, n);
      UseOfDecimal(n);
    }
  }

  // Keeping host and usable port once more changes nothing, unless a bare IPv6 literal contains ']'.
  lemma KeptTwice(after: string)
    ensures KeptAfter(KeptAfter(after)) == KeptAfter(after) <==> !(IsBareIpv6(after) && ']' in after)
    ensures SplitAfter(after).host != "" ==> SplitAfter(KeptAfter(after)).host != ""
  {
    if IsBracketed(after) {
      BracketedKeptTwice(after);
    } else if Count(after, ':') > 1 {
      BareKeptTwice(after);
    } else {
      PlainKeptTwice(after);
    }
  }

  // ---------------------------------------------------------------- whole authorities

  lemma NoneOfConcat(a: string, b: string, cs: set<char>)
    ensures NoneOf(a + b, cs) <==> NoneOf(a, cs) && NoneOf(b, cs)
  {
    var s := a + b;
    assert forall i :: 0 <= i < |a| ==> s[i] == a[i];
    assert forall i :: 0 <= i < |b| ==> s[|a| + i] == b[i];
    forall i | 0 <= i < |s| && NoneOf(a, cs) && NoneOf(b, cs) ensures s[i] !in cs {
      assert s[i] == if i < |a| then a[i] else b[i - |a|];
    }
  }

  lemma HostChars(after: string, cs: set<char>)
    requires NoneOf(after, cs) && '[' !in cs && ']' !in cs
    ensures NoneOf(SplitAfter(after).host, cs)
  {
    NoneOfConcat("[" + after, "]", cs);
    NoneOfConcat("[", after, cs);
  }

  // Keeping adds no characters but brackets, a colon and digits.
  lemma KeptAfterChars(after: string, cs: set<char>)
    requires NoneOf(after, cs) && NoneOf("[]:0123456789", cs)
    ensures NoneOf(KeptAfter(after), cs)
  {
    hide SplitAfter;
    var allowed := "[]:0123456789";
    assert allowed[0] == '[' && allowed[1] == ']' && allowed[2] == ':';
    assert forall d :: 0 <= d < 10 ==> allowed[3 + d] == Digit(d);
    HostChars(after, cs);
    var hp := SplitAfter(after);
    if UseOf(hp.port).Usable? {
      var d := Decimal(UseOf(hp.port).port);
      DigitsChars(d, cs);
      NoneOfConcat(hp.host + ":", d, cs);
      NoneOfConcat(hp.host, ":", cs);
    }
  }

  lemma DigitsChars(d: string, cs: set<char>)
    requires AllDigits(d) && forall k: nat :: k < 10 ==> Digit(k) !in cs
    ensures NoneOf(d, cs)
  {
    forall i | 0 <= i < |d| ensures d[i] !in cs {
      assert IsDigit(d[i]);
      assert d[i] == Digit((d[i] - '0') as nat);
    }
  }

  lemma KeptAuthorityIsClean(authority: string)
    requires NoneOf(authority, AUTHORITY_END)
    ensures NoneOf(KeptAuthority(authority), AUTHORITY_END)
  {
    hide KeptAuthority, KeptAfter;
    UserinfoSplit(authority);
    UserinfoParts(authority);
    var u, after := authority[..UserinfoLen(authority)], AfterUserinfo(authority);
    NoneOfConcat(u, after, AUTHORITY_END);
    KeptAfterChars(after, AUTHORITY_END);
    NoneOfConcat(u, KeptAfter(after), AUTHORITY_END);
  }

  lemma KeptAfterHasNoAt(after: string)
    requires '@' !in after
    ensures '@' !in KeptAfter(after)
  {
    hide KeptAfter;
    KeptAfterChars(after, {'@'});
    assert forall i :: 0 <= i < |KeptAfter(after)| ==> KeptAfter(after)[i] != '@';
  }

  // Reading the kept authority again sees the same userinfo and the kept rest.
  lemma KeptAuthorityParts(authority: string)
    ensures var u := authority[..UserinfoLen(authority)];
            var kept := KeptAuthority(authority);
            && kept == u + KeptAfter(AfterUserinfo(authority))
            && UserinfoLen(kept) == |u| && AfterUserinfo(kept) == KeptAfter(AfterUserinfo(authority))
            && SplitHostPort(kept).host == u + SplitAfter(AfterUserinfo(kept)).host
            && SplitHostPort(kept).port == SplitAfter(AfterUserinfo(kept)).port
            && KeptAuthority(kept) == u + KeptAfter(AfterUserinfo(kept))
  {
    hide SplitHostPort, KeptAuthority, SplitAfter, KeptAfter;
    UserinfoSplit(authority);
    UserinfoParts(authority);
    var u, after := authority[..UserinfoLen(authority)], AfterUserinfo(authority);
    KeptAfterHasNoAt(after);
    var kept := KeptAuthority(authority);
    UserinfoIsRecovered(u, KeptAfter(after));
    assert kept[..|u|] == u;
    HostPortParts(kept);
    UserinfoParts(kept);
  }

  // The authority is bare IPv6 text that contains a ']'.
  predicate BareWithBracket(authority: string) {
    IsBareIpv6(AfterUserinfo(authority)) && ']' in AfterUserinfo(authority)
  }

  lemma KeptAuthorityTwice(authority: string)
    ensures KeptAuthority(KeptAuthority(authority)) == KeptAuthority(authority) <==> !BareWithBracket(authority)
    ensures SplitHostPort(authority).host != "" ==> SplitHostPort(KeptAuthority(authority)).host != ""
  {
    hide SplitHostPort, KeptAuthority, SplitAfter, KeptAfter;
    KeptAuthorityParts(authority);
    HostPortParts(authority);
    KeptTwice(AfterUserinfo(authority));
  }

  // ---------------------------------------------------------------- trailing blanks

  predicate EndsBlank(s: string) {
    s != "" && IsWhitespace(s[|s| - 1])
  }

  // What is kept of the input ends in whitespace: a path does, or there is neither path nor usable
  // port and the host does.
  predicate LeavesTrailingBlank(raw: string) {
    var path := NormalizePath(TailOf(raw));
    var hp := SplitHostPort(AuthorityOf(raw));
    if path != "" then EndsBlank(path) else !UseOf(hp.port).Usable? && EndsBlank(hp.host)
  }

  lemma DecimalEndsInDigit(n: nat)
    ensures !EndsBlank(Decimal(n)) && Decimal(n) != ""
  {
    assert IsDigit(Decimal(n)[|Decimal(n)| - 1]);
  }

  lemma LastOfAssembled(scheme: string, authority: string, path: string)
    requires authority != ""
    ensures var x, last := Assemble(scheme, authority, path), if path != "" then path else authority;
            x != "" && x[|x| - 1] == last[|last| - 1]
  {
  }

  lemma KeptEnd(authority: string)
    requires SplitHostPort(authority).host != ""
    ensures KeptAuthority(authority) != ""
    ensures var hp := SplitHostPort(authority);
            EndsBlank(KeptAuthority(authority)) <==> !UseOf(hp.port).Usable? && EndsBlank(hp.host)
  {
    hide SplitHostPort, Decimal, UseOf;
    var hp := SplitHostPort(authority);
    if UseOf(hp.port).Usable? {
      var d := Decimal(UseOf(hp.port).port);
      DecimalEndsInDigit(UseOf(hp.port).port);
      assert (hp.host + ":" + d)[|hp.host + ":" + d| - 1] == d[|d| - 1];
    }
  }

  lemma TrailingBlankOfResult(raw: string)
    requires HasHost(raw)
    ensures EndsBlank(Normalize(raw)) <==> LeavesTrailingBlank(raw)
  {
    hide Normalize, Assemble, KeptAuthority, SplitHostPort, NormalizePath, SchemeOf, AuthorityOf, TailOf, Trim, UseOf;
    NormalizeForm(raw);
    KeptEnd(AuthorityOf(raw));
    LastOfAssembled(SchemeOf(raw), KeptAuthority(AuthorityOf(raw)), NormalizePath(TailOf(raw)));
  }

  lemma TrimOfNonBlankStart(x: string)
    requires x != "" && !IsWhitespace(x[0])
    ensures Trim(x) == TrimEnd(x) && TrimEnd(x) != ""
    ensures EndsBlank(x) ==> |Trim(x)| < |x|
    ensures !EndsBlank(x) ==> Trim(x) == x
  {
  }
}
