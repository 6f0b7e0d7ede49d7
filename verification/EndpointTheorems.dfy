// The promises of coordinator-URL normalization.
module EndpointTheorems {
  import opened Wrappers
  import opened Text
  import opened Endpoint
  import opened EndpointProofs

  // ---------------------------------------------------------------- fixed points

  lemma ReadBack(scheme: string, authority: string, tail: string)
    requires IsHttp(scheme) && NoneOf(authority, AUTHORITY_END) && (tail == "" || tail[0] in AUTHORITY_END)
    requires !EndsBlank(Assemble(scheme, authority, tail))
    ensures var x := Assemble(scheme, authority, tail);
            Trim(x) == x && SchemeOf(x) == scheme && AuthorityOf(x) == authority && TailOf(x) == tail
  {
    hide SplitScheme, SplitAuthority, NoneOf, Trim;
    var x := Assemble(scheme, authority, tail);
    AssembledStart(scheme, authority, tail);
    TrimOfNonBlankStart(x);
    PartsAreRecovered(scheme, authority, tail);
  }

  lemma Reassembled(scheme: string, authority: string, path: string)
    requires IsHttp(scheme) && NoneOf(authority, AUTHORITY_END) && IsCleanPath(path)
    requires !EndsBlank(Assemble(scheme, authority, path))
    ensures var x := Assemble(scheme, authority, path);
            Trim(x) == x && SchemeOf(x) == scheme && AuthorityOf(x) == authority && TailOf(x) == path
  {
    PathStart(path);
    ReadBack(scheme, authority, path);
  }

  lemma PathStart(path: string)
    requires IsCleanPath(path)
    ensures path == "" || path[0] in AUTHORITY_END
  {
  }

  lemma AssembledStart(scheme: string, authority: string, path: string)
    requires IsHttp(scheme)
    ensures var x := Assemble(scheme, authority, path); x != "" && !IsWhitespace(x[0])
  {
    assert scheme[0] == 'h';
    assert Assemble(scheme, authority, path)[0] == scheme[0];
  }

  lemma AssembleInjective(scheme: string, a: string, p: string, b: string, q: string)
    requires IsHttp(scheme) && NoneOf(a, AUTHORITY_END) && NoneOf(b, AUTHORITY_END) && IsCleanPath(p) && IsCleanPath(q)
    requires Assemble(scheme, a, p) == Assemble(scheme, b, q)
    ensures a == b && p == q
  {
    PartsAreRecovered(scheme, a, p);
    PartsAreRecovered(scheme, b, q);
  }

  // The parts that normalization keeps of an input with a host.
  lemma KeptParts(raw: string)
    requires HasHost(raw)
    ensures NoneOf(KeptAuthority(AuthorityOf(raw)), AUTHORITY_END) && IsCleanPath(NormalizePath(TailOf(raw)))
  {
    PathIsClean(SplitScheme(Trim(raw)).1);
    KeptAuthorityIsClean(AuthorityOf(raw));
  }

  lemma SecondPass(raw: string)
    requires HasHost(raw) && !EndsBlank(Normalize(raw))
    ensures var x := Normalize(raw);
            && HasHost(x) && SchemeOf(x) == SchemeOf(raw)
            && AuthorityOf(x) == KeptAuthority(AuthorityOf(raw)) && TailOf(x) == NormalizePath(TailOf(raw))
            && Normalize(x) == Assemble(SchemeOf(raw), KeptAuthority(KeptAuthority(AuthorityOf(raw))), TailOf(x))
  {
    hide KeptAuthority, SplitHostPort, NormalizePath, IsCleanPath, SchemeOf, AuthorityOf, TailOf, Normalize, Assemble,
      Trim;
    NormalizeForm(raw);
    KeptParts(raw);
    var x := Normalize(raw);
    Reassembled(SchemeOf(raw), KeptAuthority(AuthorityOf(raw)), NormalizePath(TailOf(raw)));
    AssembledStart(SchemeOf(raw), KeptAuthority(AuthorityOf(raw)), NormalizePath(TailOf(raw)));
    KeptAuthorityTwice(AuthorityOf(raw));
    CleanPathIsStable(TailOf(x));
    NormalizeForm(x);
  }

  lemma DefaultIsStable()
    ensures Normalize(DEFAULT_COORDINATOR_URL) == DEFAULT_COORDINATOR_URL && !EndsBlank(DEFAULT_COORDINATOR_URL)
  {
    hide Normalize;
    DefaultParts();
    PlainHostIsStable("http", DEFAULT_HOST);
  }

  lemma DefaultParts()
    ensures DEFAULT_COORDINATOR_URL == Assemble("http", DEFAULT_HOST, "")
    ensures DEFAULT_HOST != "" && !EndsBlank(DEFAULT_HOST) && DEFAULT_HOST[0] != '['
    ensures NoneOf(DEFAULT_HOST, AUTHORITY_END) && ':' !in DEFAULT_HOST && '@' !in DEFAULT_HOST
  {
    assert "http" + "://" + DEFAULT_HOST + "" == "http" + "://" + DEFAULT_HOST;
    assert DEFAULT_HOST[|DEFAULT_HOST| - 1] == '5' && DEFAULT_HOST[0] == '3';
  }

  lemma PlainHostIsStable(scheme: string, host: string)
    requires IsHttp(scheme) && host != "" && !EndsBlank(host) && host[0] != '['
    requires NoneOf(host, AUTHORITY_END) && ':' !in host && '@' !in host
    ensures Normalize(Assemble(scheme, host, "")) == Assemble(scheme, host, "")
    ensures !EndsBlank(Assemble(scheme, host, ""))
  {
    hide Normalize, SchemeOf, AuthorityOf, TailOf, Trim;
    var x := Assemble(scheme, host, "");
    assert x[|x| - 1] == host[|host| - 1];
    Reassembled(scheme, host, "");
    assert SplitHostPort(host) == HostPort(host, None);
    NormalizeForm(x);
    CleanPathIsStable("");
  }

  // ---------------------------------------------------------------- trailing blanks

  lemma TrimmedText(scheme: string, kept: string)
    requires IsHttp(scheme) && EndsBlank(scheme + "://" + kept)
    ensures exists k: nat :: k < |kept| && Trim(scheme + "://" + kept) == scheme + "://" + kept[..k]
                             && forall i :: k <= i < |kept| ==> IsWhitespace(kept[i])
  {
    hide TrimEnd, TrimStart;
    var pre := scheme + "://";
    var x := pre + kept;
    assert scheme[0] == 'h' && x[0] == scheme[0];
    TrimOfNonBlankStart(x);
    var t := Trim(x);
    assert t == x[..|t|];
    assert x[|pre| - 1] == '/';
    assert |t| >= |pre|;
    var k := |t| - |pre|;
    assert t == pre + kept[..k];
    assert forall i :: k <= i < |kept| ==> kept[i] == x[|pre| + i];
  }

  lemma TrimmedParts(scheme: string, authority: string, path: string)
    requires IsHttp(scheme) && NoneOf(authority, AUTHORITY_END) && authority != ""
    requires IsCleanPath(path) && EndsBlank(Assemble(scheme, authority, path))
    ensures var x := Assemble(scheme, authority, path);
            && SchemeOf(x) == scheme
            && (path != "" ==> AuthorityOf(x) == authority && |TailOf(x)| < |path|)
            && (path == "" ==> exists k: nat :: k < |authority| && AuthorityOf(x) == authority[..k]
                                                && forall i :: k <= i < |authority| ==> IsWhitespace(authority[i]))
  {
    hide Trim, SplitScheme, SplitAuthority;
    var kept := authority + path;
    assert Assemble(scheme, authority, path) == scheme + "://" + kept;
    TrimmedText(scheme, kept);
    var k: nat :| k < |kept| && Trim(scheme + "://" + kept) == scheme + "://" + kept[..k]
                  && forall i :: k <= i < |kept| ==> IsWhitespace(kept[i]);
    SchemeIsRecovered(scheme, kept[..k]);
    if path != "" {
      assert kept[|authority|] == '/';
      assert k > |authority|;
      var cut := path[..k - |authority|];
      assert kept[..k] == authority + cut;
      AuthorityIsRecovered(authority, cut);
    } else {
      assert kept == authority && authority[..k] + "" == authority[..k];
      AuthorityIsRecovered(authority[..k], "");
    }
  }

  // A host-only authority that ends in whitespace, cut before that whitespace, stays as it is cut.
  lemma CutHostStays(authority: string, k: nat)
    requires var kept := KeptAuthority(authority);
             EndsBlank(kept) && k < |kept| && forall i :: k <= i < |kept| ==> IsWhitespace(kept[i])
    ensures KeptAuthority(KeptAuthority(authority)[..k]) == KeptAuthority(authority)[..k]
  {
    hide KeptAuthority, KeptAfter, SplitAfter;
    var u, after := authority[..UserinfoLen(authority)], AfterUserinfo(authority);
    UserinfoSplit(authority);
    UserinfoParts(authority);
    KeptAfterHasNoAt(after);
    var kept := KeptAuthority(authority);
    var m := KeptAfter(after);
    assert u != "" ==> kept[|u| - 1] == '@';
    assert |u| <= k;
    var j := k - |u|;
    assert m != "" && m[|m| - 1] == kept[|kept| - 1];
    BlankEndIsPlain(after);
    assert kept[..k] == u + m[..j];
    CutPlain(u, m, j);
  }

  lemma CutPlain(userinfo: string, m: string, j: nat)
    requires IsUserinfo(userinfo) && '@' !in m && ':' !in m && !IsBracketed(m) && j <= |m|
    ensures KeptAuthority(userinfo + m[..j]) == userinfo + m[..j]
  {
    BracketsComeFromPrefix(m, j, "");
    assert m[..j] + "" == m[..j];
    UserinfoIsRecovered(userinfo, m[..j]);
    assert SplitAfter(m[..j]) == HostPort(m[..j], None);
    UserinfoParts(userinfo + m[..j]);
    assert (userinfo + m[..j])[..|userinfo|] == userinfo;
  }

  lemma BlankEndIsPlain(after: string)
    requires EndsBlank(KeptAfter(after))
    ensures !IsBracketed(KeptAfter(after)) && ':' !in KeptAfter(after)
  {
    var hp := SplitAfter(after);
    if UseOf(hp.port).Usable? {
      DecimalEndsInDigit(UseOf(hp.port).port);
    }
    BracketedIff(after);
    if !IsBracketed(after) && Count(after, ':') <= 1 {
      PlainKeptTwice(after);
    }
  }

  lemma BlankEndOfAuthority(scheme: string, authority: string)
    requires authority != ""
    ensures EndsBlank(Assemble(scheme, authority, "")) <==> EndsBlank(authority)
  {
    assert Assemble(scheme, authority, "") == (scheme + "://") + authority;
  }

  lemma BlankEndIsUnstable(raw: string)
    requires HasHost(raw) && EndsBlank(Normalize(raw))
    ensures Normalize(Normalize(raw)) != Normalize(raw)
  {
    hide KeptAuthority, SplitHostPort, NormalizePath, Normalize, SchemeOf, AuthorityOf, TailOf, Assemble, Trim;
    NormalizeForm(raw);
    DefaultIsStable();
    var x := Normalize(raw);
    NormalizeForm(x);
    if HasHost(x) && Normalize(x) == x {
      BlankEndChanges(raw);
    }
  }

  lemma BlankEndChanges(raw: string)
    requires HasHost(raw) && EndsBlank(Normalize(raw)) && HasHost(Normalize(raw))
    ensures Normalize(Normalize(raw)) != Normalize(raw)
  {
    hide KeptAuthority, SplitHostPort, NormalizePath, Normalize, SchemeOf, AuthorityOf, TailOf, Assemble, Trim,
      EndsBlank, NoneOf, IsCleanPath;
    NormalizeForm(raw);
    KeptParts(raw);
    var scheme, kept, path := SchemeOf(raw), KeptAuthority(AuthorityOf(raw)), NormalizePath(TailOf(raw));
    var x := Normalize(raw);
    KeptIsNotEmpty(AuthorityOf(raw));
    TrimmedParts(scheme, kept, path);
    NormalizeForm(x);
    KeptParts(x);
    if Normalize(x) == x {
      AssembleInjective(scheme, KeptAuthority(AuthorityOf(x)), NormalizePath(TailOf(x)), kept, path);
      if path != "" {
        NormalizePathShrinks(TailOf(x));
      } else {
        var k: nat :| k < |kept| && AuthorityOf(x) == kept[..k]
                      && forall i :: k <= i < |kept| ==> IsWhitespace(kept[i]);
        BlankEndOfAuthority(scheme, kept);
        CutHostStays(AuthorityOf(raw), k);
      }
    }
  }

  lemma NormalizePathShrinks(tail: string)
    ensures |NormalizePath(tail)| <= |tail|
  {
  }

  lemma KeptIsNotEmpty(authority: string)
    requires SplitHostPort(authority).host != ""
    ensures KeptAuthority(authority) != ""
  {
  }

  // ---------------------------------------------------------------- idempotence

  // Normalizing once is enough: nothing with a host is kept that ends in whitespace, and no bare IPv6
  // text contains a ']'.
  predicate SettlesAtOnce(raw: string) {
    HasHost(raw) ==> !LeavesTrailingBlank(raw) && !BareWithBracket(AuthorityOf(raw))
  }

  lemma TrimIsStable(s: string)
    ensures Trim(Trim(s)) == Trim(s)
  {
  }

  // Normalization is idempotent on exactly the inputs that settle at once.
  lemma IdempotentIff(raw: string)
    ensures Normalize(Normalize(raw)) == Normalize(raw) <==> SettlesAtOnce(raw)
  {
    hide KeptAuthority, SplitHostPort, NormalizePath, BareWithBracket;
    NormalizeForm(raw);
    if !HasHost(raw) {
      DefaultIsStable();
      TrimIsStable(raw);
      NormalizeForm(Trim(raw));
    } else {
      TrailingBlankOfResult(raw);
      if EndsBlank(Normalize(raw)) {
        BlankEndIsUnstable(raw);
      } else {
        SecondPass(raw);
        KeptParts(raw);
        KeptAuthorityTwice(AuthorityOf(raw));
        var kept, path := KeptAuthority(AuthorityOf(raw)), NormalizePath(TailOf(raw));
        KeptAuthorityIsClean(kept);
        if Normalize(Normalize(raw)) == Normalize(raw) {
          AssembleInjective(SchemeOf(raw), KeptAuthority(kept), path, kept, path);
        }
      }
    }
  }

  // In particular it is idempotent on every input without interior whitespace whose host part has a
  // ']' only if it opens with '['.
  lemma IdempotentWithoutInnerBlanks(raw: string)
    requires NoBlanks(Trim(raw))
    requires var after := AfterUserinfo(AuthorityOf(raw)); ']' in after ==> after[0] == '['
    ensures Normalize(Normalize(raw)) == Normalize(raw)
  {
    IdempotentIff(raw);
    if HasHost(raw) {
      var authority := AuthorityOf(raw);
      BracketedIff(AfterUserinfo(authority));
      NoBlankKept(raw);
    }
  }

  predicate NoBlanks(s: string) {
    forall i :: 0 <= i < |s| ==> !IsWhitespace(s[i])
  }

  lemma NoBlanksInParts(s: string, a: string, b: string)
    requires NoBlanks(s) && s == a + b
    ensures NoBlanks(a) && NoBlanks(b)
  {
    assert forall i :: 0 <= i < |a| ==> a[i] == s[i];
    assert forall i :: 0 <= i < |b| ==> b[i] == s[|a| + i];
  }

  lemma SchemeSuffix(t: string)
    requires NoBlanks(t)
    ensures NoBlanks(SplitScheme(t).1)
  {
    match Find(t, "://")
    case Some(i) => NoBlanksInParts(t, t[..i + 3], t[i + 3..]);
    case None =>
  }

  lemma NoBlankKept(raw: string)
    requires HasHost(raw) && NoBlanks(Trim(raw))
    ensures !LeavesTrailingBlank(raw)
  {
    hide Trim, SplitScheme, SplitHostPort;
    SchemeSuffix(Trim(raw));
    var authority, tail := AuthorityOf(raw), TailOf(raw);
    NoBlanksInParts(SplitScheme(Trim(raw)).1, authority, tail);
    var cut := tail[..FindAny(tail, PATH_END)];
    var path := NormalizePath(tail);
    assert path != "" ==> path[|path| - 1] == cut[|path| - 1] == tail[|path| - 1];
    HostCharsFrom(authority);
  }

  lemma HostCharsFrom(authority: string)
    requires NoBlanks(authority)
    ensures !EndsBlank(SplitHostPort(authority).host)
  {
    hide SplitHostPort, SplitAfter;
    HostPortParts(authority);
    UserinfoSplit(authority);
    var u, after := authority[..UserinfoLen(authority)], AfterUserinfo(authority);
    NoBlanksInParts(authority, u, after);
    AfterHostEnd(after);
  }

  lemma AfterHostEnd(after: string)
    requires NoBlanks(after)
    ensures !EndsBlank(SplitAfter(after).host)
  {
  }

  // ---------------------------------------------------------------- output shape

  lemma NoneOfAssembled(scheme: string, authority: string, path: string)
    requires IsHttp(scheme) && NoneOf(authority, AUTHORITY_END) && IsCleanPath(path)
    ensures NoneOf(Assemble(scheme, authority, path), PATH_END)
  {
    NoneOfConcat(scheme + "://" + authority, path, PATH_END);
    NoneOfConcat(scheme + "://", authority, PATH_END);
    NoneOfConcat(scheme, "://", PATH_END);
  }

  lemma NoSlashAtEnd(scheme: string, authority: string, path: string)
    requires authority != "" && NoneOf(authority, AUTHORITY_END) && IsCleanPath(path)
    ensures var x := Assemble(scheme, authority, path); x != "" && x[|x| - 1] != '/'
  {
    hide Assemble;
    LastOfAssembled(scheme, authority, path);
  }

  // An absolute http(s) URL, by its first characters.
  predicate HasHttpPrefix(x: string) {
    "http://" <= x || "https://" <= x
  }

  lemma AssembledPrefix(scheme: string, authority: string, path: string)
    requires IsHttp(scheme)
    ensures HasHttpPrefix(Assemble(scheme, authority, path))
  {
    var x, start := Assemble(scheme, authority, path), scheme + "://";
    assert x == start + (authority + path);
    assert start == "http://" || start == "https://";
  }

  // A text with such a prefix has that scheme.
  lemma PrefixIsScheme(x: string)
    requires HasHttpPrefix(x)
    ensures IsHttp(SplitScheme(x).0)
  {
    var scheme := if "http://" <= x then "http" else "https";
    var start := scheme + "://";
    assert start == "http://" || start == "https://";
    assert x == start + x[|start|..];
    SchemeIsRecovered(scheme, x[|start|..]);
  }

  // The output is an absolute http(s) URL, if and only if the input is blank or its scheme is missing,
  // http or https.
  lemma OutputIsAbsoluteIff(raw: string)
    ensures HasHttpPrefix(Normalize(raw)) <==> Trim(raw) == "" || IsHttp(SchemeOf(raw))
  {
    hide KeptAuthority, SplitHostPort, NormalizePath, SplitScheme, AuthorityOf, TailOf, Trim, HasHttpPrefix, Assemble;
    hide Normalize;
    NormalizeForm(raw);
    DefaultParts();
    AssembledPrefix("http", DEFAULT_HOST, "");
    if HasHost(raw) {
      AssembledPrefix(SchemeOf(raw), KeptAuthority(AuthorityOf(raw)), NormalizePath(TailOf(raw)));
    } else if Trim(raw) != "" && HasHttpPrefix(Trim(raw)) {
      PrefixIsScheme(Trim(raw));
    }
  }

  // For a missing, http or https scheme: the output is absolute, has no '?' or '#', does not end in
  // '/', and appending "/register" changes neither scheme nor authority.
  lemma OutputShape(raw: string)
    requires Trim(raw) == "" || IsHttp(SchemeOf(raw))
    ensures var x := Normalize(raw);
            && ("http://" <= x || "https://" <= x)
            && x[|x| - 1] != '/' && NoneOf(x, PATH_END)
            && IsHttp(SplitScheme(x).0)
            && SplitScheme(x + "/register").0 == SplitScheme(x).0
            && SplitAuthority(SplitScheme(x).1).0 != ""
            && SplitAuthority(SplitScheme(x + "/register").1).0 == SplitAuthority(SplitScheme(x).1).0
            && (HasHost(raw) ==> SplitAuthority(SplitScheme(x).1).0 == KeptAuthority(AuthorityOf(raw)))
  {
    OutputIsAbsoluteIff(raw);
    hide KeptAuthority, SplitHostPort, NormalizePath, SchemeOf, AuthorityOf, TailOf, Trim;
    NormalizeForm(raw);
    if HasHost(raw) {
      KeptParts(raw);
      KeptIsNotEmpty(AuthorityOf(raw));
      ShapeOf(SchemeOf(raw), KeptAuthority(AuthorityOf(raw)), NormalizePath(TailOf(raw)));
    } else {
      DefaultParts();
      ShapeOf("http", DEFAULT_HOST, "");
    }
  }

  lemma ShapeOf(scheme: string, authority: string, path: string)
    requires IsHttp(scheme) && NoneOf(authority, AUTHORITY_END) && authority != "" && IsCleanPath(path)
    ensures var x := Assemble(scheme, authority, path);
            && x != "" && x[|x| - 1] != '/' && NoneOf(x, PATH_END)
            && SplitScheme(x).0 == scheme && SplitScheme(x + "/register").0 == scheme
            && SplitAuthority(SplitScheme(x).1).0 == authority
            && SplitAuthority(SplitScheme(x + "/register").1).0 == authority
  {
    hide SplitScheme, SplitAuthority, IsCleanPath, NoneOf;
    NoSlashAtEnd(scheme, authority, path);
    NoneOfAssembled(scheme, authority, path);
    PathStart(path);
    PartsAreRecovered(scheme, authority, path);
    assert Assemble(scheme, authority, path) + "/register" == Assemble(scheme, authority, path + "/register");
    assert (path + "/register")[0] in AUTHORITY_END;
    PartsAreRecovered(scheme, authority, path + "/register");
  }

  ghost predicate InRange(port: Option<string>) {
    port.Some? ==> exists n: nat :: 1 <= n <= 65535 && port.value == Decimal(n)
  }

  // The first ']' is directly followed by ':'.
  predicate ColonAfterBracket(after: string) {
    var i := FindAny(after, {']'});
    i + 1 < |after| && after[i + 1] == ':'
  }

  // Split back out of the result, the port is absent or a decimal in 1..65535 - unless the input was
  // bare IPv6 text in which "]:" came before any other ']'.
  lemma OutputPort(raw: string)
    requires Trim(raw) == "" || IsHttp(SchemeOf(raw))
    ensures InRange(SplitHostPort(SplitAuthority(SplitScheme(Normalize(raw)).1).0).port)
            <==> !(&& HasHost(raw) && BareWithBracket(AuthorityOf(raw))
                   && ColonAfterBracket(AfterUserinfo(AuthorityOf(raw))))
  {
    hide KeptAuthority, SplitHostPort, KeptAfter, SplitAfter, SplitScheme, SplitAuthority, InRange, ColonAfterBracket;
    hide SchemeOf, Trim, AuthorityOf, AfterUserinfo, IsBareIpv6;
    if HasHost(raw) {
      OutputShape(raw);
      KeptPortIff(AuthorityOf(raw));
    } else {
      NormalizeForm(raw);
      DefaultHasNoPort();
    }
  }

  lemma KeptPortIff(authority: string)
    ensures InRange(SplitHostPort(KeptAuthority(authority)).port)
            <==> !(BareWithBracket(authority) && ColonAfterBracket(AfterUserinfo(authority)))
  {
    hide KeptAuthority, SplitHostPort, KeptAfter, SplitAfter, InRange, ColonAfterBracket;
    KeptAuthorityParts(authority);
    KeptPort(AfterUserinfo(authority));
  }

  lemma DefaultHasNoPort()
    ensures InRange(SplitHostPort(SplitAuthority(SplitScheme(DEFAULT_COORDINATOR_URL).1).0).port)
  {
    hide SplitScheme, SplitAuthority;
    DefaultParts();
    PartsAreRecovered("http", DEFAULT_HOST, "");
    assert SplitHostPort(DEFAULT_HOST).port == None;
  }

  lemma KeptPort(after: string)
    ensures InRange(SplitAfter(KeptAfter(after)).port)
            <==> !(IsBareIpv6(after) && ']' in after && ColonAfterBracket(after))
  {
    hide SplitAfter, KeptAfter, ColonAfterBracket, UseOf;
    if IsBracketed(after) {
      BracketedKeptTwice(after);
      UsablePort(SplitAfter(after).port);
    } else if Count(after, ':') > 1 {
      BareKeptPort(after);
    } else {
      PlainKeptTwice(after);
      PlainKeptPort(after);
      UsablePort(SplitAfter(after).port);
    }
  }

  lemma UsablePort(port: Option<string>)
    ensures UseOf(port).Usable? ==> 1 <= UseOf(port).port <= 65535 && InRange(Some(Decimal(UseOf(port).port)))
  {
  }

  // Read again, brackets around bare IPv6 text close at its first ']'; what follows is a port only if
  // it starts with ':', and then ends in ']'.
  lemma BareKeptPort(after: string)
    requires IsBareIpv6(after)
    ensures InRange(SplitAfter(KeptAfter(after)).port) <==> !(']' in after && ColonAfterBracket(after))
  {
    var m := "[" + after + "]";
    assert KeptAfter(after) == m;
    hide KeptAfter, IsBareIpv6;
    var inner, rest := FirstBracket(after);
    Assoc("[", after, "]");
    Assoc("[", inner, "]");
    Assoc("[", inner + "]", rest);
    assert m == "[" + inner + "]" + rest;
    BracketedRead(inner, rest);
    AfterFirstBracket(after, inner, rest);
    if rest != "" && rest[0] == ':' {
      var port := rest[1..];
      assert port != "" && port[|port| - 1] == ']';
      NotADecimal(port);
    }
  }

  lemma AfterFirstBracket(after: string, inner: string, rest: string)
    requires after + "]" == inner + "]" + rest && ']' !in inner && (rest == "" <==> ']' !in after)
    requires rest != "" ==> rest[|rest| - 1] == ']'
    ensures ']' in after ==> (rest[0] == ':' <==> ColonAfterBracket(after))
    ensures rest != "" && rest[0] == ':' ==> |rest| > 1
  {
    var s := after + "]";
    assert forall i :: 0 <= i < |inner| ==> s[i] == inner[i];
    assert s[|inner|] == ']';
    assert forall i :: 0 <= i < |after| ==> s[i] == after[i];
    assert forall i :: 0 <= i < |rest| ==> s[|inner| + 1 + i] == rest[i];
    if ']' in after {
      assert |inner| < |after|;
      assert FindAny(after, {']'}) == |inner|;
    }
  }

  lemma NotADecimal(port: string)
    requires port != "" && port[|port| - 1] == ']'
    ensures !InRange(Some(port))
  {
    forall n: nat ensures port != Decimal(n) {
      assert IsDigit(Decimal(n)[|Decimal(n)| - 1]);
    }
  }

  lemma PlainKeptPort(after: string)
    requires !IsBracketed(after) && Count(after, ':') <= 1
    ensures var use := UseOf(SplitAfter(after).port);
            SplitAfter(KeptAfter(after)).port == if use.Usable? then Some(Decimal(use.port)) else None
  {
    PlainParts(after);
    var hp := SplitAfter(after);
    if UseOf(hp.port).Usable? {
      HostWithPort(hp.host, UseOf(hp.port).port);
    }
  }

  // ---------------------------------------------------------------- inputs that fail

  const SLASH := "/"

  lemma SlashIsNoPath()
    ensures NormalizePath(SLASH) == ""
  {
    assert SLASH[..FindAny(SLASH, PATH_END)] == SLASH;
    assert SLASH[..0] == "";
  }

  // "http://host /": the slash is dropped, and the blank before it is trimmed only the second time.
  lemma BlankBeforeSlash()
    ensures var raw := Assemble("http", "host ", SLASH); Normalize(Normalize(raw)) != Normalize(raw)
  {
    PlainHostBeforeSlash("http", "host ");
  }

  lemma PlainHostBeforeSlash(scheme: string, host: string)
    requires IsHttp(scheme) && host != "" && EndsBlank(host) && host[0] != '['
    requires NoneOf(host, AUTHORITY_END) && ':' !in host && '@' !in host
    ensures var raw := Assemble(scheme, host, SLASH); Normalize(Normalize(raw)) != Normalize(raw)
  {
    hide Normalize, Trim, SchemeOf, AuthorityOf, TailOf, NormalizePath;
    var raw := Assemble(scheme, host, SLASH);
    LastOfAssembled(scheme, host, SLASH);
    ReadBack(scheme, host, SLASH);
    SlashIsNoPath();
    PlainSplit(host);
    IdempotentIff(raw);
  }

  lemma PlainSplit(host: string)
    requires host != "" && host[0] != '[' && ':' !in host && '@' !in host
    ensures SplitHostPort(host) == HostPort(host, None)
  {
  }

  // "http://a]b:c:d": brackets are put around text that closes them too early. The port property holds.
  lemma BracketInBareText()
    ensures var raw := Assemble("http", "a]b:c:d", "");
            && Normalize(Normalize(raw)) != Normalize(raw)
            && InRange(SplitHostPort(SplitAuthority(SplitScheme(Normalize(raw)).1).0).port)
  {
    hide Assemble, Normalize, SplitHostPort, SplitScheme, SplitAuthority, InRange, IsBareIpv6, FindAny;
    hide AuthorityOf, AfterUserinfo, Trim, SchemeOf, TailOf;
    var authority := "a]b:c:d";
    assert authority[1] == ']' && authority[2] == 'b';
    FirstAt(authority, ']', 1);
    BareParts(authority, "a]b", "c", "d");
    var raw := Assemble("http", authority, "");
    IdempotentIff(raw);
    OutputPort(raw);
  }

  // "http://a]:b:c": the result "http://[a]:b:c]" splits to the port "b:c]".
  lemma BracketThenColon()
    ensures var raw := Assemble("http", "a]:b:c", "");
            !InRange(SplitHostPort(SplitAuthority(SplitScheme(Normalize(raw)).1).0).port)
  {
    hide Assemble, Normalize, SplitHostPort, SplitScheme, SplitAuthority, InRange, IsBareIpv6, FindAny;
    hide AuthorityOf, AfterUserinfo, Trim, SchemeOf, TailOf;
    var authority := "a]:b:c";
    assert authority[1] == ']' && authority[2] == ':';
    FirstAt(authority, ']', 1);
    BareParts(authority, "a]", "b", "c");
    OutputPort(Assemble("http", authority, ""));
  }

  lemma FirstAt(s: string, c: char, i: nat)
    requires i < |s| && s[i] == c && c !in s[..i]
    ensures FindAny(s, {c}) == i
  {
    assert forall k :: 0 <= k < i ==> s[k] == s[..i][k];
  }

  // An input whose authority is bare text with two colons, as it is read.
  lemma BareParts(authority: string, a: string, b: string, c: string)
    requires authority == a + ":" + b + ":" + c && a != "" && c != "" && a[0] != '[' && !IsWhitespace(c[|c| - 1])
    requires NoneOf(authority, AUTHORITY_END) && '@' !in authority
    ensures var raw := Assemble("http", authority, "");
            && HasHost(raw) && AuthorityOf(raw) == authority && AfterUserinfo(authority) == authority
            && IsBareIpv6(authority)
  {
    hide Trim, SchemeOf, AuthorityOf, TailOf, NoneOf;
    var raw := Assemble("http", authority, "");
    assert raw[|raw| - 1] == c[|c| - 1];
    ReadBack("http", authority, "");
    CountConcat(a + ":" + b + ":", c, ':');
    CountConcat(a + ":" + b, ":", ':');
    CountConcat(a + ":", b, ':');
    CountConcat(a, ":", ':');
    assert authority[0] == a[0];
    assert SplitHostPort(authority).host != "";
  }

  // ---------------------------------------------------------------- strict and lenient

  // Whatever strict validation accepts, lenient normalization returns unchanged; whatever it rejects,
  // normalization repairs in the way its error names.
  lemma StrictAndLenient(raw: string)
    ensures match Validate(raw)
            case Ok(url) => Normalize(raw) == url && HasHost(raw)
            case Err(Empty) => Trim(raw) == "" && Normalize(raw) == DEFAULT_COORDINATOR_URL
            case Err(UnsupportedScheme(s)) => s == SchemeOf(raw) && !IsHttp(s) && Normalize(raw) == Trim(raw)
            case Err(MissingHost(t)) => t == Trim(raw) && !HasHost(raw) && Normalize(raw) == DEFAULT_COORDINATOR_URL
            case Err(InvalidPort(text)) =>
              && HasHost(raw) && SplitHostPort(AuthorityOf(raw)).port == Some(text)
              && (ParseUnsigned(text, U16) == None || ParseUnsigned(text, U16) == Some(0))
              && Normalize(raw)
                 == Assemble(SchemeOf(raw), SplitHostPort(AuthorityOf(raw)).host, NormalizePath(TailOf(raw)))
  {
    hide SplitScheme, SplitAuthority, SplitHostPort, NormalizePath, Trim, ParseUnsigned, Decimal, KeptAuthority;
  }

  lemma ValidateForm(raw: string)
    ensures Validate(raw).Ok? <==> HasHost(raw) && !UseOf(SplitHostPort(AuthorityOf(raw)).port).Unusable?
    ensures Validate(raw).Ok? ==> Validate(raw).value == Normalize(raw)
  {
    hide SplitScheme, SplitAuthority, SplitHostPort, NormalizePath, Trim, ParseUnsigned, Decimal, KeptAuthority;
  }

  // Validation accepts its own output, and returns it unchanged, exactly when it settles at once.
  lemma ValidateIsStableIff(raw: string)
    requires Validate(raw).Ok?
    ensures Validate(Validate(raw).value) == Ok(Validate(raw).value) <==> SettlesAtOnce(raw)
  {
    hide Validate, Normalize, KeptAuthority, SplitHostPort, NormalizePath, BareWithBracket, SchemeOf, TailOf, Trim;
    ValidateForm(raw);
    var x := Normalize(raw);
    ValidateForm(x);
    IdempotentIff(raw);
    if SettlesAtOnce(raw) {
      TrailingBlankOfResult(raw);
      SecondPass(raw);
      KeptPortIff(AuthorityOf(raw));
      var port := SplitHostPort(AuthorityOf(x)).port;
      if port.Some? {
        var n: nat :| 1 <= n <= 65535 && port.value == Decimal(n);
        UseOfDecimal(n);
      }
    }
  }
}
