// What particular forms of coordinator URLs are normalized to, written out: missing schemes, ports, paths,
// IPv6 addresses, and inputs that are passed through or replaced by the default.
module EndpointForms {
  import opened Wrappers
  import opened Text
  import opened Endpoint
  import opened EndpointProofs

  predicate IsTrimmed(s: string) {
    s != "" && !IsWhitespace(s[0]) && !IsWhitespace(s[|s| - 1])
  }

  // ---------------------------------------------------------------- no scheme

  lemma NoSchemeIsHttp(t: string)
    requires !Contains(t, "://")
    ensures SplitScheme(t) == ("http", t)
  {
  }

  lemma TrimTrims(raw: string)
    requires Trim(raw) != ""
    ensures IsTrimmed(Trim(raw)) && Trim(Trim(raw)) == Trim(raw)
  {
  }

  // The answer of strict validation but for the input that an error quotes.
  function WithoutQuote(r: Result<string, UrlError>): Result<string, UrlError> {
    if r.Err? && r.error.MissingHost? then Err(MissingHost("")) else r
  }

  lemma SameParts(one: string, other: string)
    requires Trim(one) != "" && Trim(other) != "" && SplitScheme(Trim(one)) == SplitScheme(Trim(other))
    requires IsHttp(SplitScheme(Trim(one)).0)
    ensures Normalize(one) == Normalize(other) && WithoutQuote(Validate(one)) == WithoutQuote(Validate(other))
  {
    hide SplitScheme, Trim, SplitAuthority, SplitHostPort, NormalizePath, UseOf;
  }

  lemma WithHttp(t: string)
    requires IsTrimmed(t)
    ensures Trim("http://" + t) == "http://" + t && SplitScheme("http://" + t) == ("http", t)
  {
    hide SplitScheme;
    var full := "http://" + t;
    assert full[0] == 'h' && full[|full| - 1] == t[|t| - 1];
    assert "http" + "://" == "http://";
    SchemeIsRecovered("http", t);
  }

  // A text without a scheme is taken as if it had http:// in front.
  lemma MissingSchemeIsHttp(raw: string)
    requires Trim(raw) != "" && !Contains(Trim(raw), "://")
    ensures Normalize(raw) == Normalize("http://" + Trim(raw))
    ensures WithoutQuote(Validate(raw)) == WithoutQuote(Validate("http://" + Trim(raw)))
  {
    hide SplitScheme, Trim, Normalize, Validate, Contains, IsTrimmed, WithoutQuote;
    TrimTrims(raw);
    WithHttp(Trim(raw));
    NoSchemeIsHttp(Trim(raw));
    SameParts(raw, "http://" + Trim(raw));
  }

  // ---------------------------------------------------------------- plain hosts

  // A host name or IPv4 address.
  predicate IsPlainHost(host: string) {
    host != "" && forall i :: 0 <= i < |host| ==>
      host[i] !in {'/', '?', '#', '@', ':', '['} && !IsWhitespace(host[i])
  }

  lemma PlainHostSplits(host: string)
    requires IsPlainHost(host)
    ensures NoneOf(host, AUTHORITY_END) && ':' !in host && '@' !in host && '[' !in host
    ensures SplitHostPort(host) == HostPort(host, None)
  {
    assert host[0] != '[';
  }

  lemma AfterNoUserinfo(authority: string)
    requires '@' !in authority
    ensures AfterUserinfo(authority) == authority && KeptAuthority(authority) == KeptAfter(authority)
    ensures SplitHostPort(authority).host == SplitAfter(authority).host
  {
    UserinfoParts(authority);
    HostPortParts(authority);
    assert authority[..0] == "" && authority[0..] == authority;
    assert "" + KeptAfter(authority) == KeptAfter(authority);
  }

  // ---------------------------------------------------------------- assembled inputs

  // What comes of a scheme in any case, an authority and the rest of a URL.
  lemma NormalizesTo(raw: string, scheme: string, authority: string, tail: string)
    requires Trim(raw) == scheme + "://" + authority + tail && IsHttp(ToLower(scheme))
    requires NoneOf(authority, {'/', '?', '#'}) && (tail == "" || tail[0] in {'/', '?', '#'})
    requires SplitHostPort(authority).host != ""
    ensures Normalize(raw) == ToLower(scheme) + "://" + KeptAuthority(authority) + NormalizePath(tail)
    ensures Validate(raw) == match UseOf(SplitHostPort(authority).port)
                             case Unusable(text) => Err(InvalidPort(text))
                             case _ => Ok(Normalize(raw))
  {
    AnySchemeIsRecovered(scheme, authority + tail);
    Assoc(scheme + "://", authority, tail);
    AuthorityIsRecovered(authority, tail);
    hide SplitScheme, Trim, SplitAuthority, SplitHostPort, NormalizePath, UseOf;
  }

  lemma AnySchemeIsRecovered(scheme: string, rest: string)
    requires IsHttp(ToLower(scheme))
    ensures SplitScheme(scheme + "://" + rest) == (ToLower(scheme), rest)
  {
    var s := scheme + "://" + rest;
    var n := |scheme|;
    forall i | 0 <= i < n ensures scheme[i] != ':' {
      assert ToLower(scheme)[i] == LowerChar(scheme[i]);
    }
    assert s[n..n + 3] == "://";
    forall k | 0 <= k < n ensures !MatchesAt(s, "://", k) {
      assert s[k] == scheme[k];
      assert k + 3 <= |s| ==> s[k..k + 3][0] == s[k];
    }
    FindUnique(s, "://", n);
    assert s[..n] == scheme && s[n + 3..] == rest;
  }

  // Slashes at the end of the path, and everything from a '?' or '#' on, are cut off.
  lemma PathForms(path: string, slashes: string, extra: string)
    requires IsCleanPath(path) && (forall i :: 0 <= i < |slashes| ==> slashes[i] == '/')
    requires extra == "" || extra[0] == '?' || extra[0] == '#'
    ensures NormalizePath(path + (slashes + extra)) == path
  {
    var front := path + slashes;
    var tail := path + (slashes + extra);
    assert tail == front + extra;
    forall i | 0 <= i < |front| ensures tail[i] !in PATH_END {
      assert tail[i] == if i < |path| then path[i] else slashes[i - |path|];
    }
    assert extra != "" ==> tail[|front|] == extra[0];
    assert FindAny(tail, PATH_END) == |front| && tail[..|front|] == front;
    SlashesAreCut(path, slashes);
  }

  lemma {:induction false} SlashesAreCut(path: string, slashes: string)
    requires path == "" || path[|path| - 1] != '/'
    requires forall i :: 0 <= i < |slashes| ==> slashes[i] == '/'
    ensures TrimEndChar(path + slashes, '/') == path
  {
    if slashes == "" {
      assert path + slashes == path;
    } else {
      var fewer := slashes[..|slashes| - 1];
      var s := path + slashes;
      assert s[..|s| - 1] == path + fewer;
      SlashesAreCut(path, fewer);
    }
  }

  // Scheme in any case, plain host, port or none, path, trailing slashes, query or fragment: scheme in
  // lower case, host, port and path remain.
  lemma FullForm(raw: string, scheme: string, host: string, port: Option<nat>, path: string, slashes: string,
                 extra: string)
    requires IsHttp(ToLower(scheme)) && IsPlainHost(host) && (port.Some? ==> 1 <= port.value <= 65535)
    requires IsCleanPath(path) && (forall i :: 0 <= i < |slashes| ==> slashes[i] == '/')
    requires extra == "" || extra[0] == '?' || extra[0] == '#'
    requires var authority := if port.Some? then host + ":" + Decimal(port.value) else host;
             Trim(raw) == scheme + "://" + authority + (path + (slashes + extra))
    ensures Normalize(raw)
            == ToLower(scheme) + "://" + (if port.Some? then host + ":" + Decimal(port.value) else host) + path
    ensures Validate(raw) == Ok(Normalize(raw))
  {
    hide Trim, NormalizePath, ToLower, SplitHostPort, IsHttp, KeptAuthority, Decimal, Normalize, Validate;
    var authority := if port.Some? then host + ":" + Decimal(port.value) else host;
    var tail := path + (slashes + extra);
    PathForms(path, slashes, extra);
    HostAndPort(host, port);
    TailStart(path, slashes, extra);
    NormalizesTo(raw, scheme, authority, tail);
  }

  lemma TailStart(path: string, slashes: string, extra: string)
    requires IsCleanPath(path) && (forall i :: 0 <= i < |slashes| ==> slashes[i] == '/')
    requires extra == "" || extra[0] == '?' || extra[0] == '#'
    ensures var tail := path + (slashes + extra); tail == "" || tail[0] in {'/', '?', '#'}
  {
  }

  lemma HostAndPort(host: string, port: Option<nat>)
    requires IsPlainHost(host) && (port.Some? ==> 1 <= port.value <= 65535)
    ensures var authority := if port.Some? then host + ":" + Decimal(port.value) else host;
            && NoneOf(authority, {'/', '?', '#'}) && SplitHostPort(authority).host == host
            && KeptAuthority(authority) == authority && !UseOf(SplitHostPort(authority).port).Unusable?
  {
    hide Decimal, SplitHostPort, IsPlainHost, UseOf, NoneOf;
    PlainHostSplits(host);
    if port.Some? {
      HostWithNumber(host, port.value);
    } else {
      NoPortUnset();
    }
  }

  lemma HostWithNumber(host: string, n: nat)
    requires IsPlainHost(host) && 1 <= n <= 65535
    ensures var authority := host + ":" + Decimal(n);
            && NoneOf(authority, {'/', '?', '#'}) && SplitHostPort(authority) == HostPort(host, Some(Decimal(n)))
            && KeptAuthority(authority) == authority && UseOf(SplitHostPort(authority).port) == Usable(n)
  {
    hide Decimal, SplitHostPort, IsPlainHost, UseOf, ParseUnsigned;
    PlainHostSplits(host);
    DecimalLacks(n);
    UseOfDecimal(n);
    SplitsAtColon(host, Decimal(n));
    NoneOfConcat(host + ":", Decimal(n), {'/', '?', '#'});
    NoneOfConcat(host, ":", {'/', '?', '#'});
  }

  lemma SplitsAtColon(host: string, port: string)
    requires IsPlainHost(host) && ':' !in port && '@' !in port
    ensures SplitHostPort(host + ":" + port) == HostPort(host, Some(port))
  {
    hide Count, LastIndexOf, BracketLen;
    PlainHostSplits(host);
    var authority := host + ":" + port;
    assert authority[..|host|] == host && authority[|host| + 1..] == port;
    LastColonAt(host, port);
    OneColon(host, port);
    NoUserinfo(authority);
    assert authority[0] == host[0] && host[0] in host;
    BracketedIff(authority);
    assert authority[0..] == authority && authority[..0] == "";
  }

  lemma NoUserinfo(authority: string)
    requires '@' !in authority
    ensures UserinfoLen(authority) == 0
  {
  }

  // A plain host by itself.
  lemma PlainHostAlone(host: string)
    requires IsPlainHost(host)
    ensures Normalize(host) == "http://" + host && Validate(host) == Ok("http://" + host)
  {
    hide Normalize, Validate, ToLower, Trim;
    assert IsTrimmed(host) && Trim(host) == host;
    NoSchemeInHost(host);
    MissingSchemeIsHttp(host);
    var raw := "http://" + host;
    assert raw[0] == 'h' && raw[|raw| - 1] == host[|host| - 1];
    assert Trim(raw) == raw;
    LowerHttp();
    assert raw == "http" + "://" + host + ("" + ("" + ""));
    FullForm(raw, "http", host, None, "", "", "");
    assert "http" + "://" + host + "" == raw;
  }

  lemma LowerHttp()
    ensures ToLower("http") == "http" && ToLower("HTTPS") == "https"
  {
  }

  lemma NoSchemeInHost(host: string)
    requires IsPlainHost(host)
    ensures !Contains(host, "://")
  {
    assert ':' !in host by { assert forall i :: 0 <= i < |host| ==> host[i] != ':'; }
    AbsentWithout(host, "://", 0);
  }

  // ---------------------------------------------------------------- ports

  // A port text without ':' and ']' behind a plain host: kept as a number from 1 to 65535, dropped if
  // empty, and otherwise dropped or, when strict, refused.
  lemma PortForms(host: string, port: string)
    requires IsPlainHost(host) && ':' !in port && '@' !in port && NoneOf(port, {'/', '?', '#'})
    ensures var authority := host + ":" + port;
            && SplitHostPort(authority) == HostPort(host, Some(port))
            && KeptAuthority(authority)
               == match ParseUnsigned(port, 65536)
                  case Some(n) => if n == 0 then host else host + ":" + Decimal(n)
                  case None => host
  {
    hide Decimal, ParseUnsigned, SplitHostPort, IsPlainHost;
    SplitsAtColon(host, port);
    EmptyIsNoNumber();
  }

  // At the end of a URL without a path: what the port makes of the whole.
  lemma PortDecides(raw: string, host: string, port: string)
    requires IsPlainHost(host) && ':' !in port && '@' !in port && NoneOf(port, {'/', '?', '#'})
    requires Trim(raw) == "http" + "://" + (host + ":" + port) + ""
    ensures var bare := "http" + "://" + host + "";
            match ParseUnsigned(port, 65536)
            case Some(n) =>
              if n == 0 then Normalize(raw) == bare && Validate(raw) == Err(InvalidPort(port))
              else && Normalize(raw) == "http" + "://" + (host + ":" + Decimal(n)) + ""
                   && Validate(raw) == Ok(Normalize(raw))
            case None =>
              Normalize(raw) == bare && Validate(raw) == if port == "" then Ok(bare) else Err(InvalidPort(port))
  {
    hide Decimal, ParseUnsigned, SplitHostPort, IsPlainHost, Normalize, Validate, NormalizePath, Trim, KeptAuthority;
    LowerHttp();
    PortForms(host, port);
    EmptyIsNoNumber();
    PathForms("", "", "");
    assert "" + ("" + "") == "";
    PlainHostSplits(host);
    NoneOfConcat(host + ":", port, {'/', '?', '#'});
    NoneOfConcat(host, ":", {'/', '?', '#'});
    PlainIsNotEmpty(host);
    NormalizesTo(raw, "http", host + ":" + port, "");
  }

  lemma PlainIsNotEmpty(host: string)
    requires IsPlainHost(host)
    ensures host != ""
  {
  }

  // Spaces, tabs and line ends around a URL do not matter.
  lemma BlanksAround(front: string, text: string, back: string)
    requires IsTrimmed(text)
    requires forall i :: 0 <= i < |front| ==> front[i] in {' ', '\t', '\r', '\n'}
    requires forall i :: 0 <= i < |back| ==> back[i] in {' ', '\t', '\r', '\n'}
    ensures Normalize(front + text + back) == Normalize(text) && Validate(front + text + back) == Validate(text)
  {
    hide IsWhitespace, Trim, Normalize, Validate;
    BlankChars();
    BlanksAreTrimmed(front, text, back);
    TextIsTrimmed(text);
    OnlyTrimmed(front + text + back, text);
  }

  lemma BlankChars()
    ensures forall c :: c in {' ', '\t', '\r', '\n'} ==> IsWhitespace(c)
  {
  }

  lemma TextIsTrimmed(text: string)
    requires IsTrimmed(text)
    ensures Trim(text) == text
  {
  }

  lemma OnlyTrimmed(one: string, other: string)
    requires Trim(one) == Trim(other)
    ensures Normalize(one) == Normalize(other) && Validate(one) == Validate(other)
  {
    hide Trim, SplitScheme, SplitAuthority, SplitHostPort, NormalizePath, UseOf;
  }

  lemma EmptyIsNoNumber()
    ensures ParseUnsigned("", 65536) == None
  {
  }

  lemma LastColonAt(host: string, port: string)
    requires ':' !in port
    ensures LastIndexOf(host + ":" + port, ':') == Some(|host|)
  {
    var s := host + ":" + port;
    assert s[|host| + 1..] == port;
    LastIndexOfUnique(s, ':', |host|);
  }

  lemma OneColon(host: string, port: string)
    requires ':' !in host && ':' !in port
    ensures Count(host + ":" + port, ':') == 1
  {
    CountConcat(host + ":", port, ':');
    CountConcat(host, ":", ':');
    NoneCounted(host, ':');
    NoneCounted(port, ':');
    assert ":"[1..] == "";
  }

  lemma {:induction false} NoneCounted(s: string, c: char)
    requires c !in s
    ensures Count(s, c) == 0
  {
    if s != "" {
      NoneCounted(s[1..], c);
    }
  }

  // ---------------------------------------------------------------- IPv6 and user names

  // Bare text with two or more colons is put in brackets.
  lemma BareIpv6Form(after: string)
    requires '[' !in after && Count(after, ':') > 1 && '@' !in after
    ensures SplitHostPort(after) == HostPort("[" + after + "]", None) && KeptAuthority(after) == "[" + after + "]"
  {
    assert after[0..] == after && after[..0] == "";
    assert "" + "[" + after + "]" == "[" + after + "]";
    assert !IsBracketed(after) by {
      if after != "" {
        assert after[0] in after;
      }
    }
  }

  // Brackets stay, with or without a port behind them.
  lemma BracketedForm(inner: string, port: Option<nat>)
    requires ']' !in inner && '@' !in inner && (port.Some? ==> 1 <= port.value <= 65535)
    ensures var authority := "[" + inner + "]" + (if port.Some? then ":" + Decimal(port.value) else "");
            SplitHostPort(authority).host == "[" + inner + "]" && KeptAuthority(authority) == authority
  {
    hide Decimal, SplitAfter, SplitHostPort, UserinfoLen, UseOf;
    var rest := if port.Some? then ":" + Decimal(port.value) else "";
    var authority := "[" + inner + "]" + rest;
    if port.Some? {
      DecimalLacks(port.value);
      UseOfDecimal(port.value);
      assert rest[1..] == Decimal(port.value);
    } else {
      NoPortUnset();
    }
    BracketedRead(inner, rest);
    AfterNoUserinfo(authority);
    Assoc("[" + inner + "]", ":", if port.Some? then Decimal(port.value) else "");
    assert "[" + inner + "]" + "" == "[" + inner + "]";
  }

  // A user name in front stays in front.
  lemma UserinfoForm(user: string, after: string)
    requires '@' !in after
    ensures KeptAuthority(user + "@" + after) == user + "@" + KeptAuthority(after)
  {
    hide KeptAuthority, KeptAfter, UserinfoLen;
    var authority := user + "@" + after;
    UserinfoIsRecovered(user + "@", after);
    UserinfoParts(authority);
    AfterNoUserinfo(after);
    assert authority[..|user| + 1] == user + "@";
  }

  // ---------------------------------------------------------------- inputs without a usable host

  // Blank inputs, and http(s) URLs without a host, become the default; other schemes are passed through.
  lemma DefaultAndPassedThrough(raw: string)
    ensures Trim(raw) == "" ==> Normalize(raw) == "http://" + "34.66.188.245" && Validate(raw) == Err(Empty)
    ensures Trim(raw) != "" && !IsHttp(SchemeOf(raw)) ==>
              Normalize(raw) == Trim(raw) && Validate(raw) == Err(UnsupportedScheme(SchemeOf(raw)))
  {
    hide Trim, SplitScheme, SplitAuthority, SplitHostPort;
    DefaultText();
  }

  lemma NoHostIsDefault(raw: string, scheme: string, tail: string)
    requires Trim(raw) == scheme + "://" + tail && IsHttp(ToLower(scheme))
    requires tail == "" || tail[0] in {'/', '?', '#'}
    ensures Normalize(raw) == "http://" + "34.66.188.245" && Validate(raw) == Err(MissingHost(Trim(raw)))
  {
    hide SplitScheme, Trim, SplitAuthority, SplitHostPort, ToLower;
    AnySchemeIsRecovered(scheme, tail);
    NoHostParts(tail);
    DefaultText();
  }

  lemma DefaultText()
    ensures DEFAULT_COORDINATOR_URL == "http://" + "34.66.188.245"
  {
    assert "http" + "://" == "http://";
  }

  lemma NoHostParts(tail: string)
    requires tail == "" || tail[0] in {'/', '?', '#'}
    ensures SplitAuthority(tail) == ("", tail) && SplitHostPort("") == HostPort("", None)
  {
    AuthorityIsRecovered("", tail);
    assert "" + tail == tail;
  }
}
