// Coordination-server URLs: crates/hivebear-core/src/config/endpoint.rs.
module Endpoint {
  import opened Wrappers
  import opened Text

  const DEFAULT_HOST := "34.66.188.245"
  const DEFAULT_COORDINATOR_URL := "http" + "://" + DEFAULT_HOST

  datatype UrlError = Empty
                    | MissingHost(raw: string)
                    | UnsupportedScheme(scheme: string)
                    | InvalidPort(text: string)

  const AUTHORITY_END := {'/', '?', '#'}
  const PATH_END := {'?', '#'}

  // A missing scheme defaults to http.
  function SplitScheme(raw: string): (string, string) {
    match Find(raw, "://")
    case Some(i) => (ToLower(raw[..i]), raw[i + 3..])
    case None => ("http", raw)
  }

  function SplitAuthority(rest: string): (string, string) {
    var end := FindAny(rest, AUTHORITY_END);
    (rest[..end], rest[end..])
  }

  // Length of the `user@` part.
  function UserinfoLen(authority: string): (n: nat)
    ensures n <= |authority|
  {
    match LastIndexOf(authority, '@')
    case Some(i) => i + 1
    case None => 0
  }

  // Length of a leading `[...]`, or 0.
  function BracketLen(s: string): (n: nat)
    ensures n <= |s|
  {
    if s == "" || s[0] != '[' then 0
    else
      var close := FindAny(s[1..], {']'});
      if close == |s| - 1 then 0 else close + 2
  }

  predicate IsBracketed(s: string) {
    BracketLen(s) > 0
  }

  // Two or more colons outside brackets: a bare IPv6 literal.
  predicate IsBareIpv6(s: string) {
    !IsBracketed(s) && Count(s, ':') > 1
  }

  datatype HostPort = HostPort(host: string, port: Option<string>)

  function SplitHostPort(authority: string): HostPort {
    var n := UserinfoLen(authority);
    var userinfo, after := authority[..n], authority[n..];
    if IsBracketed(after) then
      var rest := after[BracketLen(after)..];
      HostPort(userinfo + after[..BracketLen(after)],
               if rest != "" && rest[0] == ':' then Some(rest[1..]) else None)
    else if Count(after, ':') > 1 then HostPort(userinfo + "[" + after + "]", None)
    else match LastIndexOf(after, ':')
      case Some(i) => HostPort(userinfo + after[..i], Some(after[i + 1..]))
      case None => HostPort(authority, None)
  }

  function NormalizePath(tail: string): string {
    TrimEndChar(tail[..FindAny(tail, PATH_END)], '/')
  }

  // What a configured port text amounts to.
  datatype PortUse = Unset | Usable(port: nat) | Unusable(text: string)

  function UseOf(port: Option<string>): PortUse {
    if port.None? || port.value == "" then Unset
    else match ParseUnsigned(port.value, U16)
      case Some(n) => if n != 0 then Usable(n) else Unusable(port.value)
      case None => Unusable(port.value)
  }

  function Resolve(raw: string, strict: bool): Result<string, UrlError> {
    var trimmed := Trim(raw);
    if trimmed == "" then if strict then Err(Empty) else Ok(DEFAULT_COORDINATOR_URL)
    else
      var (scheme, rest) := SplitScheme(trimmed);
      if scheme != "http" && scheme != "https" then
        if strict then Err(UnsupportedScheme(scheme)) else Ok(trimmed)
      else
        var (authority, tail) := SplitAuthority(rest);
        var hp := SplitHostPort(authority);
        if hp.host == "" then if strict then Err(MissingHost(trimmed)) else Ok(DEFAULT_COORDINATOR_URL)
        else match UseOf(hp.port)
          case Unset => Ok(scheme + "://" + hp.host + NormalizePath(tail))
          case Usable(n) => Ok(scheme + "://" + (hp.host + ":" + Decimal(n)) + NormalizePath(tail))
          case Unusable(text) =>
            if strict then Err(InvalidPort(text)) else Ok(scheme + "://" + hp.host + NormalizePath(tail))
  }

  function Validate(raw: string): Result<string, UrlError> {
    Resolve(raw, true)
  }

  function Normalize(raw: string): string {
    match Resolve(raw, false)
    case Ok(url) => url
    case Err(_) => DEFAULT_COORDINATOR_URL
  }
}
