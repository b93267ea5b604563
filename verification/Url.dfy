/**
 WebSocket URLs (section 3 of RFC 6455) as `ws_url` splits them.
 */
module Url {
  import opened Bytes
  import opened Numbers

  datatype Url = Url(useTls: bool, hostname: string, port: u16, path: string)

  /** `std::string::find`. */
  function Find(s: string, c: char): (p: Option<nat>)
    ensures p.None? ==> c !in s
    ensures p.Some? ==> p.value < |s| && s[p.value] == c && c !in s[..p.value]
  {
    if s == "" then None
    else if s[0] == c then Some(0)
    else match Find(s[1..], c)
         case None => None
         case Some(p) => assert s[..p + 1] == [s[0]] + s[1..][..p]; Some(p + 1)
  }

  lemma FindAfter(a: string, c: char, b: string)
    requires c !in a
    ensures Find(a + [c] + b, c) == Some(|a|)
  {
    var s := a + [c] + b;
    assert s[|a|] == c && s[..|a|] == a;
    assert forall i | 0 <= i < |a| :: s[i] == a[i] && a[i] in a;
  }

  /** The parts of a URL. */
  function Parts(url: string): Result<Url> {
    if "ws://" <= url then Host(false, url[5..])
    else if "wss://" <= url then Host(true, url[6..])
    else Throw
  }

  function Host(useTls: bool, remainder: string): Result<Url> {
    match Find(remainder, '/')
    case None => Authority(useTls, remainder, "/")
    case Some(p) => Authority(useTls, remainder[..p], remainder[p..])
  }

  function Authority(useTls: bool, authority: string, path: string): Result<Url> {
    match Find(authority, ':')
    case None => Ok(Url(useTls, authority, if useTls then 443 else 80, path))
    case Some(p) =>
      var port :- Stoi(authority[p + 1..]);
      Ok(Url(useTls, authority[..p], port % 0x1_0000, path))
  }

  /** `parse_protocol`: the rest of the URL; `useTls` is the out-parameter. */
  method ParseProtocol(url: string) returns (remainder: Result<string>, useTls: bool)
    ensures remainder.Throw? <==> !("ws://" <= url || "wss://" <= url)
    ensures remainder.Ok? ==> useTls == !("ws://" <= url)
    ensures remainder.Ok? ==> url == (if useTls then "wss://" else "ws://") + remainder.value
  {
    useTls := false;
    if "ws://" <= url {
      return Ok(url[5..]), false;
    }
    if "wss://" <= url {
      return Ok(url[6..]), true;
    }
    return Throw, false;
  }

  /** The constructor of `ws_url`. */
  method ParseUrl(url: string) returns (r: Result<Url>)
    ensures r == Parts(url)
  {
    var parsed, useTls := ParseProtocol(url);
    if parsed.Throw? { return Throw; }
    var remainder := parsed.value;
    assert remainder == if useTls then url[6..] else url[5..];
    assert Parts(url) == Host(useTls, remainder);
    var path;
    var pathStart := Find(remainder, '/');
    if pathStart.Some? {
      path := remainder[pathStart.value..];
      remainder := remainder[..pathStart.value];
    } else {
      path := "/";
    }
    var hostname, port: u16;
    var portStart := Find(remainder, ':');
    if portStart.Some? {
      var number :- Stoi(remainder[portStart.value + 1..]);
      port := number % 0x1_0000;
      hostname := remainder[..portStart.value];
    } else {
      port := if useTls then 443 else 80;
      hostname := remainder;
    }
    return Ok(Url(useTls, hostname, port, path));
  }

  /** Scheme, host, port text and path, put together as a URL. */
  function Assemble(useTls: bool, hostname: string, portText: Option<string>, path: string): string {
    (if useTls then "wss://" else "ws://") + (hostname + ColonPort(portText) + path)
  }

  function ColonPort(portText: Option<string>): string {
    match portText
    case None => ""
    case Some(t) => ":" + t
  }

  /** The port of a URL: the scheme's default, or the number of its text, wrapped to 16 bits. */
  function PortOf(useTls: bool, portText: Option<string>): Result<u16> {
    match portText
    case None => Ok(if useTls then 443 else 80)
    case Some(t) => var n :- Stoi(t); Ok(n % 0x1_0000)
  }

  lemma AuthoritySplits(useTls: bool, hostname: string, portText: Option<string>, path: string)
    requires ':' !in hostname
    ensures Authority(useTls, hostname + ColonPort(portText), path)
            == match PortOf(useTls, portText)
               case Throw => Throw
               case Ok(port) => Ok(Url(useTls, hostname, port, path))
  {
    hide Stoi, Find;
    var a := hostname + ColonPort(portText);
    match portText
    case None =>
      assert a == hostname;
      assert Find(a, ':').None?;
    case Some(t) =>
      assert a == hostname + [':'] + t;
      FindAfter(hostname, ':', t);
      assert a[..|hostname|] == hostname && a[|hostname| + 1..] == t;
  }

  /**
   A URL is split at its first slash, and what is in front of that at its first colon; a port text that is no number
   throws, and an empty path becomes "/".
   */
  lemma Splits(useTls: bool, hostname: string, portText: Option<string>, path: string)
    requires '/' !in hostname && ':' !in hostname && (portText.Some? ==> '/' !in portText.value)
    requires path == "" || path[0] == '/'
    ensures Parts(Assemble(useTls, hostname, portText, path))
            == match PortOf(useTls, portText)
               case Throw => Throw
               case Ok(port) => Ok(Url(useTls, hostname, port, if path == "" then "/" else path))
  {
    hide Authority, Stoi, Find, PortOf;
    var scheme := if useTls then "wss://" else "ws://";
    var a := hostname + ColonPort(portText);
    var url := Assemble(useTls, hostname, portText, path);
    assert url[|scheme|..] == a + path;
    assert '/' !in a;
    if path == "" { assert Find(a, '/').None?; }
    AuthoritySplits(useTls, hostname, portText, if path == "" then "/" else path);
    if path == "" {
      assert a + path == a;
    } else {
      assert a + path == a + ['/'] + path[1..];
      FindAfter(a, '/', path[1..]);
      assert (a + path)[..|a|] == a && (a + path)[|a|..] == path;
    }
    assert !useTls ==> "ws://" <= url;
    if useTls { assert url[2] == 's' && "ws://"[2] == ':'; }
    assert Parts(url) == Host(useTls, a + path);
  }

  lemma EveryAuthoritySplits(authority: string) returns (hostname: string, portText: Option<string>)
    ensures authority == hostname + ColonPort(portText) && ':' !in hostname
    ensures '/' !in authority ==> '/' !in hostname && (portText.Some? ==> '/' !in portText.value)
  {
    match Find(authority, ':')
    case None => hostname, portText := authority, None;
    case Some(p) =>
      hostname, portText := authority[..p], Some(authority[p + 1..]);
      assert authority == hostname + [authority[p]] + portText.value;
  }

  lemma EveryHostSplits(rest: string) returns (authority: string, path: string)
    ensures rest == authority + path && '/' !in authority
    ensures path == "" || path[0] == '/'
  {
    match Find(rest, '/')
    case None => authority, path := rest, "";
    case Some(p) => authority, path := rest[..p], rest[p..];
  }

  /** Every string is such a URL, or it has neither scheme and throws. */
  lemma EveryUrlSplits(url: string) returns (useTls: bool, hostname: string, portText: Option<string>, path: string)
    ensures if "ws://" <= url || "wss://" <= url
            then && url == Assemble(useTls, hostname, portText, path)
                 && '/' !in hostname && ':' !in hostname && (portText.Some? ==> '/' !in portText.value)
                 && (path == "" || path[0] == '/')
            else Parts(url) == Throw
  {
    useTls, hostname, portText, path := "wss://" <= url, "", None, "";
    if "ws://" <= url || "wss://" <= url {
      hide Find, Parts, ColonPort;
      var rest := url[if useTls then 6 else 5..];
      assert url == (if useTls then "wss://" else "ws://") + rest;
      var authority;
      authority, path := EveryHostSplits(rest);
      hostname, portText := EveryAuthoritySplits(authority);
    }
  }

  /** The URL with the given parts; without a port the scheme's default applies. */
  function Print(useTls: bool, hostname: string, port: Option<u16>, path: string): string {
    Assemble(useTls, hostname, match port case None => None case Some(p) => Some(Decimal(p)), path)
  }

  /**
   Printing and parsing returns the parts for any host without '/' and ':', any port and any path;
   an empty path becomes "/", and colons in the path never affect the port.
   */
  lemma RoundTrip(useTls: bool, hostname: string, port: Option<u16>, path: string)
    requires '/' !in hostname && ':' !in hostname
    requires path == "" || path[0] == '/'
    ensures Parts(Print(useTls, hostname, port, path))
            == Ok(Url(useTls, hostname, match port case Some(p) => p case None => if useTls then 443 else 80,
                      if path == "" then "/" else path))
  {
    hide Stoi, Decimal, Assemble, Parts;
    match port
    case None => Splits(useTls, hostname, None, path);
    case Some(p) =>
      StoiDecimal(p, "");
      assert Decimal(p) + "" == Decimal(p);
      Splits(useTls, hostname, Some(Decimal(p)), path);
  }
}
