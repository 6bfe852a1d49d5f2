/**
  * The WebSocket URI parser (section 3 of RFC 6455) and its printer: which URIs survive being
  * printed and parsed again.
  */
module Uri {
  import opened Helpers

  datatype Uri = Uri(scheme: string, host: string, port: nat, resource: string, secure: bool)

  function DefaultPort(secure: bool): nat {
    if secure then 443 else 80
  }

  // ----- Scanning -----

  /** The length of the part of `s` before the first character in `stops`. */
  function Until(s: string, stops: set<char>): (k: nat)
    ensures k <= |s| && (forall i | 0 <= i < k :: s[i] !in stops) && (k < |s| ==> s[k] in stops)
  {
    if s == [] || s[0] in stops then 0 else 1 + Until(s[1..], stops)
  }

  lemma UntilUnique(s: string, stops: set<char>, k: nat)
    requires k <= |s| && (forall i | 0 <= i < k :: s[i] !in stops) && (k < |s| ==> s[k] in stops)
    ensures Until(s, stops) == k
  {
  }

  predicate Digit(c: char) {
    '0' <= c <= '9'
  }

  predicate Space(c: char) {
    c == ' ' || '\t' <= c <= '\r'
  }

  /** The number spelled by the leading digits. */
  function Number(acc: nat, s: string): int
    decreases |s|
  {
    if s == [] || !Digit(s[0]) then acc else Number(10 * acc + (s[0] - '0') as nat, s[1..])
  }

  function SkipSpace(s: string): string {
    if s != [] && Space(s[0]) then SkipSpace(s[1..]) else s
  }

  /** `atoi`: blanks, a sign, digits; anything else ends the number. */
  function Atoi(s: string): int {
    var t := SkipSpace(s);
    if t != [] && t[0] == '-' then 0 - Number(0, t[1..])
    else if t != [] && t[0] == '+' then Number(0, t[1..])
    else Number(0, t)
  }

  /** The port, or nothing for an error. A negative number is huge once cast to unsigned. */
  function PortFromString(secure: bool, port: string): Option<nat> {
    if port == [] then Some(DefaultPort(secure))
    else if 1 <= Atoi(port) <= 65535 then Some(Atoi(port))
    else None
  }

  // ----- Parsing -----

  /** Scheme and security flag, and the number of characters up to the host, which must not be missing. */
  function Scheme(s: string): Option<(string, bool, nat)> {
    if |s| >= 7 && s[..6] == "wss://" then Some(("wss", true, 6))
    else if |s| >= 6 && s[..5] == "ws://" then Some(("ws", false, 5))
    else if |s| >= 8 && s[..7] == "http://" then Some(("http", false, 7))
    else if |s| >= 9 && s[..8] == "https://" then Some(("https", true, 8))
    else None
  }

  /** Host, and what follows it up to and including a slash: the port text and the rest. */
  datatype Authority = Authority(host: string, port: string, rest: string)

  /** After a colon: the port text runs to the next slash. */
  function WithPort(host: string, s: string): Authority {
    var k := Until(s, {'/'});
    Authority(host, s[..k], if k < |s| then s[k + 1..] else [])
  }

  function ParseAuthority(s: string): Option<Authority>
    requires s != []
  {
    if s[0] == '[' then
      var t := s[1..];
      var k := Until(t, {']'});
      if k == |t| then None
      else
        var after := t[k + 1..];
        if after == [] then Some(Authority(t[..k], [], []))
        else if after[0] == '/' then Some(Authority(t[..k], [], after[1..]))
        else if after[0] == ':' then Some(WithPort(t[..k], after[1..]))
        else None
    else
      var k := Until(s, {':', '/'});
      if k == |s| then Some(Authority(s, [], []))
      else if s[k] == '/' then Some(Authority(s[..k], [], s[k + 1..]))
      else Some(WithPort(s[..k], s[k + 1..]))
  }

  function Parse(s: string): Option<Uri> {
    match Scheme(s)
    case None => None
    case Some((scheme, secure, n)) =>
      match ParseAuthority(s[n..])
      case None => None
      case Some(a) =>
        match PortFromString(secure, a.port)
        case None => None
        case Some(port) => Some(Uri(scheme, a.host, port, "/" + a.rest, secure))
  }

  /** The host part of the scan. */
  method ScanHost(s: string, start: nat) returns (ok: bool, host: string, state: nat, it: nat)
    requires start < |s|
    ensures ok <==> ParseAuthority(s[start..]).Some?
    ensures ok ==> AtHostEnd(s, start, it, host, state)
  {
    hide WithPort, ParseAuthority, AtHostEnd;
    if s[start] == '[' {
      ok, host, state, it := ScanBracketed(s, start);
    } else {
      ok := true;
      host, state, it := ScanName(s, start);
    }
  }

  /** Up to the closing bracket, and the one character after it. */
  method ScanBracketed(s: string, start: nat) returns (ok: bool, host: string, state: nat, it: nat)
    requires start < |s| && s[start] == '['
    ensures ok <==> ParseAuthority(s[start..]).Some?
    ensures ok ==> AtHostEnd(s, start, it, host, state)
  {
    hide WithPort, ParseAuthority, AtHostEnd;
    ok, host, state, it := true, "", 0, start + 1;
    var temp := it;
    while temp != |s|
      invariant it <= temp <= |s| && forall i | it <= i < temp :: s[i] !in {']'}
    {
      if s[temp] == ']' {
        break;
      }
      temp := temp + 1;
    }
    BracketedHost(s, start, temp);
    if temp == |s| {
      ok := false;
      return;
    }
    host := s[it..temp];
    it := temp + 1;
    if it == |s| {
      state := 2;
    } else if s[it] == '/' {
      state := 2;
      it := it + 1;
    } else if s[it] == ':' {
      state := 1;
      it := it + 1;
    } else {
      ok := false;
    }
  }

  lemma BracketedHost(s: string, start: nat, temp: nat)
    requires start < temp <= |s| && s[start] == '[' && forall i | start < i < temp :: s[i] !in {']'}
    requires temp < |s| ==> s[temp] == ']'
    ensures temp == |s| ==> ParseAuthority(s[start..]).None?
    ensures temp + 1 == |s| ==> AtHostEnd(s, start, temp + 1, s[start + 1..temp], 2)
    ensures temp + 1 < |s| && s[temp + 1] == '/' ==> AtHostEnd(s, start, temp + 2, s[start + 1..temp], 2)
    ensures temp + 1 < |s| && s[temp + 1] == ':' ==> AtHostEnd(s, start, temp + 2, s[start + 1..temp], 1)
    ensures temp + 1 < |s| && s[temp + 1] !in {':', '/'} ==> ParseAuthority(s[start..]).None?
    ensures temp < |s| && (temp + 1 == |s| || s[temp + 1] in {':', '/'}) ==> ParseAuthority(s[start..]).Some?
  {
    hide WithPort;
    var t, k := s[start + 1..], temp - start - 1;
    assert s[start..][1..] == t;
    UntilUnique(t, {']'}, k);
    hide Until;
    if temp < |s| {
      assert t[..k] == s[start + 1..temp] && t[k + 1..] == s[temp + 1..];
      if temp + 1 < |s| {
        assert s[temp + 1..][1..] == s[temp + 2..];
      }
    }
  }

  /** A hostname or IPv4 address, up to a slash or colon. */
  method ScanName(s: string, start: nat) returns (host: string, state: nat, it: nat)
    requires start < |s| && s[start] != '['
    ensures ParseAuthority(s[start..]).Some?
    ensures AtHostEnd(s, start, it, host, state)
  {
    hide WithPort, ParseAuthority, AtHostEnd;
    host, state, it := "", 0, start;
    while state == 0
      invariant start <= it <= |s| && state <= 2
      invariant state == 0 ==> host == s[start..it] && forall i | start <= i < it :: s[i] !in {':', '/'}
      invariant state != 0 ==> AtHostEnd(s, start, it, host, state) && ParseAuthority(s[start..]).Some?
      decreases |s| - it, if state == 0 then 1 else 0
    {
      if it == |s| {
        state := 2;
        assert host == s[start..];
        HostToEnd(s, start);
        break;
      } else if s[it] == '/' {
        state := 2;
        HostToStop(s, start, it);
      } else if s[it] == ':' {
        state := 1;
        HostToStop(s, start, it);
      } else {
        host := host + [s[it]];
      }
      it := it + 1;
    }
  }

  /** Where the scan of a plain hostname stands once it has left its state 0. */
  ghost predicate AtHostEnd(s: string, start: nat, it: nat, host: string, state: nat) {
    && start < |s| && it <= |s| && (state == 1 || state == 2)
    && ParseAuthority(s[start..]) == Some(if state == 1 then WithPort(host, s[it..]) else Authority(host, [], s[it..]))
  }

  lemma HostToEnd(s: string, start: nat)
    requires start < |s| && s[start] != '[' && forall i | start <= i < |s| :: s[i] !in {':', '/'}
    ensures AtHostEnd(s, start, |s|, s[start..], 2) && ParseAuthority(s[start..]).Some?
  {
    UntilUnique(s[start..], {':', '/'}, |s| - start);
    assert s[|s|..] == [];
  }

  lemma HostToStop(s: string, start: nat, it: nat)
    requires start <= it < |s| && s[start] != '[' && forall i | start <= i < it :: s[i] !in {':', '/'}
    requires s[it] == ':' || s[it] == '/'
    ensures AtHostEnd(s, start, it + 1, s[start..it], if s[it] == ':' then 1 else 2) && ParseAuthority(s[start..]).Some?
  {
    hide WithPort;
    UntilUnique(s[start..], {':', '/'}, it - start);
    assert s[start..][it - start + 1..] == s[it + 1..];
    assert s[start..][..it - start] == s[start..it];
  }

  /** The port part of the scan. */
  method ScanPort(s: string, start: nat) returns (port: string, it: nat)
    requires start <= |s|
    ensures it <= |s|
    ensures forall host :: WithPort(host, s[start..]) == Authority(host, port, s[it..])
  {
    hide WithPort, NoSlash;
    it := start;
    port := "";
    var state := 1;
    NoSlashYet(s, start);
    while state == 1
      invariant start <= it <= |s|
      invariant state == 1 ==> port == s[start..it] && NoSlash(s, start, it)
      invariant state != 1 ==> it > start && port == s[start..it - 1] && s[it - 1] == '/' && NoSlash(s, start, it - 1)
      decreases |s| - it, if state == 1 then 1 else 0
    {
      if it == |s| {
        break;
      } else if s[it] == '/' {
        state := 3;
      } else {
        port := port + [s[it]];
        NoSlashGrows(s, start, it);
      }
      it := it + 1;
    }
    if state == 1 {
      PortTo(s, start, it);
      assert s[it..] == [];
    } else {
      PortTo(s, start, it - 1);
    }
  }

  predicate NoSlash(s: string, start: nat, end: nat)
    requires start <= end <= |s|
  {
    forall i | start <= i < end :: s[i] != '/'
  }

  lemma NoSlashYet(s: string, start: nat)
    requires start <= |s|
    ensures NoSlash(s, start, start) && s[start..start] == []
  {
  }

  lemma NoSlashGrows(s: string, start: nat, end: nat)
    requires start <= end < |s| && NoSlash(s, start, end) && s[end] != '/'
    ensures NoSlash(s, start, end + 1) && s[start..end + 1] == s[start..end] + [s[end]]
  {
  }

  lemma PortTo(s: string, start: nat, end: nat)
    requires start <= end <= |s| && NoSlash(s, start, end) && (end < |s| ==> s[end] == '/')
    ensures forall host :: WithPort(host, s[start..]) == Authority(host, s[start..end], if end < |s| then s[end + 1..] else [])
  {
    var t, k := s[start..], end - start;
    forall i | 0 <= i < k ensures t[i] !in {'/'} { assert t[i] == s[start + i]; }
    UntilUnique(t, {'/'}, k);
    hide Until;
    assert t[..k] == s[start..end];
    assert end < |s| ==> t[k + 1..] == s[end + 1..];
  }

  /** The parsing constructor: one pass over the string with an iterator and a state variable. */
  method ParseString(s: string) returns (r: Option<Uri>)
    ensures r == Parse(s)
  {
    var scheme, secure, it;
    if |s| >= 7 && s[..6] == "wss://" {
      secure, scheme, it := true, "wss", 6;
    } else if |s| >= 6 && s[..5] == "ws://" {
      secure, scheme, it := false, "ws", 5;
    } else if |s| >= 8 && s[..7] == "http://" {
      secure, scheme, it := false, "http", 7;
    } else if |s| >= 9 && s[..8] == "https://" {
      secure, scheme, it := true, "https", 8;
    } else {
      return None;
    }
    assert Scheme(s) == Some((scheme, secure, it));
    hide Scheme, WithPort, ParseAuthority, PortFromString;
    var ok, host, state, next := ScanHost(s, it);
    if !ok {
      return None;
    }
    var port := "";
    if state == 1 {
      port, next := ScanPort(s, next);
    }
    match PortFromString(secure, port) {
      case None => r := None;
      case Some(p) => r := Some(Uri(scheme, host, p, "/" + s[next..], secure));
    }
  }

  // ----- Printing -----

  function Decimal(n: nat): string {
    if n < 10 then ['0' + n as char] else Decimal(n / 10) + ['0' + (n % 10) as char]
  }

  function PortSuffix(u: Uri): string {
    if u.port != DefaultPort(u.secure) then ":" + Decimal(u.port) else ""
  }

  function Str(u: Uri): string {
    u.scheme + "://" + u.host + PortSuffix(u) + u.resource
  }

  /** The fields a valid URI has, wherever it comes from. */
  ghost predicate Proper(u: Uri) {
    && (u.scheme == "ws" || u.scheme == "wss" || u.scheme == "http" || u.scheme == "https")
    && u.secure == (u.scheme == "wss" || u.scheme == "https")
    && 1 <= u.port <= 65535
    && u.resource != [] && u.resource[0] == '/'
  }

  /** A host that needs no brackets. */
  ghost predicate Plain(host: string) {
    ':' !in host && '/' !in host && (host == [] || host[0] != '[')
  }

  lemma {:induction false} DecimalDigits(n: nat)
    ensures Decimal(n) != [] && forall i | 0 <= i < |Decimal(n)| :: Digit(Decimal(n)[i])
  {
    if n >= 10 { DecimalDigits(n / 10); }
  }

  lemma {:induction false} NumberConcat(acc: nat, s: string, c: char)
    requires Digit(c) && forall i | 0 <= i < |s| :: Digit(s[i])
    ensures Number(acc, s + [c]) == 10 * Number(acc, s) + (c - '0') as int
    decreases |s|
  {
    if s == [] {
      assert s + [c] == [c] && [c][1..] == [];
    } else {
      assert (s + [c])[1..] == s[1..] + [c];
      NumberConcat(10 * acc + (s[0] - '0') as nat, s[1..], c);
    }
  }

  lemma {:induction false} NumberDecimal(n: nat)
    ensures Number(0, Decimal(n)) == n
  {
    if n < 10 {
      assert Decimal(n)[1..] == [];
    } else {
      DecimalDigits(n / 10);
      NumberDecimal(n / 10);
      NumberConcat(0, Decimal(n / 10), '0' + (n % 10) as char);
    }
  }

  /** A printed port is read back. */
  lemma PortPrinted(secure: bool, n: nat)
    requires 1 <= n <= 65535
    ensures PortFromString(secure, Decimal(n)) == Some(n)
  {
    DecimalDigits(n);
    NumberDecimal(n);
  }

  lemma SchemePrinted(u: Uri, rest: string)
    requires Proper(u) && rest != []
    ensures Scheme(u.scheme + "://" + rest) == Some((u.scheme, u.secure, |u.scheme| + 3))
    ensures (u.scheme + "://" + rest)[|u.scheme| + 3..] == rest
  {
    var s := u.scheme + "://" + rest;
    if u.scheme == "wss" {
      assert s[..6] == "wss://";
    } else if u.scheme == "ws" {
      assert s[..5] == "ws://" && s[2] == ':';
    } else if u.scheme == "http" {
      assert s[..7] == "http://" && s[0] == 'h';
    } else {
      assert s[..8] == "https://" && s[4] == 's';
    }
  }

  /** What follows the scheme in a printed URI. */
  function Tail(u: Uri): string {
    u.host + PortSuffix(u) + u.resource
  }

  lemma NameThen(host: string, rest: string)
    requires Plain(host) && rest != [] && (rest[0] == ':' || rest[0] == '/')
    ensures ParseAuthority(host + rest)
            == Some(if rest[0] == '/' then Authority(host, [], rest[1..]) else WithPort(host, rest[1..]))
  {
    hide WithPort;
    var s, k := host + rest, |host|;
    assert s[k] == rest[0];
    forall i | 0 <= i < k ensures s[i] !in {':', '/'} {
      assert s[i] == host[i];
    }
    UntilUnique(s, {':', '/'}, k);
    assert s[..k] == host && s[k + 1..] == rest[1..];
  }

  lemma PortThen(host: string, port: string, rest: string)
    requires '/' !in port && rest != [] && rest[0] == '/'
    ensures WithPort(host, port + rest) == Authority(host, port, rest[1..])
  {
    var s, k := port + rest, |port|;
    forall i | 0 <= i < k ensures s[i] !in {'/'} {
      assert s[i] == port[i];
    }
    UntilUnique(s, {'/'}, k);
    assert s[..k] == port && s[k + 1..] == rest[1..];
  }

  /** A plain host, the port and the resource are found again. */
  lemma PlainAuthority(u: Uri)
    requires Proper(u) && Plain(u.host)
    ensures var port := if u.port != DefaultPort(u.secure) then Decimal(u.port) else "";
            Tail(u) != [] && ParseAuthority(Tail(u)) == Some(Authority(u.host, port, u.resource[1..]))
  {
    hide ParseAuthority, WithPort, Decimal, Plain;
    var port, rest := Decimal(u.port), PortSuffix(u) + u.resource;
    assert Tail(u) == u.host + rest;
    NameThen(u.host, rest);
    if u.port != DefaultPort(u.secure) {
      DecimalDigits(u.port);
      assert rest[1..] == port + u.resource;
      PortThen(u.host, port, u.resource);
    } else {
      assert rest == u.resource;
    }
  }

  /** A host with a separator in it, or a bracket in front, is read back as another host. */
  lemma OtherHost(u: Uri)
    requires Proper(u) && !Plain(u.host)
    ensures Tail(u) != [] && (ParseAuthority(Tail(u)).Some? ==> ParseAuthority(Tail(u)).value.host != u.host)
  {
    var s, n := Tail(u), |u.host|;
    assert s[..n] == u.host;
    assert s[n] == ':' || s[n] == '/';
    if s[0] == '[' {
      var k := Until(s[1..], {']'});
      if k < |s| - 1 && s[1..][..k] == u.host {
        forall i | 0 <= i < n ensures s[i + 1] == s[i] {
          assert s[1..][..k][i] == s[i + 1] && u.host[i] == s[i];
        }
        AllSame(s, n);
      }
    } else {
      var i :| 0 <= i < n && u.host[i] in {':', '/'};
      assert s[i] == u.host[i];
      assert Until(s, {':', '/'}) <= i;
    }
  }

  lemma {:induction false} AllSame(s: string, n: nat)
    requires n < |s| && forall i | 0 <= i < n :: s[i + 1] == s[i]
    ensures s[n] == s[0]
  {
    if n > 0 { AllSame(s, n - 1); }
  }

  lemma ProperStr(u: Uri)
    requires Proper(u)
    ensures Parse(Str(u)) == Some(u) <==> Plain(u.host)
  {
    hide Scheme, ParseAuthority, PortFromString, Decimal, Tail, Str, Plain;
    StrSplits(u);
    var t := Tail(u);
    if Plain(u.host) {
      PlainAuthority(u);
      SchemePrinted(u, t);
      PortPrinted(u.secure, u.port);
      EmptyPort(u.secure);
      assert u.resource == "/" + u.resource[1..];
    } else {
      OtherHost(u);
      SchemePrinted(u, t);
    }
  }

  lemma StrSplits(u: Uri)
    ensures Str(u) == u.scheme + "://" + Tail(u)
  {
    hide PortSuffix;
  }

  lemma EmptyPort(secure: bool)
    ensures PortFromString(secure, []) == Some(DefaultPort(secure))
  {
  }

  /** The constructor that takes the fields one by one. */
  function FromFields(scheme: string, host: string, port: nat, resource: string): Uri {
    Uri(scheme, host, port, if resource == [] then "/" else resource, scheme == "wss" || scheme == "https")
  }

  /** The fields are kept as they are, except that an empty resource is the root. */
  lemma FieldsKept(scheme: string, host: string, port: nat, resource: string)
    ensures var u := FromFields(scheme, host, port, resource);
            && u.scheme == scheme && u.host == host && u.port == port && (u.secure <==> scheme == "wss" || scheme == "https")
            && (resource != [] ==> u.resource == resource) && (resource == [] ==> u.resource == "/")
  {
  }

  /** What is printed: the port only if it is not 443 or, without security, 80. */
  lemma PrintedAs(u: Uri)
    ensures u.port == (if u.secure then 443 else 80) ==> Str(u) == u.scheme + "://" + u.host + u.resource
    ensures u.port != (if u.secure then 443 else 80) ==> Str(u) == u.scheme + "://" + u.host + (":" + Decimal(u.port)) + u.resource
  {
    assert u.scheme + "://" + u.host + "" == u.scheme + "://" + u.host;
  }

  /** A printed number has no leading zero, so it is spelled in one way only. */
  lemma {:induction false} NoLeadingZero(n: nat)
    ensures n < 10 ==> |Decimal(n)| == 1
    ensures n > 0 ==> Decimal(n)[0] != '0'
  {
    if n >= 10 {
      DecimalDigits(n / 10);
      NoLeadingZero(n / 10);
      assert Decimal(n)[0] == Decimal(n / 10)[0];
    }
  }

  /** Every parsed URI has proper fields, and a plain host unless it was written with brackets. */
  lemma ParsedIsProper(s: string)
    requires Parse(s).Some?
    ensures var u := Parse(s).value;
            && Proper(u)
            && (s[Scheme(s).value.2] != '[' ==> Plain(u.host))
  {
    var n := Scheme(s).value.2;
    var k := Until(s[n..], {':', '/'});
  }

  /**
    * A URI survives being printed and parsed exactly when its fields are proper and its host is plain:
    * the printer does not put the brackets back that the parser removes.
    */
  lemma ParseStr(u: Uri)
    ensures Parse(Str(u)) == Some(u) <==> Proper(u) && Plain(u.host)
  {
    hide Parse, Str, Plain, Proper;
    if Parse(Str(u)) == Some(u) {
      ParsedIsProper(Str(u));
    }
    if Proper(u) {
      ProperStr(u);
    }
  }

  /**
    * A URI built from its fields, which the constructor does not check, is parsed back from its printed
    * form exactly under these conditions.
    */
  lemma FieldsRoundTrip(scheme: string, host: string, port: nat, resource: string)
    ensures var u := FromFields(scheme, host, port, resource);
            Parse(Str(u)) == Some(u) <==>
              && (scheme == "ws" || scheme == "wss" || scheme == "http" || scheme == "https")
              && 1 <= port <= 65535 && (resource != [] ==> resource[0] == '/') && Plain(host)
  {
    hide Parse, Str, Plain;
    ParseStr(FromFields(scheme, host, port, resource));
  }

  /** Parse, print, parse: the second parse gives the same URI exactly when the first one found a plain host. */
  lemma ParsePrintParse(s: string)
    requires Parse(s).Some?
    ensures var u := Parse(s).value;
            && (Parse(Str(u)) == Some(u) <==> Plain(u.host))
            && (s[Scheme(s).value.2] != '[' ==> Parse(Str(u)) == Some(u))
  {
    hide Parse, Str, Plain, Proper, Scheme;
    ParsedIsProper(s);
    ParseStr(Parse(s).value);
  }

  lemma BracketThen(host: string, rest: string)
    requires ']' !in host && rest != [] && (rest[0] == ':' || rest[0] == '/')
    ensures ParseAuthority("[" + host + "]" + rest)
            == Some(if rest[0] == '/' then Authority(host, [], rest[1..]) else WithPort(host, rest[1..]))
  {
    hide WithPort;
    var s := "[" + host + "]" + rest;
    var t, k := host + "]" + rest, |host|;
    assert s[1..] == t;
    forall i | 0 <= i < k ensures t[i] !in {']'} {
      assert t[i] == host[i];
    }
    UntilUnique(t, {']'}, k);
    assert t[..k] == host && t[k + 1..] == rest;
  }

  /** A URI with its host written in brackets. */
  function Bracketed(u: Uri): string {
    u.scheme + "://" + ("[" + u.host + "]" + (PortSuffix(u) + u.resource))
  }

  lemma BracketedAuthority(u: Uri)
    requires Proper(u) && ']' !in u.host
    ensures var port := if u.port != DefaultPort(u.secure) then Decimal(u.port) else "";
            ParseAuthority("[" + u.host + "]" + (PortSuffix(u) + u.resource)) == Some(Authority(u.host, port, u.resource[1..]))
  {
    hide ParseAuthority, WithPort, Decimal;
    var port, rest := Decimal(u.port), PortSuffix(u) + u.resource;
    BracketThen(u.host, rest);
    if u.port != DefaultPort(u.secure) {
      DecimalDigits(u.port);
      assert rest[1..] == port + u.resource;
      PortThen(u.host, port, u.resource);
    } else {
      assert rest == u.resource;
    }
  }

  /**
    * Any literal in brackets is accepted as the host, whatever the scheme, the port and the resource,
    * but what is printed for it gives it back only if it needed no brackets.
    */
  lemma BracketsAreLost(u: Uri)
    requires Proper(u) && ']' !in u.host
    ensures Parse(Bracketed(u)) == Some(u)
    ensures Parse(Str(u)) == Some(u) <==> Plain(u.host)
  {
    hide Scheme, ParseAuthority, PortFromString, Decimal, Str, Plain;
    BracketedAuthority(u);
    hide PortSuffix;
    SchemePrinted(u, "[" + u.host + "]" + (PortSuffix(u) + u.resource));
    PortPrinted(u.secure, u.port);
    EmptyPort(u.secure);
    ParseStr(u);
    assert u.resource == "/" + u.resource[1..];
  }

  /** The loopback address: ':' is in the host, so the printed form is read differently. */
  lemma LoopbackIsLost()
    ensures var u := Uri("ws", "::1", 80, "/", false); Parse(Bracketed(u)) == Some(u) && Parse(Str(u)) != Some(u)
  {
    hide Parse, Str, Bracketed;
    assert "::1"[0] == ':' && !Plain("::1");
    BracketsAreLost(Uri("ws", "::1", 80, "/", false));
  }

  // ----- The accepted strings -----

  /**
    * How a URI is written: the host with or without brackets, then perhaps a port after a colon, then
    * perhaps a slash and the rest.
    */
  datatype Spelling = Spelling(scheme: string, bracketed: bool, host: string, port: Option<string>, rest: Option<string>)

  function SpelledPort(port: Option<string>): string {
    if port.Some? then ":" + port.value else ""
  }

  function SpelledRest(rest: Option<string>): string {
    if rest.Some? then "/" + rest.value else ""
  }

  function SpelledAuthority(sp: Spelling): string {
    (if sp.bracketed then "[" + sp.host + "]" else sp.host) + (SpelledPort(sp.port) + SpelledRest(sp.rest))
  }

  function Spelled(sp: Spelling): string {
    sp.scheme + "://" + SpelledAuthority(sp)
  }

  /** The characters that may stand where: what is written can be taken apart again, and is not empty after the scheme. */
  ghost predicate Legal(sp: Spelling) {
    && (sp.scheme == "ws" || sp.scheme == "wss" || sp.scheme == "http" || sp.scheme == "https")
    && (if sp.bracketed then ']' !in sp.host else ':' !in sp.host && '/' !in sp.host && (sp.host != [] ==> sp.host[0] != '['))
    && (sp.port.Some? ==> '/' !in sp.port.value)
    && (sp.bracketed || sp.host != [] || sp.port.Some? || sp.rest.Some?)
  }

  ghost predicate SecureScheme(scheme: string) {
    scheme == "wss" || scheme == "https"
  }

  /** What the written port means: 443 or 80 if none or an empty one is written, else a number up to 65535. */
  ghost predicate PortIs(secure: bool, port: Option<string>, n: nat) {
    if port == None || port == Some("") then n == (if secure then 443 else 80)
    else Atoi(port.value) == n && 1 <= n <= 65535
  }

  lemma SchemeSpelled(scheme: string, t: string)
    requires (scheme == "ws" || scheme == "wss" || scheme == "http" || scheme == "https") && t != []
    ensures Scheme(scheme + "://" + t) == Some((scheme, SecureScheme(scheme), |scheme| + 3)) && (scheme + "://" + t)[|scheme| + 3..] == t
  {
    SchemePrinted(Uri(scheme, "", 1, "/", SecureScheme(scheme)), t);
  }

  lemma PortSpelled(host: string, port: string, rest: Option<string>)
    requires '/' !in port
    ensures WithPort(host, port + SpelledRest(rest)) == Authority(host, port, if rest.Some? then rest.value else [])
  {
    if rest.Some? {
      PortThen(host, port, SpelledRest(rest));
    } else {
      assert forall i | 0 <= i < |port| :: port[i] !in {'/'};
      UntilUnique(port, {'/'}, |port|);
      assert port + SpelledRest(rest) == port;
    }
  }

  lemma AuthoritySpelled(sp: Spelling)
    requires Legal(sp)
    ensures var t := SpelledAuthority(sp);
            t != [] && ParseAuthority(t)
            == Some(Authority(sp.host, if sp.port.Some? then sp.port.value else [], if sp.rest.Some? then sp.rest.value else []))
  {
    hide WithPort, ParseAuthority;
    var more := SpelledPort(sp.port) + SpelledRest(sp.rest);
    if sp.port.Some? {
      assert more[1..] == sp.port.value + SpelledRest(sp.rest);
      PortSpelled(sp.host, sp.port.value, sp.rest);
    } else {
      assert more == SpelledRest(sp.rest);
    }
    if more == [] {
      HostAlone(sp);
    } else if sp.bracketed {
      BracketThen(sp.host, more);
    } else {
      NameThen(sp.host, more);
    }
  }

  lemma HostAlone(sp: Spelling)
    requires Legal(sp) && sp.port.None? && sp.rest.None?
    ensures var t := SpelledAuthority(sp); t != [] && ParseAuthority(t) == Some(Authority(sp.host, [], []))
  {
    var t := SpelledAuthority(sp);
    if sp.bracketed {
      assert t == "[" + sp.host + "]";
      var u, k := t[1..], |sp.host|;
      assert u == sp.host + "]";
      forall i | 0 <= i < k ensures u[i] !in {']'} { assert u[i] == sp.host[i]; }
      UntilUnique(u, {']'}, k);
    } else {
      assert t == sp.host;
      assert forall i | 0 <= i < |t| :: t[i] !in {':', '/'};
      UntilUnique(t, {':', '/'}, |t|);
    }
  }

  /** Every legal spelling whose port is a number in range is accepted, with these fields, and any other is refused. */
  lemma SpellingParses(sp: Spelling)
    requires Legal(sp)
    ensures forall n: nat :: PortIs(SecureScheme(sp.scheme), sp.port, n) ==>
              Parse(Spelled(sp)) == Some(Uri(sp.scheme, sp.host, n, "/" + (if sp.rest.Some? then sp.rest.value else []), SecureScheme(sp.scheme)))
    ensures (forall n: nat :: !PortIs(SecureScheme(sp.scheme), sp.port, n)) ==> Parse(Spelled(sp)) == None
  {
    hide Scheme, ParseAuthority, Atoi, SpelledAuthority, Legal;
    AuthoritySpelled(sp);
    assert sp.scheme == "ws" || sp.scheme == "wss" || sp.scheme == "http" || sp.scheme == "https" by { KnownScheme(sp); }
    SchemeSpelled(sp.scheme, SpelledAuthority(sp));
    var secure, port := SecureScheme(sp.scheme), if sp.port.Some? then sp.port.value else [];
    if port == [] {
      assert PortIs(secure, sp.port, if secure then 443 else 80);
    } else if 1 <= Atoi(port) <= 65535 {
      assert PortIs(secure, sp.port, Atoi(port));
    }
  }

  lemma KnownScheme(sp: Spelling)
    requires Legal(sp)
    ensures sp.scheme == "ws" || sp.scheme == "wss" || sp.scheme == "http" || sp.scheme == "https"
  {
  }

  /** And nothing else is accepted: every accepted string is a legal spelling. */
  lemma ParsedIsSpelled(s: string)
    requires Parse(s).Some?
    ensures exists sp :: Legal(sp) && Spelled(sp) == s
  {
    var (scheme, _, n) := Scheme(s).value;
    var t := s[n..];
    assert s == scheme + "://" + t by { SchemeSplits(s); }
    hide Scheme, PortFromString;
    var sp := AuthoritySplits(scheme, t);
    hide ParseAuthority, SpelledAuthority, Legal;
    assert Spelled(sp) == s;
  }

  lemma SchemeSplits(s: string)
    requires Scheme(s).Some?
    ensures var (scheme, secure, n) := Scheme(s).value;
            && (scheme == "ws" || scheme == "wss" || scheme == "http" || scheme == "https")
            && n < |s| && s == scheme + "://" + s[n..]
  {
    var (scheme, secure, n) := Scheme(s).value;
    assert s == s[..n] + s[n..];
  }

  lemma PortSplits(host: string, s: string) returns (port: string, rest: Option<string>)
    ensures '/' !in port && s == port + SpelledRest(rest)
  {
    var k := Until(s, {'/'});
    port, rest := s[..k], if k < |s| then Some(s[k + 1..]) else None;
    assert k < |s| ==> s[k..] == "/" + s[k + 1..];
  }

  lemma AuthoritySplits(scheme: string, t: string) returns (sp: Spelling)
    requires scheme == "ws" || scheme == "wss" || scheme == "http" || scheme == "https"
    requires t != [] && ParseAuthority(t).Some?
    ensures Legal(sp) && sp.scheme == scheme && SpelledAuthority(sp) == t
  {
    if t[0] == '[' {
      sp := BracketSplits(scheme, t);
    } else {
      sp := NameSplits(scheme, t);
    }
  }

  lemma BracketSplits(scheme: string, t: string) returns (sp: Spelling)
    requires scheme == "ws" || scheme == "wss" || scheme == "http" || scheme == "https"
    requires t != [] && t[0] == '[' && ParseAuthority(t).Some?
    ensures Legal(sp) && sp.scheme == scheme && SpelledAuthority(sp) == t
  {
    hide WithPort, SpelledPort, SpelledRest;
    var k := BracketEnds(t);
    sp := MoreSplits(scheme, true, t[1..k], t[k + 1..]);
    hide ParseAuthority;
    BracketJoins(t, k);
  }

  lemma BracketEnds(t: string) returns (k: nat)
    requires t != [] && t[0] == '[' && ParseAuthority(t).Some?
    ensures 0 < k < |t| && t[k] == ']' && ']' !in t[1..k] && (k + 1 < |t| ==> t[k + 1] == '/' || t[k + 1] == ':')
  {
    hide WithPort;
    var u := t[1..];
    var j := Until(u, {']'});
    k := j + 1;
    assert t[1..k] == u[..j];
    if k + 1 < |t| {
      assert u[j + 1..][0] == t[k + 1];
    }
  }

  lemma BracketJoins(t: string, k: nat)
    requires 0 < k < |t| && t[0] == '[' && t[k] == ']'
    ensures t == "[" + t[1..k] + "]" + t[k + 1..]
  {
  }

  lemma NameSplits(scheme: string, t: string) returns (sp: Spelling)
    requires scheme == "ws" || scheme == "wss" || scheme == "http" || scheme == "https"
    requires t != [] && t[0] != '['
    ensures Legal(sp) && sp.scheme == scheme && SpelledAuthority(sp) == t
  {
    var k := Until(t, {':', '/'});
    hide Until;
    sp := MoreSplits(scheme, false, t[..k], t[k..]);
    hide SpelledPort, SpelledRest;
    assert t == t[..k] + t[k..];
  }

  /** What follows the host: nothing, a slash and the rest, or a colon and the port. */
  lemma MoreSplits(scheme: string, bracketed: bool, host: string, more: string) returns (sp: Spelling)
    requires more == [] || more[0] == '/' || more[0] == ':'
    ensures sp.scheme == scheme && sp.bracketed == bracketed && sp.host == host
    ensures SpelledPort(sp.port) + SpelledRest(sp.rest) == more && (sp.port.Some? ==> '/' !in sp.port.value)
    ensures more != [] ==> sp.port.Some? || sp.rest.Some?
  {
    if more == [] {
      sp := Spelling(scheme, bracketed, host, None, None);
    } else if more[0] == '/' {
      sp := Spelling(scheme, bracketed, host, None, Some(more[1..]));
    } else {
      var port, rest := PortSplits(host, more[1..]);
      sp := Spelling(scheme, bracketed, host, Some(port), rest);
      assert more == ":" + (port + SpelledRest(rest)) == (":" + port) + SpelledRest(rest);
    }
  }

  // ----- The numbers that a port may be written as -----

  lemma {:induction false} BlanksSkipped(blanks: string, s: string)
    requires forall i | 0 <= i < |blanks| :: blanks[i] in {' ', '\t', '\n', '\U{000B}', '\U{000C}', '\r'}
    requires s == [] || s[0] !in {' ', '\t', '\n', '\U{000B}', '\U{000C}', '\r'}
    ensures SkipSpace(blanks + s) == s
    decreases |blanks|
  {
    if blanks == [] {
      assert blanks + s == s;
    } else {
      assert (blanks + s)[1..] == blanks[1..] + s;
      BlanksSkipped(blanks[1..], s);
    }
  }

  lemma {:induction false} NumberStops(acc: nat, digits: string, junk: string)
    requires (forall i | 0 <= i < |digits| :: '0' <= digits[i] <= '9') && (junk == [] || !('0' <= junk[0] <= '9'))
    ensures Number(acc, digits + junk) == Number(acc, digits)
    decreases |digits|
  {
    if digits == [] {
      assert digits + junk == junk;
    } else {
      assert (digits + junk)[1..] == digits[1..] + junk;
      NumberStops(10 * acc + (digits[0] - '0') as nat, digits[1..], junk);
    }
  }

  /** Blanks, a sign or none, a number, and anything that does not start with a digit. */
  lemma AtoiSpelled(blanks: string, sign: string, n: nat, junk: string)
    requires forall i | 0 <= i < |blanks| :: blanks[i] in {' ', '\t', '\n', '\U{000B}', '\U{000C}', '\r'}
    requires (sign == "" || sign == "+" || sign == "-") && (junk == [] || !('0' <= junk[0] <= '9'))
    ensures Atoi(blanks + (sign + (Decimal(n) + junk))) == if sign == "-" then 0 - n as int else n as int
  {
    hide Number, SkipSpace, Decimal;
    DecimalDigits(n);
    NumberStops(0, Decimal(n), junk);
    NumberDecimal(n);
    var t := sign + (Decimal(n) + junk);
    BlanksSkipped(blanks, t);
    if sign == "" {
      assert t == Decimal(n) + junk;
    } else {
      assert t[1..] == Decimal(n) + junk;
    }
  }

  /** Without a digit where the number should start, the value is zero. */
  lemma AtoiNothing(blanks: string, sign: string, junk: string)
    requires forall i | 0 <= i < |blanks| :: blanks[i] in {' ', '\t', '\n', '\U{000B}', '\U{000C}', '\r'}
    requires (sign == "" || sign == "+" || sign == "-") && (junk == [] || !('0' <= junk[0] <= '9'))
    requires sign == "" ==> junk == [] || junk[0] !in {' ', '\t', '\n', '\U{000B}', '\U{000C}', '\r', '+', '-'}
    ensures Atoi(blanks + (sign + junk)) == 0
  {
    hide SkipSpace;
    var t := sign + junk;
    BlanksSkipped(blanks, t);
    if sign == "" {
      assert t == junk;
    } else {
      assert t[1..] == junk;
    }
  }
}
