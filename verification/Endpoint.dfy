/** Network endpoints: which spellings name the same target, which could loop back to the listener,
    and the round trip between text and endpoint. The text form of IP addresses is the standard
    library's; it is a parameter, used only through the properties of `Sane`. */
module Endpoint {
  import opened Sequences

  type Port = n: int | 0 <= n < 0x1_0000
  type Octet = n: int | 0 <= n < 256
  type Segment = n: int | 0 <= n < 0x1_0000
  type Segments = s: seq<Segment> | |s| == 8 witness [0, 0, 0, 0, 0, 0, 0, 0]

  datatype Ip = V4(a: Octet, b: Octet, c: Octet, d: Octet) | V6(segments: Segments)
  datatype SocketAddr = SocketAddr(ip: Ip, port: Port)
  datatype Endpoint = Endpoint(host: string, port: Port)

  predicate IsLoopback(ip: Ip) {
    match ip
    case V4(a, _, _, _) => a == 127
    case V6(segments) => segments == [0, 0, 0, 0, 0, 0, 0, 1]
  }

  predicate IsUnspecified(ip: Ip) {
    match ip
    case V4(a, b, c, d) => a == b == c == d == 0
    case V6(segments) => segments == [0, 0, 0, 0, 0, 0, 0, 0]
  }

  /** The library's conversions between addresses and text. */
  datatype Library = Library(
    parseIp: string -> Option<Ip>,
    printIp: Ip -> string,
    parseSocket: string -> Option<SocketAddr>)

  // ---------------------------------------------------------------- comparison of targets

  function LowerChar(c: char): char {
    if 'A' <= c <= 'Z' then c - 'A' + 'a' else c
  }

  function Lower(s: string): string {
    seq(|s|, i requires 0 <= i < |s| => LowerChar(s[i]))
  }

  predicate EqIgnoreCase(a: string, b: string) {
    |a| == |b| && forall i | 0 <= i < |a| :: LowerChar(a[i]) == LowerChar(b[i])
  }

  function TrimEndDots(s: string): string {
    if s != [] && s[|s| - 1] == '.' then TrimEndDots(s[..|s| - 1]) else s
  }

  function NormalizedHost(e: Endpoint): string { TrimEndDots(e.host) }

  predicate SameTarget(lib: Library, e: Endpoint, other: Endpoint) {
    var left, right := NormalizedHost(e), NormalizedHost(other);
    e.port == other.port &&
    match (lib.parseIp(left), lib.parseIp(right))
    case (Some(a), Some(b)) => a == b || (IsLoopback(a) && IsLoopback(b))
    case (Some(ip), None) => EqIgnoreCase(right, "localhost") && IsLoopback(ip)
    case (None, Some(ip)) => EqIgnoreCase(left, "localhost") && IsLoopback(ip)
    case (None, None) => EqIgnoreCase(left, right)
  }

  predicate CouldTargetListener(lib: Library, e: Endpoint, listener: SocketAddr) {
    e.port == listener.port &&
    var host := NormalizedHost(e);
    if EqIgnoreCase(host, "localhost") then IsLoopback(listener.ip) || IsUnspecified(listener.ip)
    else match lib.parseIp(host)
      case None => false
      case Some(ip) =>
        || ip == listener.ip
        || (IsLoopback(ip) && IsLoopback(listener.ip))
        || (IsUnspecified(listener.ip) && (IsLoopback(ip) || IsUnspecified(ip)))
        || (IsUnspecified(ip) && IsLoopback(listener.ip))
  }

  /** What an endpoint stands for once spelling is set aside. */
  datatype HostClass = ThisMachine | Address(ip: Ip) | Name(lower: string)

  function HostClassOf(lib: Library, host: string): HostClass {
    match lib.parseIp(host)
    case Some(ip) => if IsLoopback(ip) then ThisMachine else Address(ip)
    case None => if EqIgnoreCase(host, "localhost") then ThisMachine else Name(Lower(host))
  }

  function TargetKey(lib: Library, e: Endpoint): (Port, HostClass) {
    (e.port, HostClassOf(lib, NormalizedHost(e)))
  }

  lemma EqIgnoreCaseIsLowerEquality(a: string, b: string)
    ensures EqIgnoreCase(a, b) <==> Lower(a) == Lower(b)
  {
    if Lower(a) == Lower(b) {
      forall i | 0 <= i < |a| ensures LowerChar(a[i]) == LowerChar(b[i]) {
        assert Lower(a)[i] == Lower(b)[i];
      }
    }
  }

  /** Two endpoints are the same target exactly when their keys are equal, so the comparison is an
      equivalence relation on all endpoints, valid or not. */
  lemma SameTargetIsKeyEquality(lib: Library, e: Endpoint, other: Endpoint)
    ensures SameTarget(lib, e, other) <==> TargetKey(lib, e) == TargetKey(lib, other)
  {
    var left, right := NormalizedHost(e), NormalizedHost(other);
    EqIgnoreCaseIsLowerEquality(left, right);
    EqIgnoreCaseIsLowerEquality(left, "localhost");
    EqIgnoreCaseIsLowerEquality(right, "localhost");
  }

  // ---------------------------------------------------------------- text form

  /** Characters with the Unicode White_Space property. */
  predicate IsWhitespace(c: char) {
    || 9 <= c as int <= 13 || c as int in {0x20, 0x85, 0xA0, 0x1680, 0x2028, 0x2029, 0x202F, 0x205F, 0x3000}
    || 0x2000 <= c as int <= 0x200A
  }

  predicate HasForbiddenSyntax(s: string) {
    // a text containing "://" contains '/'
    '@' in s || '/' in s || '?' in s || '#' in s
  }

  predicate IsAlphanumeric(c: char) {
    '0' <= c <= '9' || 'A' <= c <= 'Z' || 'a' <= c <= 'z'
  }

  function Split(s: string, separator: char): seq<string> {
    if s == [] then [""]
    else
      var rest := Split(s[1..], separator);
      if s[0] == separator || rest == [] then [""] + rest else [[s[0]] + rest[0]] + rest[1..]
  }

  /** Limits of section 2.3.4 of RFC 1035, with letters, digits and inner hyphens. */
  predicate IsDnsLabel(part: string) {
    && 0 < |part| <= 63
    && part[0] != '-' && part[|part| - 1] != '-'
    && forall i | 0 <= i < |part| :: IsAlphanumeric(part[i]) || part[i] == '-'
  }

  predicate IsDnsName(host: string) {
    var name := if host != [] && host[|host| - 1] == '.' then host[..|host| - 1] else host;
    0 < |name| <= 253 && forall part | part in Split(name, '.') :: IsDnsLabel(part)
  }

  /** The octets of a name in the wire format of section 3.1 of RFC 1035: a length octet before each
      label, and the empty label of the root. */
  function LabelOctets(): string -> nat { (part: string) => 1 + |part| }

  function WireLength(labels: seq<string>): nat { Total(labels, LabelOctets()) + 1 }

  lemma {:induction false} TotalCons(first: string, rest: seq<string>)
    ensures Total([first] + rest, LabelOctets()) == 1 + |first| + Total(rest, LabelOctets())
  {
    if rest == [] {
      assert [first] + rest == [first] && [first][..0] == [];
    } else {
      var last := |rest| - 1;
      TotalCons(first, rest[..last]);
      assert ([first] + rest)[..|rest|] == [first] + rest[..last];
    }
  }

  lemma {:induction false} SplitLength(s: string, separator: char)
    ensures Split(s, separator) != [] && Total(Split(s, separator), LabelOctets()) == |s| + 1
  {
    if s == [] {
      assert [""][..0] == [];
    } else {
      SplitLength(s[1..], separator);
      var rest := Split(s[1..], separator);
      TotalCons("", rest);
      TotalCons([s[0]] + rest[0], rest[1..]);
      TotalCons(rest[0], rest[1..]);
      assert rest == [rest[0]] + rest[1..];
    }
  }

  /** A host is accepted as a name exactly when, without the root dot, all its labels are legal and the
      whole takes at most the 255 octets of section 2.3.4 of RFC 1035. */
  lemma DnsNameFitsWire(host: string)
    ensures var name := if host != [] && host[|host| - 1] == '.' then host[..|host| - 1] else host;
            var labels := Split(name, '.');
            IsDnsName(host) <==> (forall part | part in labels :: IsDnsLabel(part)) && WireLength(labels) <= 255
  {
    var name := if host != [] && host[|host| - 1] == '.' then host[..|host| - 1] else host;
    SplitLength(name, '.');
    if name == [] {
      assert Split(name, '.')[0] == "" && !IsDnsLabel(Split(name, '.')[0]);
    }
  }

  predicate ValidHost(lib: Library, host: string) {
    && host != []
    && (forall i | 0 <= i < |host| :: !IsWhitespace(host[i]))
    && !HasForbiddenSyntax(host)
    && (lib.parseIp(host).Some?
        || ((forall i | 0 <= i < |host| :: host[i] as int < 128) && ':' !in host && IsDnsName(host)))
  }

  predicate Valid(lib: Library, e: Endpoint) {
    e.port != 0 && ValidHost(lib, e.host)
  }

  function DecimalText(n: nat): (r: string)
    ensures |r| > 0 && forall i | 0 <= i < |r| :: '0' <= r[i] <= '9'
  {
    if n < 10 then ['0' + n as char] else DecimalText(n / 10) + ['0' + (n % 10) as char]
  }

  function DigitsValue(s: string): Option<nat> {
    if s == [] then Some(0)
    else
      var last := s[|s| - 1];
      match DigitsValue(s[..|s| - 1])
      case Some(v) => if '0' <= last <= '9' then Some(v * 10 + (last as int - '0' as int)) else None
      case None => None
  }

  /** Unsigned 16-bit parsing: an optional plus sign, then at least one digit, within range. */
  function ParsePort(s: string): Option<Port> {
    var digits := if s != [] && s[0] == '+' then s[1..] else s;
    if digits == [] then None
    else match DigitsValue(digits)
      case Some(v) => if v < 0x1_0000 then Some(v) else None
      case None => None
  }

  function Display(e: Endpoint): string {
    if ':' in e.host then "[" + e.host + "]:" + DecimalText(e.port) else e.host + ":" + DecimalText(e.port)
  }

  function ColonWeight(): char -> nat { (c: char) => if c == ':' then 1 else 0 }

  function CountColons(s: string): nat {
    Total(s, ColonWeight())
  }

  /** The position of the last colon, if there is one. */
  function LastColon(s: string): (r: Option<nat>)
    ensures r.Some? ==> r.value < |s| && s[r.value] == ':' && ':' !in s[r.value + 1..]
    ensures r.None? ==> ':' !in s
  {
    if s == [] then None
    else if s[|s| - 1] == ':' then Some(|s| - 1)
    else
      var r := LastColon(s[..|s| - 1]);
      assert r.Some? ==> s[r.value + 1..] == s[..|s| - 1][r.value + 1..] + [s[|s| - 1]];
      assert s == s[..|s| - 1] + [s[|s| - 1]];
      r
  }

  predicate IsPadded(s: string) {
    s != [] && (IsWhitespace(s[0]) || IsWhitespace(s[|s| - 1]))
  }

  function Validated(lib: Library, e: Endpoint): Option<Endpoint> {
    if Valid(lib, e) then Some(e) else None
  }

  function FromStr(lib: Library, value: string): Option<Endpoint> {
    if value == [] || IsPadded(value) || HasForbiddenSyntax(value) then None
    else if CountColons(value) > 1 && value[0] != '[' then None
    else match lib.parseSocket(value)
      case Some(socket) => Validated(lib, Endpoint(lib.printIp(socket.ip), socket.port))
      case None =>
        match LastColon(value)
        case None => None
        case Some(i) =>
          match ParsePort(value[i + 1..])
          case None => None
          case Some(port) => Validated(lib, Endpoint(value[..i], port))
  }

  // ---------------------------------------------------------------- what is assumed of the library

  predicate IsIpChar(c: char) {
    '0' <= c <= '9' || 'a' <= c <= 'f' || 'A' <= c <= 'F' || c == '.' || c == ':'
  }

  /** Address texts use only address characters and do not end in a dot; IPv4 text is canonical and
      has no colon, IPv6 text has one; printing is inverted by parsing; and a socket text is an
      address text, bracketed for IPv6, with a port. */
  ghost predicate Sane(lib: Library) {
    && (forall ip: Ip :: lib.parseIp(lib.printIp(ip)) == Some(ip))
    && (forall t: string :: lib.parseIp(t).Some? ==>
          && t != [] && t[|t| - 1] != '.'
          && (forall i | 0 <= i < |t| :: IsIpChar(t[i]))
          && (lib.parseIp(t).value.V4? ==> ':' !in t && t == lib.printIp(lib.parseIp(t).value))
          && (lib.parseIp(t).value.V6? ==> ':' in t))
    && (forall h: string, p: Port :: ':' !in h ==>
          lib.parseSocket(PlainSocket(h, p)) ==
          (if lib.parseIp(h).Some? then Some(SocketAddr(lib.parseIp(h).value, p)) else None))
    && (forall h: string, p: Port :: lib.parseIp(h).Some? && ':' in h ==>
          lib.parseSocket(BracketedSocket(h, p)) == Some(SocketAddr(lib.parseIp(h).value, p)))
  }

  function PlainSocket(h: string, p: Port): string { h + ":" + DecimalText(p) }
  function BracketedSocket(h: string, p: Port): string { "[" + h + "]:" + DecimalText(p) }

  lemma LocalhostIsNoAddress(lib: Library, host: string)
    requires Sane(lib) && EqIgnoreCase(host, "localhost")
    ensures lib.parseIp(host).None?
  {
    assert LowerChar(host[0]) == LowerChar("localhost"[0]) == 'l';
    assert !IsIpChar(host[0]);
  }

  /** The loop check depends only on the target, not on how it is spelled. */
  lemma ListenerCheckRespectsTargets(lib: Library, e: Endpoint, other: Endpoint, listener: SocketAddr)
    requires Sane(lib) && SameTarget(lib, e, other)
    ensures CouldTargetListener(lib, e, listener) == CouldTargetListener(lib, other, listener)
  {
    hide Sane;
    ListenerCheckByClass(lib, e, listener);
    ListenerCheckByClass(lib, other, listener);
    SameTargetIsKeyEquality(lib, e, other);
  }

  function ClassCouldTarget(class_: HostClass, ip: Ip): bool {
    match class_
    case ThisMachine => IsLoopback(ip) || IsUnspecified(ip)
    case Address(a) => a == ip || (IsUnspecified(a) && (IsLoopback(ip) || IsUnspecified(ip)))
    case Name(_) => false
  }

  lemma ListenerCheckByClass(lib: Library, e: Endpoint, listener: SocketAddr)
    requires Sane(lib)
    ensures var (port, class_) := TargetKey(lib, e);
            CouldTargetListener(lib, e, listener) <==> port == listener.port && ClassCouldTarget(class_, listener.ip)
  {
    hide Sane, EqIgnoreCase;
    var host := NormalizedHost(e);
    if EqIgnoreCase(host, "localhost") { LocalhostIsNoAddress(lib, host); }
  }

  // ---------------------------------------------------------------- round trip

  lemma {:induction false} DigitsValueOfDecimal(n: nat)
    ensures DigitsValue(DecimalText(n)) == Some(n)
  {
    var s := DecimalText(n);
    if n >= 10 {
      DigitsValueOfDecimal(n / 10);
      assert s[..|s| - 1] == DecimalText(n / 10);
    } else {
      assert s[..0] == [];
    }
  }

  lemma ParsePortOfDecimal(p: Port)
    ensures ParsePort(DecimalText(p)) == Some(p)
  {
    DigitsValueOfDecimal(p);
    assert DecimalText(p)[0] != '+';
  }

  lemma {:induction false} NoColonsCounted(s: string)
    ensures CountColons(s) == 0 <==> ':' !in s
  {
    if s != [] {
      NoColonsCounted(s[..|s| - 1]);
      assert s == s[..|s| - 1] + [s[|s| - 1]];
    }
  }

  lemma {:induction false} CountColonsAppend(a: string, b: string)
    ensures CountColons(a + b) == CountColons(a) + CountColons(b)
    decreases |b|
  {
    if b == [] {
      assert a + b == a;
    } else {
      CountColonsAppend(a, b[..|b| - 1]);
      assert (a + b)[..|a + b| - 1] == a + b[..|b| - 1];
    }
  }

  lemma {:induction false} LastColonUnique(head: string, tail: string)
    requires ':' !in tail
    ensures LastColon(head + ":" + tail) == Some(|head|)
    decreases |tail|
  {
    var s := head + ":" + tail;
    if tail != [] {
      var last := |tail| - 1;
      LastColonUnique(head, tail[..last]);
      assert tail[last] in tail;
      assert s[..|s| - 1] == head + ":" + tail[..last];
    }
  }

  lemma OneColon(head: string, tail: string)
    requires ':' !in tail
    ensures CountColons(head + ":" + tail) == CountColons(head) + 1
  {
    CountColonsAppend(head, ":");
    CountColonsAppend(head + ":", tail);
    NoColonsCounted(tail);
    assert CountColons(":") == 1 by { assert ":"[..0] == []; }
  }

  /** A valid host followed by a port passes the first checks of the parser. */
  lemma SocketTextWellFormed(lib: Library, e: Endpoint)
    requires Valid(lib, e)
    ensures var value := Display(e); value != [] && !IsPadded(value) && !HasForbiddenSyntax(value)
    ensures ':' in e.host ==> Display(e)[0] == '['
  {
    hide IsDnsName, DecimalText;
    var digits := DecimalText(e.port);
    var value := Display(e);
    assert forall c | c in digits :: '0' <= c <= '9';
    assert value[|value| - 1] == digits[|digits| - 1];
    assert !IsWhitespace(value[|value| - 1]) && !IsWhitespace(value[0]);
    var head := if ':' in e.host then "[" + e.host + "]:" else e.host + ":";
    assert value == head + digits;
  }

  lemma PlainSocketColons(host: string, port: Port)
    requires ':' !in host
    ensures CountColons(PlainSocket(host, port)) == 1 && LastColon(PlainSocket(host, port)) == Some(|host|)
  {
    var digits := DecimalText(port);
    assert ':' !in digits by { assert forall c | c in digits :: '0' <= c <= '9'; }
    NoColonsCounted(host);
    OneColon(host, digits);
    LastColonUnique(host, digits);
  }

  lemma PrintedAddressIsValid(lib: Library, ip: Ip, port: Port)
    requires Sane(lib) && port != 0
    ensures Valid(lib, Endpoint(lib.printIp(ip), port))
  {
    var t := lib.printIp(ip);
    assert lib.parseIp(t) == Some(ip);
  }

  /** A host without a colon comes back exactly; a bracketed IPv6 host comes back in canonical form. */
  lemma DisplayParses(lib: Library, e: Endpoint)
    requires Sane(lib) && Valid(lib, e)
    ensures ':' !in e.host ==> FromStr(lib, Display(e)) == Some(e)
    ensures ':' in e.host ==> lib.parseIp(e.host).Some? &&
                              FromStr(lib, Display(e)) == Some(Endpoint(lib.printIp(lib.parseIp(e.host).value), e.port))
  {
    hide IsPadded, HasForbiddenSyntax, IsDnsName, CountColons, IsWhitespace, LastColon, ParsePort;
    var value := Display(e);
    SocketTextWellFormed(lib, e);
    if ':' in e.host {
      var ip := lib.parseIp(e.host).value;
      assert value == BracketedSocket(e.host, e.port);
      PrintedAddressIsValid(lib, ip, e.port);
    } else {
      assert value == PlainSocket(e.host, e.port);
      PlainSocketColons(e.host, e.port);
      assert value[..|e.host|] == e.host && value[|e.host| + 1..] == DecimalText(e.port);
      ParsePortOfDecimal(e.port);
    }
  }

  lemma AddressNormalizesToItself(lib: Library, e: Endpoint)
    requires Sane(lib) && lib.parseIp(e.host).Some?
    ensures NormalizedHost(e) == e.host
  {
  }

  /** Printing any valid endpoint and parsing the result succeeds and names the same target. */
  lemma PrintThenParse(lib: Library, e: Endpoint)
    requires Sane(lib) && Valid(lib, e)
    ensures FromStr(lib, Display(e)).Some? && SameTarget(lib, FromStr(lib, Display(e)).value, e)
  {
    hide Sane, FromStr, Display, Valid, EqIgnoreCase;
    DisplayParses(lib, e);
    var back := FromStr(lib, Display(e)).value;
    if ':' in e.host {
      var ip := lib.parseIp(e.host).value;
      assert lib.parseIp(lib.printIp(ip)) == Some(ip) by { PrintInverted(lib, ip); }
      AddressNormalizesToItself(lib, e);
      AddressNormalizesToItself(lib, back);
    } else {
      SameTargetIsKeyEquality(lib, back, e);
    }
  }

  lemma PrintInverted(lib: Library, ip: Ip)
    requires Sane(lib)
    ensures lib.parseIp(lib.printIp(ip)) == Some(ip)
  {
  }

  lemma BracketIsNoAddress(lib: Library, host: string)
    requires Sane(lib) && host != [] && host[0] == '['
    ensures lib.parseIp(host).None?
  {
    assert !IsIpChar(host[0]);
  }

  lemma HostColonsCounted(value: string)
    requires LastColon(value).Some?
    ensures ':' in value[..LastColon(value).value] ==> CountColons(value) > 1
  {
    var i := LastColon(value).value;
    OneColon(value[..i], value[i + 1..]);
    NoColonsCounted(value[..i]);
    assert value == value[..i] + ":" + value[i + 1..];
  }

  /** A parsed endpoint with a colon in its host is an address in canonical form. */
  lemma ParsedHostIsCanonical(lib: Library, value: string)
    requires Sane(lib) && FromStr(lib, value).Some?
    ensures var e := FromStr(lib, value).value;
            && Valid(lib, e)
            && (':' in e.host ==> lib.parseIp(e.host).Some? && e.host == lib.printIp(lib.parseIp(e.host).value))
  {
    hide IsPadded, HasForbiddenSyntax, IsDnsName, ParsePort, IsWhitespace, CountColons, Sane;
    var e := FromStr(lib, value).value;
    match lib.parseSocket(value)
    case Some(socket) => PrintInverted(lib, socket.ip);
    case None =>
      HostColonsCounted(value);
      if value[0] == '[' { BracketIsNoAddress(lib, e.host); }
  }

  /** Printing an endpoint that came from parsing, and parsing again, gives the identical endpoint. */
  lemma ParsePrintParse(lib: Library, value: string)
    requires Sane(lib) && FromStr(lib, value).Some?
    ensures FromStr(lib, Display(FromStr(lib, value).value)) == FromStr(lib, value)
  {
    hide Sane, FromStr, Display, Valid;
    ParsedHostIsCanonical(lib, value);
    DisplayParses(lib, FromStr(lib, value).value);
  }
}
