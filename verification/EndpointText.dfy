/** The endpoint rules in their standards' own terms: which hosts are names, which texts are ports, which
    addresses are this machine, and which spellings of a name are one. */
module EndpointText {
  import opened Sequences
  import opened Endpoint

  // ---------------------------------------------------------------- names

  predicate LetDig(c: char) {
    48 <= c as int <= 57 || 65 <= c as int <= 90 || 97 <= c as int <= 122
  }

  /** Letters, digits and hyphens, at least one of them. */
  predicate LdhStr(s: string) {
    s != [] && (LetDig(s[0]) || s[0] == '-') && (|s| == 1 || LdhStr(s[1..]))
  }

  /** A label by the grammar of section 2.3.1 of RFC 1035, with a digit allowed first as in section 2.1 of
      RFC 1123, and at most 63 octets long. */
  predicate Label(s: string) {
    && 1 <= |s| <= 63 && LetDig(s[0])
    && (|s| == 1 || (LetDig(s[|s| - 1]) && (|s| == 2 || LdhStr(s[1..|s| - 1]))))
  }

  /** Labels joined by dots. */
  predicate Subdomain(s: string)
    decreases |s|
  {
    Label(s) || exists i | 0 <= i < |s| :: s[i] == '.' && Label(s[..i]) && Subdomain(s[i + 1..])
  }

  lemma {:induction false} LdhStrExact(s: string)
    ensures LdhStr(s) <==> s != [] && forall i | 0 <= i < |s| :: IsAlphanumeric(s[i]) || s[i] == '-'
  {
    if |s| > 1 {
      LdhStrExact(s[1..]);
      assert forall i | 1 <= i < |s| :: s[i] == s[1..][i - 1];
    }
  }

  lemma LabelExact(s: string)
    ensures IsDnsLabel(s) <==> Label(s)
  {
    if |s| > 2 {
      var inner := s[1..|s| - 1];
      LdhStrExact(inner);
      assert forall i | 1 <= i < |s| - 1 :: s[i] == inner[i - 1];
    }
  }

  lemma LabelHasNoDot(s: string)
    requires Label(s)
    ensures '.' !in s
  {
    LabelExact(s);
  }

  /** Splitting at the first dot, if there is one. */
  lemma {:induction false} SplitFirst(s: string, i: nat)
    requires i <= |s| && '.' !in s[..i] && (i < |s| ==> s[i] == '.')
    ensures Split(s, '.') == if i == |s| then [s] else [s[..i]] + Split(s[i + 1..], '.')
    decreases i
  {
    SplitLength(s, '.');
    if i > 0 {
      assert s[0] == s[..i][0];
      assert s[1..][..i - 1] == s[..i][1..];
      SplitFirst(s[1..], i - 1);
      SplitLength(s[1..], '.');
      assert i < |s| ==> s[1..][i..] == s[i + 1..];
      assert s == [s[0]] + s[1..];
      assert s[..i] == [s[0]] + s[1..][..i - 1];
    } else if s != [] {
      assert s[..0] == "";
      assert s[1..] == s[i + 1..];
    }
  }

  lemma {:induction false} FirstDot(s: string) returns (i: nat)
    ensures i <= |s| && '.' !in s[..i] && (i < |s| ==> s[i] == '.')
  {
    if s == [] || s[0] == '.' {
      i := 0;
    } else {
      var j := FirstDot(s[1..]);
      i := j + 1;
      assert s[..i] == [s[0]] + s[1..][..j];
    }
  }

  lemma NoDotBefore(s: string, i: nat)
    requires i <= |s| && '.' !in s[..i]
    ensures forall n | 0 <= n < i :: s[n] != '.'
  {
    assert forall n | 0 <= n < i :: s[n] == s[..i][n];
  }

  predicate AllLabels(parts: seq<string>) {
    forall part | part in parts :: Label(part)
  }

  lemma AllLabelsCons(first: string, rest: seq<string>)
    ensures AllLabels([first] + rest) <==> Label(first) && AllLabels(rest)
  {
    assert first in [first] + rest;
    assert forall part | part in rest :: part in [first] + rest;
  }

  /** The parts of a text between dots are labels exactly when the text is a subdomain. */
  lemma {:induction false} SplitExact(s: string)
    ensures AllLabels(Split(s, '.')) <==> Subdomain(s)
    decreases |s|
  {
    hide Label;
    var i := FirstDot(s);
    SplitFirst(s, i);
    if i == |s| {
      assert s[..i] == s;
      AllLabelsCons(s, []);
      assert [s] + [] == [s];
      assert forall j | 0 <= j < |s| :: s[j] != '.' by { assert forall j | 0 <= j < |s| :: s[j] in s; }
    } else {
      SplitExact(s[i + 1..]);
      AllLabelsCons(s[..i], Split(s[i + 1..], '.'));
      assert s[i] in s;
      if Label(s) { LabelHasNoDot(s); }
      forall j | 0 <= j < |s| && s[j] == '.' && Label(s[..j]) ensures j == i {
        LabelHasNoDot(s[..j]);
        NoDotBefore(s, i);
        NoDotBefore(s, j);
      }
    }
  }

  /** A host without the one dot that stands for the root. */
  function WithoutRoot(host: string): string {
    if host != [] && host[|host| - 1] == '.' then host[..|host| - 1] else host
  }

  lemma NameExact(host: string)
    ensures IsDnsName(host) <==> Subdomain(WithoutRoot(host)) && WireLength(Split(WithoutRoot(host), '.')) <= 255
  {
    hide Subdomain, Label, IsDnsLabel;
    var labels := Split(WithoutRoot(host), '.');
    DnsNameFitsWire(host);
    SplitExact(WithoutRoot(host));
    forall part | part in labels ensures IsDnsLabel(part) <==> Label(part) { LabelExact(part); }
  }

  predicate NameChars(s: string) {
    forall i | 0 <= i < |s| :: LetDig(s[i]) || s[i] == '-' || s[i] == '.'
  }

  lemma LabelChars(s: string)
    requires Label(s)
    ensures NameChars(s)
  {
    LabelExact(s);
  }

  lemma NameCharsJoin(a: string, b: string)
    requires NameChars(a) && NameChars(b)
    ensures NameChars(a + "." + b)
  {
  }

  lemma {:induction false} SubdomainChars(s: string)
    requires Subdomain(s)
    ensures NameChars(s)
    decreases |s|
  {
    hide Label, NameChars;
    if Label(s) {
      LabelChars(s);
    } else {
      var j :| 0 <= j < |s| && s[j] == '.' && Label(s[..j]) && Subdomain(s[j + 1..]);
      LabelChars(s[..j]);
      SubdomainChars(s[j + 1..]);
      NameCharsJoin(s[..j], s[j + 1..]);
      assert s == s[..j] + "." + s[j + 1..];
    }
  }

  /** Which hosts are accepted: the texts of addresses, and the names of the grammar that take at most 255
      octets in wire form, with or without the dot of the root. All other checks are implied. */
  lemma HostsExactly(lib: Library, host: string)
    requires Sane(lib)
    ensures ValidHost(lib, host) <==>
              || lib.parseIp(host).Some?
              || (Subdomain(WithoutRoot(host)) && WireLength(Split(WithoutRoot(host), '.')) <= 255)
  {
    hide IsDnsName, Subdomain, WireLength, Split, Sane;
    NameExact(host);
    if lib.parseIp(host).Some? {
      AddressCharsOnly(lib, host);
    } else if Subdomain(WithoutRoot(host)) {
      SubdomainChars(WithoutRoot(host));
      NonEmptySubdomain(WithoutRoot(host));
      assert forall i | 0 <= i < |WithoutRoot(host)| :: host[i] == WithoutRoot(host)[i];
      assert forall i | 0 <= i < |host| :: LetDig(host[i]) || host[i] == '-' || host[i] == '.';
    }
  }

  /** An endpoint one can connect to: a port that is not zero, and an address or a name. */
  predicate Addressable(lib: Library, e: Endpoint) {
    && 1 <= e.port <= 65_535
    && (|| lib.parseIp(e.host).Some?
        || (Subdomain(WithoutRoot(e.host)) && WireLength(Split(WithoutRoot(e.host), '.')) <= 255))
  }

  lemma ValidExactly(lib: Library, e: Endpoint)
    requires Sane(lib)
    ensures Valid(lib, e) <==> Addressable(lib, e)
  {
    hide Sane, ValidHost, Subdomain;
    HostsExactly(lib, e.host);
  }

  lemma NonEmptySubdomain(s: string)
    requires Subdomain(s)
    ensures s != []
  {
  }

  lemma AddressCharsOnly(lib: Library, t: string)
    requires Sane(lib) && lib.parseIp(t).Some?
    ensures t != [] && forall i | 0 <= i < |t| :: IsIpChar(t[i])
  {
  }

  // ---------------------------------------------------------------- ports

  function Zeros(k: nat): string { seq(k, _ => '0') }

  lemma {:induction false} LeadingZeros(k: nat, t: string)
    requires t != []
    ensures DigitsValue(Zeros(k) + t) == DigitsValue(t)
    decreases |t|
  {
    var s := Zeros(k) + t;
    var last := |t| - 1;
    assert s[..|s| - 1] == Zeros(k) + t[..last];
    if last > 0 {
      LeadingZeros(k, t[..last]);
    } else {
      assert t[..last] == [] && Zeros(k) + [] == Zeros(k);
      ZerosValue(k);
    }
  }

  lemma {:induction false} ZerosValue(k: nat)
    ensures DigitsValue(Zeros(k)) == Some(0)
  {
    if k > 0 {
      ZerosValue(k - 1);
      assert Zeros(k)[..k - 1] == Zeros(k - 1);
    }
  }

  /** Any digits are the decimal text of their value behind some zeros. */
  lemma {:induction false} DigitsAreDecimal(s: string) returns (k: nat)
    requires s != [] && DigitsValue(s).Some?
    ensures s == Zeros(k) + DecimalText(DigitsValue(s).value)
  {
    hide DecimalText, DigitsValue;
    var last := |s| - 1;
    var d := s[last];
    DigitsSnoc(s);
    assert s == s[..last] + [d];
    var v' := DigitsValue(s[..last]).value;
    DecimalGrows(v', d);
    if last == 0 {
      k := 0;
      assert s[..0] == [] && Zeros(0) + [d] == [d];
    } else {
      k := DigitsAreDecimal(s[..last]);
      if v' == 0 {
        assert Zeros(k) + "0" == Zeros(k + 1);
        k := k + 1;
      } else {
        assert Zeros(k) + DecimalText(v') + [d] == Zeros(k) + (DecimalText(v') + [d]);
      }
    }
  }

  lemma DigitsSnoc(s: string)
    requires s != [] && DigitsValue(s).Some?
    ensures var d, before := s[|s| - 1], DigitsValue(s[..|s| - 1]);
            && '0' <= d <= '9' && before.Some?
            && DigitsValue(s) == Some(before.value * 10 + (d as int - '0' as int))
            && (|s| == 1 ==> before.value == 0)
  {
    assert |s| == 1 ==> s[..|s| - 1] == [];
  }

  lemma DecimalGrows(v: nat, d: char)
    requires '0' <= d <= '9'
    ensures var n := v * 10 + (d as int - '0' as int);
            DecimalText(n) == (if v == 0 then [d] else DecimalText(v) + [d]) && (v == 0 ==> DecimalText(v) == "0")
  {
  }

  /** A text is a port exactly when it is the port's decimal text behind any number of zeros and an
      optional plus sign. */
  lemma PortsExactly(s: string, port: Port)
    ensures ParsePort(s) == Some(port) <==>
              exists k: nat :: s == Zeros(k) + DecimalText(port) || s == "+" + (Zeros(k) + DecimalText(port))
  {
    hide DigitsValue, DecimalText;
    if ParsePort(s) == Some(port) {
      var digits := if s[0] == '+' then s[1..] else s;
      var k := DigitsAreDecimal(digits);
      assert s[0] == '+' ==> s == "+" + digits;
    }
    if k: nat :| s == Zeros(k) + DecimalText(port) || s == "+" + (Zeros(k) + DecimalText(port)) {
      var digits := Zeros(k) + DecimalText(port);
      LeadingZeros(k, DecimalText(port));
      DigitsValueOfDecimal(port);
      assert digits[0] != '+' by { assert k > 0 ==> digits[0] == '0'; assert k == 0 ==>
          digits[0] == DecimalText(port)[0]; }
      assert s == digits || s[1..] == digits;
    }
  }

  // ---------------------------------------------------------------- endpoints

  lemma {:induction false} DigitsOnly(s: string)
    requires DigitsValue(s).Some?
    ensures forall i | 0 <= i < |s| :: '0' <= s[i] <= '9'
  {
    if s != [] { DigitsOnly(s[..|s| - 1]); }
  }

  lemma PortChars(t: string)
    requires ParsePort(t).Some?
    ensures t != [] && '0' <= t[|t| - 1] <= '9' && forall i | 0 <= i < |t| :: t[i] == '+' || '0' <= t[i] <= '9'
  {
    var digits := if t[0] == '+' then t[1..] else t;
    DigitsOnly(digits);
    assert forall i | 1 <= i < |t| :: t[i] == t[1..][i - 1];
  }

  predicate Spells(value: string, e: Endpoint, t: string) {
    value == e.host + ":" + t && ParsePort(t) == Some(e.port)
  }

  lemma SpelledParses(lib: Library, value: string, e: Endpoint, t: string)
    requires lib.parseSocket(value).None? && Valid(lib, e) && ':' !in e.host && Spells(value, e, t)
    ensures FromStr(lib, value) == Some(e)
  {
    hide IsDnsName, ParsePort, LastColon, CountColons, IsWhitespace;
    PortChars(t);
    assert ':' !in t;
    OneColon(e.host, t);
    NoColonsCounted(e.host);
    LastColonUnique(e.host, t);
    assert value[..|e.host|] == e.host && value[|e.host| + 1..] == t;
    assert value[0] == e.host[0] && value[|value| - 1] == t[|t| - 1];
    assert !IsPadded(value) by { DigitsAreNotSpace(value[|value| - 1]); }
    assert !HasForbiddenSyntax(value);
  }

  lemma DigitsAreNotSpace(c: char)
    requires '0' <= c <= '9'
    ensures !IsWhitespace(c)
  {
  }

  lemma ParsedIsSpelled(lib: Library, value: string, e: Endpoint) returns (t: string)
    requires Sane(lib) && lib.parseSocket(value).None? && FromStr(lib, value) == Some(e)
    ensures Valid(lib, e) && ':' !in e.host && Spells(value, e, t)
  {
    hide IsPadded, HasForbiddenSyntax, IsDnsName, ParsePort, IsWhitespace, CountColons, Sane;
    var i := LastColon(value).value;
    t := value[i + 1..];
    assert value == value[..i] + ":" + t;
    HostColonsCounted(value);
    if value[0] == '[' && i > 0 { BracketIsNoAddress(lib, e.host); }
  }

  /** Which texts name an endpoint, apart from those that are socket addresses: a valid host without a
      colon, a colon and a port text. The checks for padding, schemes and stray colons are all implied. */
  lemma NamesParseExactly(lib: Library, value: string, e: Endpoint)
    requires Sane(lib) && lib.parseSocket(value).None?
    ensures FromStr(lib, value) == Some(e) <==>
              Addressable(lib, e) && ':' !in e.host && exists t :: Spells(value, e, t)
  {
    hide FromStr, Valid, Addressable, Spells, Sane;
    ValidExactly(lib, e);
    if FromStr(lib, value) == Some(e) {
      var t := ParsedIsSpelled(lib, value, e);
    }
    if Valid(lib, e) && ':' !in e.host && exists t :: Spells(value, e, t) {
      var t :| Spells(value, e, t);
      SpelledParses(lib, value, e, t);
    }
  }

  // ---------------------------------------------------------------- addresses and spellings

  function Number(ip: Ip): nat {
    match ip
    case V4(a, b, c, d) => ((a * 256 + b) * 256 + c) * 256 + d
    case V6(s) =>
      var high := ((s[0] as int * 0x1_0000 + s[1] as int) * 0x1_0000 + s[2] as int) * 0x1_0000 + s[3] as int;
      (((high * 0x1_0000 + s[4] as int) * 0x1_0000 + s[5] as int) * 0x1_0000 + s[6] as int) * 0x1_0000 + s[7] as int
  }

  /** Loopback is the block 127.0.0.0/8 and the address ::1; unspecified is the zero address. */
  lemma LocalAddressesExactly(ip: Ip)
    ensures IsLoopback(ip) <==> if ip.V4? then 0x7F00_0000 <= Number(ip) < 0x8000_0000 else Number(ip) == 1
    ensures IsUnspecified(ip) <==> Number(ip) == 0
  {
    if ip.V6? {
      var s := ip.segments;
      assert s == [s[0], s[1], s[2], s[3], s[4], s[5], s[6], s[7]];
    }
  }

  function Dots(k: nat): string { seq(k, _ => '.') }

  /** Only the 26 capital letters have another case. */
  lemma CasesExactly(c: char)
    ensures LowerChar(c) as int == if 65 <= c as int <= 90 then c as int + 32 else c as int
  {
  }

  /** Dots at the end never matter, and neither does the case of a name. */
  lemma SpellingsOfOneName(lib: Library, e: Endpoint, host: string, k: nat)
    requires |host| == |e.host| && forall i | 0 <= i < |host| :: LowerChar(host[i]) == LowerChar(e.host[i])
    requires host == e.host || (lib.parseIp(TrimEndDots(host)).None? && lib.parseIp(TrimEndDots(e.host)).None?)
    ensures SameTarget(lib, e, Endpoint(host + Dots(k), e.port))
  {
    hide SameTarget, TrimEndDots, HostClassOf, Dots;
    DotsVanish(host, k);
    SameTargetIsKeyEquality(lib, e, Endpoint(host + Dots(k), e.port));
    if host != e.host {
      TrimSameLength(host, e.host);
      TrimExact(host);
      TrimExact(e.host);
      CaseOfNameIgnored(lib, TrimEndDots(host), TrimEndDots(e.host));
    }
  }

  /** Trimming takes off all the dots at the end and nothing else. */
  lemma {:induction false} TrimExact(s: string)
    ensures var r := TrimEndDots(s); r <= s && s == r + Dots(|s| - |r|) && (r != [] ==> r[|r| - 1] != '.')
  {
    if s != [] && s[|s| - 1] == '.' {
      var shorter := s[..|s| - 1];
      TrimExact(shorter);
      var k := |shorter| - |TrimEndDots(shorter)|;
      assert Dots(k) + "." == Dots(k + 1);
      assert s == shorter + ".";
    }
  }

  lemma CaseOfNameIgnored(lib: Library, a: string, b: string)
    requires |a| == |b| && forall i | 0 <= i < |a| :: LowerChar(a[i]) == LowerChar(b[i])
    requires lib.parseIp(a).None? && lib.parseIp(b).None?
    ensures HostClassOf(lib, a) == HostClassOf(lib, b)
  {
    assert EqIgnoreCase(a, b);
    EqIgnoreCaseIsLowerEquality(a, b);
    EqIgnoreCaseIsLowerEquality(a, "localhost");
    EqIgnoreCaseIsLowerEquality(b, "localhost");
  }

  lemma {:induction false} DotsVanish(s: string, k: nat)
    ensures TrimEndDots(s + Dots(k)) == TrimEndDots(s)
  {
    if k > 0 {
      var t := s + Dots(k);
      assert t[..|t| - 1] == s + Dots(k - 1);
      DotsVanish(s, k - 1);
    } else {
      assert s + Dots(0) == s;
    }
  }

  lemma {:induction false} TrimSameLength(a: string, b: string)
    requires |a| == |b| && forall i | 0 <= i < |a| :: LowerChar(a[i]) == LowerChar(b[i])
    ensures |TrimEndDots(a)| == |TrimEndDots(b)|
  {
    if a != [] {
      var last := |a| - 1;
      assert LowerChar(a[last]) == LowerChar(b[last]);
      assert a[last] == '.' <==> b[last] == '.';
      TrimSameLength(a[..last], b[..last]);
    }
  }
}
