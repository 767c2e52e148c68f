/** The properties assumed of the address library can be met together: here is one library, with a
    plain hexadecimal notation, that has them all. */
module EndpointWitness {
  import opened Sequences
  import opened Endpoint

  function HexChar(n: nat): char
    requires n < 16
  {
    if n < 10 then '0' + n as char else 'a' + (n - 10) as char
  }

  predicate IsHex(c: char) { '0' <= c <= '9' || 'a' <= c <= 'f' }

  function HexValue(c: char): (n: nat)
    requires IsHex(c)
    ensures n < 16 && HexChar(n) == c
  {
    if c <= '9' then c as int - '0' as int else c as int - 'a' as int + 10
  }

  lemma HexValueOfChar(n: nat)
    requires n < 16
    ensures IsHex(HexChar(n)) && HexValue(HexChar(n)) == n
  {
  }

  predicate AllHex(t: string) { forall i | 0 <= i < |t| :: IsHex(t[i]) }

  /** Fixed-width hexadecimal, most significant digit first. */
  function Hex(n: nat, width: nat): (t: string)
    ensures |t| == width && AllHex(t)
  {
    if width == 0 then ""
    else
      HexValueOfChar(n % 16);
      Hex(n / 16, width - 1) + [HexChar(n % 16)]
  }

  function Value(t: string): nat
    requires AllHex(t)
  {
    if t == [] then 0 else Value(t[..|t| - 1]) * 16 + HexValue(t[|t| - 1])
  }

  function Power(width: nat): nat { if width == 0 then 1 else 16 * Power(width - 1) }

  lemma {:induction false} ValueOfHex(n: nat, width: nat)
    requires n < Power(width)
    ensures Value(Hex(n, width)) == n
  {
    if width > 0 {
      var t := Hex(n, width);
      ValueOfHex(n / 16, width - 1);
      HexValueOfChar(n % 16);
      assert t[..|t| - 1] == Hex(n / 16, width - 1);
    }
  }

  lemma {:induction false} HexOfValue(t: string)
    requires AllHex(t)
    ensures Value(t) < Power(|t|) && Hex(Value(t), |t|) == t
  {
    if t != [] {
      HexOfValue(t[..|t| - 1]);
      assert t == t[..|t| - 1] + [t[|t| - 1]];
    }
  }

  lemma Powers()
    ensures Power(2) == 256 && Power(4) == 0x1_0000
  {
    assert Power(1) == 16 * Power(0);
    assert Power(2) == 16 * Power(1);
    assert Power(3) == 16 * Power(2);
  }

  /** A number that fits the width, read from text of that width; zero for any other text. */
  function Group(t: string, width: nat): (n: nat)
    ensures n < Power(width)
  {
    if |t| == width && AllHex(t) then HexOfValue(t); Value(t) else PowerPositive(width); 0
  }

  lemma PowerPositive(width: nat)
    ensures Power(width) > 0
  {
  }

  /** Eight segments as thirty-two hexadecimal digits, and back. */
  function SegmentText(s: seq<Segment>): (t: string)
    ensures |t| == 4 * |s| && AllHex(t)
  {
    if s == [] then "" else Hex(s[0], 4) + SegmentText(s[1..])
  }

  function SegmentsOf(t: string): (s: seq<Segment>)
    ensures |s| == |t| / 4
  {
    if |t| < 4 then [] else [SegmentOf(t[..4])] + SegmentsOf(t[4..])
  }

  lemma {:induction false} SegmentsOfText(s: seq<Segment>)
    ensures SegmentsOf(SegmentText(s)) == s
  {
    hide Hex, Power, Group;
    if s != [] {
      var t := SegmentText(s);
      assert Power(4) == 0x1_0000 by { Powers(); }
      GroupOfHex(s[0], 4);
      SegmentsOfText(s[1..]);
      assert t[..4] == Hex(s[0], 4) && t[4..] == SegmentText(s[1..]);
    }
  }

  function PrintIp(ip: Ip): string {
    match ip
    case V4(a, b, c, d) => Hex(a, 2) + Hex(b, 2) + Hex(c, 2) + Hex(d, 2)
    case V6(s) => ":" + SegmentText(s)
  }

  function OctetOf(t: string): Octet { Powers(); Group(t, 2) }
  function SegmentOf(t: string): Segment { Powers(); Group(t, 4) }

  function ParseIp(t: string): Option<Ip> {
    if |t| == 8 && AllHex(t) then Some(V4(OctetOf(t[..2]), OctetOf(t[2..4]), OctetOf(t[4..6]), OctetOf(t[6..8])))
    else if |t| == 33 && t[0] == ':' && AllHex(t[1..]) then Some(V6(SegmentsOf(t[1..])))
    else None
  }

  function ParseSocket(t: string): Option<SocketAddr> {
    match LastColon(t)
    case None => None
    case Some(i) =>
      var h := t[..i];
      var host := if |h| >= 2 && h[0] == '[' && h[|h| - 1] == ']' then h[1..|h| - 1] else h;
      match (ParseIp(host), ParsePort(t[i + 1..]))
      case (Some(ip), Some(port)) => if (|host| < |h|) == ip.V6? then Some(SocketAddr(ip, port)) else None
      case _ => None
  }

  function Hexadecimal(): Library {
    Library((t: string) => ParseIp(t), (ip: Ip) => PrintIp(ip), (t: string) => ParseSocket(t))
  }

  lemma GroupOfHex(n: nat, width: nat)
    requires n < Power(width)
    ensures Group(Hex(n, width), width) == n
  {
    ValueOfHex(n, width);
  }

  lemma ParsePrint(ip: Ip)
    ensures ParseIp(PrintIp(ip)) == Some(ip)
  {
    Powers();
    var t := PrintIp(ip);
    match ip
    case V4(a, b, c, d) =>
      GroupOfHex(a, 2); GroupOfHex(b, 2); GroupOfHex(c, 2); GroupOfHex(d, 2);
      assert t[..2] == Hex(a, 2) && t[2..4] == Hex(b, 2) && t[4..6] == Hex(c, 2) && t[6..8] == Hex(d, 2);
    case V6(s) =>
      SegmentsOfText(s);
      assert t[1..] == SegmentText(s);
  }

  lemma PrintParseV4(t: string)
    requires |t| == 8 && AllHex(t)
    ensures PrintIp(ParseIp(t).value) == t
  {
    hide Hex, Power, Value;
    HexOfValue(t[..2]);
    HexOfValue(t[2..4]);
    HexOfValue(t[4..6]);
    HexOfValue(t[6..8]);
    assert t == t[..2] + t[2..4] + t[4..6] + t[6..8];
  }

  lemma AddressText(t: string)
    requires ParseIp(t).Some?
    ensures t != [] && t[|t| - 1] != '.' && (forall i | 0 <= i < |t| :: IsIpChar(t[i]))
    ensures ParseIp(t).value.V4? ==> ':' !in t && t == PrintIp(ParseIp(t).value)
    ensures ParseIp(t).value.V6? ==> ':' in t
  {
    hide PrintIp, OctetOf, SegmentsOf;
    if |t| == 8 {
      PrintParseV4(t);
    } else {
      assert forall i | 1 <= i < |t| :: t[i] == t[1..][i - 1];
    }
  }

  lemma PlainSocketParses(h: string, p: Port)
    requires ':' !in h
    ensures ParseSocket(PlainSocket(h, p)) == if ParseIp(h).Some? then Some(SocketAddr(ParseIp(h).value, p)) else None
  {
    hide ParsePort, DecimalText, LastColon, OctetOf, SegmentsOf;
    var t := PlainSocket(h, p);
    PlainSocketColons(h, p);
    ParsePortOfDecimal(p);
    assert t[..|h|] == h && t[|h| + 1..] == DecimalText(p);
    if |h| >= 2 && h[0] == '[' && h[|h| - 1] == ']' {
      assert !IsHex(h[0]);
      var inner := h[1..|h| - 1];
      assert forall i | 0 <= i < |inner| :: inner[i] == h[i + 1];
    }
  }

  lemma BracketedSocketParses(h: string, p: Port)
    requires ParseIp(h).Some? && ':' in h
    ensures ParseSocket(BracketedSocket(h, p)) == Some(SocketAddr(ParseIp(h).value, p))
  {
    hide ParsePort, LastColon, OctetOf, SegmentsOf;
    var t, host := BracketedSocket(h, p), "[" + h + "]";
    var digits := DecimalText(p);
    assert ':' !in digits by { assert forall c | c in digits :: '0' <= c <= '9'; }
    LastColonUnique(host, digits);
    assert t == host + ":" + digits;
    ParsePortOfDecimal(p);
    assert t[..|host|] == host && t[|host| + 1..] == digits && host[1..|host| - 1] == h;
  }

  /** The assumptions of `Sane` are consistent. */
  lemma SaneIsConsistent()
    ensures Sane(Hexadecimal())
  {
    hide ParseIp, PrintIp, ParseSocket, PlainSocket, BracketedSocket, IsIpChar;
    var lib := Hexadecimal();
    forall ip: Ip ensures lib.parseIp(lib.printIp(ip)) == Some(ip) { ParsePrint(ip); }
    forall t: string | lib.parseIp(t).Some?
      ensures && t != [] && t[|t| - 1] != '.'
              && (forall i | 0 <= i < |t| :: IsIpChar(t[i]))
              && (lib.parseIp(t).value.V4? ==> ':' !in t && t == lib.printIp(lib.parseIp(t).value))
              && (lib.parseIp(t).value.V6? ==> ':' in t)
    {
      AddressText(t);
    }
    forall h: string, p: Port | ':' !in h
      ensures lib.parseSocket(PlainSocket(h, p)) ==
              (if lib.parseIp(h).Some? then Some(SocketAddr(lib.parseIp(h).value, p)) else None)
    {
      PlainSocketParses(h, p);
    }
    forall h: string, p: Port | lib.parseIp(h).Some? && ':' in h
      ensures lib.parseSocket(BracketedSocket(h, p)) == Some(SocketAddr(lib.parseIp(h).value, p))
    {
      BracketedSocketParses(h, p);
    }
  }
}
