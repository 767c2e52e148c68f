/** JSON values and their compact text, as far as request ids, correlation keys and replies need it.
    Strings are UTF-8 byte sequences, so escaping works byte by byte. */
module Json {
  import opened Sequences

  type U64 = n: int | 0 <= n < 0x1_0000_0000_0000_0000
  type NegativeI64 = n: int | -0x8000_0000_0000_0000 <= n < 0 witness -1

  /** Bytes a printed floating-point number may hold: digits, sign, point, exponent. */
  type FloatByte = b: Byte | 48 <= b <= 57 || b in {43, 45, 46, 69, 101} witness 48

  datatype Number = PosInt(u: U64) | NegInt(i: NegativeI64) | Float(text: seq<FloatByte>)

  datatype Member = Member(name: Bytes, value: Value)

  datatype Value =
    | Null
    | Bool(b: bool)
    | Num(number: Number)
    | Str(text: Bytes)
    | Arr(items: seq<Value>)
    | Obj(members: seq<Member>)   // in the order they are printed

  const QUOTE: Byte := 34
  const BACKSLASH: Byte := 92
  const MINUS: Byte := 45
  const COMMA: Byte := 44
  const NULL_TEXT: Bytes := [110, 117, 108, 108]

  function Ascii(s: string): (t: Bytes)
    ensures |t| == |s| && forall i | 0 <= i < |s| && s[i] as int < 128 :: t[i] == s[i] as int
  {
    seq(|s|, i requires 0 <= i < |s| => s[i] as int % 128)
  }

  // ---------------------------------------------------------------- integers

  predicate IsDigit(b: Byte) { 48 <= b <= 57 }

  function Decimal(n: nat): (r: Bytes)
    ensures |r| > 0 && forall i | 0 <= i < |r| :: IsDigit(r[i])
  {
    if n < 10 then [48 + n] else Decimal(n / 10) + [48 + n % 10]
  }

  function DigitRun(t: Bytes): (n: nat)
    ensures n <= |t|
  {
    if t == [] || !IsDigit(t[0]) then 0 else 1 + DigitRun(t[1..])
  }

  function DecimalValue(t: Bytes): int {
    if t == [] then 0 else DecimalValue(t[..|t| - 1]) * 10 + (t[|t| - 1] as int) - 48
  }

  lemma {:induction false} DecimalRoundTrip(n: nat)
    ensures DecimalValue(Decimal(n)) == n
  {
    if n >= 10 {
      DecimalRoundTrip(n / 10);
      assert Decimal(n)[..|Decimal(n)| - 1] == Decimal(n / 10);
    } else {
      assert Decimal(n)[..0] == [];
    }
  }

  lemma {:induction false} DigitRunStops(digits: Bytes, rest: Bytes)
    requires forall i | 0 <= i < |digits| :: IsDigit(digits[i])
    requires rest == [] || !IsDigit(rest[0])
    ensures DigitRun(digits + rest) == |digits|
  {
    if digits != [] {
      assert (digits + rest)[1..] == digits[1..] + rest;
      DigitRunStops(digits[1..], rest);
    } else {
      assert digits + rest == rest;
    }
  }

  // ---------------------------------------------------------------- strings

  function HexDigit(n: nat): Byte
    requires n < 16
  {
    if n < 10 then 48 + n else 87 + n
  }

  function HexValue(b: Byte): Option<nat> {
    if 48 <= b <= 57 then Some(b - 48) else if 97 <= b <= 102 then Some(b - 87) else None
  }

  /** Section 7 of RFC 8259, choosing the short escape where there is one. */
  function EscapeByte(b: Byte): Bytes {
    if b == QUOTE || b == BACKSLASH then [BACKSLASH, b]
    else if b == 8 then [BACKSLASH, 98]
    else if b == 9 then [BACKSLASH, 116]
    else if b == 10 then [BACKSLASH, 110]
    else if b == 12 then [BACKSLASH, 102]
    else if b == 13 then [BACKSLASH, 114]
    else if b < 32 then [BACKSLASH, 117, 48, 48, HexDigit(b / 16), HexDigit(b % 16)]
    else [b]
  }

  function Escape(s: Bytes): Bytes {
    if s == [] then [] else EscapeByte(s[0]) + Escape(s[1..])
  }

  /** The byte that a short escape stands for. */
  function ShortEscape(b: Byte): Option<Byte> {
    if b == QUOTE || b == BACKSLASH then Some(b)
    else if b == 98 then Some(8)
    else if b == 116 then Some(9)
    else if b == 110 then Some(10)
    else if b == 102 then Some(12)
    else if b == 114 then Some(13)
    else None
  }

  /** Reads one possibly escaped byte: its value and how much text it took. */
  function UnescapeByte(t: Bytes): (r: Option<(Byte, nat)>)
    requires t != []
    ensures r.Some? ==> 0 < r.value.1 <= |t|
  {
    if t[0] != BACKSLASH then Some((t[0], 1))
    else if |t| >= 2 && ShortEscape(t[1]).Some? then Some((ShortEscape(t[1]).value, 2))
    else if |t| >= 6 && t[1..4] == [117, 48, 48] && HexValue(t[4]).Some? && HexValue(t[5]).Some? then
      Some((HexValue(t[4]).value * 16 + HexValue(t[5]).value, 6))
    else None
  }

  /** Reads string contents up to the closing quote: the contents and the text after the quote. */
  function Unescape(t: Bytes): (r: Option<(Bytes, Bytes)>)
    ensures r.Some? ==> |r.value.1| < |t|
    decreases |t|
  {
    if t == [] then None
    else if t[0] == QUOTE then Some(([], t[1..]))
    else match UnescapeByte(t) {
      case None => None
      case Some((b, n)) =>
        match Unescape(t[n..]) {
          case None => None
          case Some((s, rest)) => Some(([b] + s, rest))
        }
    }
  }

  lemma EscapedByteReads(b: Byte, rest: Bytes)
    ensures UnescapeByte(EscapeByte(b) + rest) == Some((b, |EscapeByte(b)|))
    ensures EscapeByte(b)[0] != QUOTE
  {
    var t := EscapeByte(b) + rest;
    if |EscapeByte(b)| == 6 {
      assert t[1..4] == [117, 48, 48];
    }
  }

  /** Unescaping inverts escaping, and finds the end of the string by itself. */
  lemma {:induction false} UnescapeEscape(s: Bytes, rest: Bytes)
    ensures Unescape(Escape(s) + [QUOTE] + rest) == Some((s, rest))
  {
    var t := Escape(s) + [QUOTE] + rest;
    if s != [] {
      var tail := Escape(s[1..]) + [QUOTE] + rest;
      assert t == EscapeByte(s[0]) + tail;
      EscapedByteReads(s[0], tail);
      assert t[|EscapeByte(s[0])|..] == tail;
      UnescapeEscape(s[1..], rest);
      assert s == [s[0]] + s[1..];
    }
  }

  // ---------------------------------------------------------------- values

  function SerializeNumber(n: Number): Bytes {
    match n
    case PosInt(u) => Decimal(u)
    case NegInt(i) => [MINUS] + Decimal(-(i as int))
    case Float(text) => text
  }

  function SerializeString(s: Bytes): Bytes {
    [QUOTE] + Escape(s) + [QUOTE]
  }

  function Serialize(v: Value): Bytes
    decreases v, 1
  {
    match v
    case Null => NULL_TEXT
    case Bool(b) => if b then [116, 114, 117, 101] else [102, 97, 108, 115, 101]
    case Num(number) => SerializeNumber(number)
    case Str(text) => SerializeString(text)
    case Arr(items) => [91] + SerializeItems(items) + [93]
    case Obj(members) => [123] + SerializeMembers(members) + [125]
  }

  function SerializeItems(items: seq<Value>): Bytes
    decreases items, 0
  {
    if items == [] then []
    else Serialize(items[0]) + (if |items| == 1 then [] else [COMMA] + SerializeItems(items[1..]))
  }

  function SerializeMembers(members: seq<Member>): Bytes
    decreases members, 0
  {
    if members == [] then []
    else
      SerializeString(members[0].name) + [58] + Serialize(members[0].value)
      + (if |members| == 1 then [] else [COMMA] + SerializeMembers(members[1..]))
  }

  predicate Printable(t: Bytes) {
    forall i | 0 <= i < |t| :: t[i] >= 32
  }

  lemma {:induction false} EscapePrintable(s: Bytes)
    ensures Printable(Escape(s))
  {
    if s != [] {
      EscapePrintable(s[1..]);
    }
  }

  /** No value, whatever strings it holds, is printed with a control byte in it. */
  lemma {:induction false} SerializePrintable(v: Value)
    ensures Printable(Serialize(v))
    decreases v, 1
  {
    match v
    case Null =>
    case Bool(_) =>
    case Num(number) =>
    case Str(text) => EscapePrintable(text);
    case Arr(items) => ItemsPrintable(items);
    case Obj(members) => MembersPrintable(members);
  }

  lemma {:induction false} ItemsPrintable(items: seq<Value>)
    ensures Printable(SerializeItems(items))
    decreases items, 0
  {
    if items != [] {
      SerializePrintable(items[0]);
      ItemsPrintable(items[1..]);
    }
  }

  lemma {:induction false} MembersPrintable(members: seq<Member>)
    ensures Printable(SerializeMembers(members))
    decreases members, 0
  {
    if members != [] {
      EscapePrintable(members[0].name);
      SerializePrintable(members[0].value);
      MembersPrintable(members[1..]);
    }
  }

  // ---------------------------------------------------------------- identifiers

  /** Null, an exact integer or a string: the values that can stand as the id of a reply. */
  predicate IsScalarId(v: Value) {
    v.Null? || (v.Num? && !v.number.Float?) || v.Str?
  }

  /** Reads an integer from the front of a text. */
  function ReadInteger(t: Bytes): (r: Option<(Value, Bytes)>)
    requires t != []
    ensures r.Some? ==> |r.value.1| < |t|
  {
    if t[0] == MINUS then
      var run := DigitRun(t[1..]);
      var magnitude := DecimalValue(t[1..][..run]);
      if run > 0 && 0 < magnitude <= 0x8000_0000_0000_0000 then Some((Num(NegInt(-magnitude)), t[1..][run..])) else None
    else
      var run := DigitRun(t);
      var magnitude := DecimalValue(t[..run]);
      if run > 0 && 0 <= magnitude < 0x1_0000_0000_0000_0000 then Some((Num(PosInt(magnitude)), t[run..])) else None
  }

  /** Reads an id from the front of a text. */
  function ReadId(t: Bytes): (r: Option<(Value, Bytes)>)
    ensures r.Some? ==> |r.value.1| < |t|
  {
    if t == [] then None
    else if t[0] == QUOTE then
      match Unescape(t[1..]) {
        case None => None
        case Some((s, rest)) => Some((Str(s), rest))
      }
    else if NULL_TEXT <= t then Some((Null, t[4..]))
    else ReadInteger(t)
  }

  /** The text of an id can be read back, together with whatever follows it. */
  lemma ReadSerializedId(id: Value, rest: Bytes)
    requires IsScalarId(id)
    requires rest == [] || !IsDigit(rest[0])
    ensures ReadId(Serialize(id) + rest) == Some((id, rest))
  {
    match id
    case Str(s) => ReadSerializedString(s, rest);
    case Null =>
    case Num(number) => ReadSerializedInteger(number, rest);
  }

  lemma ReadSerializedString(s: Bytes, rest: Bytes)
    ensures ReadId(SerializeString(s) + rest) == Some((Str(s), rest))
  {
    hide Unescape, Escape;
    var t := SerializeString(s) + rest;
    UnescapeEscape(s, rest);
    assert t[0] == QUOTE && t[1..] == Escape(s) + [QUOTE] + rest;
  }

  lemma ReadSerializedInteger(number: Number, rest: Bytes)
    requires !number.Float?
    requires rest == [] || !IsDigit(rest[0])
    ensures var t := SerializeNumber(number) + rest;
            t[0] != QUOTE && t[0] != NULL_TEXT[0] && ReadInteger(t) == Some((Num(number), rest))
  {
    hide Decimal, DecimalValue, DigitRun;
    match number
    case PosInt(u) =>
      var t := Decimal(u) + rest;
      assert IsDigit(Decimal(u)[0]) && t[0] == Decimal(u)[0];
      IntegerReads(u, rest);
    case NegInt(i) =>
      var magnitude := -(i as int);
      var t := [MINUS] + Decimal(magnitude) + rest;
      assert t[0] == MINUS && t[1..] == Decimal(magnitude) + rest;
      IntegerReads(magnitude, rest);
  }

  lemma IntegerReads(n: nat, rest: Bytes)
    requires rest == [] || !IsDigit(rest[0])
    ensures var t := Decimal(n) + rest;
            var run := DigitRun(t);
            run == |Decimal(n)| && t[run..] == rest && DecimalValue(t[..run]) == n
  {
    DigitRunStops(Decimal(n), rest);
    DecimalRoundTrip(n);
    assert (Decimal(n) + rest)[..|Decimal(n)|] == Decimal(n);
  }

  // ---------------------------------------------------------------- two-member objects

  function MemberText(m: Member): Bytes {
    SerializeString(m.name) + [58] + Serialize(m.value)
  }

  /** The text of an object with two members. */
  lemma TwoMemberLayout(first: Member, second: Member)
    ensures Serialize(Obj([first, second])) == [123] + (MemberText(first) + ([COMMA] + MemberText(second))) + [125]
  {
    var members := [first, second];
    assert members[1..] == [second];
    var a, b := MemberText(first), MemberText(second);
    assert SerializeMembers([second]) == b + [] == b;
    assert SerializeMembers(members) == a + ([COMMA] + b);
  }

  /** Equal texts that begin with ids begin with the same id. */
  lemma LeadingIdCancels(a: Value, rest: Bytes, a': Value, rest': Bytes)
    requires IsScalarId(a) && IsScalarId(a')
    requires rest != [] && !IsDigit(rest[0]) && rest' != [] && !IsDigit(rest'[0])
    requires Serialize(a) + rest == Serialize(a') + rest'
    ensures a == a' && rest == rest'
  {
    ReadSerializedId(a, rest);
    ReadSerializedId(a', rest');
  }

  lemma HeadCancels(head: Bytes, s: Bytes, s': Bytes)
    requires head + s == head + s'
    ensures s == s'
  {
    assert (head + s)[|head|..] == s && (head + s')[|head|..] == s';
  }

  /** With the names fixed, an object holding an id and a string determines both. */
  lemma TwoMemberInjective(name: Bytes, a: Value, a': Value, name2: Bytes, s: Bytes, s': Bytes)
    requires IsScalarId(a) && IsScalarId(a')
    requires Serialize(Obj([Member(name, a), Member(name2, Str(s))]))
             == Serialize(Obj([Member(name, a'), Member(name2, Str(s'))]))
    ensures a == a' && s == s'
  {
    var first, first' := Member(name, a), Member(name, a');
    var second, second' := Member(name2, Str(s)), Member(name2, Str(s'));
    TwoMemberLayout(first, second);
    TwoMemberLayout(first', second');
    var head := [123] + SerializeString(name) + [58];
    var middle := [COMMA] + SerializeString(name2) + [58];
    var tail, tail' := Serialize(Str(s)) + [125], Serialize(Str(s')) + [125];
    MemberRegroup(name, Serialize(a), middle, tail, second, [125]);
    MemberRegroup(name, Serialize(a'), middle, tail', second', [125]);
    HeadCancels(head, Serialize(a) + (middle + tail), Serialize(a') + (middle + tail'));
    LeadingIdCancels(a, middle + tail, a', middle + tail');
    HeadCancels(middle, tail, tail');
    LeadingIdCancels(Str(s), [125], Str(s'), [125]);
  }

  lemma MemberRegroup(name: Bytes, value: Bytes, middle: Bytes, tail: Bytes, second: Member, foot: Bytes)
    requires middle == [COMMA] + SerializeString(second.name) + [58] && tail == Serialize(second.value) + foot
    ensures [123] + ((SerializeString(name) + [58] + value) + ([COMMA] + MemberText(second))) + foot
            == ([123] + SerializeString(name) + [58]) + (value + (middle + tail))
  {
    hide SerializeString, Serialize;
    assert [COMMA] + MemberText(second) + foot == middle + tail;
  }

  /** An object whose first member is itself an object that begins with an id determines that id. */
  lemma NestedIdInjective(name: Bytes, inner: Bytes, a: Value, a': Value, b: Member, b': Member, second: Member,
      second': Member)
    requires IsScalarId(a) && IsScalarId(a')
    requires Serialize(Obj([Member(name, Obj([Member(inner, a), b])), second]))
             == Serialize(Obj([Member(name, Obj([Member(inner, a'), b'])), second']))
    ensures a == a'
  {
    var first, first' := Member(name, Obj([Member(inner, a), b])), Member(name, Obj([Member(inner, a'), b']));
    TwoMemberLayout(first, second);
    TwoMemberLayout(first', second');
    TwoMemberLayout(Member(inner, a), b);
    TwoMemberLayout(Member(inner, a'), b');
    var head := [123] + (SerializeString(name) + [58]) + ([123] + (SerializeString(inner) + [58]));
    var rest := [COMMA] + MemberText(b) + [125] + ([COMMA] + MemberText(second)) + [125];
    var rest' := [COMMA] + MemberText(b') + [125] + ([COMMA] + MemberText(second')) + [125];
    NestedRegroup(name, inner, Serialize(a), MemberText(b), MemberText(second));
    NestedRegroup(name, inner, Serialize(a'), MemberText(b'), MemberText(second'));
    HeadCancels(head, Serialize(a) + rest, Serialize(a') + rest');
    LeadingIdCancels(a, rest, a', rest');
  }

  lemma NestedRegroup(name: Bytes, inner: Bytes, value: Bytes, b: Bytes, second: Bytes)
    ensures [123] + ((SerializeString(name) + [58]
            + ([123] + ((SerializeString(inner) + [58] + value) + ([COMMA] + b)) + [125]))
                     + ([COMMA] + second)) + [125]
            == ([123] + (SerializeString(name) + [58]) + ([123] + (SerializeString(inner) + [58])))
               + (value + ([COMMA] + b + [125] + ([COMMA] + second) + [125]))
  {
    hide SerializeString;
  }

  /** The third byte of an object's text is the first byte of its first name. */
  lemma FirstNameByte(first: Member, second: Member)
    requires first.name != [] && 32 <= first.name[0] && first.name[0] !in {QUOTE, BACKSLASH}
    ensures |Serialize(Obj([first, second]))| > 3 && Serialize(Obj([first, second]))[2] == first.name[0]
  {
    TwoMemberLayout(first, second);
    assert SerializeString(first.name)[1] == Escape(first.name)[0] == first.name[0];
  }
}
