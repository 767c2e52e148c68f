/** A reader of compact JSON text, written from the grammar of RFC 8259 and not from the printer. */
module JsonReader {
  import opened Sequences
  import opened Json

  const TRUE_TEXT: Bytes := [116, 114, 117, 101]
  const FALSE_TEXT: Bytes := [102, 97, 108, 115, 101]

  function ReadValue(t: Bytes): (r: Option<(Value, Bytes)>)
    ensures r.Some? ==> |r.value.1| < |t|
    decreases |t|, 0
  {
    if t == [] then None
    else if [91, 93] <= t then Some((Arr([]), t[2..]))
    else if t[0] == 91 then
      match ReadElements(t[1..]) {
        case Some((items, rest)) => Some((Arr(items), rest))
        case None => None
      }
    else if [123, 125] <= t then Some((Obj([]), t[2..]))
    else if t[0] == 123 then
      match ReadMembers(t[1..]) {
        case Some((members, rest)) => Some((Obj(members), rest))
        case None => None
      }
    else if TRUE_TEXT <= t then Some((Bool(true), t[4..]))
    else if FALSE_TEXT <= t then Some((Bool(false), t[5..]))
    else ReadId(t)
  }

  /** One or more values separated by commas, up to the closing bracket. */
  function ReadElements(t: Bytes): (r: Option<(seq<Value>, Bytes)>)
    ensures r.Some? ==> |r.value.1| < |t|
    decreases |t|, 1
  {
    match ReadValue(t)
    case None => None
    case Some((v, rest)) =>
      if rest != [] && rest[0] == 93 then Some(([v], rest[1..]))
      else if rest == [] || rest[0] != COMMA then None
      else match ReadElements(rest[1..]) {
        case Some((items, after)) => Some(([v] + items, after))
        case None => None
      }
  }

  /** A name, a colon and a value. */
  function ReadMember(t: Bytes): (r: Option<(Member, Bytes)>)
    ensures r.Some? ==> |r.value.1| < |t|
    decreases |t|, 1
  {
    if t == [] || t[0] != QUOTE then None
    else match Unescape(t[1..]) {
      case None => None
      case Some((name, rest)) =>
        if rest == [] || rest[0] != 58 then None
        else match ReadValue(rest[1..]) {
          case Some((v, after)) => Some((Member(name, v), after))
          case None => None
        }
    }
  }

  function ReadMembers(t: Bytes): (r: Option<(seq<Member>, Bytes)>)
    ensures r.Some? ==> |r.value.1| < |t|
    decreases |t|, 2
  {
    match ReadMember(t)
    case None => None
    case Some((m, rest)) =>
      if rest != [] && rest[0] == 125 then Some(([m], rest[1..]))
      else if rest == [] || rest[0] != COMMA then None
      else match ReadMembers(rest[1..]) {
        case Some((members, after)) => Some(([m] + members, after))
        case None => None
      }
  }

  /** The value of the first member with this name. */
  function Lookup(v: Value, name: Bytes): Option<Value> {
    if v.Obj? then Find(v.members, name) else None
  }

  function Find(members: seq<Member>, name: Bytes): Option<Value> {
    if members == [] then None
    else if members[0].name == name then Some(members[0].value)
    else Find(members[1..], name)
  }

  /** Values without floating-point numbers. */
  predicate Exact(v: Value) {
    match v
    case Num(number) => !number.Float?
    case Arr(items) => forall i | 0 <= i < |items| :: Exact(items[i])
    case Obj(members) => forall i | 0 <= i < |members| :: Exact(members[i].value)
    case _ => true
  }

  lemma FirstByte(v: Value, rest: Bytes)
    requires Exact(v)
    ensures Serialize(v) != [] && (Serialize(v) + rest)[0] == Serialize(v)[0]
    ensures Serialize(v)[0] !in {93, 125}
  {
    match v
    case Num(number) => assert number.PosInt? ==> IsDigit(Decimal(number.u)[0]);
    case _ =>
  }

  lemma ScalarReads(v: Value, rest: Bytes)
    requires IsScalarId(v) && (rest == [] || !IsDigit(rest[0]))
    ensures ReadValue(Serialize(v) + rest) == Some((v, rest))
  {
    ReadSerializedId(v, rest);
    var t := Serialize(v) + rest;
    assert t[0] == Serialize(v)[0];
    if v.Num? && v.number.PosInt? { assert IsDigit(Decimal(v.number.u)[0]); }
  }

  /** Reading inverts printing, for every value without floating-point numbers and whatever follows. */
  lemma {:induction false} ReadPrinted(v: Value, rest: Bytes)
    requires Exact(v) && (rest == [] || !IsDigit(rest[0]))
    ensures ReadValue(Serialize(v) + rest) == Some((v, rest))
    decreases v, 1
  {
    hide ReadValue;
    match v
    case Bool(_) => BoolReads(v, rest);
    case Arr(items) =>
      if items != [] { ElementsRead(items, rest); }
      ArrayReads(items, rest);
    case Obj(members) =>
      if members != [] { MembersRead(members, rest); }
      ObjectReads(members, rest);
    case _ => ScalarReads(v, rest);
  }

  lemma BoolReads(v: Value, rest: Bytes)
    requires v.Bool?
    ensures ReadValue(Serialize(v) + rest) == Some((v, rest))
  {
    var t := Serialize(v) + rest;
    assert t[0] == Serialize(v)[0];
    assert t[..|Serialize(v)|] == Serialize(v);
  }

  lemma ArrayReads(items: seq<Value>, rest: Bytes)
    requires Exact(Arr(items))
    requires items != [] ==> ReadElements(SerializeItems(items) + [93] + rest) == Some((items, rest))
    ensures ReadValue(Serialize(Arr(items)) + rest) == Some((Arr(items), rest))
  {
    hide ReadElements, ReadMembers, ReadId, Serialize;
    var inner := SerializeItems(items) + [93] + rest;
    var t := [91] + inner;
    assert Serialize(Arr(items)) + rest == t by { ArrayText(items, rest); }
    if items == [] {
      assert inner == [93] + rest && t == [91, 93] + rest;
      assert t[0] == 91 && t[..2] == [91, 93] && t[2..] == rest;
    } else {
      FirstByte(items[0], []);
      assert t[1] == inner[0] == Serialize(items[0])[0];
      assert t[1..] == inner;
    }
  }

  lemma ArrayText(items: seq<Value>, rest: Bytes)
    ensures Serialize(Arr(items)) + rest == [91] + (SerializeItems(items) + [93] + rest)
  {
  }

  lemma ObjectReads(members: seq<Member>, rest: Bytes)
    requires members != [] ==> ReadMembers(SerializeMembers(members) + [125] + rest) == Some((members, rest))
    ensures ReadValue(Serialize(Obj(members)) + rest) == Some((Obj(members), rest))
  {
    hide ReadElements, ReadMembers, ReadId, Serialize;
    var inner := SerializeMembers(members) + [125] + rest;
    var t := [123] + inner;
    assert Serialize(Obj(members)) + rest == t by { ObjectText(members, rest); }
    if members == [] {
      assert inner == [125] + rest && t == [123, 125] + rest;
      assert t[0] == 123 && t[..2] == [123, 125] && t[2..] == rest;
    } else {
      assert t[1] == inner[0] == QUOTE;
      assert t[1..] == inner;
    }
  }

  lemma ObjectText(members: seq<Member>, rest: Bytes)
    ensures Serialize(Obj(members)) + rest == [123] + (SerializeMembers(members) + [125] + rest)
  {
  }

  lemma {:induction false} ElementsRead(items: seq<Value>, rest: Bytes)
    requires items != [] && forall i | 0 <= i < |items| :: Exact(items[i])
    ensures ReadElements(SerializeItems(items) + [93] + rest) == Some((items, rest))
    decreases items, 0
  {
    hide ReadValue, Serialize, Exact;
    var t := SerializeItems(items) + [93] + rest;
    if |items| == 1 {
      assert t == Serialize(items[0]) + ([93] + rest);
      ReadPrinted(items[0], [93] + rest);
      assert ([93] + rest)[1..] == rest && items == [items[0]];
    } else {
      var more := SerializeItems(items[1..]) + [93] + rest;
      assert t == Serialize(items[0]) + ([COMMA] + more);
      ReadPrinted(items[0], [COMMA] + more);
      ElementsRead(items[1..], rest);
      assert ([COMMA] + more)[1..] == more;
      assert items == [items[0]] + items[1..];
    }
  }

  lemma {:induction false} MemberReads(m: Member, rest: Bytes)
    requires Exact(m.value) && rest != [] && !IsDigit(rest[0])
    ensures ReadMember(MemberText(m) + rest) == Some((m, rest))
    decreases m, 1
  {
    hide ReadValue, Serialize, Exact, Unescape;
    var t := MemberText(m) + rest;
    var value := Serialize(m.value) + rest;
    assert t == [QUOTE] + (Escape(m.name) + [QUOTE] + ([58] + value));
    assert t[1..] == Escape(m.name) + [QUOTE] + ([58] + value);
    UnescapeEscape(m.name, [58] + value);
    assert ([58] + value)[1..] == value;
    ReadPrinted(m.value, rest);
  }

  lemma {:induction false} MembersRead(members: seq<Member>, rest: Bytes)
    requires members != [] && forall i | 0 <= i < |members| :: Exact(members[i].value)
    ensures ReadMembers(SerializeMembers(members) + [125] + rest) == Some((members, rest))
    decreases members, 0
  {
    hide ReadMember, Serialize, Exact, SerializeString;
    var t := SerializeMembers(members) + [125] + rest;
    if |members| == 1 {
      assert t == MemberText(members[0]) + ([125] + rest);
      MemberReads(members[0], [125] + rest);
      assert ([125] + rest)[1..] == rest && members == [members[0]];
    } else {
      var more := SerializeMembers(members[1..]) + [125] + rest;
      assert t == MemberText(members[0]) + ([COMMA] + more);
      MemberReads(members[0], [COMMA] + more);
      MembersRead(members[1..], rest);
      assert ([COMMA] + more)[1..] == more;
      assert members == [members[0]] + members[1..];
    }
  }
}
