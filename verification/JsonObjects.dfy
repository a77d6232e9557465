/** A reader of JSON objects of strings, numbers and objects, by sections 2, 4, 6 and 7 of RFC 8259, and what it
    makes of objects as this project's programs write them. */
module JsonObjects {
  import opened Bytes
  import opened Json

  datatype Value = Text(value: seq<byte>) | Number(token: seq<byte>) | Object(members: seq<Member>)

  datatype Member = Member(key: seq<byte>, value: Value)

  datatype Read = Read(value: Value, rest: seq<byte>)

  datatype Members = Members(members: seq<Member>, rest: seq<byte>)

  // ---- the reader ----

  predicate IsSpace(b: byte)
  {
    b == 32 || b == 9 || b == 10 || b == 13
  }

  function SkipSpace(s: seq<byte>): (r: seq<byte>)
    ensures |r| <= |s|
  {
    if s != [] && IsSpace(s[0]) then SkipSpace(s[1..]) else s
  }

  /** What follows the key and the colon of a member. */
  function Keyed(s: seq<byte>): (r: Option<Parsed>)
    ensures r.Some? ==> |r.value.rest| < |s|
  {
    if s == [] || s[0] != 34 then None
    else
      match StringBody(s[1..])
      case None => None
      case Some(key) =>
        var t := SkipSpace(key.rest);
        if t == [] || t[0] != 58 then None else Some(Parsed(key.value, SkipSpace(t[1..])))
  }

  function ReadValue(s: seq<byte>): (r: Option<Read>)
    ensures r.Some? ==> |r.value.rest| < |s|
    decreases |s|
  {
    if s == [] then None
    else if s[0] == 34 then
      match StringBody(s[1..])
      case None => None
      case Some(p) => Some(Read(Text(p.value), p.rest))
    else if s[0] == 123 then
      match ReadMembers(s[1..], true)
      case None => None
      case Some(ms) => Some(Read(Object(ms.members), ms.rest))
    else
      var n := NumberRun(s);
      if n == 0 then None else Some(Read(Number(s[..n]), s[n..]))
  }

  /** The members up to the closing brace; all but the first stand behind a comma. */
  function ReadMembers(s: seq<byte>, first: bool): (r: Option<Members>)
    ensures r.Some? ==> |r.value.rest| < |s|
    decreases |s|
  {
    var t := SkipSpace(s);
    if t == [] then None
    else if t[0] == 125 then Some(Members([], t[1..]))
    else if !first && t[0] != 44 then None
    else
      match Keyed(if first then t else SkipSpace(t[1..]))
      case None => None
      case Some(k) =>
        match ReadValue(k.rest)
        case None => None
        case Some(x) => Fronts([Member(k.value, x.value)], ReadMembers(x.rest, false))
  }

  /** These members in front of what else is read. */
  function Fronts(ms: seq<Member>, r: Option<Members>): (o: Option<Members>)
  {
    match r
    case None => None
    case Some(more) => Some(Members(ms + more.members, more.rest))
  }

  /** A line that is one object, or one value, and nothing else. */
  function ReadLine(line: seq<byte>): (r: Option<Value>)
  {
    match ReadValue(SkipSpace(line))
    case None => None
    case Some(x) => if SkipSpace(x.rest) == [] then Some(x.value) else None
  }

  // ---- objects as they are written: ": " behind a key and ", " between members ----

  /** `esc` stands for the string `value` between its quotation marks. */
  datatype Doc = Str(esc: seq<byte>, value: seq<byte>) | Num(token: seq<byte>) | Obj(fields: Fields)

  datatype Fields = Nil | Field(key: seq<byte>, doc: Doc, more: Fields)

  function Keying(key: seq<byte>): (s: seq<byte>)
  {
    [34] + key + [34, 58, 32]
  }

  function Comma(first: bool): (s: seq<byte>)
  {
    if first then [] else [44, 32]
  }

  function Written(d: Doc): (s: seq<byte>)
    ensures s != [] || d == Num([])
  {
    match d
    case Str(esc, _) => [34] + esc + [34]
    case Num(token) => token
    case Obj(fields) => [123] + WrittenFields(fields, true)
  }

  function WrittenFields(fs: Fields, first: bool): (s: seq<byte>)
  {
    match fs
    case Nil => [125]
    case Field(key, doc, more) => Comma(first) + (Keying(key) + (Written(doc) + WrittenFields(more, false)))
  }

  function Meaning(d: Doc): (v: Value)
  {
    match d
    case Str(_, value) => Text(value)
    case Num(token) => Number(token)
    case Obj(fields) => Object(MeaningOf(fields))
  }

  function MeaningOf(fs: Fields): (ms: seq<Member>)
  {
    match fs
    case Nil => []
    case Field(key, doc, more) => [Member(key, Meaning(doc))] + MeaningOf(more)
  }

  /** A string without anything that needs an escape. */
  predicate Plain(s: seq<byte>)
  {
    forall i | 0 <= i < |s| :: s[i] >= SPACE && s[i] != QUOTE && s[i] != BACKSLASH
  }

  ghost predicate Unescapes(esc: seq<byte>, value: seq<byte>)
  {
    forall rest :: StringBody(esc + [34] + rest) == Some(Parsed(value, rest))
  }

  ghost predicate Sound(d: Doc)
  {
    match d
    case Str(esc, value) => Unescapes(esc, value)
    case Num(token) => IsNumber(token)
    case Obj(fields) => AllSound(fields)
  }

  ghost predicate AllSound(fs: Fields)
  {
    match fs
    case Nil => true
    case Field(key, doc, more) => Plain(key) && Sound(doc) && AllSound(more)
  }

  // ---- reading what is written ----

  lemma {:induction false} PlainReads(s: seq<byte>, rest: seq<byte>)
    requires Plain(s)
    ensures StringBody(s + [QUOTE] + rest) == Some(Parsed(s, rest))
  {
    var t := s + [QUOTE] + rest;
    if s == [] {
      assert t[1..] == rest;
    } else {
      assert t[1..] == s[1..] + [QUOTE] + rest;
      PlainReads(s[1..], rest);
      assert [s[0]] + s[1..] == s;
    }
  }

  lemma PlainUnescapes(s: seq<byte>)
    requires Plain(s)
    ensures Unescapes(s, s)
  {
    forall rest
      ensures StringBody(s + [34] + rest) == Some(Parsed(s, rest))
    {
      PlainReads(s, rest);
    }
  }

  lemma OneSpace(v: seq<byte>)
    requires v != [] && !IsSpace(v[0])
    ensures SkipSpace(v) == v && SkipSpace([32] + v) == v
  {
    assert ([32] + v)[1..] == v;
  }

  lemma KeyReads(key: seq<byte>, v: seq<byte>)
    requires Plain(key) && v != [] && !IsSpace(v[0])
    ensures Keyed(Keying(key) + v) == Some(Parsed(key, v)) && (Keying(key) + v)[0] == 34
  {
    hide StringBody, SkipSpace;
    var s := Keying(key) + v;
    var behind := [58, 32] + v;
    assert s[1..] == key + [QUOTE] + behind;
    PlainReads(key, behind);
    assert behind[1..] == [32] + v;
    OneSpace(v);
    OneSpace(behind);
  }

  /** The next member, whatever its value is. */
  lemma MemberReads(key: seq<byte>, v: seq<byte>, first: bool)
    requires Plain(key) && v != [] && !IsSpace(v[0])
    ensures ReadMembers(Comma(first) + (Keying(key) + v), first)
         == match ReadValue(v)
            case None => None
            case Some(x) => Fronts([Member(key, x.value)], ReadMembers(x.rest, false))
  {
    hide SkipSpace, Keyed, Keying;
    var m := Keying(key) + v;
    KeyReads(key, v);
    OneSpace(m);
    if first {
      assert Comma(first) + m == m;
    } else {
      var s := Comma(first) + m;
      OneSpace(s);
      assert s[0] == 44 && s[1..] == [32] + m;
    }
  }

  lemma EndReads(rest: seq<byte>, first: bool)
    ensures ReadMembers([125] + rest, first) == Some(Members([], rest))
  {
    OneSpace([125] + rest);
    assert ([125] + rest)[1..] == rest;
  }

  /** What may stand behind a value. */
  predicate Ends(rest: seq<byte>)
  {
    rest == [] || !NumberChar(rest[0])
  }

  lemma FieldsStart(fs: Fields, rest: seq<byte>)
    ensures var s := WrittenFields(fs, false) + rest; s != [] && Ends(s)
  {
  }

  lemma WrittenStart(d: Doc, rest: seq<byte>)
    requires Sound(d)
    ensures var s := Written(d) + rest; s != [] && !IsSpace(s[0])
  {
    if d.Num? {
      NumberEnds(d.token, []);
      NumberChars(d.token, 0);
    }
  }

  lemma {:induction false} ValueReads(d: Doc, rest: seq<byte>)
    requires Sound(d) && Ends(rest)
    ensures ReadValue(Written(d) + rest) == Some(Read(Meaning(d), rest))
    decreases d, 0
  {
    hide StringBody, NumberRun, IsNumber;
    var s := Written(d) + rest;
    match d
    case Str(esc, value) =>
      assert s[1..] == esc + [34] + rest;
    case Num(token) =>
      NumberEnds(token, rest);
      NumberChars(token, 0);
      assert s[..|token|] == token && s[|token|..] == rest;
    case Obj(fields) =>
      assert s[1..] == WrittenFields(fields, true) + rest;
      FieldsRead(fields, true, rest);
  }

  lemma {:induction false} FieldsRead(fs: Fields, first: bool, rest: seq<byte>)
    requires AllSound(fs)
    ensures ReadMembers(WrittenFields(fs, first) + rest, first) == Some(Members(MeaningOf(fs), rest))
    decreases fs, 1
  {
    match fs
    case Nil => EndReads(rest, first);
    case Field(key, doc, more) => FieldStep(key, doc, more, first, rest);
      ValueReads(doc, WrittenFields(more, false) + rest);
      FieldsStart(more, rest);
      FieldsRead(more, false, rest);
  }

  lemma FieldStep(key: seq<byte>, doc: Doc, more: Fields, first: bool, rest: seq<byte>)
    requires Plain(key) && Sound(doc)
    ensures ReadMembers(WrittenFields(Field(key, doc, more), first) + rest, first)
         == match ReadValue(Written(doc) + (WrittenFields(more, false) + rest))
            case None => None
            case Some(x) => Fronts([Member(key, x.value)], ReadMembers(x.rest, false))
  {
    hide ReadMembers, ReadValue;
    var v := Written(doc) + (WrittenFields(more, false) + rest);
    WrittenStart(doc, WrittenFields(more, false) + rest);
    MemberReads(key, v, first);
    assert WrittenFields(Field(key, doc, more), first) + rest == Comma(first) + (Keying(key) + v);
  }

  /** Every object reads back as it was meant. */
  lemma LineReads(d: Doc)
    requires Sound(d)
    ensures ReadLine(Written(d)) == Some(Meaning(d))
  {
    hide ReadValue;
    WrittenStart(d, []);
    assert Written(d) + [] == Written(d);
    OneSpace(Written(d));
    ValueReads(d, []);
  }

  // ---- nothing else is read as a number ----

  ghost predicate TrueNumbers(v: Value)
  {
    match v
    case Text(_) => true
    case Number(token) => IsNumber(token)
    case Object(ms) => forall m | m in ms :: TrueNumbers(m.value)
  }

  lemma {:induction false} ReadsTrueNumbers(s: seq<byte>)
    ensures ReadValue(s).Some? ==> TrueNumbers(ReadValue(s).value.value)
    decreases |s|
  {
    hide StringBody, NumberRun, IsNumber;
    if s != [] {
      NumberRunIs(s);
      if s[0] == 123 { MembersHaveTrueNumbers(s[1..], true); }
    }
  }

  lemma {:induction false} MembersHaveTrueNumbers(s: seq<byte>, first: bool)
    ensures ReadMembers(s, first).Some? ==> forall m | m in ReadMembers(s, first).value.members :: TrueNumbers(m.value)
    decreases |s|
  {
    hide Keyed, SkipSpace, TrueNumbers, ReadValue;
    if ReadMembers(s, first).Some? {
      var t := SkipSpace(s);
      if t[0] != 125 {
        var k := Keyed(if first then t else SkipSpace(t[1..])).value;
        ReadsTrueNumbers(k.rest);
        MembersHaveTrueNumbers(ReadValue(k.rest).value.rest, false);
      }
    }
  }

  lemma LineHasTrueNumbers(line: seq<byte>)
    ensures ReadLine(line).Some? ==> TrueNumbers(ReadLine(line).value)
  {
    hide ReadValue, TrueNumbers;
    ReadsTrueNumbers(SkipSpace(line));
  }

  // ---- a broken value breaks every object around it ----

  /** Nothing is read of the object whose next member this is. */
  ghost predicate BreaksAt(doc: Doc, rest: seq<byte>)
  {
    var r := ReadValue(Written(doc) + rest);
    r == None || ReadMembers(r.value.rest, false) == None
  }

  lemma FieldBreaks(key: seq<byte>, doc: Doc, more: Fields, first: bool, rest: seq<byte>)
    requires Plain(key) && Written(doc) != [] && !IsSpace(Written(doc)[0])
    requires BreaksAt(doc, WrittenFields(more, false) + rest)
    ensures ReadMembers(WrittenFields(Field(key, doc, more), first) + rest, first) == None
  {
    hide ReadMembers, ReadValue;
    var v := Written(doc) + (WrittenFields(more, false) + rest);
    MemberReads(key, v, first);
    assert WrittenFields(Field(key, doc, more), first) + rest == Comma(first) + (Keying(key) + v);
  }

  /** Sound members in front do not help. */
  lemma BreaksBehind(key: seq<byte>, doc: Doc, more: Fields, first: bool, rest: seq<byte>)
    requires Plain(key) && Sound(doc) && ReadMembers(WrittenFields(more, false) + rest, false) == None
    ensures ReadMembers(WrittenFields(Field(key, doc, more), first) + rest, first) == None
  {
    hide ReadMembers, ReadValue;
    FieldStep(key, doc, more, first, rest);
    FieldsStart(more, rest);
    ValueReads(doc, WrittenFields(more, false) + rest);
  }

  lemma ObjectBreaks(fs: Fields, rest: seq<byte>)
    requires ReadMembers(WrittenFields(fs, true) + rest, true) == None
    ensures ReadValue(Written(Obj(fs)) + rest) == None && BreaksAt(Obj(fs), rest)
  {
    assert (Written(Obj(fs)) + rest)[1..] == WrittenFields(fs, true) + rest;
  }
}
