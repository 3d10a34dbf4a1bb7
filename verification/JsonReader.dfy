/** A reader of compact JSON, from the grammar of RFC 8259 alone, and what it makes of canonical text: the value
    itself, with the members of every object in key order. So equal text means equal value. */
module JsonReader {
  import opened Prelude
  import opened CanonicalJson

  /** What was read, and the text after it. */
  type Read<T> = Option<(T, Text)>

  // ---------- section 7: strings ----------

  function HexValue(c: CodeUnit): Option<nat> {
    if 48 <= c <= 57 then Some(c - 48)
    else if 97 <= c <= 102 then Some(c - 97 + 10)
    else if 65 <= c <= 70 then Some(c - 65 + 10)
    else None
  }

  function ReadHex4(t: Text): Option<CodeUnit> {
    if |t| < 4 || HexValue(t[0]).None? || HexValue(t[1]).None? || HexValue(t[2]).None? || HexValue(t[3]).None? then None
    else Some(HexValue(t[0]).value * 4096 + HexValue(t[1]).value * 256 + HexValue(t[2]).value * 16
              + HexValue(t[3]).value)
  }

  /** The two-character escapes: quotation mark, reverse solidus, solidus, and b, f, n, r, t. */
  function Escaped(c: CodeUnit): Option<CodeUnit> {
    if c == 34 || c == 92 || c == 47 then Some(c)
    else if c == 98 then Some(8)
    else if c == 102 then Some(12)
    else if c == 110 then Some(10)
    else if c == 114 then Some(13)
    else if c == 116 then Some(9)
    else None
  }

  /** One code unit of a string: anything but control characters, quotation mark and reverse solidus stands for
      itself. */
  function ReadUnit(t: Text): (r: Read<CodeUnit>)
    ensures r.Some? ==> |r.value.1| < |t| && r.value.1 == t[|t| - |r.value.1|..]
  {
    if t == [] || t[0] < 32 || t[0] == 34 then None
    else if t[0] != 92 then Some((t[0], t[1..]))
    else if |t| < 2 then None
    else if t[1] != 117 then (if Escaped(t[1]).Some? then Some((Escaped(t[1]).value, t[2..])) else None)
    else if ReadHex4(t[2..]).Some? then Some((ReadHex4(t[2..]).value, t[6..]))
    else None
  }

  /** The rest of a string, after its opening quotation mark. */
  function ReadString(t: Text): (r: Read<Text>)
    ensures r.Some? ==> |r.value.1| < |t|
    decreases |t|
  {
    if t == [] then None
    else if t[0] == 34 then Some(([], t[1..]))
    else
      match ReadUnit(t)
      case None => None
      case Some((c, more)) =>
        match ReadString(more)
        case None => None
        case Some((s, after)) => Some(([c] + s, after))
  }

  // ---------- section 6: numbers ----------

  function DigitRun(t: Text): (n: nat)
    ensures n <= |t| && (forall i | 0 <= i < n :: 48 <= t[i] <= 57) && (n < |t| ==> !(48 <= t[n] <= 57))
  {
    if t != [] && 48 <= t[0] <= 57 then 1 + DigitRun(t[1..]) else 0
  }

  function DecimalValue(t: Text): int {
    if t == [] then 0 else DecimalValue(t[..|t| - 1]) * 10 + (t[|t| - 1] as int - 48)
  }

  /** Digits without leading zeros. A fraction or an exponent makes another kind of number, which is not read. */
  function ReadMagnitude(digits: Text): (r: Read<int>)
    ensures r.Some? ==> |r.value.1| < |digits|
  {
    var n := DigitRun(digits);
    if n == 0 || (n > 1 && digits[0] == 48) || (n < |digits| && digits[n] in {46, 69, 101}) then None
    else Some((DecimalValue(digits[..n]), digits[n..]))
  }

  function ReadInteger(t: Text): (r: Read<int>)
    ensures r.Some? ==> |r.value.1| < |t|
  {
    if t == [] || t[0] != 45 then ReadMagnitude(t)
    else
      match ReadMagnitude(t[1..])
      case None => None
      case Some((n, after)) => Some((-n, after))
  }

  // ---------- sections 3 to 5: values, objects, arrays ----------

  const NULL: Text := Ascii("null")
  const TRUE: Text := Ascii("true")
  const FALSE: Text := Ascii("false")

  function ReadValue(t: Text): (r: Read<Json>)
    ensures r.Some? ==> |r.value.1| < |t|
    decreases |t|, 0
  {
    if t == [] then None
    else if t[0] == 34 then
      match ReadString(t[1..])
      case None => None
      case Some((s, after)) => Some((JString(s), after))
    else if t[0] == 91 then
      if |t| > 1 && t[1] == 93 then Some((JArray([]), t[2..]))
      else
        match ReadItems(t[1..])
        case None => None
        case Some((items, after)) => Some((JArray(items), after))
    else if t[0] == 123 then
      if |t| > 1 && t[1] == 125 then Some((JObject([]), t[2..]))
      else
        match ReadMembers(t[1..])
        case None => None
        case Some((members, after)) => Some((JObject(members), after))
    else if NULL <= t then Some((JNull, t[4..]))
    else if TRUE <= t then Some((JBool(true), t[4..]))
    else if FALSE <= t then Some((JBool(false), t[5..]))
    else
      match ReadInteger(t)
      case None => None
      case Some((n, after)) => Some((JNumber(n), after))
  }

  /** One or more values, separated by commas, and the closing bracket. */
  function ReadItems(t: Text): (r: Read<seq<Json>>)
    ensures r.Some? ==> |r.value.1| < |t|
    decreases |t|, 1
  {
    match ReadValue(t)
    case None => None
    case Some((v, after)) =>
      if after == [] then None
      else if after[0] == 93 then Some(([v], after[1..]))
      else if after[0] == 44 then
        match ReadItems(after[1..])
        case None => None
        case Some((vs, end)) => Some(([v] + vs, end))
      else None
  }

  /** A string, a colon and a value. */
  function ReadMember(t: Text): (r: Read<Member>)
    ensures r.Some? ==> |r.value.1| < |t|
    decreases |t|, 0
  {
    if t == [] || t[0] != 34 then None
    else
      match ReadString(t[1..])
      case None => None
      case Some((key, after)) =>
        if after == [] || after[0] != 58 then None
        else
          match ReadValue(after[1..])
          case None => None
          case Some((v, end)) => Some((Member(key, v), end))
  }

  /** One or more members, separated by commas, and the closing brace. */
  function ReadMembers(t: Text): (r: Read<seq<Member>>)
    ensures r.Some? ==> |r.value.1| < |t|
    decreases |t|, 1
  {
    match ReadMember(t)
    case None => None
    case Some((m, after)) =>
      if after == [] then None
      else if after[0] == 125 then Some(([m], after[1..]))
      else if after[0] == 44 then
        match ReadMembers(after[1..])
        case None => None
        case Some((ms, end)) => Some(([m] + ms, end))
      else None
  }

  // ---------- strings are read back ----------

  lemma HexRead(d: nat)
    requires d < 16
    ensures HexValue(Hex(d)) == Some(d)
  {
  }

  lemma HexDigits(c: CodeUnit)
    ensures c == 4096 * (c / 4096) + 256 * (c / 256 % 16) + 16 * (c / 16 % 16) + c % 16
  {
    assert c / 256 == 16 * (c / 4096) + c / 256 % 16;
    assert c / 16 == 16 * (c / 256) + c / 16 % 16;
  }

  lemma Hex4Read(c: CodeUnit, s: Text)
    ensures ReadHex4(Hex4(c) + s) == Some(c)
  {
    hide HexValue, Hex;
    HexRead(c / 4096);
    HexRead(c / 256 % 16);
    HexRead(c / 16 % 16);
    HexRead(c % 16);
    HexDigits(c);
  }

  lemma UnitRead(c: CodeUnit, s: Text)
    ensures ReadUnit(EscapeUnit(c) + s) == Some((c, s))
  {
    hide ReadHex4, Hex4;
    var t := EscapeUnit(c) + s;
    if |EscapeUnit(c)| == 1 {
      assert t[1..] == s;
    } else if t[1] != 117 {
      assert t[2..] == s;
    } else {
      Hex4Read(c, s);
      assert t[2..] == Hex4(c) + s && t[6..] == s;
    }
  }

  /** A code unit that stands for itself. */
  lemma PlainRead(c: CodeUnit, s: Text)
    requires c >= 32 && c != 34 && c != 92
    ensures ReadUnit([c] + s) == Some((c, s))
  {
    assert ([c] + s)[1..] == s;
  }

  /** The rest of a string literal whose content still to come is x, followed by s. */
  function Literal(x: Text, s: Text): Text {
    Escape(x) + ([34] + s)
  }

  lemma LiteralUnfold(x: Text, s: Text)
    ensures x == [] ==> Literal(x, s) == [34] + s
    ensures StartsWithPair(x) ==> Literal(x, s) == [x[0]] + ([x[1]] + Literal(x[2..], s))
    ensures x != [] && !StartsWithPair(x) ==> Literal(x, s) == EscapeUnit(x[0]) + Literal(x[1..], s)
  {
    hide EscapeUnit, StartsWithPair;
    PairParts(x);
    if x == [] {
      assert Literal(x, s) == [34] + s;
    } else if StartsWithPair(x) {
      PairRegroup(x[0], x[1], Escape(x[2..]), [34] + s);
    } else {
      UnitRegroup(EscapeUnit(x[0]), Escape(x[1..]), [34] + s);
    }
  }

  lemma PairParts(x: Text)
    ensures StartsWithPair(x) ==> |x| >= 2 && x[..2] == [x[0]] + [x[1]]
  {
  }

  lemma PairRegroup(c: CodeUnit, d: CodeUnit, e: Text, s: Text)
    ensures [c] + [d] + e + s == [c] + ([d] + (e + s))
  {
  }

  lemma UnitRegroup(u: Text, e: Text, s: Text)
    ensures u + e + s == u + (e + s)
  {
  }

  lemma StringStep(t: Text, c: CodeUnit, more: Text, s: Text, after: Text)
    requires ReadUnit(t) == Some((c, more)) && ReadString(more) == Some((s, after))
    ensures ReadString(t) == Some(([c] + s, after))
  {
    hide ReadHex4;
  }

  lemma {:induction false} LiteralRead(x: Text, s: Text)
    ensures ReadString(Literal(x, s)) == Some((x, s))
    decreases |x|
  {
    LiteralUnfold(x, s);
    hide ReadUnit, EscapeUnit, Literal;
    if x == [] {
      assert ([34] + s)[1..] == s;
    } else if StartsWithPair(x) {
      hide ReadString;
      LiteralRead(x[2..], s);
      PlainRead(x[0], [x[1]] + Literal(x[2..], s));
      PlainRead(x[1], Literal(x[2..], s));
      StringStep([x[1]] + Literal(x[2..], s), x[1], Literal(x[2..], s), x[2..], s);
      StringStep(Literal(x, s), x[0], [x[1]] + Literal(x[2..], s), [x[1]] + x[2..], s);
      assert x == [x[0]] + ([x[1]] + x[2..]);
    } else {
      hide ReadString;
      LiteralRead(x[1..], s);
      UnitRead(x[0], Literal(x[1..], s));
      StringStep(Literal(x, s), x[0], Literal(x[1..], s), x[1..], s);
      assert x == [x[0]] + x[1..];
    }
  }

  /** An escaped literal can be read back in only one way, whatever follows it. */
  lemma LiteralReadable(x: Text, y: Text, s: Text, t: Text)
    requires Literal(x, s) == Literal(y, t)
    ensures x == y && s == t
  {
    LiteralRead(x, s);
    LiteralRead(y, t);
  }

  // ---------- integers are read back ----------

  /** What may follow a value inside canonical text: a comma, a closing bracket or brace, or nothing. */
  predicate Stops(s: Text) {
    s == [] || s[0] == 44 || s[0] == 93 || s[0] == 125
  }

  lemma {:induction false} DecimalRead(n: nat)
    ensures forall i | 0 <= i < |Decimal(n)| :: 48 <= Decimal(n)[i] <= 57
    ensures DecimalValue(Decimal(n)) == n
    ensures Decimal(n)[0] == 48 ==> n == 0 && |Decimal(n)| == 1
    decreases n
  {
    if n >= 10 {
      DecimalRead(n / 10);
      assert Decimal(n)[..|Decimal(n)| - 1] == Decimal(n / 10);
      assert Decimal(n)[0] == Decimal(n / 10)[0];
    } else {
      assert Decimal(n)[..0] == [];
    }
  }

  lemma RunUnique(t: Text, n: nat)
    requires n <= |t| && (forall i | 0 <= i < n :: 48 <= t[i] <= 57) && (n < |t| ==> !(48 <= t[n] <= 57))
    ensures DigitRun(t) == n
  {
  }

  lemma MagnitudeRead(n: nat, s: Text)
    requires Stops(s)
    ensures ReadMagnitude(Decimal(n) + s) == Some((n, s))
  {
    DecimalRead(n);
    hide Decimal, DecimalValue, DigitRun;
    var d := Decimal(n);
    var digits := d + s;
    RunUnique(digits, |d|);
    assert digits[..|d|] == d && digits[|d|..] == s && digits[0] == d[0];
  }

  lemma IntegerRead(n: int, s: Text)
    requires Stops(s)
    ensures ReadInteger(Integer(n) + s) == Some((n, s))
  {
    hide Decimal, ReadMagnitude;
    MagnitudeRead(if n < 0 then -n else n, s);
    if n < 0 {
      SignedText(n, s);
    }
  }

  lemma SignedText(n: int, s: Text)
    requires n < 0
    ensures Integer(n) + s == [45] + (Decimal(-n) + s) && ([45] + (Decimal(-n) + s))[1..] == Decimal(-n) + s
  {
  }

  // ---------- values are read back ----------

  /** The value with the members of every object in key order. */
  function Sorted(v: Json): (r: Json)
    decreases ValueSize(v)
  {
    match v
    case JArray(items) => JArray(SortedItems(items))
    case JObject(members) => JObject(SortedMembers(SortMembers(members)))
    case _ => v
  }

  function SortedItems(items: seq<Json>): (r: seq<Json>)
    ensures |r| == |items|
    decreases ItemsSize(items)
  {
    if items == [] then [] else [Sorted(items[0])] + SortedItems(items[1..])
  }

  function SortedMembers(ms: seq<Member>): (r: seq<Member>)
    ensures |r| == |ms|
    decreases MembersSize(ms)
  {
    if ms == [] then [] else [Member(ms[0].key, Sorted(ms[0].value))] + SortedMembers(ms[1..])
  }

  /** The rest of an array literal, and of an object literal, followed by s. */
  function ArrayRest(xs: seq<Json>, s: Text): Text {
    JoinItems(xs) + ([93] + s)
  }

  function ObjectRest(ms: seq<Member>, s: Text): Text {
    JoinMembers(ms) + ([125] + s)
  }

  function AfterItem(xs: seq<Json>, s: Text): Text
    requires xs != []
  {
    if |xs| == 1 then [93] + s else [44] + ArrayRest(xs[1..], s)
  }

  function AfterMember(ms: seq<Member>, s: Text): Text
    requires ms != []
  {
    if |ms| == 1 then [125] + s else [44] + ObjectRest(ms[1..], s)
  }

  lemma Regroup(a: Text, b: Text, c: Text, d: Text)
    ensures a + (b + c) + d == a + (b + (c + d))
  {
  }

  lemma ArrayUnfold(xs: seq<Json>, s: Text)
    requires xs != []
    ensures ArrayRest(xs, s) == Canonical(xs[0]) + AfterItem(xs, s)
  {
    if |xs| > 1 {
      Regroup(Canonical(xs[0]), [44], JoinItems(xs[1..]), [93] + s);
    }
  }

  /** The text of one member: its key, a colon, its value. */
  function MemberText(m: Member): Text {
    Quote(m.key) + ([58] + Canonical(m.value))
  }

  lemma ObjectUnfold(ms: seq<Member>, s: Text)
    requires ms != []
    ensures ObjectRest(ms, s) == MemberText(ms[0]) + AfterMember(ms, s)
  {
    var k, v := Quote(ms[0].key), Canonical(ms[0].value);
    if |ms| == 1 {
      MemberRegroup(k, v, [], [125] + s);
    } else {
      MemberRegroup(k, v, [44] + JoinMembers(ms[1..]), [125] + s);
      assert [44] + JoinMembers(ms[1..]) + ([125] + s) == [44] + ObjectRest(ms[1..], s);
    }
  }

  lemma MemberRegroup(k: Text, v: Text, c: Text, d: Text)
    ensures k + [58] + v + c + d == k + ([58] + v) + (c + d)
  {
  }

  /** The first code unit of canonical text tells the kind of value, and no two kinds share it. */
  lemma HeadTellsKind(v: Json)
    ensures |Canonical(v)| > 0
    ensures var c := Canonical(v)[0];
      match v
      case JNull => c == 110
      case JBool(b) => c == if b then 116 else 102
      case JNumber(_) => c == 45 || IsDigit(c)
      case JString(_) => c == 34
      case JArray(_) => c == 91
      case JObject(_) => c == 123
  {
  }

  lemma ConstantTexts()
    ensures NULL == [110, 117, 108, 108] && TRUE == [116, 114, 117, 101] && FALSE == [102, 97, 108, 115, 101]
  {
  }

  lemma ConstantHeads(t: Text)
    requires t != []
    ensures NULL <= t ==> t[0] == 110
    ensures TRUE <= t ==> t[0] == 116
    ensures FALSE <= t ==> t[0] == 102
  {
    ConstantTexts();
    if NULL <= t { assert t[0] == NULL[0]; }
    if TRUE <= t { assert t[0] == TRUE[0]; }
    if FALSE <= t { assert t[0] == FALSE[0]; }
  }

  lemma ConstantRead(v: Json, s: Text)
    requires v.JNull? || v.JBool?
    ensures ReadValue(Canonical(v) + s) == Some((v, s))
  {
    hide ReadItems, ReadMembers, ReadString, ReadInteger;
    ConstantTexts();
    var c := Canonical(v);
    var t := c + s;
    assert t[..|c|] == c && t[|c|..] == s;
    ConstantHeads(t);
  }

  lemma NumberRead(n: int, s: Text)
    requires Stops(s)
    ensures ReadValue(Canonical(JNumber(n)) + s) == Some((JNumber(n), s))
  {
    HeadTellsKind(JNumber(n));
    hide ReadItems, ReadMembers, ReadString, ReadInteger, Integer;
    ConstantTexts();
    IntegerRead(n, s);
    var t := Integer(n) + s;
    assert t[0] == Integer(n)[0];
    ConstantHeads(t);
  }

  lemma StringRead(x: Text, s: Text)
    ensures ReadValue(Canonical(JString(x)) + s) == Some((JString(x), s))
  {
    hide ReadItems, ReadMembers, ReadString, ReadInteger, Escape;
    LiteralRead(x, s);
    assert Quote(x) + s == [34] + Literal(x, s);
    assert ([34] + Literal(x, s))[1..] == Literal(x, s);
  }

  /** Reading canonical text, whatever follows it, gives the value in key order and the text after it. */
  lemma {:induction false} ValueRead(v: Json, s: Text)
    requires Stops(s)
    ensures ReadValue(Canonical(v) + s) == Some((Sorted(v), s))
    decreases ValueSize(v), 2
  {
    match v {
      case JNumber(n) => NumberRead(n, s);
      case JString(x) => StringRead(x, s);
      case JArray(items) => ArrayRead(items, s);
      case JObject(members) => ObjectRead(members, s);
      case _ => ConstantRead(v, s);
    }
  }

  lemma {:induction false} ArrayRead(xs: seq<Json>, s: Text)
    ensures ReadValue(Canonical(JArray(xs)) + s) == Some((Sorted(JArray(xs)), s))
    decreases ItemsSize(xs), 1
  {
    hide ReadItems, ReadMembers, ReadString, ReadInteger, JoinItems;
    var t := Canonical(JArray(xs)) + s;
    if xs == [] {
      NoItems();
      assert t == [91, 93] + s && t[2..] == s;
    } else {
      assert t == [91] + ArrayRest(xs, s) && t[1..] == ArrayRest(xs, s);
      ItemsRead(xs, s);
      ArrayHead(xs, s);
    }
  }

  lemma NoItems()
    ensures JoinItems([]) == [] && JoinMembers([]) == []
  {
  }

  lemma ArrayHead(xs: seq<Json>, s: Text)
    requires xs != []
    ensures |ArrayRest(xs, s)| > 0 && ArrayRest(xs, s)[0] != 93
  {
    HeadTellsKind(xs[0]);
    hide Canonical, ArrayRest;
    ArrayUnfold(xs, s);
  }

  lemma {:induction false} ItemsRead(xs: seq<Json>, s: Text)
    requires xs != []
    ensures ReadItems(ArrayRest(xs, s)) == Some((SortedItems(xs), s))
    decreases ItemsSize(xs), 0
  {
    hide Canonical, ReadValue, ArrayRest, Sorted;
    var after := AfterItem(xs, s);
    ArrayUnfold(xs, s);
    ValueRead(xs[0], after);
    if |xs| == 1 {
      assert after[1..] == s && SortedItems(xs) == [Sorted(xs[0])];
    } else {
      ItemsRead(xs[1..], s);
      assert after[1..] == ArrayRest(xs[1..], s);
    }
  }

  lemma {:induction false} ObjectRead(ms: seq<Member>, s: Text)
    ensures ReadValue(Canonical(JObject(ms)) + s) == Some((Sorted(JObject(ms)), s))
    decreases MembersSize(ms), 2
  {
    hide ReadItems, ReadMembers, ReadString, ReadInteger, JoinMembers;
    var ps, t := SortMembers(ms), Canonical(JObject(ms)) + s;
    if ps == [] {
      NoItems();
      assert t == [123, 125] + s && t[2..] == s;
    } else {
      assert t == [123] + ObjectRest(ps, s) && t[1..] == ObjectRest(ps, s);
      MembersRead(ps, s);
      ObjectHead(ps, s);
    }
  }

  lemma ObjectHead(ms: seq<Member>, s: Text)
    requires ms != []
    ensures |ObjectRest(ms, s)| > 0 && ObjectRest(ms, s)[0] == 34
  {
    hide Canonical, ObjectRest;
    ObjectUnfold(ms, s);
  }

  lemma {:induction false} MemberRead(m: Member, s: Text)
    requires Stops(s)
    ensures ReadMember(MemberText(m) + s) == Some((Member(m.key, Sorted(m.value)), s))
    decreases ValueSize(m.value), 3
  {
    hide Canonical, ReadValue, ReadString, Sorted, Escape;
    var value := Canonical(m.value) + s;
    assert MemberText(m) + s == [34] + Literal(m.key, [58] + value);
    assert ([34] + Literal(m.key, [58] + value))[1..] == Literal(m.key, [58] + value);
    LiteralRead(m.key, [58] + value);
    assert ([58] + value)[1..] == value;
    ValueRead(m.value, s);
  }

  lemma {:induction false} MembersRead(ms: seq<Member>, s: Text)
    requires ms != []
    ensures ReadMembers(ObjectRest(ms, s)) == Some((SortedMembers(ms), s))
    decreases MembersSize(ms), 1
  {
    hide ReadMember, ObjectRest, Sorted, MemberText;
    var after := AfterMember(ms, s);
    ObjectUnfold(ms, s);
    MemberRead(ms[0], after);
    if |ms| == 1 {
      assert after[1..] == s && SortedMembers(ms) == [Member(ms[0].key, Sorted(ms[0].value))];
    } else {
      MembersRead(ms[1..], s);
      assert after[1..] == ObjectRest(ms[1..], s);
    }
  }

  // ---------- what is read is the value, in key order ----------

  /** In every object, keys follow the order of their first differing code unit. */
  ghost predicate InOrder(v: Json) {
    match v
    case JArray(items) => forall x | x in items :: InOrder(x)
    case JObject(ms) => KeysInOrder(ms) && forall m | m in ms :: InOrder(m.value)
    case _ => true
  }

  ghost predicate KeysInOrder(ms: seq<Member>) {
    forall i, j | 0 <= i < j < |ms| :: FirstDiffers(ms[i].key, ms[j].key)
  }

  lemma {:induction false} ItemsAt(items: seq<Json>, i: nat)
    requires i < |items|
    ensures SortedItems(items)[i] == Sorted(items[i]) && ValueSize(items[i]) < ItemsSize(items)
    decreases i
  {
    hide Sorted, ValueSize;
    if i > 0 { ItemsAt(items[1..], i - 1); }
  }

  lemma {:induction false} MembersAt(ms: seq<Member>, i: nat)
    requires i < |ms|
    ensures SortedMembers(ms)[i] == Member(ms[i].key, Sorted(ms[i].value))
    ensures ValueSize(ms[i].value) < MembersSize(ms)
    decreases i
  {
    hide Sorted, ValueSize;
    if i > 0 { MembersAt(ms[1..], i - 1); }
  }

  lemma {:induction false} SortedIsSame(v: Json)
    ensures Same(v, Sorted(v))
    decreases ValueSize(v)
  {
    match v {
      case JArray(items) =>
        forall i | 0 <= i < |items| ensures Same(items[i], SortedItems(items)[i]) {
          ItemsAt(items, i);
          SortedIsSame(items[i]);
        }
      case JObject(ms) =>
        var ps := SortMembers(ms);
        forall m | m in ms
          ensures exists n | n in SortedMembers(ps) :: m.key == n.key && Same(m.value, n.value)
        {
          assert m in ps;
          var i :| 0 <= i < |ps| && ps[i] == m;
          MembersAt(ps, i);
          SortedIsSame(m.value);
          assert SortedMembers(ps)[i] in SortedMembers(ps);
        }
      case _ =>
    }
  }

  lemma {:induction false} SortedEqualSame(a: Json, b: Json)
    requires Sorted(a) == Sorted(b)
    ensures Same(a, b)
    decreases ValueSize(a)
  {
    match a {
      case JArray(items) =>
        forall i | 0 <= i < |items| ensures Same(items[i], b.items[i]) {
          ItemsAt(items, i);
          ItemsAt(b.items, i);
          SortedEqualSame(items[i], b.items[i]);
        }
      case JObject(ms) =>
        var ps, qs := SortMembers(ms), SortMembers(b.members);
        assert |SortedMembers(ps)| == |SortedMembers(qs)|;
        forall m | m in ms
          ensures exists n | n in b.members :: m.key == n.key && Same(m.value, n.value)
        {
          assert m in ps;
          var i :| 0 <= i < |ps| && ps[i] == m;
          MembersAt(ps, i);
          MembersAt(qs, i);
          SortedEqualSame(m.value, qs[i].value);
          assert qs[i] in b.members;
        }
      case _ =>
    }
  }

  lemma SortedKeysInOrder(ms: seq<Member>)
    requires DistinctKeys(ms)
    ensures KeysInOrder(SortedMembers(SortMembers(ms)))
  {
    hide SortMembers, SortedMembers, Sorted, FirstDiffers, Before;
    var ps := SortMembers(ms);
    var qs := SortedMembers(ps);
    SortAscending(ms);
    forall i, j | 0 <= i < j < |qs| ensures FirstDiffers(qs[i].key, qs[j].key) {
      MembersAt(ps, i);
      MembersAt(ps, j);
      BeforeExact(ps[i].key, ps[j].key);
    }
  }

  lemma {:induction false} SortedInOrder(v: Json)
    requires WellFormed(v)
    ensures InOrder(Sorted(v))
    decreases ValueSize(v)
  {
    hide FirstDiffers;
    match v {
      case JArray(items) =>
        forall x | x in SortedItems(items) ensures InOrder(x) {
          var i :| 0 <= i < |items| && SortedItems(items)[i] == x;
          ItemsAt(items, i);
          SortedInOrder(items[i]);
        }
      case JObject(ms) =>
        var ps := SortMembers(ms);
        SortedKeysInOrder(ms);
        hide KeysInOrder;
        forall m | m in SortedMembers(ps) ensures InOrder(m.value) {
          var i :| 0 <= i < |ps| && SortedMembers(ps)[i] == m;
          MembersAt(ps, i);
          assert ps[i] in ms;
          SortedInOrder(ps[i].value);
        }
      case _ =>
    }
  }

  /** Canonical text is JSON: reading it gives the value, with every object's members in key order. */
  lemma CanonicalRead(v: Json)
    requires WellFormed(v)
    ensures ReadValue(Canonical(v)) == Some((Sorted(v), []))
    ensures Same(v, Sorted(v)) && InOrder(Sorted(v))
  {
    ValueRead(v, []);
    assert Canonical(v) + [] == Canonical(v);
    SortedIsSame(v);
    SortedInOrder(v);
  }

  lemma ValueReadable(a: Json, b: Json)
    requires Canonical(a) == Canonical(b)
    ensures Same(a, b)
  {
    ValueRead(a, []);
    ValueRead(b, []);
    assert Canonical(a) + [] == Canonical(b) + [];
    SortedEqualSame(a, b);
  }

  /** Two values have the same canonical text exactly when they are equal up to member order. */
  lemma CanonicalExact(a: Json, b: Json)
    requires WellFormed(a) && WellFormed(b)
    ensures Canonical(a) == Canonical(b) <==> Same(a, b)
  {
    if Canonical(a) == Canonical(b) { ValueReadable(a, b); }
    if Same(a, b) { SameCanonical(a, b); }
  }

  // ---------- the shortest literal ----------

  predicate IsSurrogate(c: CodeUnit) {
    IsHigh(c) || IsLow(c)
  }

  /** UTF-16 without unpaired surrogates. */
  predicate WellPaired(t: Text) {
    if t == [] then true
    else if StartsWithPair(t) then WellPaired(t[2..])
    else !IsSurrogate(t[0]) && WellPaired(t[1..])
  }

  lemma {:induction false} PairedConcat(a: Text, b: Text)
    requires WellPaired(a) && WellPaired(b)
    ensures WellPaired(a + b)
    decreases |a|
  {
    if a == [] {
      assert a + b == b;
    } else if StartsWithPair(a) {
      PairedConcat(a[2..], b);
      assert (a + b)[2..] == a[2..] + b;
    } else {
      PairedConcat(a[1..], b);
      assert (a + b)[1..] == a[1..] + b;
    }
  }

  lemma {:induction false} PlainPaired(t: Text)
    requires forall i | 0 <= i < |t| :: !IsSurrogate(t[i])
    ensures WellPaired(t)
    decreases |t|
  {
    if t != [] { PlainPaired(t[1..]); }
  }

  lemma {:induction false} EscapePaired(s: Text)
    ensures WellPaired(Escape(s))
    decreases |s|
  {
    if s != [] {
      if StartsWithPair(s) {
        EscapePaired(s[2..]);
        assert s[..2][2..] == [];
        PairedConcat(s[..2], Escape(s[2..]));
      } else {
        EscapePaired(s[1..]);
        PlainPaired(EscapeUnit(s[0]));
        PairedConcat(EscapeUnit(s[0]), Escape(s[1..]));
      }
    }
  }

  lemma PairedTail(t: Text)
    requires WellPaired(t) && t != [] && !IsSurrogate(t[0])
    ensures WellPaired(t[1..])
  {
  }

  lemma HexPlain(t: Text)
    requires ReadHex4(t).Some?
    ensures |t| >= 4
    ensures !IsSurrogate(t[0]) && !IsSurrogate(t[1]) && !IsSurrogate(t[2]) && !IsSurrogate(t[3])
  {
  }

  lemma HexPaired(t: Text)
    requires ReadHex4(t).Some? && WellPaired(t)
    ensures |t| >= 4 && WellPaired(t[4..])
  {
    HexPlain(t);
    hide WellPaired, ReadHex4, IsSurrogate;
    assert t[1..][1..] == t[2..] && t[2..][1..] == t[3..] && t[3..][1..] == t[4..];
    PairedTail(t);
    PairedTail(t[1..]);
    PairedTail(t[2..]);
    PairedTail(t[3..]);
  }

  lemma TwoPaired(t: Text)
    requires WellPaired(t) && |t| >= 2 && t[0] == 92 && !IsSurrogate(t[1])
    ensures WellPaired(t[2..])
  {
    PairedTail(t);
    PairedTail(t[1..]);
    assert t[1..][1..] == t[2..];
  }

  lemma PlainSize(c: CodeUnit)
    requires c >= 32 && c != 34 && c != 92 && !IsSurrogate(c)
    ensures |EscapeUnit(c)| == 1
  {
  }

  lemma EscapedSize(c: CodeUnit)
    requires Escaped(c).Some?
    ensures |EscapeUnit(Escaped(c).value)| <= 2 && !IsSurrogate(Escaped(c).value) && !IsSurrogate(c)
  {
  }

  lemma LargestSize(c: CodeUnit)
    ensures |EscapeUnit(c)| <= 6
  {
  }

  lemma UnitParts(t: Text)
    requires ReadUnit(t).Some?
    ensures t[0] != 92 ==> ReadUnit(t).value == (t[0], t[1..]) && t[0] >= 32 && t[0] != 34
    ensures t[0] == 92 ==> |t| >= 2
    ensures t[0] == 92 && t[1] != 117 ==> Escaped(t[1]).Some? && ReadUnit(t).value == (Escaped(t[1]).value, t[2..])
    ensures t[0] == 92 && t[1] == 117 ==> |t| >= 6 && ReadHex4(t[2..]).Some? && ReadUnit(t).value.1 == t[6..]
  {
    hide Escaped, HexValue;
  }

  /** A unit's own escape is no longer than what it was read from, unless it is a raw surrogate. */
  lemma ShortestUnit(t: Text)
    requires ReadUnit(t).Some? && !IsSurrogate(t[0]) && WellPaired(t)
    ensures var (c, more) := ReadUnit(t).value;
      && |EscapeUnit(c)| + |more| <= |t| && WellPaired(more)
      && (IsSurrogate(c) ==> 6 + |more| <= |t|)
  {
    UnitParts(t);
    LargestSize(ReadUnit(t).value.0);
    hide ReadUnit, ReadHex4, WellPaired, EscapeUnit, Escaped, IsSurrogate;
    if t[0] != 92 {
      PlainSize(t[0]);
      PairedTail(t);
    } else if t[1] != 117 {
      EscapedSize(t[1]);
      TwoPaired(t);
    } else {
      UnicodePaired(t);
    }
  }

  lemma UnicodePaired(t: Text)
    requires WellPaired(t) && |t| >= 6 && t[0] == 92 && t[1] == 117 && ReadHex4(t[2..]).Some?
    ensures WellPaired(t[6..])
  {
    hide WellPaired, ReadHex4;
    TwoPaired(t);
    HexPaired(t[2..]);
    assert t[2..][4..] == t[6..];
  }

  /** No well-formed literal that reads as the string is shorter than the canonical one: it escapes nothing it need
      not, and what it must in the shortest way. */
  lemma {:induction false} ShortestLiteral(s: Text, t: Text, after: Text)
    requires ReadString(t) == Some((s, after)) && WellPaired(t)
    ensures |Literal(s, after)| <= |t|
    decreases |t|
  {
    LiteralUnfold(s, after);
    hide Literal, ReadHex4;
    if s == [] {
      assert |Literal(s, after)| == 1 + |after|;
    } else {
      hide EscapeUnit;
      var (c, more) := ReadUnit(t).value;
      assert s == [c] + ReadString(more).value.0 && s[1..] == ReadString(more).value.0;
      if StartsWithPair(t) {
        assert more == t[1..] && more[1..] == t[2..] && s[1] == t[1] && s[2..] == s[1..][1..];
        ShortestLiteral(s[2..], t[2..], after);
      } else {
        ShortestUnit(t);
        ShortestLiteral(s[1..], more, after);
        if StartsWithPair(s) {
          LiteralUnfold(s[1..], after);
          assert s[1..][1..] == s[2..];
        }
      }
    }
  }
}
