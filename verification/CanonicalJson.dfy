/** `canonical` of broker-capture.ts: the text two captures are compared and hashed by. Values that are equal up
    to the order of object members have the same text. */
module CanonicalJson {
  import opened Prelude

  datatype Json =
    | JNull
    | JBool(b: bool)
    | JNumber(n: int)
    | JString(s: Text)
    | JArray(items: seq<Json>)
    | JObject(members: seq<Member>)

  datatype Member = Member(key: Text, value: Json)

  // ---------- printing ----------

  function Digit(d: nat): CodeUnit
    requires d < 10
  {
    48 + d
  }

  function Decimal(n: nat): (t: Text)
    ensures |t| > 0
    ensures forall i :: 0 <= i < |t| ==> IsDigit(t[i])
  {
    if n < 10 then [Digit(n)] else Decimal(n / 10) + [Digit(n % 10)]
  }

  function Integer(n: int): (t: Text)
    ensures |t| > 0
    ensures t[0] == 45 <==> n < 0
    ensures n >= 0 ==> IsDigit(t[0])
  {
    if n < 0 then [45] + Decimal(-n) else Decimal(n)
  }

  predicate IsDigit(c: CodeUnit) {
    48 <= c <= 57
  }

  function Hex(d: nat): CodeUnit
    requires d < 16
  {
    if d < 10 then 48 + d else 87 + d
  }

  function Hex4(c: CodeUnit): (t: Text)
    ensures |t| == 4 && forall i | 0 <= i < 4 :: IsDigit(t[i]) || 97 <= t[i] <= 102
  {
    [Hex(c / 4096), Hex(c / 256 % 16), Hex(c / 16 % 16), Hex(c % 16)]
  }

  predicate IsHigh(c: CodeUnit) {
    0xD800 <= c < 0xDC00
  }

  predicate IsLow(c: CodeUnit) {
    0xDC00 <= c < 0xE000
  }

  predicate StartsWithPair(s: Text) {
    |s| >= 2 && IsHigh(s[0]) && IsLow(s[1])
  }

  /** One code unit that is not part of a surrogate pair, as JSON.stringify writes it. */
  function EscapeUnit(c: CodeUnit): (t: Text)
    ensures |t| > 0 && t[0] != 34
  {
    if c == 34 || c == 92 then [92, c]
    else if c == 8 then [92, 98]
    else if c == 9 then [92, 116]
    else if c == 10 then [92, 110]
    else if c == 12 then [92, 102]
    else if c == 13 then [92, 114]
    else if c < 32 || IsHigh(c) || IsLow(c) then [92, 117] + Hex4(c)
    else [c]
  }

  function Escape(s: Text): Text {
    if s == [] then []
    else if StartsWithPair(s) then s[..2] + Escape(s[2..])
    else EscapeUnit(s[0]) + Escape(s[1..])
  }

  function Quote(s: Text): Text {
    [34] + Escape(s) + [34]
  }

  /** JavaScript's string order, by code unit. */
  predicate Before(a: Text, b: Text) {
    b != [] && (a == [] || a[0] < b[0] || (a[0] == b[0] && Before(a[1..], b[1..])))
  }

  function InsertMember(m: Member, ms: seq<Member>): (r: seq<Member>)
    ensures |r| == |ms| + 1
    ensures MembersSize(r) == ValueSize(m.value) + 1 + MembersSize(ms)
    ensures forall x :: x in r <==> x == m || x in ms
  {
    if ms == [] || Before(m.key, ms[0].key) then [m] + ms
    else [ms[0]] + InsertMember(m, ms[1..])
  }

  function SortMembers(ms: seq<Member>): (r: seq<Member>)
    ensures |r| == |ms|
    ensures MembersSize(r) == MembersSize(ms)
    ensures forall x :: x in r <==> x in ms
  {
    if ms == [] then [] else InsertMember(ms[0], SortMembers(ms[1..]))
  }

  function ValueSize(v: Json): nat {
    match v
    case JArray(items) => 1 + ItemsSize(items)
    case JObject(members) => 1 + MembersSize(members)
    case _ => 1
  }

  function ItemsSize(items: seq<Json>): nat {
    if items == [] then 0 else ValueSize(items[0]) + 1 + ItemsSize(items[1..])
  }

  function MembersSize(ms: seq<Member>): nat {
    if ms == [] then 0 else ValueSize(ms[0].value) + 1 + MembersSize(ms[1..])
  }

  function Canonical(v: Json): Text
    decreases ValueSize(v)
  {
    match v
    case JNull => [110, 117, 108, 108]
    case JBool(b) => if b then [116, 114, 117, 101] else [102, 97, 108, 115, 101]
    case JNumber(n) => Integer(n)
    case JString(s) => Quote(s)
    case JArray(items) => [91] + JoinItems(items) + [93]
    case JObject(members) => [123] + JoinMembers(SortMembers(members)) + [125]
  }

  function JoinItems(items: seq<Json>): Text
    decreases ItemsSize(items)
  {
    if items == [] then []
    else Canonical(items[0]) + (if |items| == 1 then [] else [44] + JoinItems(items[1..]))
  }

  function JoinMembers(ms: seq<Member>): Text
    decreases MembersSize(ms)
  {
    if ms == [] then []
    else
      (Quote(ms[0].key) + [58] + Canonical(ms[0].value)
       + (if |ms| == 1 then [] else [44] + JoinMembers(ms[1..])))
  }

  // ---------- meaning ----------

  /** A JavaScript object cannot hold the same key twice. */
  ghost predicate WellFormed(v: Json) {
    match v
    case JArray(items) => forall x | x in items :: WellFormed(x)
    case JObject(members) => DistinctKeys(members) && forall m | m in members :: WellFormed(m.value)
    case _ => true
  }

  ghost predicate DistinctKeys(ms: seq<Member>) {
    forall i, j | 0 <= i < j < |ms| :: ms[i].key != ms[j].key
  }

  /** Field-for-field equality: object members may be listed in any order, array items may not. */
  ghost predicate Same(a: Json, b: Json) {
    match (a, b)
    case (JArray(xs), JArray(ys)) => |xs| == |ys| && forall i | 0 <= i < |xs| :: Same(xs[i], ys[i])
    case (JObject(ms), JObject(ns)) =>
      && |ms| == |ns|
      && forall m | m in ms :: exists n | n in ns :: m.key == n.key && Same(m.value, n.value)
    case _ => a == b
  }

  // ---------- the order of keys ----------

  /** a ends, or has the smaller code unit, where the two texts first differ. */
  ghost predicate DiffersAt(a: Text, b: Text, n: nat) {
    && n <= |a| && n < |b| && a[..n] == b[..n]
    && (n < |a| ==> a[n] < b[n])
  }

  lemma {:induction false} DifferenceShifts(a: Text, b: Text, n: nat)
    requires a != [] && b != [] && a[0] == b[0]
    ensures DiffersAt(a, b, n + 1) <==> DiffersAt(a[1..], b[1..], n)
  {
    if n < |a| && n < |b| {
      assert a[..n + 1] == [a[0]] + a[1..][..n] && b[..n + 1] == [b[0]] + b[1..][..n];
    }
  }

  ghost predicate FirstDiffers(a: Text, b: Text) {
    exists n: nat :: DiffersAt(a, b, n)
  }

  lemma {:induction false} BeforeDiffers(a: Text, b: Text)
    requires Before(a, b)
    ensures FirstDiffers(a, b)
    decreases |a|
  {
    if a == [] || a[0] < b[0] {
      assert DiffersAt(a, b, 0);
    } else {
      BeforeDiffers(a[1..], b[1..]);
      var n: nat :| DiffersAt(a[1..], b[1..], n);
      DifferenceShifts(a, b, n);
      assert DiffersAt(a, b, n + 1);
    }
  }

  lemma {:induction false} DiffersBefore(a: Text, b: Text, n: nat)
    requires DiffersAt(a, b, n)
    ensures Before(a, b)
    decreases n
  {
    if n > 0 {
      assert a[0] == a[..n][0] == b[..n][0] == b[0];
      DifferenceShifts(a, b, n - 1);
      DiffersBefore(a[1..], b[1..], n - 1);
    }
  }

  /** One text comes before another exactly when it ends, or has the smaller code unit, where they first differ. */
  lemma BeforeExact(a: Text, b: Text)
    ensures Before(a, b) <==> FirstDiffers(a, b)
  {
    hide Before, DiffersAt;
    if Before(a, b) { BeforeDiffers(a, b); }
    if n: nat :| DiffersAt(a, b, n) { DiffersBefore(a, b, n); }
  }

  // ---------- member order does not matter ----------

  lemma {:induction false} BeforeTransitive(a: Text, b: Text, c: Text)
    requires Before(a, b) && Before(b, c)
    ensures Before(a, c)
    decreases |a|
  {
    if a != [] && a[0] == b[0] == c[0] {
      BeforeTransitive(a[1..], b[1..], c[1..]);
    }
  }

  lemma {:induction false} BeforeTotal(a: Text, b: Text)
    ensures a == b || Before(a, b) || Before(b, a)
    ensures !(Before(a, b) && Before(b, a)) && !Before(a, a)
    decreases |a|
  {
    if a != [] {
      BeforeTotal(a[1..], a[1..]);
      if b != [] && a[0] == b[0] {
        BeforeTotal(a[1..], b[1..]);
        assert a == [a[0]] + a[1..] && b == [b[0]] + b[1..];
      }
    }
  }

  ghost predicate Ascending(ms: seq<Member>) {
    forall i, j | 0 <= i < j < |ms| :: Before(ms[i].key, ms[j].key)
  }

  lemma AscendingCons(m: Member, ms: seq<Member>)
    requires Ascending(ms)
    requires forall x | x in ms :: Before(m.key, x.key)
    ensures Ascending([m] + ms)
  {
    forall i, j | 0 <= i < j < |[m] + ms|
      ensures Before(([m] + ms)[i].key, ([m] + ms)[j].key)
    {
      assert ms[j - 1] in ms;
    }
  }

  lemma {:induction false} InsertAscending(m: Member, ms: seq<Member>)
    requires Ascending(ms)
    requires forall x | x in ms :: x.key != m.key
    ensures Ascending(InsertMember(m, ms))
    decreases |ms|
  {
    if ms == [] {
    } else if Before(m.key, ms[0].key) {
      forall x | x in ms ensures Before(m.key, x.key) {
        if x != ms[0] { BeforeTransitive(m.key, ms[0].key, x.key); }
      }
      AscendingCons(m, ms);
    } else {
      InsertAscending(m, ms[1..]);
      BeforeTotal(m.key, ms[0].key);
      AscendingCons(ms[0], InsertMember(m, ms[1..]));
    }
  }

  lemma {:induction false} SortAscending(ms: seq<Member>)
    requires DistinctKeys(ms)
    ensures Ascending(SortMembers(ms))
    decreases |ms|
  {
    if ms != [] {
      SortAscending(ms[1..]);
      InsertAscending(ms[0], SortMembers(ms[1..]));
    }
  }

  lemma {:induction false} AscendingUnique(ms: seq<Member>, ns: seq<Member>)
    requires Ascending(ms) && Ascending(ns) && |ms| == |ns|
    requires forall m | m in ms :: exists n | n in ns :: m.key == n.key && Canonical(m.value) == Canonical(n.value)
    ensures JoinMembers(ms) == JoinMembers(ns)
    decreases |ms|
  {
    if ms != [] {
      FirstMemberAgrees(ms, ns);
      var ms', ns' := ms[1..], ns[1..];
      assert ms[0].key == ns[0].key && Canonical(ms[0].value) == Canonical(ns[0].value);
      forall m | m in ms'
        ensures exists n | n in ns' :: m.key == n.key && Canonical(m.value) == Canonical(n.value)
      {
        var i :| 1 <= i < |ms| && ms[i] == m;
        var n :| n in ns && m.key == n.key && Canonical(m.value) == Canonical(n.value);
        BeforeTotal(m.key, m.key);
        assert Before(ms[0].key, m.key);
        var j :| 0 <= j < |ns| && ns[j] == n;
        assert j > 0;
        assert ns'[j - 1] == n;
      }
      AscendingUnique(ms', ns');
    }
  }

  /** In two ascending lists of the same length where every key of the first occurs in the second,
      the first keys agree: otherwise the second list would have to hold one key too many. */
  lemma FirstMemberAgrees(ms: seq<Member>, ns: seq<Member>)
    requires Ascending(ms) && Ascending(ns) && |ms| == |ns| > 0
    requires forall m | m in ms :: exists n | n in ns :: m.key == n.key && Canonical(m.value) == Canonical(n.value)
    ensures ms[0].key == ns[0].key && Canonical(ms[0].value) == Canonical(ns[0].value)
  {
    var ks, ls := set m | m in ms :: m.key, set n | n in ns :: n.key;
    KeyCount(ms);
    KeyCount(ns);
    assert ks <= ls;
    SubsetOfEqualSize(ks, ls);
    assert ns[0].key in ks;
    var m :| m in ms && m.key == ns[0].key;
    var i :| 0 <= i < |ms| && ms[i] == m;
    var n :| n in ns && ms[0].key == n.key && Canonical(ms[0].value) == Canonical(n.value);
    var j :| 0 <= j < |ns| && ns[j] == n;
    BeforeTotal(ms[0].key, ns[0].key);
    BeforeTotal(ns[0].key, ns[0].key);
    BeforeTotal(ms[0].key, ms[0].key);
  }

  lemma {:induction false} KeyCount(ms: seq<Member>)
    requires Ascending(ms)
    ensures |set m | m in ms :: m.key| == |ms|
    decreases |ms|
  {
    if ms != [] {
      KeyCount(ms[1..]);
      var rest := set m | m in ms[1..] :: m.key;
      if ms[0].key in rest {
        var m :| m in ms[1..] && m.key == ms[0].key;
        BeforeTotal(m.key, m.key);
      }
      assert (set m | m in ms :: m.key) == {ms[0].key} + rest;
    }
  }

  lemma SubsetOfEqualSize(a: set<Text>, b: set<Text>)
    requires a <= b && |a| == |b|
    ensures a == b
  {
    assert b == a + (b - a);
    assert |b| == |a| + |b - a|;
  }

  lemma {:induction false} SameCanonical(a: Json, b: Json)
    requires WellFormed(a) && WellFormed(b) && Same(a, b)
    ensures Canonical(a) == Canonical(b)
    decreases ValueSize(a), 1
  {
    match (a, b) {
      case (JArray(xs), JArray(ys)) => SameItems(xs, ys);
      case (JObject(ms), JObject(ns)) =>
        SortAscending(ms);
        SortAscending(ns);
        var ps, qs := SortMembers(ms), SortMembers(ns);
        forall m | m in ps
          ensures exists n | n in qs :: m.key == n.key && Canonical(m.value) == Canonical(n.value)
        {
          var n :| n in ns && m.key == n.key && Same(m.value, n.value);
          MemberSmaller(ms, m);
          SameCanonical(m.value, n.value);
          assert n in qs;
        }
        AscendingUnique(ps, qs);
      case _ =>
    }
  }

  lemma {:induction false} MemberSmaller(ms: seq<Member>, m: Member)
    requires m in ms
    ensures ValueSize(m.value) < MembersSize(ms)
    decreases |ms|
  {
    if m != ms[0] { MemberSmaller(ms[1..], m); }
  }

  lemma {:induction false} SameItems(xs: seq<Json>, ys: seq<Json>)
    requires |xs| == |ys|
    requires forall i | 0 <= i < |xs| :: WellFormed(xs[i]) && WellFormed(ys[i]) && Same(xs[i], ys[i])
    ensures JoinItems(xs) == JoinItems(ys)
    decreases ItemsSize(xs), 0
  {
    if xs != [] {
      SameCanonical(xs[0], ys[0]);
      SameItems(xs[1..], ys[1..]);
    }
  }
}
