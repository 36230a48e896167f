/**
The canonical text tells JSON values apart exactly up to the order of properties.
*/
module CanonicalMeaning {
  import opened Sorting
  import opened C = Canonical

  // ---------------------------------------------------------------- strings

  lemma HexUnique(m: nat, n: nat)
    requires m < 16 && n < 16 && Hex(m) == Hex(n)
    ensures m == n
  {
  }

  lemma EscapeShape(c: char)
    ensures Escape(c) != [] && Escape(c)[0] != '\"'
    ensures Escape(c)[0] == '\\' <==> c == '\"' || c == '\\' || (c as int) < 32
    ensures Escape(c)[0] != '\\' ==> Escape(c) == [c]
    ensures Escape(c)[0] == '\\' ==> |Escape(c)| >= 2
    ensures Escape(c)[0] == '\\' && Escape(c)[1] != 'u' ==> |Escape(c)| == 2
    ensures Escape(c)[0] == '\\' && Escape(c)[1] == 'u' ==>
              && (c as int) < 32
              && Escape(c) == "\\u00" + [Hex((c as int) / 16), Hex((c as int) % 16)]
  {
  }

  lemma ShortUnique(c: char, d: char)
    requires Escape(c)[..1] == "\\" && Escape(d)[..1] == "\\" && |Escape(c)| == 2 && |Escape(d)| == 2
    requires Escape(c)[1] == Escape(d)[1]
    ensures c == d
  {
  }

  lemma EscapeUnique(c: char, d: char, p: string, q: string)
    requires Escape(c) + p == Escape(d) + q
    ensures c == d && p == q
  {
    EscapeShape(c);
    EscapeShape(d);
    var a, b := Escape(c), Escape(d);
    var all := a + p;
    assert all[0] == a[0] == b[0];
    if a[0] == '\\' {
      assert all[1] == a[1] == b[1];
      if a[1] == 'u' {
        assert all[4] == a[4] == b[4] && all[5] == a[5] == b[5];
        HexUnique((c as int) / 16, (d as int) / 16);
        HexUnique((c as int) % 16, (d as int) % 16);
      } else {
        ShortUnique(c, d);
      }
    }
    assert a == b;
    assert p == all[|a|..] && q == all[|b|..];
  }

  lemma EscapedLead(s: string, x: string)
    ensures var all := Escaped(s) + ("\"" + x); all != [] && (s == [] <==> all[0] == '\"')
  {
    hide Escape;
    if s != [] { EscapeShape(s[0]); }
  }

  lemma {:induction false} EscapedUnique(s: string, t: string, x: string, y: string)
    requires Escaped(s) + ("\"" + x) == Escaped(t) + ("\"" + y)
    ensures s == t && x == y
  {
    hide Escape;
    EscapedLead(s, x);
    EscapedLead(t, y);
    if s == [] {
      assert Escaped(s) + ("\"" + x) == "\"" + x && Escaped(t) + ("\"" + y) == "\"" + y;
      Tail(x, y, "\"");
    } else {
      Regroup(Escape(s[0]), Escaped(s[1..]), "\"" + x);
      Regroup(Escape(t[0]), Escaped(t[1..]), "\"" + y);
      EscapeUnique(s[0], t[0], Escaped(s[1..]) + ("\"" + x), Escaped(t[1..]) + ("\"" + y));
      EscapedUnique(s[1..], t[1..], x, y);
      assert s == [s[0]] + s[1..] && t == [t[0]] + t[1..];
    }
  }

  lemma QuoteUnique(s: string, t: string, x: string, y: string)
    requires Quote(s) + x == Quote(t) + y
    ensures s == t && x == y
  {
    hide Escaped;
    var p, q := Escaped(s) + ("\"" + x), Escaped(t) + ("\"" + y);
    assert Quote(s) + x == "\"" + p && Quote(t) + y == "\"" + q by {
      Regroup("\"" + Escaped(s), "\"", x);
      Regroup("\"", Escaped(s), "\"" + x);
      Regroup("\"" + Escaped(t), "\"", y);
      Regroup("\"", Escaped(t), "\"" + y);
    }
    assert p == ("\"" + p)[1..] && q == ("\"" + q)[1..];
    EscapedUnique(s, t, x, y);
  }

  // ---------------------------------------------------------------- values

  predicate Numeric(c: char) {
    '0' <= c <= '9' || c == '-' || c == '+' || c == '.' || c == 'e' || c == 'E'
  }

  /** What a number may be written as. */
  predicate Lexeme(text: string) {
    text != [] && (text[0] == '-' || '0' <= text[0] <= '9') && forall i | 0 <= i < |text| :: Numeric(text[i])
  }

  predicate Parsed(v: Json) {
    match v
    case Number(text) => Lexeme(text)
    case Arr(items) => ParsedItems(items)
    case Obj(members) => ParsedMembers(members)
    case _ => true
  }

  predicate ParsedItems(items: Items) {
    match items
    case NoItem => true
    case Item(head, tail) => Parsed(head) && ParsedItems(tail)
  }

  predicate Absent(key: string, members: Members) {
    match members
    case NoMember => true
    case Member(k, _, rest) => k != key && Absent(key, rest)
  }

  /** A parsed object has each key once. */
  predicate ParsedMembers(members: Members) {
    match members
    case NoMember => true
    case Member(k, v, rest) => Parsed(v) && Absent(k, rest) && ParsedMembers(rest)
  }

  /** What may follow a value. */
  predicate Delimits(x: string) {
    x == [] || x[0] == ',' || x[0] == ']' || x[0] == '}'
  }

  datatype Kind = NullKind | BoolKind(value: bool) | NumberKind | StringKind | ArrayKind | ObjectKind | NoKind

  /** The first character says what kind of value follows. */
  function KindOf(c: char): Kind {
    if c == 'n' then NullKind
    else if c == 't' then BoolKind(true)
    else if c == 'f' then BoolKind(false)
    else if c == '\"' then StringKind
    else if c == '[' then ArrayKind
    else if c == '{' then ObjectKind
    else if c == '-' || '0' <= c <= '9' then NumberKind
    else NoKind
  }

  function KindFor(v: Json): Kind {
    match v
    case Null => NullKind
    case Bool(b) => BoolKind(b)
    case Number(_) => NumberKind
    case Str(_) => StringKind
    case Arr(_) => ArrayKind
    case Obj(_) => ObjectKind
  }

  lemma Leads(v: Json)
    requires Parsed(v)
    ensures Plain(v) != [] && KindOf(Plain(v)[0]) == KindFor(v)
  {
    hide PlainItems, PlainMembers, Escaped;
  }

  lemma {:induction false} NumberUnique(m: string, n: string, x: string, y: string)
    requires Lexeme(m) && Lexeme(n) && Delimits(x) && Delimits(y) && m + x == n + y
    ensures m == n && x == y
  {
    NotLonger(m, n, x, y);
    NotLonger(n, m, y, x);
    var all := m + x;
    assert m == all[..|m|] && n == all[..|n|] && x == all[|m|..] && y == all[|n|..];
  }

  lemma NotLonger(m: string, n: string, x: string, y: string)
    requires Lexeme(m) && Lexeme(n) && Delimits(y) && m + x == n + y
    ensures |m| <= |n|
  {
    var all := n + y;
    assert forall i | 0 <= i < |m| :: all[i] == m[i];
    assert |y| > 0 ==> all[|n|] == y[0];
  }

  lemma SameKind(a: Json, b: Json, x: string, y: string)
    requires Parsed(a) && Parsed(b) && Plain(a) + x == Plain(b) + y
    ensures KindFor(a) == KindFor(b)
  {
    hide Plain, Parsed;
    Leads(a);
    Leads(b);
    assert (Plain(a) + x)[0] == Plain(a)[0] && (Plain(b) + y)[0] == Plain(b)[0];
  }

  lemma Tail(p: string, q: string, c: string)
    requires c + p == c + q
    ensures p == q
  {
    assert p == (c + p)[|c|..] && q == (c + q)[|c|..];
  }

  /** A value and what follows it can be told from the text in one way only. */
  lemma {:induction false} ValueUnique(a: Json, b: Json, x: string, y: string)
    requires Parsed(a) && Parsed(b) && Delimits(x) && Delimits(y) && Plain(a) + x == Plain(b) + y
    ensures a == b && x == y
    decreases a
  {
    SameKind(a, b, x, y);
    match a
    case Null => Tail(x, y, "null");
    case Bool(v) => Tail(x, y, if v then "true" else "false");
    case Number(m) => NumberUnique(m, b.text, x, y);
    case Str(s) => QuoteUnique(s, b.content, x, y);
    case Arr(items) =>
      Regroup("[", PlainItems(items, true), x);
      Regroup("[", PlainItems(b.items, true), y);
      Tail(PlainItems(items, true) + x, PlainItems(b.items, true) + y, "[");
      ItemsUnique(items, b.items, true, x, y);
    case Obj(members) =>
      Regroup("{", PlainMembers(members, true), x);
      Regroup("{", PlainMembers(b.members, true), y);
      Tail(PlainMembers(members, true) + x, PlainMembers(b.members, true) + y, "{");
      MembersUnique(members, b.members, true, x, y);
  }

  lemma ItemsLead(items: Items, first: bool)
    requires ParsedItems(items)
    ensures PlainItems(items, first) != [] && (items.NoItem? <==> PlainItems(items, first)[0] == ']')
  {
    hide Plain, Parsed;
    if items.Item? { Leads(items.head); }
  }

  lemma ItemsFollow(items: Items, x: string)
    ensures Delimits(PlainItems(items, false) + x)
  {
    hide Plain;
  }

  lemma {:induction false} ItemsUnique(a: Items, b: Items, first: bool, x: string, y: string)
    requires ParsedItems(a) && ParsedItems(b) && PlainItems(a, first) + x == PlainItems(b, first) + y
    ensures a == b && x == y
    decreases a
  {
    hide Plain, Parsed;
    ItemsLead(a, first);
    ItemsLead(b, first);
    assert (PlainItems(a, first) + x)[0] == PlainItems(a, first)[0];
    assert (PlainItems(b, first) + y)[0] == PlainItems(b, first)[0];
    if a.NoItem? {
      Tail(x, y, "]");
    } else {
      var c, p, q := Comma(first), PlainItems(a.tail, false), PlainItems(b.tail, false);
      Spread(c, Plain(a.head), p, x);
      Spread(c, Plain(b.head), q, y);
      Tail(Plain(a.head) + (p + x), Plain(b.head) + (q + y), c);
      ItemsFollow(a.tail, x);
      ItemsFollow(b.tail, y);
      ValueUnique(a.head, b.head, p + x, q + y);
      ItemsUnique(a.tail, b.tail, false, x, y);
    }
  }

  lemma Spread(c: string, v: string, p: string, x: string)
    ensures c + v + p + x == c + (v + (p + x))
  {
    Regroup(c, v, p);
    Regroup(c, v + p, x);
    Regroup(v, p, x);
  }

  lemma MembersLead(members: Members, first: bool)
    ensures PlainMembers(members, first) != [] && (members.NoMember? <==> PlainMembers(members, first)[0] == '}')
  {
    hide Plain, Escaped;
  }

  lemma MembersFollow(members: Members, x: string)
    ensures Delimits(PlainMembers(members, false) + x)
  {
    hide Plain, Quote;
  }

  lemma {:induction false} MembersUnique(a: Members, b: Members, first: bool, x: string, y: string)
    requires ParsedMembers(a) && ParsedMembers(b) && PlainMembers(a, first) + x == PlainMembers(b, first) + y
    ensures a == b && x == y
    decreases a
  {
    hide Plain, Parsed, Quote, Absent;
    MembersLead(a, first);
    MembersLead(b, first);
    assert (PlainMembers(a, first) + x)[0] == PlainMembers(a, first)[0];
    assert (PlainMembers(b, first) + y)[0] == PlainMembers(b, first)[0];
    if a.NoMember? {
      Tail(x, y, "}");
    } else {
      var c, p, q := Comma(first), PlainMembers(a.rest, false), PlainMembers(b.rest, false);
      SpreadMember(c, Quote(a.key), Plain(a.value), p, x);
      SpreadMember(c, Quote(b.key), Plain(b.value), q, y);
      Tail(Quote(a.key) + (":" + (Plain(a.value) + (p + x))), Quote(b.key) + (":" + (Plain(b.value) + (q + y))), c);
      QuoteUnique(a.key, b.key, ":" + (Plain(a.value) + (p + x)), ":" + (Plain(b.value) + (q + y)));
      Tail(Plain(a.value) + (p + x), Plain(b.value) + (q + y), ":");
      MembersFollow(a.rest, x);
      MembersFollow(b.rest, y);
      ValueUnique(a.value, b.value, p + x, q + y);
      MembersUnique(a.rest, b.rest, false, x, y);
    }
  }

  lemma SpreadMember(c: string, k: string, v: string, p: string, x: string)
    ensures c + k + ":" + v + p + x == c + (k + (":" + (v + (p + x))))
  {
    Regroup(c + k + ":" + v, p, x);
    Regroup(c + k + ":", v, p + x);
    Regroup(c + k, ":", v + (p + x));
    Regroup(c, k, ":" + (v + (p + x)));
  }

  /** The plain text determines the value. */
  lemma PlainInjective(a: Json, b: Json)
    requires Parsed(a) && Parsed(b) && Plain(a) == Plain(b)
    ensures a == b
  {
    assert Plain(a) + "" == Plain(a) && Plain(b) + "" == Plain(b);
    ValueUnique(a, b, "", "");
  }

  // ---------------------------------------------------------------- up to the order of properties

  function Get(members: Members, key: string): Json
    requires !Absent(key, members)
  {
    if members.key == key then members.value else Get(members.rest, key)
  }

  lemma {:induction false} GetSmaller(members: Members, key: string)
    requires !Absent(key, members)
    ensures Get(members, key) < members
  {
    if members.key != key { GetSmaller(members.rest, key); }
  }

  /** The same value, but for the order in which objects list their properties. */
  ghost predicate Same(a: Json, b: Json)
    decreases a
  {
    match a
    case Arr(items) => b.Arr? && SameItems(items, b.items)
    case Obj(members) => b.Obj? && SameMembers(members, b.members)
    case _ => a == b
  }

  ghost predicate SameItems(a: Items, b: Items)
    decreases a
  {
    match a
    case NoItem => b.NoItem?
    case Item(head, tail) => b.Item? && Same(head, b.head) && SameItems(tail, b.tail)
  }

  ghost predicate SameMembers(a: Members, b: Members)
    decreases a
  {
    && (forall k :: Absent(k, a) <==> Absent(k, b))
    && EachSame(a, b)
  }

  /** Every property of the one has the same value in the other. */
  ghost predicate EachSame(a: Members, b: Members)
    decreases a, 0
  {
    match a
    case NoMember => true
    case Member(k, v, rest) => !Absent(k, b) && Same(v, Get(b, k)) && EachSame(rest, b)
  }

  // sorted lists of members

  predicate Ascends(members: Members) {
    match members
    case NoMember => true
    case Member(k, _, rest) => Ascends(rest) && Above(k, rest)
  }

  /** Every key of the list is after the given one. */
  predicate Above(key: string, members: Members) {
    match members
    case NoMember => true
    case Member(k, _, rest) => LexLe(key, k) && key != k && Above(key, rest)
  }

  lemma {:induction false} AboveAbsent(key: string, k: string, members: Members)
    requires Above(k, members) && LexLe(key, k)
    ensures Absent(key, members) && (key != k ==> Above(key, members))
  {
    match members
    case NoMember =>
    case Member(j, _, rest) =>
      LexTransitive(key, k, j);
      if key == j { LexTotal(k, j); }
      AboveAbsent(key, k, rest);
  }

  lemma {:induction false} InsertKeys(key: string, value: Json, sorted: Members, k: string)
    ensures !Absent(key, InsertMember(key, value, sorted))
    ensures Absent(k, InsertMember(key, value, sorted)) <==> k != key && Absent(k, sorted)
    ensures k != key && !Absent(k, sorted) ==> Get(InsertMember(key, value, sorted), k) == Get(sorted, k)
    ensures Absent(key, sorted) ==> Get(InsertMember(key, value, sorted), key) == value
    ensures Above(k, InsertMember(key, value, sorted)) <==> LexLe(k, key) && k != key && Above(k, sorted)
  {
    match sorted
    case NoMember =>
    case Member(j, v, rest) => if !LexLe(key, j) { InsertKeys(key, value, rest, k); InsertKeys(key, value, rest, key); }
  }

  lemma {:induction false} InsertAscends(key: string, value: Json, sorted: Members)
    requires Ascends(sorted) && Absent(key, sorted)
    ensures Ascends(InsertMember(key, value, sorted))
  {
    match sorted
    case NoMember =>
    case Member(j, v, rest) =>
      LexTotal(key, j);
      if LexLe(key, j) {
        AboveAbsent(key, j, rest);
      } else {
        InsertAscends(key, value, rest);
        InsertKeys(key, value, rest, j);
      }
  }

  /** Sorting keeps each property and puts the keys in order. */
  lemma {:induction false} NormalMembersMean(members: Members)
    requires ParsedMembers(members)
    ensures Ascends(NormalMembers(members))
    ensures forall k :: Absent(k, NormalMembers(members)) <==> Absent(k, members)
    ensures forall k | !Absent(k, members) :: Get(NormalMembers(members), k) == Normal(Get(members, k))
  {
    match members
    case NoMember =>
    case Member(key, value, rest) =>
      NormalMembersMean(rest);
      InsertAscends(key, Normal(value), NormalMembers(rest));
      forall k
        ensures Absent(k, NormalMembers(members)) <==> Absent(k, members)
        ensures !Absent(k, members) ==> Get(NormalMembers(members), k) == Normal(Get(members, k))
      {
        InsertKeys(key, Normal(value), NormalMembers(rest), k);
      }
  }

  lemma {:induction false} AboveIs(key: string, members: Members, k: string)
    requires Above(key, members) && !Absent(k, members)
    ensures LexLe(key, k) && key != k
  {
    if members.key != k { AboveIs(key, members.rest, k); }
  }

  lemma FirstKeys(a: Members, b: Members)
    requires a.Member? && b.Member? && Ascends(a) && Ascends(b) && !Absent(a.key, b) && !Absent(b.key, a)
    ensures a.key == b.key
  {
    if a.key != b.key {
      AboveIs(a.key, a.rest, b.key);
      AboveIs(b.key, b.rest, a.key);
      LexTotal(a.key, b.key);
    }
  }

  /** Two lists in order with the same properties are one list. */
  lemma {:induction false} AscendingUnique(a: Members, b: Members)
    requires Ascends(a) && Ascends(b)
    requires forall k :: Absent(k, a) <==> Absent(k, b)
    requires forall k | !Absent(k, a) :: Get(a, k) == Get(b, k)
    ensures a == b
  {
    if a.Member? {
      assert !Absent(a.key, a);
      assert b.Member?;
      assert !Absent(b.key, b);
      FirstKeys(a, b);
      LexTotal(a.key, a.key);
      AboveAbsent(a.key, a.key, a.rest);
      LexTotal(b.key, b.key);
      AboveAbsent(b.key, b.key, b.rest);
      assert Get(a, a.key) == a.value && Get(b, b.key) == b.value;
      forall k
        ensures Absent(k, a.rest) <==> Absent(k, b.rest)
        ensures !Absent(k, a.rest) ==> Get(a.rest, k) == Get(b.rest, k)
      {
        if k != a.key { assert Absent(k, a) <==> Absent(k, a.rest); assert Absent(k, b) <==> Absent(k, b.rest); }
      }
      AscendingUnique(a.rest, b.rest);
    } else if b.Member? {
      assert !Absent(b.key, b);
    }
  }

  // ---------------------------------------------------------------- the theorem

  lemma {:induction false} EachSameMeans(a: Members, b: Members, k: string)
    requires EachSame(a, b) && !Absent(k, a)
    ensures !Absent(k, b) && Same(Get(a, k), Get(b, k))
  {
    if a.key != k { EachSameMeans(a.rest, b, k); }
  }

  /** Values that are the same up to property order have one normal form. */
  lemma {:induction false} SameNormal(a: Json, b: Json)
    requires Parsed(a) && Parsed(b) && Same(a, b)
    ensures Normal(a) == Normal(b)
    decreases a, 1
  {
    match a
    case Arr(items) => ItemsNormal(items, b.items);
    case Obj(members) => MembersNormal(members, b.members);
    case _ =>
  }

  lemma {:induction false} ItemsNormal(a: Items, b: Items)
    requires ParsedItems(a) && ParsedItems(b) && SameItems(a, b)
    ensures NormalItems(a) == NormalItems(b)
    decreases a, 1
  {
    if a.Item? {
      SameNormal(a.head, b.head);
      ItemsNormal(a.tail, b.tail);
    }
  }

  lemma MembersNormal(a: Members, b: Members)
    requires ParsedMembers(a) && ParsedMembers(b) && SameMembers(a, b)
    ensures NormalMembers(a) == NormalMembers(b)
    decreases a, 0
  {
    NormalMembersMean(a);
    NormalMembersMean(b);
    forall k | !Absent(k, a) ensures Normal(Get(a, k)) == Normal(Get(b, k)) {
      EachSameMeans(a, b, k);
      GetSmaller(a, k);
      GetParsed(a, k);
      GetParsed(b, k);
      SameNormal(Get(a, k), Get(b, k));
    }
    AscendingUnique(NormalMembers(a), NormalMembers(b));
  }

  lemma {:induction false} GetParsed(members: Members, key: string)
    requires ParsedMembers(members) && !Absent(key, members)
    ensures Parsed(Get(members, key))
  {
    if members.key != key { GetParsed(members.rest, key); }
  }

  /** And only those. */
  lemma {:induction false} NormalSame(a: Json, b: Json)
    requires Parsed(a) && Parsed(b) && Normal(a) == Normal(b)
    ensures Same(a, b)
    decreases a, 1
  {
    match a
    case Arr(items) => assert b.Arr?; NormalSameItems(items, b.items);
    case Obj(members) =>
      assert b.Obj?;
      NormalMembersMean(members);
      NormalMembersMean(b.members);
      NormalEach(members, b.members);
    case _ =>
  }

  lemma {:induction false} NormalSameItems(a: Items, b: Items)
    requires ParsedItems(a) && ParsedItems(b) && NormalItems(a) == NormalItems(b)
    ensures SameItems(a, b)
    decreases a, 1
  {
    if a.Item? {
      assert b.Item?;
      NormalSame(a.head, b.head);
      NormalSameItems(a.tail, b.tail);
    }
  }

  lemma {:induction false} NormalEach(a: Members, b: Members)
    requires ParsedMembers(a) && ParsedMembers(b)
    requires forall k | !Absent(k, a) :: !Absent(k, b) && Normal(Get(a, k)) == Normal(Get(b, k))
    ensures EachSame(a, b)
    decreases a, 0
  {
    if a.Member? {
      assert !Absent(a.key, a) && Get(a, a.key) == a.value;
      GetParsed(b, a.key);
      NormalSame(a.value, Get(b, a.key));
      forall k | !Absent(k, a.rest) ensures !Absent(k, b) && Normal(Get(a.rest, k)) == Normal(Get(b, k)) {
        assert k != a.key && !Absent(k, a) && Get(a, k) == Get(a.rest, k);
      }
      NormalEach(a.rest, b);
    }
  }

  lemma {:induction false} NormalParsed(v: Json)
    requires Parsed(v)
    ensures Parsed(Normal(v))
  {
    match v
    case Arr(items) => NormalItemsParsed(items);
    case Obj(members) => NormalMembersParsed(members);
    case _ =>
  }

  lemma {:induction false} NormalItemsParsed(items: Items)
    requires ParsedItems(items)
    ensures ParsedItems(NormalItems(items))
  {
    if items.Item? {
      NormalParsed(items.head);
      NormalItemsParsed(items.tail);
    }
  }

  lemma {:induction false} NormalMembersParsed(members: Members)
    requires ParsedMembers(members)
    ensures ParsedMembers(NormalMembers(members))
  {
    if members.Member? {
      NormalParsed(members.value);
      NormalMembersParsed(members.rest);
      NormalMembersMean(members.rest);
      InsertParsed(members.key, Normal(members.value), NormalMembers(members.rest));
    }
  }

  lemma {:induction false} InsertParsed(key: string, value: Json, sorted: Members)
    requires Parsed(value) && ParsedMembers(sorted) && Absent(key, sorted)
    ensures ParsedMembers(InsertMember(key, value, sorted))
  {
    if sorted.Member? && !LexLe(key, sorted.key) {
      InsertParsed(key, value, sorted.rest);
      InsertKeys(key, value, sorted.rest, sorted.key);
    }
  }

  /** Two JSON values have one canonical text exactly when they are the same up to property order. */
  lemma TextExact(a: Json, b: Json)
    requires Parsed(a) && Parsed(b)
    ensures Text(a) == Text(b) <==> Same(a, b)
  {
    NormalParsed(a);
    NormalParsed(b);
    hide Plain, Parsed;
    if Same(a, b) { SameNormal(a, b); }
    if Text(a) == Text(b) {
      PlainInjective(Normal(a), Normal(b));
      NormalSame(a, b);
    }
  }
}
