/**
Canonical text: object keys sorted by code unit, array order kept, primitives as they are written.
*/
module Canonical {
  import opened Sorting

  // ---------------------------------------------------------------- JSON values

  datatype Json =
    | Null
    | Bool(value: bool)
    | Number(text: string)   // the lexeme a number is written as
    | Str(content: string)
    | Arr(items: Items)
    | Obj(members: Members)

  datatype Items = NoItem | Item(head: Json, tail: Items)

  datatype Members = NoMember | Member(key: string, value: Json, rest: Members)

  // ---------------------------------------------------------------- writing

  function Hex(n: nat): char
    requires n < 16
  {
    "0123456789abcdef"[n]
  }

  function Escape(c: char): string {
    if c == '\"' then "\\\""
    else if c == '\\' then "\\\\"
    else if c as int == 8 then "\\b"
    else if c as int == 9 then "\\t"
    else if c as int == 10 then "\\n"
    else if c as int == 12 then "\\f"
    else if c as int == 13 then "\\r"
    else if (c as int) < 32 then "\\u00" + [Hex((c as int) / 16), Hex((c as int) % 16)]
    else [c]
  }

  function Escaped(s: string): string {
    if s == [] then [] else Escape(s[0]) + Escaped(s[1..])
  }

  function Quote(s: string): string {
    "\"" + Escaped(s) + "\""
  }

  /** The text of a value, its members in the order given. */
  function Plain(v: Json): string {
    match v
    case Null => "null"
    case Bool(b) => if b then "true" else "false"
    case Number(text) => text
    case Str(s) => Quote(s)
    case Arr(items) => "[" + PlainItems(items, true)
    case Obj(members) => "{" + PlainMembers(members, true)
  }

  function PlainItems(items: Items, first: bool): string {
    match items
    case NoItem => "]"
    case Item(head, tail) => (if first then "" else ",") + Plain(head) + PlainItems(tail, false)
  }

  function PlainMembers(members: Members, first: bool): string {
    match members
    case NoMember => "}"
    case Member(key, value, rest) =>
      (if first then "" else ",") + Quote(key) + ":" + Plain(value) + PlainMembers(rest, false)
  }

  // ---------------------------------------------------------------- sorting the keys

  function InsertMember(key: string, value: Json, sorted: Members): Members {
    match sorted
    case NoMember => Member(key, value, NoMember)
    case Member(k, v, rest) =>
      if LexLe(key, k) then Member(key, value, sorted) else Member(k, v, InsertMember(key, value, rest))
  }

  function SortedMembers(members: Members): Members {
    match members
    case NoMember => NoMember
    case Member(k, v, rest) => InsertMember(k, v, SortedMembers(rest))
  }

  /** Every object inside the value with its keys sorted. */
  function Normal(v: Json): Json {
    match v
    case Arr(items) => Arr(NormalItems(items))
    case Obj(members) => Obj(NormalMembers(members))
    case _ => v
  }

  function NormalItems(items: Items): Items {
    match items
    case NoItem => NoItem
    case Item(head, tail) => Item(Normal(head), NormalItems(tail))
  }

  function NormalMembers(members: Members): Members {
    match members
    case NoMember => NoMember
    case Member(k, v, rest) => InsertMember(k, Normal(v), NormalMembers(rest))
  }

  /** The recursive definition of the canonical text. */
  function Text(v: Json): string {
    Plain(Normal(v))
  }

  // ---------------------------------------------------------------- the explicit stack

  datatype Frame = ArrayFrame(items: Items, first: bool) | ObjectFrame(members: Members, first: bool)

  function NormalValues(members: Members): Members {
    match members
    case NoMember => NoMember
    case Member(k, v, rest) => Member(k, Normal(v), NormalValues(rest))
  }

  lemma {:induction false} InsertNormal(key: string, value: Json, sorted: Members)
    ensures NormalValues(InsertMember(key, value, sorted)) == InsertMember(key, Normal(value), NormalValues(sorted))
  {
    match sorted
    case NoMember =>
    case Member(k, v, rest) => InsertNormal(key, value, rest);
  }

  lemma {:induction false} SortedNormal(members: Members)
    ensures NormalValues(SortedMembers(members)) == NormalMembers(members)
  {
    match members
    case NoMember =>
    case Member(k, v, rest) =>
      SortedNormal(rest);
      InsertNormal(k, v, SortedMembers(rest));
  }

  /** The text a frame has still to write. */
  function Due(f: Frame): string {
    match f
    case ArrayFrame(items, first) => PlainItems(NormalItems(items), first)
    case ObjectFrame(members, first) => PlainMembers(NormalValues(members), first)
  }

  function Pending(stack: seq<Frame>): string {
    if stack == [] then "" else Due(stack[|stack| - 1]) + Pending(stack[..|stack| - 1])
  }

  function Size(v: Json): nat {
    match v
    case Arr(items) => 1 + ItemsSize(items)
    case Obj(members) => 1 + MembersSize(members)
    case _ => 1
  }

  function ItemsSize(items: Items): nat {
    match items
    case NoItem => 1
    case Item(head, tail) => 1 + Size(head) + ItemsSize(tail)
  }

  function MembersSize(members: Members): nat {
    match members
    case NoMember => 1
    case Member(_, v, rest) => 1 + Size(v) + MembersSize(rest)
  }

  lemma {:induction false} InsertSize(key: string, value: Json, sorted: Members)
    ensures MembersSize(InsertMember(key, value, sorted)) == 1 + Size(value) + MembersSize(sorted)
  {
    match sorted
    case NoMember =>
    case Member(k, v, rest) => InsertSize(key, value, rest);
  }

  lemma {:induction false} SortedSize(members: Members)
    ensures MembersSize(SortedMembers(members)) == MembersSize(members)
  {
    match members
    case NoMember =>
    case Member(k, v, rest) =>
      SortedSize(rest);
      InsertSize(k, v, SortedMembers(rest));
  }

  function FrameSize(f: Frame): nat {
    match f
    case ArrayFrame(items, _) => ItemsSize(items)
    case ObjectFrame(members, _) => MembersSize(members)
  }

  function StackSize(stack: seq<Frame>): nat {
    if stack == [] then 0 else StackSize(stack[..|stack| - 1]) + FrameSize(stack[|stack| - 1])
  }

  lemma Pushed(stack: seq<Frame>, f: Frame)
    ensures Pending(stack + [f]) == Due(f) + Pending(stack) && StackSize(stack + [f]) == StackSize(stack) + FrameSize(f)
  {
    assert (stack + [f])[..|stack|] == stack;
  }

  lemma ArrayDue(items: Items)
    ensures Text(Arr(items)) == "[" + Due(ArrayFrame(items, true))
  {
  }

  lemma ObjectDue(members: Members)
    ensures Text(Obj(members)) == "{" + Due(ObjectFrame(SortedMembers(members), true))
  {
    SortedNormal(members);
  }

  function Comma(first: bool): string {
    if first then "" else ","
  }

  lemma ItemDue(head: Json, tail: Items, first: bool)
    ensures Due(ArrayFrame(Item(head, tail), first)) == Comma(first) + (Text(head) + Due(ArrayFrame(tail, false)))
    ensures Due(ArrayFrame(NoItem, first)) == "]"
  {
    Regroup(Comma(first), Plain(Normal(head)), PlainItems(NormalItems(tail), false));
  }

  lemma MemberDue(key: string, value: Json, rest: Members, first: bool)
    ensures Due(ObjectFrame(Member(key, value, rest), first)) ==
            (Comma(first) + (Quote(key) + ":")) + (Text(value) + Due(ObjectFrame(rest, false)))
    ensures Due(ObjectFrame(NoMember, first)) == "}"
  {
    hide Quote;
    Regroup(Comma(first), Quote(key), ":");
    Regroup(Comma(first) + Quote(key) + ":", Plain(Normal(value)), PlainMembers(NormalValues(rest), false));
  }

  lemma Regroup(a: string, b: string, c: string)
    ensures a + b + c == a + (b + c)
  {
  }

  /** What is written plus what is pending stays the same when the front of it is written. */
  lemma Moved(out: string, front: string, text: string, due: string, below: string)
    ensures (out + front) + (text + (due + below)) == out + ((front + (text + due)) + below)
  {
    Regroup(text, due, below);
    Regroup(front, text + due, below);
    Regroup(out, front, text + due + below);
  }

  /** Writes a primitive, or opens a frame for what is inside a value. */
  method Open(out: string, stack: seq<Frame>, v: Json) returns (written: string, frames: seq<Frame>)
    ensures written + Pending(frames) == out + (Text(v) + Pending(stack))
    ensures StackSize(frames) < StackSize(stack) + Size(v)
  {
    hide Due, Pending, StackSize;
    match v
    case Arr(items) =>
      ArrayDue(items);
      hide Text;
      var f := ArrayFrame(items, true);
      Pushed(stack, f);
      Moved(out, "[", "", Due(f), Pending(stack));
      return out + "[", stack + [f];
    case Obj(members) =>
      ObjectDue(members);
      hide Text;
      var f := ObjectFrame(SortedMembers(members), true);
      SortedSize(members);
      Pushed(stack, f);
      Moved(out, "{", "", Due(f), Pending(stack));
      return out + "{", stack + [f];
    case _ =>
      Regroup(out, Plain(v), Pending(stack));
      return out + Plain(v), stack;
  }

  /** The serializer with its own stack writes the recursive definition, at any depth. */
  method Serialize(root: Json) returns (out: string)
    ensures out == Text(root)
  {
    hide Due, Text, StackSize, Quote;
    var stack: seq<Frame>;
    out, stack := Open("", [], root);
    assert "" + (Text(root) + "") == Text(root);
    while stack != []
      invariant out + Pending(stack) == Text(root)
      decreases StackSize(stack)
    {
      hide Pending;
      var frame, below := stack[|stack| - 1], stack[..|stack| - 1];
      assert stack == below + [frame];
      Pushed(below, frame);
      match frame
      case ArrayFrame(items, first) =>
        match items {
          case NoItem =>
            ItemDue(Null, NoItem, first);
            Regroup(out, "]", Pending(below));
            out := out + "]";
            stack := below;
          case Item(head, tail) =>
            ItemDue(head, tail, first);
            var next := ArrayFrame(tail, false);
            Pushed(below, next);
            Moved(out, Comma(first), Text(head), Due(next), Pending(below));
            out, stack := Open(out + Comma(first), below + [next], head);
        }
      case ObjectFrame(members, first) =>
        match members {
          case NoMember =>
            MemberDue("", Null, NoMember, first);
            Regroup(out, "}", Pending(below));
            out := out + "}";
            stack := below;
          case Member(key, value, rest) =>
            MemberDue(key, value, rest, first);
            var next := ObjectFrame(rest, false);
            Pushed(below, next);
            Moved(out, Comma(first) + (Quote(key) + ":"), Text(value), Due(next), Pending(below));
            out, stack := Open(out + (Comma(first) + (Quote(key) + ":")), below + [next], value);
        }
    }
    assert Pending([]) == "" && out + "" == out;
  }
}
