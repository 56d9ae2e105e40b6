/** A JSON value of which only the beginning has arrived, and what is shown of it. */
module Arrived {
  import opened JsonText
  import opened JsonValue
  import opened Wrappers

  // Everything that is there is shown, and nothing is closed that is still open. Whatever the rest turns out to be,
  // the text of the finished value continues it.

  datatype Part =
    | Whole(v: Value)
    | OpenScalar(text: string)
    | OpenStr(s: string)
    | OpenArr(items: seq<Value>, last: Option<Part>)
    | OpenDict(members: seq<Member>, next: Option<PartMember>)

  /** A member whose name is still open, whose value has not begun, or whose value is under way. */
  datatype PartMember = OpenName(name: string) | NoValue(name: string) | OpenValue(name: string, value: Part)

  // ----- what is shown -----

  function Comma(some: bool): string { if some then "," else "" }

  function Show(p: Part): string
    decreases p
  {
    match p
    case Whole(v) => Print(v)
    case OpenScalar(text) => text
    case OpenStr(s) => "\"" + Escape(s)
    case OpenArr(items, None) => "[" + PrintItems(items)
    case OpenArr(items, Some(last)) => "[" + PrintItems(items) + Comma(items != []) + Show(last)
    case OpenDict(members, None) => "{" + PrintMembers(members)
    case OpenDict(members, Some(next)) => "{" + PrintMembers(members) + Comma(members != []) + ShowMember(next)
  }

  function ShowMember(m: PartMember): string
    decreases m
  {
    match m
    case OpenName(name) => "\"" + Escape(name)
    case NoValue(name) => Dump(name) + ":"
    case OpenValue(name, value) => Dump(name) + ":" + Show(value)
  }

  // ----- what it may become -----

  ghost predicate Begins(p: Part, v: Value)
    decreases p
  {
    match p
    case Whole(w) => w == v
    case OpenScalar(text) => v.Scalar? && text <= v.text
    case OpenStr(s) => v.Str? && s <= v.s
    case OpenArr(items, None) => v.Arr? && items <= v.items
    case OpenArr(items, Some(last)) => v.Arr? && items < v.items && Begins(last, v.items[|items|])
    case OpenDict(members, None) => v.Dict? && members <= v.members
    case OpenDict(members, Some(next)) => v.Dict? && members < v.members && BeginsMember(next, v.members[|members|])
  }

  ghost predicate BeginsMember(p: PartMember, m: Member)
    decreases p
  {
    match p
    case OpenName(name) => name <= m.name
    case NoValue(name) => name == m.name
    case OpenValue(name, value) => name == m.name && Begins(value, m.value)
  }

  lemma {:induction false} ItemsBegin(vs: seq<Value>, k: nat)
    requires k <= |vs|
    ensures PrintItems(vs[..k]) <= PrintItems(vs)
    decreases |vs|
  {
    hide Print;
    if k == |vs| {
      assert vs[..k] == vs;
    } else if |vs| > 1 {
      ItemsBegin(vs[..|vs| - 1], k);
      assert vs[..|vs| - 1][..k] == vs[..k];
    }
  }

  lemma {:induction false} MembersBegin(ms: seq<Member>, k: nat)
    requires k <= |ms|
    ensures PrintMembers(ms[..k]) <= PrintMembers(ms)
    decreases |ms|
  {
    hide PrintMember;
    if k == |ms| {
      assert ms[..k] == ms;
    } else if |ms| > 1 {
      MembersBegin(ms[..|ms| - 1], k);
      assert ms[..|ms| - 1][..k] == ms[..k];
    }
  }

  lemma Continues(head: string, text: string, full: string, all: string)
    requires text <= full && head + full <= all
    ensures head + text <= all
  {
    PrefixCancel(head, text, full);
    PrefixTransitive(head + text, head + full, all);
  }

  lemma ItemsMore(vs: seq<Value>, v: Value)
    ensures PrintItems(vs + [v]) == PrintItems(vs) + Comma(vs != []) + Print(v)
  {
    hide Print;
    var all := vs + [v];
    assert all[..|vs|] == vs && all[|vs|] == v;
    if vs == [] {
      assert "" + "" + Print(v) == Print(v);
    }
  }

  /** The items up to one, and the beginning of that one. */
  lemma ItemsUpTo(vs: seq<Value>, front: seq<Value>, last: Value, text: string)
    requires front + [last] <= vs && text <= Print(last)
    ensures PrintItems(front) + Comma(front != []) + text <= PrintItems(vs)
  {
    hide *;
    ItemsPrefix(front + [last], vs);
    ItemsMore(front, last);
    Continues(PrintItems(front) + Comma(front != []), text, Print(last), PrintItems(vs));
  }

  lemma ItemsPrefix(a: seq<Value>, vs: seq<Value>)
    requires a <= vs
    ensures PrintItems(a) <= PrintItems(vs)
  {
    hide PrintItems;
    ItemsBegin(vs, |a|);
    assert vs[..|a|] == a;
  }

  lemma MembersMore(ms: seq<Member>, m: Member)
    ensures PrintMembers(ms + [m]) == PrintMembers(ms) + Comma(ms != []) + PrintMember(m)
  {
    hide PrintMember;
    var all := ms + [m];
    assert all[..|ms|] == ms && all[|ms|] == m;
    if ms == [] {
      assert "" + "" + PrintMember(m) == PrintMember(m);
    }
  }

  /** The members up to one, and the beginning of that one. */
  lemma MembersUpTo(ms: seq<Member>, front: seq<Member>, last: Member, text: string)
    requires front + [last] <= ms && text <= PrintMember(last)
    ensures PrintMembers(front) + Comma(front != []) + text <= PrintMembers(ms)
  {
    hide *;
    MembersPrefix(front + [last], ms);
    MembersMore(front, last);
    Continues(PrintMembers(front) + Comma(front != []), text, PrintMember(last), PrintMembers(ms));
  }

  lemma MembersPrefix(a: seq<Member>, ms: seq<Member>)
    requires a <= ms
    ensures PrintMembers(a) <= PrintMembers(ms)
  {
    hide PrintMembers;
    MembersBegin(ms, |a|);
    assert ms[..|a|] == a;
  }

  lemma Bracketed(open: string, a: string, b: string, close: string)
    requires a <= b
    ensures open + a <= open + b + close
  {
    AppendBoth(open, a, b, close);
  }

  lemma Join4(a: string, b: string, c: string, d: string)
    ensures a + b + c + d == a + (b + c + d)
  {
  }

  /** The text of every value continues the text of its beginning. */
  lemma {:induction false} ShowBegins(p: Part, v: Value)
    requires Begins(p, v)
    ensures Show(p) <= Print(v)
    decreases p
  {
    hide PrintItems, PrintMembers, Escape;
    match p
    case Whole(_) =>
    case OpenScalar(_) =>
    case OpenStr(s) =>
      EscapePrefix(s, v.s);
      Bracketed("\"", Escape(s), Escape(v.s), "\"");
    case OpenArr(items, None) =>
      ItemsPrefix(items, v.items);
      Bracketed("[", PrintItems(items), PrintItems(v.items), "]");
    case OpenArr(items, Some(last)) =>
      var item := v.items[|items|];
      assert items + [item] <= v.items;
      ShowBegins(last, item);
      ItemsUpTo(v.items, items, item, Show(last));
      Bracketed("[", PrintItems(items) + Comma(items != []) + Show(last), PrintItems(v.items), "]");
      Join4("[", PrintItems(items), Comma(items != []), Show(last));
    case OpenDict(members, None) =>
      MembersPrefix(members, v.members);
      Bracketed("{", PrintMembers(members), PrintMembers(v.members), "}");
    case OpenDict(members, Some(next)) =>
      var m := v.members[|members|];
      assert members + [m] <= v.members;
      ShowMemberBegins(next, m);
      MembersUpTo(v.members, members, m, ShowMember(next));
      Bracketed("{", PrintMembers(members) + Comma(members != []) + ShowMember(next), PrintMembers(v.members), "}");
      Join4("{", PrintMembers(members), Comma(members != []), ShowMember(next));
  }

  lemma {:induction false} ShowMemberBegins(p: PartMember, m: Member)
    requires BeginsMember(p, m)
    ensures ShowMember(p) <= PrintMember(m)
    decreases p
  {
    hide Print, Escape;
    match p
    case OpenName(name) =>
      EscapePrefix(name, m.name);
      Bracketed("\"", Escape(name), Escape(m.name), "\":" + Print(m.value));
      assert PrintMember(m) == "\"" + Escape(m.name) + ("\":" + Print(m.value));
    case NoValue(_) =>
    case OpenValue(_, value) =>
      ShowBegins(value, m.value);
      PrefixCancel(Dump(m.name) + ":", Show(value), Print(m.value));
  }
}
