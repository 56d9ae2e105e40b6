/** The calls of a MiniMax M3 message: what finished tool nodes are read as, and what is shown of one that is
    still arriving. */
module MiniMaxCalls {
  import opened JsonText
  import opened JsonValue
  import opened Arrived
  import opened Ast
  import opened AstWalk
  import opened Wrappers
  import opened ChatDiff
  import opened Visitor
  import opened MiniMax

  // ----- trees -----

  /** The value of an entry is its first child that holds one. */
  lemma {:induction false} ValueIsFirst(cs: seq<Node>, i: nat)
    requires i < |cs| && cs[i].kind in {ArgValue, ArgStringValue, ArgObject, ArgArray}
    requires forall j :: 0 <= j < i ==> cs[j].kind !in {ArgValue, ArgStringValue, ArgObject, ArgArray}
    ensures ValueOf(cs) == Some(cs[i])
    decreases i
  {
    if i > 0 {
      ValueIsFirst(cs[1..], i - 1);
    }
  }

  function Leaf(kind: Label, text: string): Node { Node(kind, text, [], false) }

  function Around(kind: Label, cs: seq<Node>): Node { Node(kind, "", cs, false) }

  /** A finished tree for a value, with a wrapper around the entries of each list and object. */
  function Tree(v: Value): Node
    decreases v, 1
  {
    match v
    case Scalar(text) => Leaf(ArgValue, text)
    case Str(s) => Leaf(ArgStringValue, s)
    case Arr(items) => Around(ArgArray, [Around(Plain, ItemTrees(items))])
    case Dict(members) => Around(ArgObject, [Around(Plain, MemberTrees(members))])
  }

  function ItemTrees(vs: seq<Value>): (r: seq<Node>)
    ensures |r| == |vs|
    decreases vs, 0
  {
    if vs == [] then [] else ItemTrees(vs[..|vs| - 1]) + [Around(ArgItem, [Tree(vs[|vs| - 1])])]
  }

  function MemberTrees(ms: seq<Member>): (r: seq<Node>)
    ensures |r| == |ms|
    decreases ms, 0
  {
    if ms == [] then []
    else
      var m := ms[|ms| - 1];
      MemberTrees(ms[..|ms| - 1]) + [Around(ToolArg, [Around(ArgOpen, [Leaf(ArgName, m.name)]), Tree(m.value)])]
  }

  /** The tool node of a call. */
  function CallTree(name: string, ms: seq<Member>): Node {
    Around(Tool, [Around(ToolOpen, [Leaf(ToolName, name)]), Around(Plain, MemberTrees(ms))])
  }

  /** What one node contributes. */
  function Contribution(n: Node, tag: Label): seq<Node> { if n.kind == tag then [n] else Collect(n.children, tag) }

  lemma CollectStep(n: Node, rest: seq<Node>, tag: Label)
    ensures Collect([n] + rest, tag) == Contribution(n, tag) + Collect(rest, tag)
  {
    assert ([n] + rest)[1..] == rest;
  }

  lemma JoinNodes(x: seq<Node>, y: seq<Node>, z: seq<Node>)
    ensures x + (y + z) == x + y + z
  {
  }

  lemma {:induction false} CollectConcat(a: seq<Node>, b: seq<Node>, tag: Label)
    ensures Collect(a + b, tag) == Collect(a, tag) + Collect(b, tag)
    decreases |a|
  {
    if a == [] {
      assert a + b == b;
    } else {
      hide *;
      var n, rest := a[0], a[1..];
      CollectConcat(rest, b, tag);
      CollectStep(n, rest, tag);
      CollectStep(n, rest + b, tag);
      assert a == [n] + rest;
      JoinNodes([n], rest, b);
      JoinNodes(Contribution(n, tag), Collect(rest, tag), Collect(b, tag));
    }
  }

  lemma {:induction false} CollectAll(es: seq<Node>, tag: Label)
    requires forall i :: 0 <= i < |es| ==> es[i].kind == tag
    ensures Collect(es, tag) == es
    decreases |es|
  {
    if es != [] {
      CollectAll(es[1..], tag);
      assert es == [es[0]] + es[1..];
    }
  }

  lemma CollectInside(kind: Label, es: seq<Node>, tag: Label)
    requires kind != tag
    ensures Collect([Around(kind, es)], tag) == Collect(es, tag)
  {
    var n := Around(kind, es);
    assert [n][1..] == [] && Collect(es, tag) + [] == Collect(es, tag);
  }

  lemma {:induction false} ItemKinds(vs: seq<Value>)
    ensures forall i :: 0 <= i < |vs| ==> ItemTrees(vs)[i].kind == ArgItem
    decreases |vs|
  {
    if vs != [] {
      ItemKinds(vs[..|vs| - 1]);
    }
  }

  lemma {:induction false} MemberKinds(ms: seq<Member>)
    ensures forall i :: 0 <= i < |ms| ==> MemberTrees(ms)[i].kind == ToolArg
    decreases |ms|
  {
    if ms != [] {
      MemberKinds(ms[..|ms| - 1]);
    }
  }

  lemma TreeKind(v: Value)
    ensures Tree(v).kind in {ArgValue, ArgStringValue, ArgObject, ArgArray}
  {
    hide ItemTrees, MemberTrees;
  }

  /** Every value has a tree that represents it. */
  lemma {:induction false} TreeRepresents(v: Value)
    ensures Represents(Tree(v), v)
    decreases v, 1
  {
    hide RepresentsAll, RepresentsMembers, Collect, ItemTrees, MemberTrees;
    match v
    case Scalar(_) =>
    case Str(_) =>
    case Arr(items) =>
      ItemKinds(items);
      CollectInside(Plain, ItemTrees(items), ArgItem);
      CollectAll(ItemTrees(items), ArgItem);
      ItemsRepresent(items);
    case Dict(members) =>
      MemberKinds(members);
      CollectInside(Plain, MemberTrees(members), ToolArg);
      CollectAll(MemberTrees(members), ToolArg);
      MembersRepresent(members);
  }

  lemma {:induction false} ItemsRepresent(vs: seq<Value>)
    ensures RepresentsAll(ItemTrees(vs), vs)
    decreases vs, 0
  {
    if vs != [] {
      var k := |vs| - 1;
      ItemsRepresent(vs[..k]);
      TreeRepresents(vs[k]);
      TreeKind(vs[k]);
      hide Tree, Represents, ValueOf;
      ValueIsFirst([Tree(vs[k])], 0);
      assert ItemTrees(vs)[..k] == ItemTrees(vs[..k]);
    }
  }

  lemma MemberFound(name: string, tree: Node)
    requires tree.kind in {ArgValue, ArgStringValue, ArgObject, ArgArray}
    ensures var e := Around(ToolArg, [Around(ArgOpen, [Leaf(ArgName, name)]), tree]);
            && FindByTag(e, ArgName) == Some(Leaf(ArgName, name)) && ValueOf(e.children) == Some(tree)
  {
    var cs := [Around(ArgOpen, [Leaf(ArgName, name)]), tree];
    ValueIsFirst(cs, 1);
    FindInside(cs, Leaf(ArgName, name), ArgName);
  }

  lemma {:induction false} MembersRepresent(ms: seq<Member>)
    ensures RepresentsMembers(MemberTrees(ms), ms)
    decreases ms, 0
  {
    if ms != [] {
      var k := |ms| - 1;
      MembersRepresent(ms[..k]);
      TreeRepresents(ms[k].value);
      TreeKind(ms[k].value);
      MemberFound(ms[k].name, Tree(ms[k].value));
      hide Tree, Represents, ValueOf, FindByTag;
      assert MemberTrees(ms)[..k] == MemberTrees(ms[..k]);
    }
  }

  // ----- finished calls -----

  /** The tool node of a finished call: a name, and entries that stand for the members. */
  ghost predicate IsCall(n: Node, name: string, ms: seq<Member>) {
    && n.kind == Tool && !n.partial
    && FindByTag(n, ToolName).Some? && FindByTag(n, ToolName).value.text == name
    && RepresentsMembers(Collect(n.children, ToolArg), ms)
    && forall i :: 0 <= i < |ms| ==> WellFormed(ms[i].value)
  }

  lemma CallRead(n: Node, name: string, ms: seq<Member>)
    requires IsCall(n, name, ms)
    ensures ToolOf(n) == Some(ToolCall(name, Print(Dict(ms)), ""))
  {
    hide Container, Collect, RepresentsMembers, Print, FindByTag;
    CallArguments(n, ms);
  }

  /** Every call has a tree, and is read from it. */
  lemma TreeCalls(name: string, ms: seq<Member>)
    requires WellFormed(Dict(ms))
    ensures ToolOf(CallTree(name, ms)) == Some(ToolCall(name, Print(Dict(ms)), ""))
  {
    hide MemberTrees, Collect, Find, Print, RepresentsMembers, Container;
    NameFound(name, Around(Plain, MemberTrees(ms)));
    MemberKinds(ms);
    MembersRepresent(ms);
    EntriesCollected(name, MemberTrees(ms));
    CallRead(CallTree(name, ms), name, ms);
  }

  lemma NameFound(name: string, entries: Node)
    ensures var n := Around(Tool, [Around(ToolOpen, [Leaf(ToolName, name)]), entries]);
            FindByTag(n, ToolName) == Some(Leaf(ToolName, name))
  {
    hide Find;
    FindInside([Around(ToolOpen, [Leaf(ToolName, name)]), entries], Leaf(ToolName, name), ToolName);
  }

  lemma EntriesCollected(name: string, es: seq<Node>)
    requires forall i :: 0 <= i < |es| ==> es[i].kind == ToolArg
    ensures Collect([Around(ToolOpen, [Leaf(ToolName, name)]), Around(Plain, es)], ToolArg) == es
  {
    var a, b := [Around(ToolOpen, [Leaf(ToolName, name)])], [Around(Plain, es)];
    assert a + b == [Around(ToolOpen, [Leaf(ToolName, name)]), Around(Plain, es)];
    hide Collect, Around, Leaf;
    CollectConcat(a, b, ToolArg);
    CollectInside(ToolOpen, [Leaf(ToolName, name)], ToolArg);
    NothingCollected(name);
    CollectInside(Plain, es, ToolArg);
    CollectAll(es, ToolArg);
    assert [] + es == es;
  }

  lemma NothingCollected(name: string)
    ensures Collect([Leaf(ToolName, name)], ToolArg) == []
  {
    assert [Leaf(ToolName, name)][1..] == [];
  }

  function Calls(names: seq<string>, args: seq<seq<Member>>): seq<ToolCall>
    requires |names| == |args|
  {
    seq(|names|, i requires 0 <= i < |names| => ToolCall(names[i], Print(Dict(args[i])), ""))
  }

  /** The message of a forest whose tool nodes are finished: just their calls, in order. */
  lemma MessageCalls(m: Msg, forest: seq<Node>, names: seq<string>, args: seq<seq<Member>>)
    requires |Tools(Shown(forest))| == |names| == |args|
    requires forall i :: 0 <= i < |names| ==> IsCall(Tools(Shown(forest))[i], names[i], args[i])
    ensures VisitAll(ToolOf, m, forest).calls == m.calls + Calls(names, args)
  {
    hide IsCall, VisitAll, Shown, Tools, ToolOf, Print;
    var ns := Tools(Shown(forest));
    forall i | 0 <= i < |names| ensures ToolOf(ns[i]) == Some(Calls(names, args)[i]) {
      CallRead(ns[i], names[i], args[i]);
    }
    VisitCalls(ToolOf, m, forest, Calls(names, args));
  }

  // ----- arguments that are still arriving -----

  /** The value node `n` of an unfinished entry shows `p`. Strings, lists and objects in it are open. */
  ghost predicate IsPart(n: Node, p: Part)
    decreases p, 1
  {
    match p
    case Whole(_) => false
    case OpenScalar(text) => n.kind == ArgValue && n.text == text
    case OpenStr(s) => n.kind == ArgStringValue && n.text == s
    case OpenArr(items, None) => n.kind == ArgArray && RepresentsAll(Collect(n.children, ArgItem), items)
    case OpenArr(items, Some(last)) =>
      && n.kind == ArgArray
      && var es := Collect(n.children, ArgItem);
         && |es| == |items| + 1 && RepresentsAll(es[..|items|], items)
         && HoldsPart(es[|items|], last) && last != OpenScalar("")
    case OpenDict(members, next) => n.kind == ArgObject && EntriesPart(Collect(n.children, ToolArg), p)
  }

  /** The entries of an object, the last of them perhaps unfinished. */
  ghost predicate EntriesPart(es: seq<Node>, p: Part)
    requires p.OpenDict?
    decreases p, 0
  {
    match p.next
    case None => RepresentsMembers(es, p.members)
    case Some(m) =>
      && |es| == |p.members| + 1 && RepresentsMembers(es[..|p.members|], p.members)
      && IsPartMember(es[|p.members|], m)
  }

  ghost predicate HoldsPart(e: Node, p: Part)
    decreases p, 2
  {
    e.partial && ValueOf(e.children).Some? && IsPart(ValueOf(e.children).value, p)
  }

  /** A name is never seen half, so that an entry begins with a finished one. */
  ghost predicate IsPartMember(e: Node, p: PartMember)
    decreases p
  {
    match p
    case OpenName(_) => false
    case NoValue(name) =>
      && e.partial && ValueOf(e.children).None?
      && FindByTag(e, ArgName).Some? && FindByTag(e, ArgName).value.text == name
    case OpenValue(name, value) =>
      HoldsPart(e, value) && FindByTag(e, ArgName).Some? && FindByTag(e, ArgName).value.text == name
  }

  ghost predicate Sound(p: Part)
    decreases p
  {
    match p
    case OpenArr(items, last) =>
      (forall i :: 0 <= i < |items| ==> WellFormed(items[i])) && (last.Some? ==> Sound(last.value))
    case OpenDict(members, next) =>
      && (forall i :: 0 <= i < |members| ==> WellFormed(members[i].value))
      && (next.Some? && next.value.OpenValue? ==> Sound(next.value.value))
    case _ => true
  }

  lemma ShowsSomething(p: Part)
    requires p != OpenScalar("") && !p.Whole?
    ensures Show(p) != ""
  {
    hide Print, PrintItems, PrintMembers, Escape;
  }

  lemma MemberShowsSomething(m: PartMember)
    ensures ShowMember(m) != ""
  {
    hide Show, Escape;
  }

  lemma JoinMore(es: seq<Node>, isObject: bool, b: nat, front: string, text: string)
    requires es != [] && forall i :: 0 <= i < |es| ==> Size(es[i]) <= b
    requires Join(es[..|es| - 1], isObject, b) == front && EntryJson(es[|es| - 1], isObject) == text != ""
    requires front == "" <==> |es| == 1
    ensures Join(es, isObject, b) == front + Comma(|es| > 1) + text
  {
    hide EntryJson, Size;
    if |es| == 1 {
      assert "" + "" + text == text;
    }
  }

  lemma ShowsContainer(n: Node, isObject: bool, inner: string)
    requires Join(Collect(n.children, EntryTag(isObject)), isObject, SizeAll(n.children)) == inner
    ensures Container(n, isObject, false) == (if isObject then "{" else "[") + inner
  {
    hide Join, Collect;
    assert "[" + inner + "" == "[" + inner && "{" + inner + "" == "{" + inner;
  }

  lemma ValueIs(n: Node)
    ensures n.kind == ArgObject ==> ValueJson(Some(n), false) == Container(n, true, false)
    ensures n.kind == ArgArray ==> ValueJson(Some(n), false) == Container(n, false, false)
    ensures n.kind == ArgStringValue ==> ValueJson(Some(n), false) == "\"" + Escape(n.text)
    ensures n.kind == ArgValue ==> ValueJson(Some(n), false) == n.text
  {
    hide Container;
    assert "\"" + Escape(n.text) + "" == "\"" + Escape(n.text);
  }

  lemma EntryShows(e: Node, p: Part)
    requires e.partial && ValueOf(e.children).Some? && ValueJson(ValueOf(e.children), false) == Show(p)
    ensures EntryJson(e, false) == Show(p)
    ensures FindByTag(e, ArgName).Some? ==>
              EntryJson(e, true) == ShowMember(OpenValue(FindByTag(e, ArgName).value.text, p))
  {
    hide ValueJson, FindByTag, Show;
  }

  lemma EntryWaits(e: Node)
    requires e.partial && ValueOf(e.children).None? && FindByTag(e, ArgName).Some?
    ensures EntryJson(e, true) == ShowMember(NoValue(FindByTag(e, ArgName).value.text))
  {
    hide FindByTag;
    var name := FindByTag(e, ArgName).value.text;
    NothingYet();
    assert Dump(name) + ":" + "" == Dump(name) + ":";
  }

  /** Everything that has arrived of a value is shown, and nothing else. */
  lemma {:induction false} ShowsPart(n: Node, p: Part)
    requires IsPart(n, p) && Sound(p)
    ensures ValueJson(Some(n), false) == Show(p)
    decreases p, 1
  {
    ValueIs(n);
    var b := SizeAll(n.children);
    match p
    case OpenScalar(_) =>
    case OpenStr(_) =>
    case OpenArr(items, last) =>
      ItemsShown(Collect(n.children, ArgItem), items, last, b);
      ArrText(items, last);
      ShowsContainer(n, false, ItemsText(items, last));
    case OpenDict(members, next) =>
      EntriesShown(Collect(n.children, ToolArg), p, b);
      ShowsContainer(n, true, EntriesText(members, next));
      DictText(members, next);
  }

  function ItemsText(items: seq<Value>, last: Option<Part>): string {
    PrintItems(items) + match last case None => "" case Some(p) => Comma(items != []) + Show(p)
  }

  function EntriesText(members: seq<Member>, next: Option<PartMember>): string {
    PrintMembers(members) + match next case None => "" case Some(m) => Comma(members != []) + ShowMember(m)
  }

  lemma ArrText(items: seq<Value>, last: Option<Part>)
    ensures Show(OpenArr(items, last)) == "[" + ItemsText(items, last)
  {
    hide PrintItems, Print;
    match last
    case None => assert PrintItems(items) + "" == PrintItems(items);
    case Some(p) =>
      Join4("[", PrintItems(items), Comma(items != []), Show(p));
      Assoc(PrintItems(items), Comma(items != []), Show(p));
  }

  lemma DictText(members: seq<Member>, next: Option<PartMember>)
    ensures Show(OpenDict(members, next)) == "{" + EntriesText(members, next)
  {
    hide PrintMembers, Print;
    match next
    case None => assert PrintMembers(members) + "" == PrintMembers(members);
    case Some(m) =>
      Join4("{", PrintMembers(members), Comma(members != []), ShowMember(m));
      Assoc(PrintMembers(members), Comma(members != []), ShowMember(m));
  }

  lemma {:induction false} ItemsShown(es: seq<Node>, items: seq<Value>, last: Option<Part>, b: nat)
    requires forall i :: 0 <= i < |es| ==> Size(es[i]) <= b
    requires forall i :: 0 <= i < |items| ==> WellFormed(items[i])
    requires match last
             case None => RepresentsAll(es, items)
             case Some(p) =>
               && |es| == |items| + 1 && RepresentsAll(es[..|items|], items)
               && HoldsPart(es[|items|], p) && p != OpenScalar("") && Sound(p)
    ensures Join(es, false, b) == ItemsText(items, last)
    decreases last, 0
  {
    hide RepresentsAll, Join, PrintItems, Show, EntryJson, Size, IsPart, Sound, WellFormed;
    match last
    case None =>
      RendersItems(es, items, b);
      assert PrintItems(items) + "" == PrintItems(items);
    case Some(p) =>
      var k := |items|;
      RendersItems(es[..k], items, b);
      NothingPrinted();
      ShowsPart(ValueOf(es[k].children).value, p);
      EntryShows(es[k], p);
      assert !p.Whole? by { NotWhole(ValueOf(es[k].children).value, p); }
      ShowsSomething(p);
      JoinMore(es, false, b, PrintItems(items), Show(p));
      Assoc(PrintItems(items), Comma(items != []), Show(p));
  }

  lemma NothingPrinted()
    ensures PrintItems([]) == "" && PrintMembers([]) == ""
  {
  }

  lemma NotWhole(n: Node, p: Part)
    requires IsPart(n, p)
    ensures !p.Whole?
  {
  }

  lemma {:induction false} EntriesShown(es: seq<Node>, p: Part, b: nat)
    requires p.OpenDict? && Sound(p) && EntriesPart(es, p)
    requires forall i :: 0 <= i < |es| ==> Size(es[i]) <= b
    ensures Join(es, true, b) == EntriesText(p.members, p.next)
    decreases p, 0
  {
    var members := p.members;
    assert forall i :: 0 <= i < |members| ==> WellFormed(members[i].value);
    hide RepresentsMembers, Join, PrintMembers, Show, ShowMember, EntryJson, Size, IsPart, WellFormed;
    match p.next
    case None =>
      RendersMembers(es, members, b);
      assert PrintMembers(members) + "" == PrintMembers(members);
    case Some(m) =>
      var k := |members|;
      RendersMembers(es[..k], members, b);
      NothingPrinted();
      MemberShowsSomething(m);
      match m {
        case NoValue(_) => EntryWaits(es[k]);
        case OpenValue(_, value) =>
          assert IsPartMember(es[k], m) && HoldsPart(es[k], value);
          ShowsPart(ValueOf(es[k].children).value, value);
          EntryShows(es[k], value);
      }
      JoinMore(es, true, b, PrintMembers(members), ShowMember(m));
      Assoc(PrintMembers(members), Comma(members != []), ShowMember(m));
  }

  /** A tool node that is still arriving shows its call as soon as the name is there, with all of the
      arguments that is there; the finished arguments continue that text. */
  lemma CallShown(n: Node, name: string, p: Part)
    requires n.partial && p.OpenDict? && Sound(p) && EntriesPart(Collect(n.children, ToolArg), p)
    requires FindByTag(n, ToolName).Some? && FindByTag(n, ToolName).value.text == name
    ensures ToolOf(n) == Some(ToolCall(name, Show(p), ""))
    ensures forall v :: Begins(p, v) ==> Show(p) <= Print(v)
  {
    hide Container, Collect, EntriesPart, Sound, Show, Print, Begins, FindByTag, Join, EntriesText;
    EntriesShown(Collect(n.children, ToolArg), p, SizeAll(n.children));
    ShowsContainer(n, true, EntriesText(p.members, p.next));
    DictText(p.members, p.next);
    forall v | Begins(p, v) ensures Show(p) <= Print(v) {
      ShowBegins(p, v);
    }
  }
}
