/** The calls of a Gemma 4 message: what finished tool nodes are read as, and what is shown of one that is
    still arriving. */
module Gemma4Calls {
  import opened JsonText
  import opened JsonValue
  import opened Arrived
  import opened Ast
  import opened AstWalk
  import opened Wrappers
  import opened ChatDiff
  import opened Visitor
  import opened Gemma4

  // ----- finished calls -----

  /** The tool node of a finished call: a finished name, and arguments that stand for `v`. */
  ghost predicate IsCall(n: Node, name: string, v: Value) {
    && n.kind == Tool
    && FindByTag(n, ToolName).Some? && FindByTag(n, ToolArgs).Some?
    && var (nameNode, args) := (FindByTag(n, ToolName).value, FindByTag(n, ToolArgs).value);
       && !nameNode.partial && nameNode.text == name
       && args.children != [] && RepresentsBare(args.children[0], v)
  }

  lemma CallRead(n: Node, name: string, v: Value)
    requires IsCall(n, name, v)
    ensures ToolOf(n) == Some(ToolCall(name, Print(v), ""))
  {
    RendersBare(FindByTag(n, ToolArgs).value.children[0], v);
    hide Render, RepresentsBare, Print, FindByTag;
  }

  // ----- trees -----

  function Leaf(kind: Label, text: string): Node { Node(kind, text, [], false) }

  /** A finished node with children; its own text is not looked at, but it is not empty. */
  function Around(kind: Label, cs: seq<Node>): Node { Node(kind, "...", cs, false) }

  /** The finished tree of a value that is no scalar; numbers, booleans and null are leaves of a kind. */
  function Bare(v: Value, kind: Label): Node
    decreases v, 1
  {
    match v
    case Scalar(text) => Leaf(kind, text)
    case Str(s) => Around(GemmaString, [Leaf(GemmaStringContent, s)])
    case Arr(items) => Around(GemmaArray, ItemTrees(items, kind))
    case Dict(members) => Around(GemmaDict, MemberTrees(members, kind))
  }

  function ItemTrees(vs: seq<Value>, kind: Label): (r: seq<Node>)
    ensures |r| == |vs|
    decreases vs, 0
  {
    if vs == [] then []
    else ItemTrees(vs[..|vs| - 1], kind) + [Around(GemmaValue, [Bare(vs[|vs| - 1], kind)])]
  }

  function MemberTrees(ms: seq<Member>, kind: Label): (r: seq<Node>)
    ensures |r| == |ms|
    decreases ms, 0
  {
    if ms == [] then []
    else
      var m := ms[|ms| - 1];
      MemberTrees(ms[..|ms| - 1], kind) + [KeyValue(m.name, Around(GemmaValue, [Bare(m.value, kind)]))]
  }

  function KeyValue(name: string, value: Node): Node {
    Around(GemmaDictKv, [Around(GemmaDictKey, [Leaf(GemmaDictKeyName, name)]), value])
  }

  /** Scalars and names that the grammar can read: they are not empty. */
  predicate Written(v: Value) {
    match v
    case Scalar(text) => text != ""
    case Str(_) => true
    case Arr(items) => forall i :: 0 <= i < |items| ==> Written(items[i])
    case Dict(members) => forall i :: 0 <= i < |members| ==> members[i].name != "" && Written(members[i].value)
  }

  /** Every such value has a tree that represents it. */
  lemma {:induction false} TreeRepresents(v: Value, kind: Label)
    requires Written(v) && kind in {GemmaNumber, GemmaBool, GemmaNull}
    ensures RepresentsBare(Bare(v, kind), v)
    decreases v, 1
  {
    hide RepresentsAll, RepresentsMembers, ItemTrees, MemberTrees;
    match v
    case Scalar(_) =>
    case Str(_) =>
    case Arr(items) => ItemsRepresent(items, kind);
    case Dict(members) => MembersRepresent(members, kind);
  }

  lemma {:induction false} ItemsRepresent(vs: seq<Value>, kind: Label)
    requires (forall i :: 0 <= i < |vs| ==> Written(vs[i])) && kind in {GemmaNumber, GemmaBool, GemmaNull}
    ensures RepresentsAll(ItemTrees(vs, kind), vs)
    decreases vs, 0
  {
    hide Bare, RepresentsBare, Written;
    if vs != [] {
      var k := |vs| - 1;
      ItemsRepresent(vs[..k], kind);
      TreeRepresents(vs[k], kind);
      assert ItemTrees(vs, kind)[..k] == ItemTrees(vs[..k], kind);
      ValueRepresents(vs[k], kind);
      hide Around, Represents;
      ItemsMore(ItemTrees(vs, kind), vs);
    }
  }

  lemma ItemsMore(cs: seq<Node>, vs: seq<Value>)
    requires |cs| == |vs| > 0
    requires var k := |vs| - 1; RepresentsAll(cs[..k], vs[..k]) && Represents(cs[k], vs[k])
    ensures RepresentsAll(cs, vs)
  {
    hide Represents;
  }

  lemma {:induction false} MembersRepresent(ms: seq<Member>, kind: Label)
    requires forall i :: 0 <= i < |ms| ==> ms[i].name != "" && Written(ms[i].value)
    requires kind in {GemmaNumber, GemmaBool, GemmaNull}
    ensures RepresentsMembers(MemberTrees(ms, kind), ms)
    decreases ms, 0
  {
    hide Bare, RepresentsBare, Written;
    if ms != [] {
      var k := |ms| - 1;
      MembersRepresent(ms[..k], kind);
      TreeRepresents(ms[k].value, kind);
      assert MemberTrees(ms, kind)[..k] == MemberTrees(ms[..k], kind);
      ValueRepresents(ms[k].value, kind);
      KeyRepresents(ms[k].name, Around(GemmaValue, [Bare(ms[k].value, kind)]));
      hide KeyValue, Around, Represents, RepresentsMember;
      MembersMore(MemberTrees(ms, kind), ms);
    }
  }

  lemma ValueRepresents(v: Value, kind: Label)
    requires RepresentsBare(Bare(v, kind), v)
    ensures Represents(Around(GemmaValue, [Bare(v, kind)]), v)
  {
    hide RepresentsBare, Bare;
  }

  lemma KeyRepresents(name: string, value: Node)
    requires name != ""
    ensures RepresentsMember(KeyValue(name, value), name) && KeyValue(name, value).children[1] == value
  {
  }

  lemma MembersMore(cs: seq<Node>, ms: seq<Member>)
    requires |cs| == |ms| > 0
    requires var k := |ms| - 1;
             && RepresentsMembers(cs[..k], ms[..k])
             && RepresentsMember(cs[k], ms[k].name) && Represents(cs[k].children[1], ms[k].value)
    ensures RepresentsMembers(cs, ms)
  {
    hide Represents, RepresentsMember;
  }

  /** The tool node of a call. */
  function CallTree(name: string, v: Value, kind: Label): Node {
    Around(Tool, [Around(ToolOpen, [Leaf(ToolName, name)]), Around(ToolArgs, [Bare(v, kind)])])
  }

  /** Every call has a tree, and is read from it. */
  lemma TreeCalls(name: string, v: Value, kind: Label)
    requires Written(v) && kind in {GemmaNumber, GemmaBool, GemmaNull}
    ensures ToolOf(CallTree(name, v, kind)) == Some(ToolCall(name, Print(v), ""))
  {
    hide Bare, RepresentsBare, Written, Find, Print, Render;
    CallFound(name, Bare(v, kind));
    TreeRepresents(v, kind);
    CallRead(CallTree(name, v, kind), name, v);
  }

  lemma CallFound(name: string, args: Node)
    ensures var n := Around(Tool, [Around(ToolOpen, [Leaf(ToolName, name)]), Around(ToolArgs, [args])]);
            && FindByTag(n, ToolName) == Some(Leaf(ToolName, name))
            && FindByTag(n, ToolArgs) == Some(Around(ToolArgs, [args]))
  {
    hide Find;
    var cs := [Around(ToolOpen, [Leaf(ToolName, name)]), Around(ToolArgs, [args])];
    FindInside(cs, Leaf(ToolName, name), ToolName);
    FindSecond(cs, ToolArgs);
  }

  // ----- several calls -----

  /** The calls with the given names and arguments. */
  function Calls(names: seq<string>, vs: seq<Value>): seq<ToolCall>
    requires |names| == |vs|
  {
    seq(|names|, i requires 0 <= i < |names| => ToolCall(names[i], Print(vs[i]), ""))
  }

  /** The message of a forest whose tool nodes are finished: just their calls, in order. */
  lemma MessageCalls(m: Msg, forest: seq<Node>, names: seq<string>, vs: seq<Value>)
    requires |Tools(Shown(forest))| == |names| == |vs|
    requires forall i :: 0 <= i < |names| ==> IsCall(Tools(Shown(forest))[i], names[i], vs[i])
    ensures VisitAll(ToolOf, m, forest).calls == m.calls + Calls(names, vs)
  {
    hide IsCall, VisitAll, Shown, Tools, ToolOf, Print;
    var ns := Tools(Shown(forest));
    forall i | 0 <= i < |names| ensures ToolOf(ns[i]) == Some(Calls(names, vs)[i]) {
      CallRead(ns[i], names[i], vs[i]);
    }
    VisitCalls(ToolOf, m, forest, Calls(names, vs));
  }

  // ----- arguments that are still arriving -----

  /** `n` is a `gemma4-value` node around an unfinished tree, or with nothing in it yet. */
  ghost predicate HoldsPart(n: Node, p: Part)
    decreases p, 2
  {
    && n.kind == GemmaValue
    && if n.text == "" || n.children == [] then p == OpenScalar("") else IsPart(n.children[0], p)
  }

  /** `c` is the tree of which `p` has arrived. */
  ghost predicate IsPart(c: Node, p: Part)
    decreases p, 1
  {
    match p
    case Whole(v) => RepresentsBare(c, v)
    case OpenScalar(text) => c.kind in {GemmaNumber, GemmaBool, GemmaNull} && c.text == text
    case OpenStr(s) =>
      && c.kind == GemmaString && c.partial && c.text != ""
      && TextBelow(c.children, GemmaStringContent, s)
    case OpenArr(items, None) =>
      c.kind == GemmaArray && c.partial && c.text != "" && RepresentsAll(c.children, items)
    case OpenArr(items, Some(last)) =>
      && c.kind == GemmaArray && c.partial && c.text != ""
      && |c.children| == |items| + 1 && RepresentsAll(c.children[..|items|], items)
      && HoldsPart(c.children[|items|], last)
    case OpenDict(members, None) =>
      c.kind == GemmaDict && c.partial && c.text != "" && RepresentsMembers(c.children, members)
    case OpenDict(members, Some(next)) =>
      && c.kind == GemmaDict && c.partial && c.text != ""
      && |c.children| == |members| + 1 && RepresentsMembers(c.children[..|members|], members)
      && IsPartMember(c.children[|members|], next)
  }

  /** No child yet, or one with the text. */
  predicate TextBelow(cs: seq<Node>, kind: Label, text: string) {
    if cs == [] then text == "" else |cs| == 1 && cs[0].kind == kind && cs[0].text == text
  }

  ghost predicate IsPartMember(c: Node, p: PartMember)
    decreases p, 2
  {
    && c.kind == GemmaDictKv && c.text != "" && c.children != []
    && var key := c.children[0];
       key.kind == GemmaDictKey && key.text != ""
       && (match p
           case OpenName(name) => |c.children| == 1 && key.partial && TextBelow(key.children, GemmaDictKeyName, name)
           case NoValue(name) => |c.children| == 1 && IsKey(key, name)
           case OpenValue(name, value) => |c.children| == 2 && IsKey(key, name) && HoldsPart(c.children[1], value))
  }

  predicate IsKey(key: Node, name: string) {
    && Complete(key, GemmaDictKey) && |key.children| == 1
    && Complete(key.children[0], GemmaDictKeyName) && key.children[0].text == name
  }

  lemma ShowsString(c: Node, s: string)
    requires c.kind == GemmaString && c.partial && c.text != "" && TextBelow(c.children, GemmaStringContent, s)
    ensures Render(c) == "\"" + Escape(s)
  {
    if c.children != [] {
      assert Render(c.children[0]) == Escape(s);
      assert Escape(s) + "" == Escape(s);
    }
  }

  lemma ShowsOpenKey(key: Node, name: string)
    requires key.kind == GemmaDictKey && key.partial && key.text != ""
    requires TextBelow(key.children, GemmaDictKeyName, name)
    ensures Render(key) == "\"" + Escape(name)
  {
    if key.children != [] {
      assert Render(key.children[0]) == name;
    }
    assert "\"" + Escape(name) + "" == "\"" + Escape(name);
  }

  lemma ItemsSnoc(cs: seq<Node>, k: nat)
    requires |cs| == k + 1
    ensures Items(cs) == Items(cs[..k]) + Comma(k > 0) + Render(cs[k])
  {
    hide Render;
    if k == 0 {
      assert "" + "" + Render(cs[0]) == Render(cs[0]);
    }
  }

  lemma ShowsContainer(c: Node, inner: string)
    requires c.kind in {GemmaArray, GemmaDict} && c.partial && c.text != "" && Items(c.children) == inner
    ensures Render(c) == (if c.kind == GemmaArray then "[" else "{") + inner
  {
    hide Items;
    assert "[" + inner + "" == "[" + inner && "{" + inner + "" == "{" + inner;
  }

  lemma ShowsMemberText(c: Node)
    requires c.kind == GemmaDictKv && c.text != ""
    ensures |c.children| == 1 ==> Render(c) == Render(c.children[0])
    ensures |c.children| == 2 ==> Render(c) == Render(c.children[0]) + Render(c.children[1])
  {
    assert Render(c) == All(c.children);
    hide Render;
    if |c.children| == 1 {
      AllOne(c.children);
    } else if |c.children| == 2 {
      AllOne(c.children[..1]);
    }
  }

  lemma AllOne(cs: seq<Node>)
    requires |cs| == 1
    ensures All(cs) == Render(cs[0])
  {
    hide Render;
    assert cs[..0] == [] && All(cs[..0]) == "" && "" + Render(cs[0]) == Render(cs[0]);
  }

  lemma {:induction false} HoldsShows(n: Node, p: Part)
    requires HoldsPart(n, p)
    ensures Render(n) == Show(p)
    decreases p, 2
  {
    if n.text == "" || n.children == [] {
      NothingRendered(n);
    } else {
      hide IsPart, Show, Render;
      ShowsPart(n.children[0], p);
      ValueRenders(n);
    }
  }

  /** A node without text, a value without a child, and nodes of other kinds add nothing. */
  lemma NothingRendered(n: Node)
    requires || n.text == "" || (n.kind == GemmaValue && n.children == [])
             || n.kind !in {GemmaNumber, GemmaBool, GemmaNull, GemmaStringContent, GemmaString, GemmaArray,
                            GemmaDictKeyName, GemmaDictKey, GemmaDictKv, GemmaDict, GemmaValue}
    ensures Render(n) == ""
  {
  }

  /** Everything that has arrived is in the arguments, and nothing else. */
  lemma {:induction false} ShowsPart(c: Node, p: Part)
    requires IsPart(c, p)
    ensures Render(c) == Show(p)
    decreases p, 1
  {
    hide Render, Items, PrintItems, PrintMembers, RepresentsAll, RepresentsMembers, Escape, HoldsPart, IsPartMember,
      RepresentsBare, Print;
    match p
    case Whole(v) => RendersBare(c, v);
    case OpenScalar(_) => ShowsScalar(c);
    case OpenStr(s) => ShowsString(c, s);
    case OpenArr(items, None) =>
      RendersItems(c.children, items);
      ShowsContainer(c, PrintItems(items));
    case OpenArr(items, Some(last)) =>
      RendersItems(c.children[..|items|], items);
      HoldsShows(c.children[|items|], last);
      ItemsSnoc(c.children, |items|);
      ShowsContainer(c, PrintItems(items) + Comma(items != []) + Show(last));
      Join4("[", PrintItems(items), Comma(items != []), Show(last));
    case OpenDict(members, None) =>
      RendersMembers(c.children, members);
      ShowsContainer(c, PrintMembers(members));
    case OpenDict(members, Some(next)) =>
      RendersMembers(c.children[..|members|], members);
      ShowsMember(c.children[|members|], next);
      ItemsSnoc(c.children, |members|);
      ShowsContainer(c, PrintMembers(members) + Comma(members != []) + ShowMember(next));
      Join4("{", PrintMembers(members), Comma(members != []), ShowMember(next));
  }

  lemma ShowsScalar(c: Node)
    requires c.kind in {GemmaNumber, GemmaBool, GemmaNull}
    ensures Render(c) == c.text
  {
  }

  lemma {:induction false} ShowsMember(c: Node, p: PartMember)
    requires IsPartMember(c, p)
    ensures Render(c) == ShowMember(p)
    decreases p, 2
  {
    hide Render, Escape, HoldsPart, Show;
    ShowsMemberText(c);
    var key := c.children[0];
    match p
    case OpenName(name) => ShowsOpenKey(key, name);
    case NoValue(name) => RendersKey(key, name);
    case OpenValue(name, value) =>
      RendersKey(key, name);
      HoldsShows(c.children[1], value);
  }

  /** A tool node that is still arriving shows its call once the name is finished, with all of the arguments
      that is there; the finished arguments continue that text. */
  lemma CallShown(n: Node, name: string, p: Part)
    requires FindByTag(n, ToolName).Some? && FindByTag(n, ToolArgs).Some?
    requires var nameNode := FindByTag(n, ToolName).value; !nameNode.partial && nameNode.text == name
    requires var args := FindByTag(n, ToolArgs).value; args.children != [] && IsPart(args.children[0], p)
    ensures ToolOf(n) == Some(ToolCall(name, Show(p), ""))
    ensures forall v :: Begins(p, v) ==> Show(p) <= Print(v)
  {
    ShowsPart(FindByTag(n, ToolArgs).value.children[0], p);
    hide Render, IsPart, Show, FindByTag, Begins, Print;
    forall v | Begins(p, v) ensures Show(p) <= Print(v) {
      ShowBegins(p, v);
    }
  }

  /** A call is not shown before its name is finished and its arguments have begun, and then with no
      arguments until their first node is there. */
  lemma CallNotYet(n: Node)
    ensures ToolOf(n).Some? <==>
            FindByTag(n, ToolName).Some? && FindByTag(n, ToolArgs).Some? && !FindByTag(n, ToolName).value.partial
    ensures ToolOf(n).Some? && FindByTag(n, ToolArgs).value.children == [] ==>
              ToolOf(n) == Some(ToolCall(FindByTag(n, ToolName).value.text, "", ""))
  {
    hide Render, FindByTag;
  }
}
