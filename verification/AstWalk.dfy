/** Walks over parse trees: the texts a walk collects, and what a search by tag looks at. */
module AstWalk {
  import opened Wrappers
  import opened Ast

  // ----- what a walk collects -----

  /** The texts of the nodes with one tag, in order. */
  function TextOf(ns: seq<Node>, tag: Label): string {
    if ns == [] then "" else (if ns[0].kind == tag then ns[0].text else "") + TextOf(ns[1..], tag)
  }

  lemma TextOfOne(n: Node, tag: Label)
    ensures TextOf([n], tag) == if n.kind == tag then n.text else ""
  {
    assert [n][1..] == [] && n.text + "" == n.text;
  }

  lemma JoinTexts(x: string, y: string, z: string)
    ensures x + (y + z) == x + y + z
  {
  }

  lemma {:induction false} TextOfConcat(a: seq<Node>, b: seq<Node>, tag: Label)
    ensures TextOf(a + b, tag) == TextOf(a, tag) + TextOf(b, tag)
    decreases |a|
  {
    if a == [] {
      assert a + b == b;
    } else {
      TextOfConcat(a[1..], b, tag);
      var c := a + b;
      assert c[1..] == a[1..] + b && c[0] == a[0];
      var head := if a[0].kind == tag then a[0].text else "";
      assert TextOf(a, tag) == head + TextOf(a[1..], tag) && TextOf(c, tag) == head + TextOf(c[1..], tag);
      hide TextOf;
      JoinTexts(head, TextOf(a[1..], tag), TextOf(b, tag));
    }
  }

  /** All nodes of a forest in document order: a node before its children, from left to right. */
  function Nodes(cs: seq<Node>): seq<Node>
    decreases cs
  {
    if cs == [] then [] else [cs[0]] + Nodes(cs[0].children) + Nodes(cs[1..])
  }

  // ----- what a search looks at -----

  /** All nodes at most `depth` levels down, in document order. */
  function Preorder(cs: seq<Node>, depth: nat): seq<Node>
    decreases depth, |cs|
  {
    if cs == [] then []
    else [cs[0]] + (if depth > 1 then Preorder(cs[0].children, depth - 1) else []) + Preorder(cs[1..], depth)
  }

  /** `r` is the first of the nodes with the tag, if there is one. */
  ghost predicate IsFirst(ns: seq<Node>, tag: Label, r: Option<Node>) {
    match r
    case None => forall i :: 0 <= i < |ns| ==> ns[i].kind != tag
    case Some(n) =>
      n.kind == tag && exists i :: 0 <= i < |ns| && ns[i] == n && forall j :: 0 <= j < i ==> ns[j].kind != tag
  }

  lemma FirstHere(ns: seq<Node>, tag: Label)
    requires ns != [] && ns[0].kind == tag
    ensures IsFirst(ns, tag, Some(ns[0]))
  {
  }

  lemma FirstLeft(a: seq<Node>, b: seq<Node>, tag: Label, r: Option<Node>)
    requires IsFirst(a, tag, r) && r.Some?
    ensures IsFirst(a + b, tag, r)
  {
    var i :| 0 <= i < |a| && a[i] == r.value && forall j :: 0 <= j < i ==> a[j].kind != tag;
    assert (a + b)[i] == a[i];
  }

  lemma FirstRight(a: seq<Node>, b: seq<Node>, tag: Label, r: Option<Node>)
    requires IsFirst(a, tag, None) && IsFirst(b, tag, r)
    ensures IsFirst(a + b, tag, r)
  {
    if r.Some? {
      var i :| 0 <= i < |b| && b[i] == r.value && forall j :: 0 <= j < i ==> b[j].kind != tag;
      assert (a + b)[|a| + i] == b[i];
    }
  }

  /** The search finds the first match within its depth, and nothing only if there is none. */
  lemma {:induction false} FindIsFirst(cs: seq<Node>, tag: Label, depth: nat)
    ensures IsFirst(Preorder(cs, depth), tag, Find(cs, tag, depth))
    decreases depth, |cs|
  {
    if cs != [] {
      var inner := if depth > 1 then Preorder(cs[0].children, depth - 1) else [];
      var below := if depth > 1 then Find(cs[0].children, tag, depth - 1) else None;
      if depth > 1 {
        FindIsFirst(cs[0].children, tag, depth - 1);
      }
      FindIsFirst(cs[1..], tag, depth);
      hide Find, IsFirst;
      var rest := Preorder(cs[1..], depth);
      FindStep(cs, tag, depth);
      if cs[0].kind == tag {
        FirstHere(Preorder(cs, depth), tag);
      } else {
        NotFirst(cs[0], tag);
        assert IsFirst(inner, tag, below) by { EmptyFirst(tag); }
        FirstRight([cs[0]], inner, tag, below);
        if below.Some? {
          FirstLeft([cs[0]] + inner, rest, tag, below);
        } else {
          FirstRight([cs[0]] + inner, rest, tag, Find(cs[1..], tag, depth));
        }
      }
    }
  }

  lemma FindStep(cs: seq<Node>, tag: Label, depth: nat)
    requires cs != []
    ensures cs[0].kind == tag ==> Find(cs, tag, depth) == Some(cs[0])
    ensures cs[0].kind != tag ==>
              var below := if depth > 1 then Find(cs[0].children, tag, depth - 1) else None;
              Find(cs, tag, depth) == if below.Some? then below else Find(cs[1..], tag, depth)
  {
  }

  /** A leaf with the tag inside the first node. */
  lemma FindInside(cs: seq<Node>, leaf: Node, tag: Label)
    requires cs != [] && cs[0].kind != tag && cs[0].children == [leaf] && leaf.kind == tag
    ensures Find(cs, tag, MAX_DEPTH) == Some(leaf)
  {
    FindStep(cs, tag, 3);
    FindStep([leaf], tag, 2);
  }

  /** A node with the tag behind a first one that has nothing like it. */
  lemma FindSecond(cs: seq<Node>, tag: Label)
    requires |cs| >= 2 && cs[0].kind != tag && cs[1].kind == tag
    requires |cs[0].children| == 1 && cs[0].children[0].kind != tag && cs[0].children[0].children == []
    ensures Find(cs, tag, MAX_DEPTH) == Some(cs[1])
  {
    var inner := cs[0].children;
    FindStep(cs, tag, 3);
    FindStep(inner, tag, 2);
    assert inner[1..] == [] && Find([], tag, 2) == None && Find(inner[0].children, tag, 1) == None;
    FindStep(cs[1..], tag, 3);
  }

  lemma NotFirst(n: Node, tag: Label)
    requires n.kind != tag
    ensures IsFirst([n], tag, None)
  {
  }

  lemma EmptyFirst(tag: Label)
    ensures IsFirst([], tag, None)
  {
  }
}
