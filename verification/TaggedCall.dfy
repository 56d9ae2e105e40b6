/** A whole tagged tool call: whatever the place of its name among its arguments, the mapper
    turns it into one call with well-formed JSON arguments. */
module TaggedCall {
  import opened JsonText
  import opened JsonValue
  import opened Wrappers
  import opened Ast
  import opened ChatDiff
  import opened Mapper
  import Normalize

  // ----- what argument nodes do, wherever the arguments are collected -----

  datatype Acc = Acc(target: string, count: nat, open: bool)

  predicate IsArgEvent(e: Event) {
    e.kind in {ArgOpen, ArgName, ArgValue, ArgStringValue, ArgClose}
  }

  function Started(target: string): string { if target == "" then "{" else target }

  function ArgStep(a: Acc, e: Event): Acc {
    if e.kind == ArgOpen then a.(open := false)
    else if e.kind == ArgName then
      Acc(Started(a.target) + ((if a.count > 0 then "," else "") + Dump(Trim(e.text)) + ":"), a.count + 1, a.open)
    else if e.kind == ArgStringValue then a.(target := a.target + StringPiece(a.open, e.text), open := true)
    else if e.kind == ArgValue then a.(target := a.target + Normalize.Norm(e.text))
    else if a.open then a.(target := a.target + "\"", open := false)
    else a
  }

  function ArgRun(a: Acc, es: seq<Event>): Acc
    decreases |es|
  {
    if es == [] then a else ArgRun(ArgStep(a, es[0]), es[1..])
  }

  lemma {:induction false} ArgRunConcat(a: Acc, x: seq<Event>, y: seq<Event>)
    ensures ArgRun(a, x + y) == ArgRun(ArgRun(a, x), y)
    decreases |x|
  {
    hide ArgStep;
    if x == [] {
      assert x + y == y;
    } else {
      ArgRunConcat(ArgStep(a, x[0]), x[1..], y);
      assert (x + y)[1..] == x[1..] + y && (x + y)[0] == x[0];
    }
  }

  lemma ArgRunOne(a: Acc, e: Event)
    ensures ArgRun(a, [e]) == ArgStep(a, e)
  {
    assert [e][1..] == [];
  }

  function AccOf(s: State): Acc
    requires Inv(s) && s.current != Nowhere
  {
    Acc(Target(s), s.argCount, s.quoteOpen)
  }

  function Put(s: State, a: Acc): State
    requires Inv(s) && s.current != Nowhere
  {
    SetTarget(s, a.target).(argCount := a.count, quoteOpen := a.open)
  }

  lemma PutFacts(s: State, a: Acc, b: Acc)
    requires Inv(s) && s.current != Nowhere
    ensures Inv(Put(s, a)) && Put(s, a).current == s.current
    ensures AccOf(Put(s, a)) == a && Put(Put(s, a), b) == Put(s, b) && Put(s, AccOf(s)) == s
    ensures Current(Put(s, a)).name == Current(s).name && Current(Put(s, a)).id == Current(s).id
  {
    if s.current.InResult? {
      var i := s.current.i;
      assert s.msg.calls[i := s.msg.calls[i]] == s.msg.calls;
    }
  }

  lemma StepIsArgStep(s: State, e: Event)
    requires Inv(s) && s.current != Nowhere && IsArgEvent(e)
    ensures Step(s, e) == Put(s, ArgStep(AccOf(s), e))
  {
    hide Normalize.Norm, Dump, Trim, StringPiece, SetTarget, Target;
    SetSame(s);
  }

  lemma SetSame(s: State)
    requires Inv(s) && s.current != Nowhere
    ensures SetTarget(s, Target(s)) == s
  {
    if s.current.InResult? {
      assert s.msg.calls[s.current.i := s.msg.calls[s.current.i]] == s.msg.calls;
    }
  }

  lemma {:induction false} RunIsArgRun(s: State, es: seq<Event>)
    requires Inv(s) && s.current != Nowhere
    requires forall i :: 0 <= i < |es| ==> IsArgEvent(es[i])
    ensures Run(s, es) == Put(s, ArgRun(AccOf(s), es))
    decreases |es|
  {
    hide Step, ArgStep, Put, AccOf;
    PutFacts(s, AccOf(s), AccOf(s));
    if es != [] {
      var a := ArgStep(AccOf(s), es[0]);
      StepIsArgStep(s, es[0]);
      StepKeepsInv(s, es[0]);
      PutFacts(s, a, ArgRun(a, es[1..]));
      RunIsArgRun(Step(s, es[0]), es[1..]);
    }
  }

  // ----- buffering: an opening brace written early or late -----

  /** No value is written before the first name. */
  predicate Tame(a: Acc, es: seq<Event>)
    decreases |es|
  {
    es == [] ||
    (&& (a.target != "" || es[0].kind in {ArgOpen, ArgName} || (es[0].kind == ArgClose && !a.open))
     && Tame(ArgStep(a, es[0]), es[1..]))
  }

  function Begin(a: Acc): Acc { a.(target := Started(a.target)) }

  /** Writing the brace at once or only when it is needed gives the same arguments. */
  lemma {:induction false} BeginCommutes(a: Acc, es: seq<Event>)
    requires Tame(a, es) && forall i :: 0 <= i < |es| ==> IsArgEvent(es[i])
    ensures ArgRun(Begin(a), es) == Begin(ArgRun(a, es))
    decreases |es|
  {
    hide Normalize.Norm, Dump, Trim, StringPiece;
    if es != [] {
      var a1 := ArgStep(a, es[0]);
      BeginCommutes(a1, es[1..]);
      BeginStep(a, es[0]);
    }
  }

  lemma BeginStep(a: Acc, e: Event)
    requires IsArgEvent(e)
    requires a.target != "" || e.kind in {ArgOpen, ArgName} || (e.kind == ArgClose && !a.open)
    ensures ArgStep(Begin(a), e) == Begin(ArgStep(a, e))
  {
    hide Normalize.Norm, Dump, Trim, StringPiece;
  }

  lemma {:induction false} TameOnceStarted(a: Acc, es: seq<Event>)
    requires a.target != ""
    ensures Tame(a, es)
    decreases |es|
  {
    hide Normalize.Norm, Dump, Trim, StringPiece;
    if es != [] {
      TameOnceStarted(ArgStep(a, es[0]), es[1..]);
    }
  }

  lemma {:induction false} TameSuffix(a: Acc, x: seq<Event>, y: seq<Event>)
    requires Tame(a, x + y)
    ensures Tame(ArgRun(a, x), y)
    decreases |x|
  {
    hide ArgStep;
    if x == [] {
      assert x + y == y;
    } else {
      assert (x + y)[1..] == x[1..] + y && (x + y)[0] == x[0];
      TameSuffix(ArgStep(a, x[0]), x[1..], y);
    }
  }

  // ----- the arguments of a call -----

  /** A value comes as string nodes, which together are one string, or as one raw node. */
  datatype ArgText = Chunks(chunks: seq<string>) | Raw(text: string)
  datatype Arg = Arg(key: string, value: ArgText)

  function Concat(chunks: seq<string>): string {
    if chunks == [] then "" else chunks[0] + Concat(chunks[1..])
  }

  function ValueText(v: ArgText): string {
    match v
    case Chunks(cs) => Dump(Concat(cs))
    case Raw(t) => Normalize.Norm(t)
  }

  function Pair(a: Arg): string { Dump(Trim(a.key)) + ":" + ValueText(a.value) }

  function Joined(args: seq<Arg>): string {
    if args == [] then ""
    else
      var k := |args| - 1;
      Joined(args[..k]) + (if k > 0 then "," else "") + Pair(args[k])
  }

  /** An empty chunk after the first would write a second opening quote; a raw value must
      close what it opens, by Python's own count. */
  predicate WellFormedArg(a: Arg) {
    match a.value
    case Chunks(cs) => cs != [] && forall i :: 1 <= i < |cs| ==> cs[i] != ""
    case Raw(t) =>
      Normalize.PyScan(Normalize.PyLex(0, Normalize.Out, false), t) == Normalize.PyLex(0, Normalize.Out, false)
  }

  function ChunkEvents(cs: seq<string>): (es: seq<Event>)
    ensures forall i :: 0 <= i < |es| ==> IsArgEvent(es[i])
  {
    if cs == [] then [] else [Event(ArgStringValue, cs[0])] + ChunkEvents(cs[1..])
  }

  function ArgEvents(a: Arg): (es: seq<Event>)
    ensures forall i :: 0 <= i < |es| ==> IsArgEvent(es[i])
  {
    [Event(ArgOpen, ""), Event(ArgName, a.key)]
    + ValueEvents(a.value)
    + [Event(ArgClose, "")]
  }

  function AllEvents(args: seq<Arg>): (es: seq<Event>)
    ensures forall i :: 0 <= i < |es| ==> IsArgEvent(es[i])
  {
    if args == [] then [] else AllEvents(args[..|args| - 1]) + ArgEvents(args[|args| - 1])
  }

  lemma {:induction false} ChunksRun(a: Acc, cs: seq<string>)
    requires a.open && forall i :: 0 <= i < |cs| ==> cs[i] != ""
    ensures ArgRun(a, ChunkEvents(cs)) == a.(target := a.target + Escape(Concat(cs)))
    decreases |cs|
  {
    hide EscapeChar;
    if cs == [] {
      assert a.target + "" == a.target;
    } else {
      var a1 := a.(target := a.target + Escape(cs[0]));
      assert ArgStep(a, Event(ArgStringValue, cs[0])) == a1;
      ChunksRun(a1, cs[1..]);
      assert ChunkEvents(cs)[1..] == ChunkEvents(cs[1..]);
      EscapeConcat(cs[0], Concat(cs[1..]));
      Assoc(a.target, Escape(cs[0]), Escape(Concat(cs[1..])));
    }
  }

  /** The quotes of a string value close around its chunks. */
  lemma DumpOfChunks(target: string, first: string, more: string)
    ensures target + ("\"" + Escape(first)) + Escape(more) + "\"" == target + Dump(first + more)
  {
    hide Escape;
    EscapeConcat(first, more);
    var q, e1, e2 := "\"", Escape(first), Escape(more);
    assert Dump(first + more) == q + (e1 + e2) + q;
  }

  lemma FirstChunk(a: Acc, text: string)
    requires !a.open
    ensures ArgStep(a, Event(ArgStringValue, text)) == Acc(a.target + ("\"" + Escape(text)), a.count, true)
  {
    if text == "" { assert "\"" + Escape(text) == "\""; }
    assert "" + "\"" == "\"";
  }

  lemma CloseStep(a: Acc)
    requires a.open
    ensures ArgStep(a, Event(ArgClose, "")) == Acc(a.target + "\"", a.count, false)
  {
  }

  lemma StringRun(a: Acc, cs: seq<string>)
    requires !a.open && cs != [] && forall i :: 1 <= i < |cs| ==> cs[i] != ""
    ensures ArgRun(a, ChunkEvents(cs) + [Event(ArgClose, "")]) == a.(target := a.target + Dump(Concat(cs)))
  {
    hide Escape, Dump, ArgStep, ArgRun;
    var e0, close := Event(ArgStringValue, cs[0]), Event(ArgClose, "");
    var a1 := Acc(a.target + ("\"" + Escape(cs[0])), a.count, true);
    var a2 := a1.(target := a1.target + Escape(Concat(cs[1..])));
    FirstChunk(a, cs[0]);
    ArgRunOne(a, e0);
    ChunksRun(a1, cs[1..]);
    assert ChunkEvents(cs) == [e0] + ChunkEvents(cs[1..]);
    ArgRunConcat(a, [e0], ChunkEvents(cs[1..]));
    ArgRunConcat(a, ChunkEvents(cs), [close]);
    CloseStep(a2);
    ArgRunOne(a2, close);
    DumpOfChunks(a.target, cs[0], Concat(cs[1..]));
  }

  function EmptyChunks(cs: seq<string>): nat {
    if cs == [] then 0 else (if cs[0] == "" then 1 else 0) + EmptyChunks(cs[1..])
  }

  lemma {:induction false} NoEmptyChunks(cs: seq<string>)
    ensures EmptyChunks(cs) == 0 <==> forall i :: 0 <= i < |cs| ==> cs[i] != ""
  {
    if cs != [] {
      NoEmptyChunks(cs[1..]);
      if forall i :: 0 <= i < |cs| ==> cs[i] != "" {
        assert forall i :: 0 <= i < |cs[1..]| ==> cs[1..][i] == cs[i + 1];
      }
      if EmptyChunks(cs) == 0 {
        forall i | 0 <= i < |cs| ensures cs[i] != "" {
          assert i > 0 ==> cs[i] == cs[1..][i - 1];
        }
      }
    }
  }

  /** Each empty chunk inside a string writes one more quote. */
  lemma {:induction false} ChunksLength(a: Acc, cs: seq<string>)
    requires a.open
    ensures var r := ArgRun(a, ChunkEvents(cs));
            r.open && |r.target| == |a.target| + |Escape(Concat(cs))| + EmptyChunks(cs)
    decreases |cs|
  {
    hide EscapeChar;
    if cs != [] {
      EscapeConcat(cs[0], Concat(cs[1..]));
      var e := Event(ArgStringValue, cs[0]);
      assert ChunkEvents(cs)[0] == e && ChunkEvents(cs)[1..] == ChunkEvents(cs[1..]);
      ChunksLength(ArgStep(a, e), cs[1..]);
    }
  }

  lemma DumpLength(x: string, y: string)
    ensures |Dump(x + y)| == |Escape(x)| + |Escape(y)| + 2
  {
    hide Escape;
    EscapeConcat(x, y);
  }

  lemma StringRunLength(a: Acc, cs: seq<string>)
    requires !a.open && cs != []
    ensures |ArgRun(a, ChunkEvents(cs) + [Event(ArgClose, "")]).target|
            == |a.target| + |Dump(Concat(cs))| + EmptyChunks(cs[1..])
  {
    var e0, close, rest := Event(ArgStringValue, cs[0]), Event(ArgClose, ""), cs[1..];
    assert ChunkEvents(cs) == [e0] + ChunkEvents(rest) && Concat(cs) == cs[0] + Concat(rest);
    hide Escape, Dump, ArgStep, ArgRun, EmptyChunks, ChunkEvents, Concat;
    FirstChunk(a, cs[0]);
    var a1 := Acc(a.target + ("\"" + Escape(cs[0])), a.count, true);
    ArgRunOne(a, e0);
    ArgRunConcat(a, [e0], ChunkEvents(rest));
    ArgRunConcat(a, ChunkEvents(cs), [close]);
    ChunksLength(a1, rest);
    var a2 := ArgRun(a1, ChunkEvents(rest));
    ArgRunOne(a2, close);
    CloseStep(a2);
    DumpLength(cs[0], Concat(rest));
  }

  /** A string value that arrives in chunks is written as its JSON string exactly when no chunk after
      the first is empty. */
  lemma StringValueExactly(a: Acc, cs: seq<string>)
    requires !a.open && cs != []
    ensures ArgRun(a, ChunkEvents(cs) + [Event(ArgClose, "")]) == a.(target := a.target + Dump(Concat(cs))) <==>
            forall i :: 1 <= i < |cs| ==> cs[i] != ""
  {
    var rest := cs[1..];
    NoEmptyChunks(rest);
    assert (forall i :: 1 <= i < |cs| ==> cs[i] != "") <==> EmptyChunks(rest) == 0 by {
      if EmptyChunks(rest) == 0 {
        forall i | 1 <= i < |cs| ensures cs[i] != "" {
          assert rest[i - 1] == cs[i];
        }
      }
    }
    hide Dump, ArgRun, EmptyChunks, ChunkEvents, Concat;
    if EmptyChunks(rest) == 0 {
      StringRun(a, cs);
    } else {
      StringRunLength(a, cs);
    }
  }

  function ValueEvents(v: ArgText): (es: seq<Event>)
    ensures forall i :: 0 <= i < |es| ==> IsArgEvent(es[i])
  {
    match v case Chunks(cs) => ChunkEvents(cs) case Raw(t) => [Event(ArgValue, t)]
  }

  lemma ValueRun(a: Acc, arg: Arg)
    requires !a.open && WellFormedArg(arg)
    ensures ArgRun(a, ValueEvents(arg.value) + [Event(ArgClose, "")]) == a.(target := a.target + ValueText(arg.value))
  {
    hide Dump, Normalize.Norm, ArgRun;
    var close := Event(ArgClose, "");
    match arg.value
    case Chunks(cs) => StringRun(a, cs);
    case Raw(t) =>
      ArgRunConcat(a, [Event(ArgValue, t)], [close]);
      ArgRunOne(a, Event(ArgValue, t));
      ArgRunOne(a.(target := a.target + Normalize.Norm(t)), close);
  }

  function Entry(count: nat, key: string): string {
    (if count > 0 then "," else "") + Dump(Trim(key)) + ":"
  }

  lemma NameRun(a: Acc, key: string)
    ensures ArgRun(a, [Event(ArgOpen, ""), Event(ArgName, key)])
            == Acc(Started(a.target) + Entry(a.count, key), a.count + 1, false)
  {
    hide Dump, Trim, ArgRun;
    var e0, e1 := Event(ArgOpen, ""), Event(ArgName, key);
    assert [e0, e1] == [e0] + [e1];
    ArgRunConcat(a, [e0], [e1]);
    ArgRunOne(a, e0);
    ArgRunOne(a.(open := false), e1);
  }

  lemma OneArg(a: Acc, arg: Arg)
    requires WellFormedArg(arg)
    ensures ArgRun(a, ArgEvents(arg))
            == Acc(Started(a.target) + (if a.count > 0 then "," else "") + Pair(arg), a.count + 1, false)
  {
    hide Dump, Trim, ValueText, ArgRun, ValueEvents, ArgStep, Started, WellFormedArg;
    var named := Acc(Started(a.target) + Entry(a.count, arg.key), a.count + 1, false);
    var head, tail := [Event(ArgOpen, ""), Event(ArgName, arg.key)], ValueEvents(arg.value) + [Event(ArgClose, "")];
    assert ArgEvents(arg) == head + tail;
    ArgRunConcat(a, head, tail);
    NameRun(a, arg.key);
    ValueRun(named, arg);
    var s, c := Started(a.target), if a.count > 0 then "," else "";
    var d, v := Dump(Trim(arg.key)) + ":", ValueText(arg.value);
    assert s + (c + Dump(Trim(arg.key)) + ":") + v == s + c + (d + v);
  }

  lemma {:induction false} AllArgs(args: seq<Arg>)
    requires forall i :: 0 <= i < |args| ==> WellFormedArg(args[i])
    ensures var r := ArgRun(Acc("", 0, false), AllEvents(args));
            Begin(r) == Acc("{" + Joined(args), |args|, false) && (args != [] ==> r == Begin(r))
  {
    hide Pair, ArgStep;
    if args == [] {
      assert "{" + "" == "{";
    } else {
      hide ArgRun, ArgEvents, WellFormedArg;
      var k := |args| - 1;
      AllArgs(args[..k]);
      var before := ArgRun(Acc("", 0, false), AllEvents(args[..k]));
      ArgRunConcat(Acc("", 0, false), AllEvents(args[..k]), ArgEvents(args[k]));
      OneArg(before, args[k]);
      var comma := if k > 0 then "," else "";
      assert Joined(args) == Joined(args[..k]) + comma + Pair(args[k]);
      Assoc("{", Joined(args[..k]) + comma, Pair(args[k]));
      Assoc("{", Joined(args[..k]), comma);
    }
  }

  lemma ArgsTame(args: seq<Arg>)
    ensures Tame(Acc("", 0, false), AllEvents(args))
  {
    hide Normalize.Norm, Dump, Trim;
    if args != [] {
      FirstTwo(args);
      var es := AllEvents(args);
      var a := Acc("", 0, false);
      var a2 := ArgStep(a, es[1]);
      TameOnceStarted(a2, es[1..][1..]);
      assert Tame(a, es[1..]);
    }
  }

  lemma {:induction false} FirstTwo(args: seq<Arg>)
    requires args != []
    ensures |AllEvents(args)| >= 2
    ensures AllEvents(args)[0] == Event(ArgOpen, "") && AllEvents(args)[1] == Event(ArgName, args[0].key)
  {
    var k := |args| - 1;
    if k > 0 {
      FirstTwo(args[..k]);
    }
  }

  // ----- braces -----

  lemma ScanDump(d: int, s: string)
    ensures Scan(Lex(d, false, false), Dump(s)) == Lex(d, false, false)
  {
    ScanConcat(Lex(d, false, false), "\"" + Escape(s), "\"");
    ScanConcat(Lex(d, false, false), "\"", Escape(s));
    ScanChar(Lex(d, false, false), '"');
    ScanEscape(d, s);
    ScanChar(Lex(d, true, false), '"');
  }

  lemma ScanChar(st: Lex, c: char)
    ensures Scan(st, [c]) == LexStep(st, c)
  {
    assert [c][1..] == "";
  }

  lemma ScanPair(a: Arg)
    requires WellFormedArg(a)
    ensures Scan(Lex(1, false, false), Pair(a)) == Lex(1, false, false)
  {
    hide Dump, Normalize.Norm, Normalize.PyScan;
    var st := Lex(1, false, false);
    ScanConcat(st, Dump(Trim(a.key)) + ":", ValueText(a.value));
    ScanConcat(st, Dump(Trim(a.key)), ":");
    ScanDump(1, Trim(a.key));
    ScanChar(st, ':');
    match a.value
    case Chunks(cs) => ScanDump(1, Concat(cs));
    case Raw(t) =>
      Normalize.DepthPreserved(t);
      ScanShift(START, 1, Normalize.Norm(t));
  }

  lemma JoinedStep(args: seq<Arg>)
    requires args != []
    ensures var k := |args| - 1;
            "{" + Joined(args) == "{" + Joined(args[..k]) + (if k > 0 then "," else "") + Pair(args[k])
  {
    hide Pair;
    var k := |args| - 1;
    var front, comma, pair := Joined(args[..k]), if k > 0 then "," else "", Pair(args[k]);
    Assoc("{", front + comma, pair);
    Assoc("{", front, comma);
  }

  lemma {:induction false} ScanJoined(args: seq<Arg>)
    requires forall i :: 0 <= i < |args| ==> WellFormedArg(args[i])
    ensures Scan(START, "{" + Joined(args)) == Lex(1, false, false)
  {
    if args == [] {
      assert "{" + "" == "{";
      ScanChar(START, '{');
    } else {
      hide Pair, Joined, Scan, WellFormedArg;
      var k := |args| - 1;
      var front, comma := "{" + Joined(args[..k]), if k > 0 then "," else "";
      ScanJoined(args[..k]);
      JoinedStep(args);
      ScanConcat(START, front + comma, Pair(args[k]));
      ScanConcat(START, front, comma);
      ScanComma(k > 0);
      ScanPair(args[k]);
    }
  }

  lemma ScanComma(more: bool)
    ensures Scan(Lex(1, false, false), if more then "," else "") == Lex(1, false, false)
  {
    if more {
      ScanChar(Lex(1, false, false), ',');
    }
  }

  // ----- the whole call -----

  /** The nodes of a call whose name arrives after `at` of its argument nodes. */
  function CallEvents(name: string, args: seq<Arg>, at: nat): seq<Event>
    requires at <= |AllEvents(args)|
  {
    [Event(ToolOpen, "")] + AllEvents(args)[..at] + [Event(ToolName, name)] + AllEvents(args)[at..]
    + [Event(ToolClose, "")]
  }

  lemma CallRun(s: State, name: string, args: seq<Arg>, at: nat)
    requires Inv(s) && at <= |AllEvents(args)|
    ensures Inv(Step(s, Event(ToolOpen, "")))
    ensures var s1 := Run(Step(s, Event(ToolOpen, "")), AllEvents(args)[..at]);
            var s2 := StepKept(s1, Event(ToolName, name));
            var s3 := Run(s2, AllEvents(args)[at..]);
            Run(s, CallEvents(name, args, at)) == Step(s3, Event(ToolClose, ""))
  {
    hide Step;
    var open, nm, close := Event(ToolOpen, ""), Event(ToolName, name), Event(ToolClose, "");
    var pre, post := AllEvents(args)[..at], AllEvents(args)[at..];
    StepKeepsInv(s, open);
    RunConcat(s, [open] + pre + [nm] + post, [close]);
    RunConcat(s, [open] + pre + [nm], post);
    RunConcat(s, [open] + pre, [nm]);
    RunConcat(s, [open], pre);
    RunOne(s, open);
    var s1 := Run(Step(s, open), pre);
    RunOne(s1, nm);
    var s3 := Run(StepKept(s1, nm), post);
    RunOne(s3, close);
  }

  function StepKept(s: State, e: Event): (r: State)
    requires Inv(s)
    ensures Inv(r) && r == Step(s, e)
  {
    StepKeepsInv(s, e);
    Step(s, e)
  }

  lemma RunOne(s: State, e: Event)
    requires Inv(s)
    ensures Run(s, [e]) == Step(s, e)
  {
    hide Step;
    StepKeepsInv(s, e);
    assert [e][1..] == [];
  }

  /** The arguments in two runs, with the name between them. */
  lemma ArgumentsInTwo(args: seq<Arg>, pre: seq<Event>, post: seq<Event>)
    requires pre + post == AllEvents(args) && forall i :: 0 <= i < |args| ==> WellFormedArg(args[i])
    requires (forall i :: 0 <= i < |pre| ==> IsArgEvent(pre[i])) && forall i :: 0 <= i < |post| ==> IsArgEvent(post[i])
    ensures ArgRun(Begin(ArgRun(Acc("", 0, false), pre)), post) == Acc("{" + Joined(args), |args|, false)
  {
    hide AllEvents, ArgRun, Joined, WellFormedArg, Tame, Started;
    var zero := Acc("", 0, false);
    ArgsTame(args);
    TameSuffix(zero, pre, post);
    BeginCommutes(ArgRun(zero, pre), post);
    ArgRunConcat(zero, pre, post);
    AllArgs(args);
  }

  /** For every tagged call and every place of its name, from every state: exactly one call is
      added, with the name and with `{` + the escaped pairs, comma-separated, + `}`. */
  lemma TaggedCallResult(s: State, name: string, args: seq<Arg>, at: nat)
    requires Inv(s) && at <= |AllEvents(args)| && TrimTrailing(name) != ""
    requires forall i :: 0 <= i < |args| ==> WellFormedArg(args[i])
    ensures Run(s, CallEvents(name, args, at)).msg
            == s.msg.(calls := s.msg.calls + [ToolCall(TrimTrailing(name), "{" + Joined(args) + "}", "")])
  {
    hide AllEvents, ArgRun, Joined, Run, WellFormedArg, CallEvents, TrimTrailing, Step, Put, AccOf;
    var es := AllEvents(args);
    var pre, post := es[..at], es[at..];
    assert pre + post == es;
    CallRun(s, name, args, at);
    var s0 := StepKept(s, Event(ToolOpen, ""));
    var x := ArgRun(Acc("", 0, false), pre);
    OpenedState(s, x);
    RunIsArgRun(s0, pre);
    var s1 := Put(s0, x);
    PutFacts(s0, x, x);
    var s2 := StepKept(s1, Event(ToolName, name));
    NamedState(s, s1, x, name);
    RunIsArgRun(s2, post);
    ArgumentsInTwo(args, pre, post);
    ClosedState(s, s2, Acc("{" + Joined(args), |args|, false), TrimTrailing(name), args);
  }

  lemma OpenedState(s: State, x: Acc)
    requires Inv(s)
    ensures var s0 := StepKept(s, Event(ToolOpen, ""));
            && s0.current == Pending && AccOf(s0) == Acc("", 0, false)
            && Put(s0, x) == State(s.msg, Some(NO_CALL), Pending, x.count, x.open, x.target)
  {
  }

  lemma NamedState(s: State, s1: State, x: Acc, name: string)
    requires Inv(s1) && TrimTrailing(name) != ""
    requires s1 == State(s.msg, Some(NO_CALL), Pending, x.count, x.open, x.target)
    ensures Step(s1, Event(ToolName, name))
            == State(s.msg.(calls := s.msg.calls + [ToolCall(TrimTrailing(name), Started(x.target), "")]),
                     None, InResult(|s.msg.calls|), x.count, x.open, "")
    ensures AccOf(StepKept(s1, Event(ToolName, name))) == Begin(x)
  {
    hide TrimTrailing;
  }

  lemma CloseNamed(s: State)
    requires Inv(s) && s.current.InResult? && !s.quoteOpen && s.buffer == ""
    ensures var c := Current(s);
            Step(s, Event(ToolClose, "")).msg
            == SetCurrent(s, c.(arguments := c.arguments + Closers(Scan(START, c.arguments).depth))).msg
  {
    hide Scan, Closers;
    assert Current(s).arguments + "" == Current(s).arguments;
  }

  lemma ClosedState(s: State, s2: State, y: Acc, name: string, args: seq<Arg>)
    requires Inv(s2) && s2.current == InResult(|s.msg.calls|) && name != "" && s2.buffer == ""
    requires s2.msg.calls == s.msg.calls + [Current(s2)] && Current(s2).name == name && Current(s2).id == ""
    requires s2.msg == s.msg.(calls := s2.msg.calls)
    requires y.target == "{" + Joined(args) && !y.open
    requires forall i :: 0 <= i < |args| ==> WellFormedArg(args[i])
    ensures Inv(Put(s2, y))
    ensures Step(Put(s2, y), Event(ToolClose, "")).msg
            == s.msg.(calls := s.msg.calls + [ToolCall(name, "{" + Joined(args) + "}", "")])
  {
    hide Scan, Joined, Step, WellFormedArg, Closers;
    PutFacts(s2, y, y);
    ScanJoined(args);
    OneCloser();
    CloseNamed(Put(s2, y));
    assert Current(Put(s2, y)) == ToolCall(name, y.target, "");
    LastReplaced(s.msg.calls, Current(s2), ToolCall(name, y.target, ""), ToolCall(name, y.target + "}", ""));
  }

  lemma OneCloser()
    ensures Closers(1) == "}"
  {
    assert Closers(0) == "" && "}" + "" == "}";
  }

  lemma LastReplaced(calls: seq<ToolCall>, a: ToolCall, b: ToolCall, c: ToolCall)
    ensures (calls + [a])[|calls| := b] == calls + [b]
    ensures (calls + [b])[|calls| := c] == calls + [c]
  {
  }

  /** Where the name arrives makes no difference to the message. */
  lemma NamePlaceIrrelevant(s: State, name: string, args: seq<Arg>, at: nat, other: nat)
    requires Inv(s) && at <= |AllEvents(args)| && other <= |AllEvents(args)| && TrimTrailing(name) != ""
    requires forall i :: 0 <= i < |args| ==> WellFormedArg(args[i])
    ensures Run(s, CallEvents(name, args, at)).msg == Run(s, CallEvents(name, args, other)).msg
  {
    hide Run, CallEvents, Joined;
    TaggedCallResult(s, name, args, at);
    TaggedCallResult(s, name, args, other);
  }

  // ----- the arguments as JSON -----

  /** The value an argument stands for: its string, or the JSON its raw text normalises to. */
  ghost predicate Means(a: Arg, m: Member) {
    m.name == Trim(a.key) && WellFormed(m.value) && ValueText(a.value) == Print(m.value)
  }

  lemma {:induction false} JoinedPrints(args: seq<Arg>, ms: seq<Member>)
    requires |args| == |ms| && forall i :: 0 <= i < |ms| ==> Means(args[i], ms[i])
    ensures Joined(args) == PrintMembers(ms)
    decreases |ms|
  {
    hide Pair, PrintMember, Means;
    if ms != [] {
      var k := |ms| - 1;
      JoinedPrints(args[..k], ms[..k]);
      PairPrints(args[k], ms[k]);
      if k == 0 {
        assert "" + "" + Pair(args[0]) == Pair(args[0]);
      }
    }
  }

  lemma PairPrints(a: Arg, m: Member)
    requires Means(a, m)
    ensures Pair(a) == PrintMember(m)
  {
    hide Print, Dump, Trim, ValueText;
  }

  /** If every raw value normalises to JSON, the arguments of the finished call read back as
      the object of its arguments. */
  lemma ArgumentsRead(args: seq<Arg>, ms: seq<Member>)
    requires |args| == |ms| && forall i :: 0 <= i < |ms| ==> Means(args[i], ms[i])
    ensures ReadValue("{" + Joined(args) + "}") == Got(Dict(ms), "")
  {
    hide Joined, PrintMembers, ReadValue;
    JoinedPrints(args, ms);
    RoundTrip(Dict(ms));
  }
}
