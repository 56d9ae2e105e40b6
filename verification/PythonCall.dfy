/** A tagged call whose arguments are strings and Python values: its arguments are the JSON object of them. */
module PythonCall {
  import opened JsonText
  import opened JsonValue
  import opened PythonText
  import opened Mapper
  import opened MapperResults
  import opened TaggedCall
  import opened ChatDiff
  import Normalize

  /** A string that arrives in pieces, or a value printed the Python way. */
  datatype Given = Pieces(chunks: seq<string>) | Native(p: Py)

  datatype Named = Named(key: string, value: Given)

  predicate Writable(g: Given) {
    match g
    case Pieces(cs) => cs != [] && forall i :: 1 <= i < |cs| ==> cs[i] != ""
    case Native(p) => PythonText.Sound(p) && Readable(p)
  }

  function Written(n: Named): Arg {
    Arg(n.key, match n.value case Pieces(cs) => Chunks(cs) case Native(p) => Raw(PyPrint(p, "")))
  }

  function Meant(n: Named): Member {
    Member(Trim(n.key), match n.value case Pieces(cs) => Str(Concat(cs)) case Native(p) => ValueOf(p))
  }

  /** A printed value closes what it opens, and normalises to its JSON. */
  lemma NativeArg(key: string, p: Py)
    requires PythonText.Sound(p) && Readable(p)
    ensures var n := Named(key, Native(p)); WellFormedArg(Written(n)) && Means(Written(n), Meant(n))
  {
    hide Normalize.Norm, Normalize.PyScan, PyPrint, Scan, Print, PythonText.Sound, Readable, Trim, WellFormed, ValueOf;
    var t := PyPrint(p, "");
    NormReads(p);
    ReadableWellFormed(p);
    ScanPrint(0, ValueOf(p));
    Normalize.DepthPreserved(t);
  }

  lemma PiecesArg(key: string, cs: seq<string>)
    requires Writable(Pieces(cs))
    ensures var n := Named(key, Pieces(cs)); WellFormedArg(Written(n)) && Means(Written(n), Meant(n))
  {
    hide Trim, Dump, Concat;
  }

  lemma EachArg(n: Named)
    requires Writable(n.value)
    ensures WellFormedArg(Written(n)) && Means(Written(n), Meant(n))
  {
    hide WellFormedArg, Means;
    match n.value
    case Pieces(cs) => PiecesArg(n.key, cs);
    case Native(p) => NativeArg(n.key, p);
  }

  function AllWritten(ns: seq<Named>): (args: seq<Arg>)
    ensures |args| == |ns| && forall i :: 0 <= i < |ns| ==> args[i] == Written(ns[i])
  {
    seq(|ns|, i requires 0 <= i < |ns| => Written(ns[i]))
  }

  function AllMeant(ns: seq<Named>): (ms: seq<Member>)
    ensures |ms| == |ns| && forall i :: 0 <= i < |ns| ==> ms[i] == Meant(ns[i])
  {
    seq(|ns|, i requires 0 <= i < |ns| => Meant(ns[i]))
  }

  /** Any arguments that mean the members of an object. */
  lemma MeantCall(s: State, name: string, args: seq<Arg>, ms: seq<Member>, at: nat)
    requires Inv(s) && TrimTrailing(name) != "" && at <= |AllEvents(args)|
    requires |args| == |ms| && forall i :: 0 <= i < |args| ==> WellFormedArg(args[i]) && Means(args[i], ms[i])
    ensures ReadValue(Print(Dict(ms))) == Got(Dict(ms), "")
    ensures Run(s, CallEvents(name, args, at)).msg
         == s.msg.(calls := s.msg.calls + [ToolCall(TrimTrailing(name), Print(Dict(ms)), "")])
  {
    hide WellFormedArg, Means, Run, CallEvents, AllEvents, Joined, PrintMembers, TrimTrailing, ReadValue, Inv;
    TaggedCallResult(s, name, args, at);
    JoinedPrints(args, ms);
    ArgumentsRead(args, ms);
  }

  lemma AllMean(ns: seq<Named>)
    requires forall i :: 0 <= i < |ns| ==> Writable(ns[i].value)
    ensures forall i :: 0 <= i < |ns| ==>
              WellFormedArg(AllWritten(ns)[i]) && Means(AllWritten(ns)[i], AllMeant(ns)[i])
  {
    hide Written, Meant, WellFormedArg, Means, Writable;
    forall i | 0 <= i < |ns|
      ensures WellFormedArg(AllWritten(ns)[i]) && Means(AllWritten(ns)[i], AllMeant(ns)[i])
    {
      EachArg(ns[i]);
    }
  }

  /** From every state and for every place of the name: one call more, whose arguments are the canonical
      text of the object that was meant, and read back as it. */
  lemma PythonCallResult(s: State, name: string, ns: seq<Named>, at: nat)
    requires Inv(s) && TrimTrailing(name) != "" && at <= |AllEvents(AllWritten(ns))|
    requires forall i :: 0 <= i < |ns| ==> Writable(ns[i].value)
    ensures var text := Print(Dict(AllMeant(ns)));
            && ReadValue(text) == Got(Dict(AllMeant(ns)), "")
            && Run(s, CallEvents(name, AllWritten(ns), at)).msg
               == s.msg.(calls := s.msg.calls + [ToolCall(TrimTrailing(name), text, "")])
  {
    hide *;
    AllMean(ns);
    MeantCall(s, name, AllWritten(ns), AllMeant(ns), at);
  }
}
