/** Values as a Python-minded model writes them, and what is made of their text. */
module PythonText {
  import opened JsonText
  import opened JsonValue
  import opened Normalize
  import Wrappers

  // The printer is independent of the normaliser: words True, False and None, strings in either kind of quotes,
  // lists and dictionaries, with any white space after commas and colons. The normaliser must make canonical
  // JSON of it.

  datatype Py =
    | Word(l: Literal)
    | Number(text: string)
    | Text(s: string, single: bool)
    | List(items: seq<Py>)
    | Mapping(entries: seq<Entry>)

  datatype Entry = Entry(key: string, single: bool, value: Py)

  // ----- the value that is meant -----

  /** The JSON word for a Python one (section 3 of RFC 8259). */
  function WordValue(l: Literal): Value {
    match l
    case PyTrue => Scalar("true")
    case PyFalse => Scalar("false")
    case PyNone => Scalar("null")
  }

  function ValueOf(p: Py): Value
    decreases p, 1
  {
    match p
    case Word(l) => WordValue(l)
    case Number(text) => Scalar(text)
    case Text(s, _) => Str(s)
    case List(items) => Arr(ValuesOf(items))
    case Mapping(entries) => Dict(MembersOf(entries))
  }

  function ValuesOf(ps: seq<Py>): (r: seq<Value>)
    ensures |r| == |ps|
    decreases ps, 0
  {
    if ps == [] then [] else ValuesOf(ps[..|ps| - 1]) + [ValueOf(ps[|ps| - 1])]
  }

  function MembersOf(es: seq<Entry>): (r: seq<Member>)
    ensures |r| == |es|
    decreases es, 0
  {
    if es == [] then [] else
      var e := es[|es| - 1];
      MembersOf(es[..|es| - 1]) + [Member(e.key, ValueOf(e.value))]
  }

  // ----- its text -----

  /** One character of a string in single quotes. */
  function PyEscapeChar(c: char): string {
    if c == '\'' then "\\'" else if c == '"' then "\"" else EscapeChar(c)
  }

  function PyEscape(s: string): string {
    if s == "" then "" else PyEscapeChar(s[0]) + PyEscape(s[1..])
  }

  function PyString(s: string, single: bool): string {
    if single then "'" + PyEscape(s) + "'" else Dump(s)
  }

  function PyWord(l: Literal): string {
    match l
    case PyTrue => "True"
    case PyFalse => "False"
    case PyNone => "None"
  }

  function PyPrint(p: Py, gap: string): string
    decreases p, 1
  {
    match p
    case Word(l) => PyWord(l)
    case Number(text) => text
    case Text(s, single) => PyString(s, single)
    case List(items) => "[" + PyItems(items, gap) + "]"
    case Mapping(entries) => "{" + PyEntries(entries, gap) + "}"
  }

  function PyItems(ps: seq<Py>, gap: string): string
    decreases ps, 0
  {
    if ps == [] then ""
    else if |ps| == 1 then PyPrint(ps[0], gap)
    else PyItems(ps[..|ps| - 1], gap) + ("," + gap) + PyPrint(ps[|ps| - 1], gap)
  }

  function PyEntry(e: Entry, gap: string): string
    decreases e, 2
  {
    PyString(e.key, e.single) + (":" + gap) + PyPrint(e.value, gap)
  }

  function PyEntries(es: seq<Entry>, gap: string): string
    decreases es, 0
  {
    if es == [] then ""
    else if |es| == 1 then PyEntry(es[0], gap)
    else PyEntries(es[..|es| - 1], gap) + ("," + gap) + PyEntry(es[|es| - 1], gap)
  }

  // ----- JSON with the same white space -----

  function Spaced(v: Value, gap: string): string
    decreases v, 1
  {
    match v
    case Scalar(text) => text
    case Str(s) => Dump(s)
    case Arr(items) => "[" + SpacedItems(items, gap) + "]"
    case Dict(members) => "{" + SpacedMembers(members, gap) + "}"
  }

  function SpacedItems(vs: seq<Value>, gap: string): string
    decreases vs, 0
  {
    if vs == [] then ""
    else if |vs| == 1 then Spaced(vs[0], gap)
    else SpacedItems(vs[..|vs| - 1], gap) + ("," + gap) + Spaced(vs[|vs| - 1], gap)
  }

  function SpacedMember(m: Member, gap: string): string
    decreases m, 2
  {
    Dump(m.name) + (":" + gap) + Spaced(m.value, gap)
  }

  function SpacedMembers(ms: seq<Member>, gap: string): string
    decreases ms, 0
  {
    if ms == [] then ""
    else if |ms| == 1 then SpacedMember(ms[0], gap)
    else SpacedMembers(ms[..|ms| - 1], gap) + ("," + gap) + SpacedMember(ms[|ms| - 1], gap)
  }

  /** Without white space this is the canonical text. */
  lemma {:induction false} SpacedNone(v: Value)
    ensures Spaced(v, "") == Print(v)
    decreases v, 1
  {
    match v
    case Scalar(_) =>
    case Str(_) =>
    case Arr(items) => SpacedItemsNone(items);
    case Dict(members) => SpacedMembersNone(members);
  }

  lemma {:induction false} SpacedItemsNone(vs: seq<Value>)
    ensures SpacedItems(vs, "") == PrintItems(vs)
    decreases vs, 0
  {
    if vs != [] {
      SpacedNone(vs[|vs| - 1]);
      SpacedItemsNone(vs[..|vs| - 1]);
      assert "," + "" == ",";
    }
  }

  lemma {:induction false} SpacedMembersNone(ms: seq<Member>)
    ensures SpacedMembers(ms, "") == PrintMembers(ms)
    decreases ms, 0
  {
    if ms != [] {
      SpacedNone(ms[|ms| - 1].value);
      SpacedMembersNone(ms[..|ms| - 1]);
      assert "," + "" == "," && ":" + "" == ":";
    }
  }

  // ----- the normaliser on pieces of text -----

  /** What follows does not continue a word. */
  predicate Ends(rest: string) { rest == "" || !IsWordChar(rest[0]) }

  /** Text that means the same to both languages: no quotes, escapes or first letters of a word. */
  predicate Bare(t: string) {
    forall k :: 0 <= k < |t| ==> t[k] !in {'"', '\'', '\\'} && !LiteralStart(t[k])
  }

  predicate Gap(t: string) {
    forall k :: 0 <= k < |t| ==> t[k] in {' ', '\t', '\n', '\r'}
  }

  /** A word is made of letters, digits and underscores. */
  lemma WordCharsSpelled(c: char)
    ensures IsWordChar(c) <==> 48 <= c as int <= 57 || 65 <= c as int <= 90 || 97 <= c as int <= 122 || c as int == 95
  {
  }

  /** Only the first letter of a word asks what stood before it. */
  lemma BoundaryFree(s: string, q: Quote, a: bool, b: bool)
    requires q != Out || Ends(s)
    ensures N(s, a, q) == N(s, b, q)
  {
    hide WordLen, MatchLiteral;
    if s != "" {
      assert Step(s, a, q) == Step(s, b, q);
    }
  }

  /** One turn, with the text cut into what is read and the rest. */
  lemma Turn(head: string, rest: string, b: bool, q: Quote, emit: string, q': Quote)
    requires head != "" && Step(head + rest, b, q) == Move(emit, |head|, q')
    ensures N(head + rest, b, q) == emit + N(rest, !IsWordChar(head[|head| - 1]), q')
  {
    hide Step, IsWordChar;
    var s := head + rest;
    Unfold(s, b, q);
    assert s[|head|..] == rest && s[|head| - 1] == head[|head| - 1];
  }

  /** Each Python word becomes the JSON word, before anything that does not continue it. */
  lemma NormWord(rest: string)
    requires Ends(rest)
    ensures N("True" + rest, true, Out) == "true" + N(rest, true, Out)
    ensures N("False" + rest, true, Out) == "false" + N(rest, true, Out)
    ensures N("None" + rest, true, Out) == "null" + N(rest, true, Out)
  {
    NormSpelled(PyTrue, rest);
    NormSpelled(PyFalse, rest);
    NormSpelled(PyNone, rest);
  }

  lemma NormSpelled(l: Literal, rest: string)
    requires Ends(rest)
    ensures PyWord(l) == Python(l) && WordValue(l) == Scalar(Json(l))
    ensures N(PyWord(l) + rest, true, Out) == WordValue(l).text + N(rest, true, Out)
  {
    var w, s := PyWord(l), PyWord(l) + rest;
    Spellings(l);
    WordOfWordChars(w);
    WordLenAppend(w, rest);
    assert s[..|w|] == w;
    assert MatchLiteral(w) == Wrappers.Some(Json(l)) by {
      FirstLetterDecides(w, l, Growing(w).value);
      assert Json(l)[..|w|] == Json(l);
    }
    hide MatchLiteral, WordLen, Growing, N;
    StepLiteral(s);
    Turn(w, rest, true, Out, Json(l), Out);
    BoundaryFree(rest, Out, !IsWordChar(w[|w| - 1]), true);
  }

  lemma NormOne(c: char, rest: string, b: bool)
    requires c !in {'"', '\'', '\\'} && !LiteralStart(c)
    ensures N([c] + rest, b, Out) == [c] + N(rest, !IsWordChar(c), Out)
  {
    hide WordLen, MatchLiteral, N, IsWordChar;
    Turn([c], rest, b, Out, [c], Out);
  }

  /** Bare text is copied. */
  lemma {:induction false} NormBare(t: string, rest: string, b: bool)
    requires Bare(t) && Ends(rest)
    ensures N(t + rest, b, Out) == t + N(rest, b, Out)
    decreases |t|
  {
    hide WordLen, MatchLiteral, N, IsWordChar;
    if t == "" {
      assert t + rest == rest;
    } else {
      NormOne(t[0], t[1..] + rest, b);
      NormBare(t[1..], rest, !IsWordChar(t[0]));
      BoundaryFree(rest, Out, !IsWordChar(t[0]), b);
      assert t + rest == [t[0]] + (t[1..] + rest);
      assert [t[0]] + t[1..] == t;
      Assoc([t[0]], t[1..], N(rest, b, Out));
    }
  }

  // ----- strings -----

  lemma InsideOne(c: char, rest: string, q: Quote)
    requires q != Out && c !in {'"', '\'', '\\'}
    ensures N([c] + rest, true, q) == [c] + N(rest, true, q)
  {
    hide WordLen, MatchLiteral, N, IsWordChar;
    Turn([c], rest, true, q, [c], q);
    BoundaryFree(rest, q, !IsWordChar(c), true);
  }

  lemma InsideEscape(c: char, rest: string, q: Quote)
    requires q != Out && (q == Single ==> c != '\'' && c != '"')
    ensures N(['\\', c] + rest, true, q) == ['\\', c] + N(rest, true, q)
  {
    hide WordLen, MatchLiteral, N, IsWordChar;
    Turn(['\\', c], rest, true, q, ['\\', c], q);
    BoundaryFree(rest, q, !IsWordChar(c), true);
  }

  lemma InsideControl(x: char, y: char, rest: string, q: Quote)
    requires q != Out && x !in {'"', '\'', '\\'} && y !in {'"', '\'', '\\'}
    ensures N("\\u00" + [x, y] + rest, true, q) == "\\u00" + [x, y] + N(rest, true, q)
  {
    hide WordLen, MatchLiteral, N, IsWordChar;
    var s2, s1 := [x] + ([y] + rest), ['0'] + ([x] + ([y] + rest));
    assert "\\u00" + [x, y] + rest == ['\\', 'u'] + (['0'] + s1);
    InsideEscape('u', ['0'] + s1, q);
    InsideOne('0', s1, q);
    InsideOne('0', s2, q);
    InsideOne(x, [y] + rest, q);
    InsideOne(y, rest, q);
    var n := N(rest, true, q);
    assert ['\\', 'u'] + (['0'] + (['0'] + ([x] + ([y] + n)))) == "\\u00" + [x, y] + n;
  }

  /** An escaped character of either kind of string. */
  lemma InsideEscaped(c: char, rest: string, q: Quote)
    requires q != Out && (q == Single ==> c != '\'' && c != '"')
    ensures N(EscapeChar(c) + rest, true, q) == EscapeChar(c) + N(rest, true, q)
  {
    hide N;
    var e := EscapeChar(c);
    if |e| == 1 {
      if c == '\'' {
        NormApostrophe(rest);
      } else {
        InsideOne(c, rest, q);
      }
    } else if |e| == 2 {
      InsideEscape(e[1], rest, q);
      assert e == ['\\', e[1]];
    } else {
      InsideControl(HexDigit(c as int / 16), HexDigit(c as int % 16), rest, q);
    }
  }

  lemma NormApostrophe(rest: string)
    ensures N("'" + rest, true, Double) == "'" + N(rest, true, Double)
  {
    hide WordLen, MatchLiteral, N;
    Turn("'", rest, true, Double, "'", Double);
  }

  lemma InsideSingle(c: char, rest: string)
    ensures N(PyEscapeChar(c) + rest, true, Single) == EscapeChar(c) + N(rest, true, Single)
  {
    hide WordLen, MatchLiteral, N;
    if c == '\'' {
      Turn("\\'", rest, true, Single, "'", Single);
    } else if c == '"' {
      Turn("\"", rest, true, Single, "\\\"", Single);
    } else {
      InsideEscaped(c, rest, Single);
    }
  }

  lemma {:induction false} NormSingle(s: string, rest: string)
    ensures N(PyEscape(s) + rest, true, Single) == Escape(s) + N(rest, true, Single)
    decreases |s|
  {
    hide EscapeChar, PyEscapeChar, N;
    if s == "" {
      assert "" + rest == rest;
      assert "" + N(rest, true, Single) == N(rest, true, Single);
    } else {
      InsideSingle(s[0], PyEscape(s[1..]) + rest);
      NormSingle(s[1..], rest);
      Assoc(PyEscapeChar(s[0]), PyEscape(s[1..]), rest);
      Assoc(EscapeChar(s[0]), Escape(s[1..]), N(rest, true, Single));
    }
  }

  lemma {:induction false} NormDouble(s: string, rest: string)
    ensures N(Escape(s) + rest, true, Double) == Escape(s) + N(rest, true, Double)
    decreases |s|
  {
    hide EscapeChar, N;
    if s == "" {
      assert "" + rest == rest;
      assert "" + N(rest, true, Double) == N(rest, true, Double);
    } else {
      InsideEscaped(s[0], Escape(s[1..]) + rest, Double);
      NormDouble(s[1..], rest);
      Assoc(EscapeChar(s[0]), Escape(s[1..]), rest);
      Assoc(EscapeChar(s[0]), Escape(s[1..]), N(rest, true, Double));
    }
  }

  /** A quote opens or closes a string of its own kind. */
  lemma NormQuote(rest: string, b: bool)
    ensures N("'" + rest, b, Out) == "\"" + N(rest, true, Single)
    ensures N("'" + rest, b, Single) == "\"" + N(rest, true, Out)
    ensures N("\"" + rest, b, Out) == "\"" + N(rest, true, Double)
    ensures N("\"" + rest, b, Double) == "\"" + N(rest, true, Out)
  {
    hide WordLen, MatchLiteral, N;
    Turn("'", rest, b, Out, "\"", Single);
    Turn("'", rest, b, Single, "\"", Out);
    Turn("\"", rest, b, Out, "\"", Double);
    Turn("\"", rest, b, Double, "\"", Out);
  }

  lemma Join4(a: string, b: string, c: string, d: string)
    ensures a + b + c + d == a + (b + (c + d))
  {
  }

  /** A string in either kind of quotes becomes the same JSON string. */
  lemma NormString(s: string, single: bool, rest: string)
    ensures N(PyString(s, single) + rest, true, Out) == Dump(s) + N(rest, true, Out)
  {
    hide N, Escape, PyEscape;
    if single {
      Join4("'", PyEscape(s), "'", rest);
      NormQuote(PyEscape(s) + ("'" + rest), true);
      NormSingle(s, "'" + rest);
      NormQuote(rest, true);
    } else {
      Join4("\"", Escape(s), "\"", rest);
      NormQuote(Escape(s) + ("\"" + rest), true);
      NormDouble(s, "\"" + rest);
      NormQuote(rest, true);
    }
    Join4("\"", Escape(s), "\"", N(rest, true, Out));
  }

  // ----- values -----

  /** Numbers are bare text. */
  predicate Sound(p: Py) {
    match p
    case Word(_) => true
    case Number(text) => Bare(text)
    case Text(_, _) => true
    case List(items) => forall i :: 0 <= i < |items| ==> Sound(items[i])
    case Mapping(entries) => forall i :: 0 <= i < |entries| ==> Sound(entries[i].value)
  }

  /** A punctuation mark and the white space behind it. */
  lemma NormMark(c: char, gap: string, rest: string)
    requires c in {',', ':', '[', ']', '{', '}'} && Gap(gap)
    ensures N([c] + gap + rest, true, Out) == [c] + gap + N(rest, true, Out)
    ensures Ends([c] + gap + rest)
  {
    hide N, WordLen, MatchLiteral;
    Assoc([c], gap, rest);
    NormOne(c, gap + rest, true);
    NormGap(gap, rest);
    Assoc([c], gap, N(rest, true, Out));
  }

  lemma {:induction false} NormGap(gap: string, rest: string)
    requires Gap(gap)
    ensures N(gap + rest, true, Out) == gap + N(rest, true, Out)
    decreases |gap|
  {
    hide N, WordLen, MatchLiteral;
    if gap == "" {
      assert gap + rest == rest;
    } else {
      NormOne(gap[0], gap[1..] + rest, true);
      NormGap(gap[1..], rest);
      assert gap + rest == [gap[0]] + (gap[1..] + rest);
      assert [gap[0]] + gap[1..] == gap;
      Assoc([gap[0]], gap[1..], N(rest, true, Out));
    }
  }

  /** A bracket without white space behind it. */
  lemma NormBracket(c: char, rest: string)
    requires c in {'[', ']', '{', '}'}
    ensures N([c] + rest, true, Out) == [c] + N(rest, true, Out)
    ensures Ends([c] + rest)
  {
    NormMark(c, "", rest);
    assert [c] + "" == [c];
  }

  /** The text of a value, whatever follows it. */
  lemma {:induction false} NormValue(p: Py, gap: string, rest: string)
    requires Sound(p) && Gap(gap) && Ends(rest)
    ensures N(PyPrint(p, gap) + rest, true, Out) == Spaced(ValueOf(p), gap) + N(rest, true, Out)
    decreases p, 1
  {
    hide N, PyWord, WordValue, PyString, IsWordChar;
    match p
    case Word(l) => NormSpelled(l, rest);
    case Number(text) => NormBare(text, rest, true);
    case Text(s, single) => NormString(s, single, rest);
    case List(items) =>
      Join4("[", PyItems(items, gap), "]", rest);
      NormBracket('[', PyItems(items, gap) + ("]" + rest));
      NormBracket(']', rest);
      NormItems(items, gap, "]" + rest);
      Join4("[", SpacedItems(ValuesOf(items), gap), "]", N(rest, true, Out));
    case Mapping(entries) =>
      Join4("{", PyEntries(entries, gap), "}", rest);
      NormBracket('{', PyEntries(entries, gap) + ("}" + rest));
      NormBracket('}', rest);
      NormEntries(entries, gap, "}" + rest);
      Join4("{", SpacedMembers(MembersOf(entries), gap), "}", N(rest, true, Out));
  }

  lemma {:induction false} NormItems(ps: seq<Py>, gap: string, rest: string)
    requires (forall i :: 0 <= i < |ps| ==> Sound(ps[i])) && Gap(gap) && Ends(rest)
    ensures N(PyItems(ps, gap) + rest, true, Out) == SpacedItems(ValuesOf(ps), gap) + N(rest, true, Out)
    decreases ps, 0
  {
    hide N, PyPrint, Spaced, ValueOf, IsWordChar;
    if ps == [] {
      assert "" + rest == rest;
      assert "" + N(rest, true, Out) == N(rest, true, Out);
    } else {
      var k := |ps| - 1;
      var front, last := PyItems(ps[..k], gap), PyPrint(ps[k], gap);
      NormValue(ps[k], gap, rest);
      assert ValuesOf(ps)[..k] == ValuesOf(ps[..k]) && ValuesOf(ps)[k] == ValueOf(ps[k]);
      if k > 0 {
        NormMark(',', gap, last + rest);
        NormItems(ps[..k], gap, "," + gap + (last + rest));
        Join4(front, "," + gap, last, rest);
        Join4(SpacedItems(ValuesOf(ps[..k]), gap), "," + gap, Spaced(ValueOf(ps[k]), gap), N(rest, true, Out));
      }
    }
  }

  lemma {:induction false} NormEntry(e: Entry, gap: string, rest: string)
    requires Sound(e.value) && Gap(gap) && Ends(rest)
    ensures N(PyEntry(e, gap) + rest, true, Out)
         == SpacedMember(Member(e.key, ValueOf(e.value)), gap) + N(rest, true, Out)
    decreases e, 2
  {
    hide N, PyPrint, Spaced, ValueOf, IsWordChar, PyString;
    var last := PyPrint(e.value, gap);
    NormValue(e.value, gap, rest);
    NormMark(':', gap, last + rest);
    NormString(e.key, e.single, ":" + gap + (last + rest));
    Join4(PyString(e.key, e.single), ":" + gap, last, rest);
    Join4(Dump(e.key), ":" + gap, Spaced(ValueOf(e.value), gap), N(rest, true, Out));
  }

  lemma {:induction false} NormEntries(es: seq<Entry>, gap: string, rest: string)
    requires (forall i :: 0 <= i < |es| ==> Sound(es[i].value)) && Gap(gap) && Ends(rest)
    ensures N(PyEntries(es, gap) + rest, true, Out) == SpacedMembers(MembersOf(es), gap) + N(rest, true, Out)
    decreases es, 0
  {
    hide N, PyEntry, SpacedMember, ValueOf, IsWordChar;
    if es == [] {
      assert "" + rest == rest;
      assert "" + N(rest, true, Out) == N(rest, true, Out);
    } else {
      var k := |es| - 1;
      var front, last := PyEntries(es[..k], gap), PyEntry(es[k], gap);
      var m := Member(es[k].key, ValueOf(es[k].value));
      NormEntry(es[k], gap, rest);
      assert MembersOf(es)[..k] == MembersOf(es[..k]) && MembersOf(es)[k] == m;
      if k > 0 {
        NormMark(',', gap, last + rest);
        NormEntries(es[..k], gap, "," + gap + (last + rest));
        Join4(front, "," + gap, last, rest);
        Join4(SpacedMembers(MembersOf(es[..k]), gap), "," + gap, SpacedMember(m, gap), N(rest, true, Out));
      }
    }
  }

  /** The normalised text of a value is its JSON text, with the white space that was there. */
  lemma NormPython(p: Py, gap: string)
    requires Sound(p) && Gap(gap)
    ensures Norm(PyPrint(p, gap)) == Spaced(ValueOf(p), gap)
  {
    hide N, PyPrint, Spaced;
    NormValue(p, gap, "");
    NEmpty(true, Out);
    assert PyPrint(p, gap) + "" == PyPrint(p, gap);
  }

  /** Numbers that JSON can tell from their surroundings. */
  predicate Readable(p: Py) {
    match p
    case Word(_) => true
    case Number(text) => text != "" && Plain(text)
    case Text(_, _) => true
    case List(items) => forall i :: 0 <= i < |items| ==> Readable(items[i])
    case Mapping(entries) => forall i :: 0 <= i < |entries| ==> Readable(entries[i].value)
  }

  lemma {:induction false} ReadableWellFormed(p: Py)
    requires Readable(p)
    ensures WellFormed(ValueOf(p))
    decreases p, 1
  {
    match p
    case Word(_) =>
    case Number(_) =>
    case Text(_, _) =>
    case List(items) =>
      forall i | 0 <= i < |items| ensures WellFormed(ValuesOf(items)[i]) {
        ValuesAt(items, i);
        ReadableWellFormed(items[i]);
      }
    case Mapping(entries) =>
      forall i | 0 <= i < |entries| ensures WellFormed(MembersOf(entries)[i].value) {
        MembersAt(entries, i);
        ReadableWellFormed(entries[i].value);
      }
  }

  lemma {:induction false} ValuesAt(ps: seq<Py>, i: nat)
    requires i < |ps|
    ensures ValuesOf(ps)[i] == ValueOf(ps[i])
    decreases |ps|
  {
    if i < |ps| - 1 {
      ValuesAt(ps[..|ps| - 1], i);
    }
  }

  lemma {:induction false} MembersAt(es: seq<Entry>, i: nat)
    requires i < |es|
    ensures MembersOf(es)[i] == Member(es[i].key, ValueOf(es[i].value))
    decreases |es|
  {
    if i < |es| - 1 {
      MembersAt(es[..|es| - 1], i);
    }
  }

  /** Without white space the normalised text is the canonical one, and reads back as the value. */
  lemma NormReads(p: Py)
    requires Sound(p) && Readable(p)
    ensures Norm(PyPrint(p, "")) == Print(ValueOf(p))
    ensures ReadValue(Norm(PyPrint(p, ""))) == Got(ValueOf(p), "")
  {
    hide *;
    assert Gap("") by { GapEmpty(); }
    NormPython(p, "");
    SpacedNone(ValueOf(p));
    ReadableWellFormed(p);
    RoundTrip(ValueOf(p));
  }

  lemma GapEmpty()
    ensures Gap("")
  {
  }
}
