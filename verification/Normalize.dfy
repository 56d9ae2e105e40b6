/** Python-style values to JSON: quotes become double, True/False/None become true/false/null. */
module Normalize {
  import opened JsonText
  import opened Wrappers

  // The code walks an index and looks one character back and a word ahead; the specification `N`
  // works on the text still to be read and remembers only whether the character before it could
  // belong to a word.

  datatype Quote = Out | Single | Double

  predicate IsWordChar(c: char) {
    '0' <= c <= '9' || 'A' <= c <= 'Z' || 'a' <= c <= 'z' || c == '_'
  }

  /** Length of the run of word characters at the front. */
  function WordLen(s: string): (n: nat)
    ensures n <= |s|
    ensures forall k :: 0 <= k < n ==> IsWordChar(s[k])
    ensures n < |s| ==> !IsWordChar(s[n])
  {
    if s == "" || !IsWordChar(s[0]) then 0 else 1 + WordLen(s[1..])
  }

  datatype Literal = PyTrue | PyFalse | PyNone

  function Python(l: Literal): string {
    match l case PyTrue => "True" case PyFalse => "False" case PyNone => "None"
  }

  function Json(l: Literal): string {
    match l case PyTrue => "true" case PyFalse => "false" case PyNone => "null"
  }

  lemma Spellings(l: Literal)
    ensures |Python(l)| == |Json(l)|
    ensures forall k :: 0 <= k < |Python(l)| ==> IsWordChar(Python(l)[k])
    ensures forall k :: 0 <= k < |Json(l)| ==> IsWordChar(Json(l)[k]) && !LiteralStart(Json(l)[k])
  {
  }

  /** The literal that a (possibly still growing) word may become. */
  function Growing(token: string): (r: Option<Literal>)
    ensures r.Some? ==> token <= Python(r.value)
    ensures r.None? ==> forall l :: !(token <= Python(l))
  {
    if token <= Python(PyTrue) then Some(PyTrue)
    else if token <= Python(PyFalse) then Some(PyFalse)
    else if token <= Python(PyNone) then Some(PyNone)
    else None
  }

  /** The JSON spelling of a (possibly still growing) Python literal. */
  function MatchLiteral(token: string): (r: Option<string>)
    ensures r.Some? ==> |r.value| == |token|
  {
    match Growing(token)
    case Some(l) => Spellings(l); Some(Json(l)[..|token|])
    case None => None
  }

  predicate LiteralStart(c: char) { c == 'T' || c == 'F' || c == 'N' }

  datatype Move = Move(emit: string, used: nat, quote: Quote)

  /** One turn of the loop on the non-empty rest `s` of the input. */
  function Step(s: string, boundary: bool, q: Quote): (m: Move)
    requires s != ""
    ensures 0 < m.used <= |s|
  {
    var c := s[0];
    if c == '\\' && |s| > 1 then
      if q == Single then
        if s[1] == '\'' then Move("'", 2, q)
        else if s[1] == '"' then Move("\\\"", 2, q)
        else Move([c, s[1]], 2, q)
      else if q == Double then Move([c, s[1]], 2, q)
      else Move([c], 1, q)
    else if c == '"' then
      if q == Single then Move("\\\"", 1, q)
      else Move([c], 1, if q == Double then Out else Double)
    else if c == '\'' then
      if q == Double then Move([c], 1, q)
      else Move("\"", 1, if q == Single then Out else Single)
    else if q == Out && LiteralStart(c) && boundary then
      var n := WordLen(s);
      match MatchLiteral(s[..n])
      case Some(js) => Move(js, n, q)
      case None => Move([c], 1, q)
    else Move([c], 1, q)
  }

  predicate BoundaryAfter(s: string, used: nat)
    requires 0 < used <= |s|
  {
    !IsWordChar(s[used - 1])
  }

  function N(s: string, boundary: bool, q: Quote): string
    decreases |s|
  {
    if s == "" then ""
    else
      var m := Step(s, boundary, q);
      m.emit + N(s[m.used..], BoundaryAfter(s, m.used), m.quote)
  }

  lemma Unfold(s: string, boundary: bool, q: Quote)
    requires s != ""
    ensures var m := Step(s, boundary, q);
            N(s, boundary, q) == m.emit + N(s[m.used..], BoundaryAfter(s, m.used), m.quote)
  {
    hide Step;
  }

  lemma NEmpty(boundary: bool, q: Quote)
    ensures N("", boundary, q) == ""
  {
  }

  function Norm(s: string): string { N(s, true, Out) }

  ghost predicate Reads(input: string, i: nat, q: Quote, rest: string)
    requires i <= |input|
  {
    rest == N(input[i..], i == 0 || !IsWordChar(input[i - 1]), q)
  }

  lemma ReadsStep(input: string, i: nat, q: Quote, rest: string) returns (m: Move, after: string)
    requires i < |input| && Reads(input, i, q, rest)
    ensures m == Step(input[i..], i == 0 || !IsWordChar(input[i - 1]), q)
    ensures rest == m.emit + after && i + m.used <= |input| && Reads(input, i + m.used, m.quote, after)
  {
    hide Step, N, IsWordChar;
    Unfold(input[i..], i == 0 || !IsWordChar(input[i - 1]), q);
    m := Step(input[i..], i == 0 || !IsWordChar(input[i - 1]), q);
    after := N(input[i..][m.used..], BoundaryAfter(input[i..], m.used), m.quote);
    assert input[i..][m.used..] == input[i + m.used..];
  }

  function QuoteOf(inSingle: bool, inDouble: bool): Quote {
    if inSingle then Single else if inDouble then Double else Out
  }

  /** The loop of the source, with its two flags. */
  method NormalizeQuotes(input: string) returns (result: string)
    ensures result == Norm(input)
  {
    hide N, WordLen, MatchLiteral, IsWordChar;
    result := "";
    var inSingle, inDouble := false, false;
    var i := 0;
    ghost var rest := Norm(input);
    assert input[0..] == input && result + rest == rest;
    while i < |input|
      invariant 0 <= i <= |input|
      invariant !(inSingle && inDouble)
      invariant Reads(input, i, QuoteOf(inSingle, inDouble), rest)
      invariant result + rest == Norm(input)
    {
      var c := input[i];
      ghost var m, after := ReadsStep(input, i, QuoteOf(inSingle, inDouble), rest);
      ghost var i0, r0 := i, result;
      if c == '\\' && i + 1 < |input| {
        var next := input[i + 1];
        if inSingle {
          if next == '\'' {
            result := result + "'";
          } else if next == '"' {
            result := result + "\\\"";
          } else {
            result := result + [c, next];
          }
          i := i + 1;
        } else if inDouble {
          result := result + [c, next];
          i := i + 1;
        } else {
          result := result + [c];
        }
      } else if c == '"' {
        if inSingle {
          result := result + "\\\"";
        } else {
          inDouble := !inDouble;
          result := result + [c];
        }
      } else if c == '\'' {
        if inDouble {
          result := result + [c];
        } else if inSingle {
          inSingle := false;
          result := result + "\"";
        } else {
          inSingle := true;
          result := result + "\"";
        }
      } else if !inSingle && !inDouble && LiteralStart(c) && (i == 0 || !IsWordChar(input[i - 1])) {
        var n := ScanWord(input, i);
        assert input[i..][..n] == input[i..i + n];
        var js := MatchLiteral(input[i..i + n]);
        match js {
          case Some(text) =>
            result := result + text;
            i := i + n - 1;
          case None =>
            result := result + [c];
        }
      } else {
        result := result + [c];
      }
      i := i + 1;
      Assoc(r0, m.emit, after);
      assert i == i0 + m.used && QuoteOf(inSingle, inDouble) == m.quote;
      assert result == r0 + m.emit;
      rest := after;
    }
    NEmpty(i == 0 || !IsWordChar(input[i - 1]), QuoteOf(inSingle, inDouble));
    assert input[i..] == "";
  }

  /** The inner loop that measures the word under the cursor. */
  method ScanWord(input: string, i: nat) returns (n: nat)
    requires i < |input| && IsWordChar(input[i])
    ensures 0 < n == WordLen(input[i..])
  {
    n := 0;
    while i + n < |input| && IsWordChar(input[i + n])
      invariant i + n <= |input|
      invariant WordLen(input[i..]) == n + WordLen(input[i + n..])
    {
      assert input[i + n..][1..] == input[i + n + 1..];
      n := n + 1;
    }
  }

  // ----- streaming: when is the output of a prefix a prefix of the output? -----

  /** What a text ends on that its continuation could still reinterpret. */
  datatype Tail = Settled | OpenEscape | OpenLiteral(word: string)

  function TailOf(s: string, boundary: bool, q: Quote): Tail
    decreases |s|
  {
    if s == "" then Settled
    else if q == Single && s == "\\" then OpenEscape
    else if q == Out && boundary && LiteralStart(s[0]) && MatchLiteral(s).Some? then OpenLiteral(s)
    else
      var m := Step(s, boundary, q);
      TailOf(s[m.used..], BoundaryAfter(s, m.used), m.quote)
  }

  /** `more` does not turn an escape of a single-quoted string into an escaped apostrophe, nor
      a literal that is still growing into another word. */
  predicate Harmless(tail: Tail, more: string) {
    match tail
    case Settled => true
    case OpenEscape => more == "" || more[0] != '\''
    case OpenLiteral(w) => MatchLiteral(w + more[..WordLen(more)]).Some?
  }

  lemma {:induction false} WordLenAppend(s: string, more: string)
    ensures WordLen(s) < |s| ==> WordLen(s + more) == WordLen(s)
    ensures WordLen(s) == |s| ==> WordLen(s + more) == |s| + WordLen(more)
  {
    if s == "" {
      assert s + more == more;
    } else if IsWordChar(s[0]) {
      WordLenAppend(s[1..], more);
      assert (s + more)[1..] == s[1..] + more;
    }
  }

  lemma {:induction false} WordOfWordChars(w: string)
    requires forall k :: 0 <= k < |w| ==> IsWordChar(w[k])
    ensures WordLen(w) == |w|
  {
    if w != "" {
      WordOfWordChars(w[1..]);
    }
  }

  lemma LiteralIsWord(token: string)
    requires MatchLiteral(token).Some?
    ensures WordLen(token) == |token|
  {
    hide WordLen, Python, Growing;
    var full := Growing(token).value;
    Spellings(full);
    forall k | 0 <= k < |token| ensures IsWordChar(token[k]) {
      assert token[k] == Python(full)[k];
    }
    WordOfWordChars(token);
  }

  lemma FirstLetterDecides(a: string, l: Literal, m: Literal)
    requires a != "" && a <= Python(l) && a <= Python(m)
    ensures l == m
  {
    assert a[0] == Python(l)[0] == Python(m)[0];
  }

  /** A literal cut short is still a literal, with the shorter spelling. */
  lemma LiteralPrefix(a: string, b: string)
    requires a != "" && a <= b && MatchLiteral(b).Some?
    ensures MatchLiteral(a).Some? && MatchLiteral(a).value <= MatchLiteral(b).value
  {
    hide Python, Json, Growing;
    var l := Growing(b).value;
    PrefixTransitive(a, b, Python(l));
    FirstLetterDecides(a, l, Growing(a).value);
    Spellings(l);
  }

  lemma WithdrawnStays(a: string, b: string)
    requires a != "" && a <= b && MatchLiteral(a).None?
    ensures MatchLiteral(b).None?
  {
    hide MatchLiteral;
    if MatchLiteral(b).Some? {
      LiteralPrefix(a, b);
    }
  }

  /** The two runs do the same first turn unless the shorter text ends inside what it reads. */
  lemma StepAgrees(x: string, y: string, b: bool, q: Quote)
    requires x != "" && x <= y
    requires !(x == "\\" && q != Out && x != y)
    requires !(q == Out && b && LiteralStart(x[0]) && MatchLiteral(x).Some?)
    ensures Step(x, b, q) == Step(y, b, q)
  {
    hide MatchLiteral, N;
    var more := y[|x|..];
    assert y == x + more;
    WordLenAppend(x, more);
    if q == Out && b && LiteralStart(x[0]) {
      var n := WordLen(x);
      if n == |x| {
        assert x[..n] == x;
        WithdrawnStays(x, y[..WordLen(y)]);
      } else {
        assert x[..n] == y[..n];
      }
    }
  }

  /** Away from the end of the shorter text both runs emit the same and go on alike. */
  lemma MonotoneStep(x: string, y: string, b: bool, q: Quote) returns (m: Move, x': string, y': string)
    requires x != "" && x <= y
    requires !(x == "\\" && q != Out && x != y)
    requires !(q == Out && b && LiteralStart(x[0]) && MatchLiteral(x).Some?)
    ensures m == Step(x, b, q) && x' == x[m.used..] && y' == y[m.used..] && x' <= y'
    ensures N(x, b, q) <= N(y, b, q) <==>
            N(x', BoundaryAfter(x, m.used), m.quote) <= N(y', BoundaryAfter(x, m.used), m.quote)
  {
    hide MatchLiteral, WordLen, IsWordChar, Step, N;
    StepAgrees(x, y, b, q);
    m := Step(x, b, q);
    x', y' := x[m.used..], y[m.used..];
    Unfold(x, b, q);
    Unfold(y, b, q);
    PrefixCancel(m.emit, N(x', BoundaryAfter(x, m.used), m.quote), N(y', BoundaryAfter(x, m.used), m.quote));
  }

  /** For every input and every continuation: the streamed output stays a prefix exactly when
      the continuation is harmless for what the input ends on. */
  lemma {:induction false} MonotoneExactly(x: string, y: string, b: bool, q: Quote)
    requires x <= y
    ensures N(x, b, q) <= N(y, b, q) <==> Harmless(TailOf(x, b, q), y[|x|..])
    decreases |x|
  {
    hide MatchLiteral, WordLen, IsWordChar, Step, N;
    var more := y[|x|..];
    assert y == x + more;
    if x == "" {
      NEmpty(b, q);
    } else if x == "\\" && q != Out && x != y {
      MonotoneEscape(y, b, q);
    } else if q == Out && b && LiteralStart(x[0]) && MatchLiteral(x).Some? {
      MonotoneLiteral(x, y);
    } else {
      var m, x', y' := MonotoneStep(x, y, b, q);
      MonotoneExactly(x', y', BoundaryAfter(x, m.used), m.quote);
      assert y'[|x'|..] == more;
    }
  }

  /** A literal is always emitted with another first letter. */
  lemma LiteralChangesFirst(w: string)
    requires w != "" && LiteralStart(w[0]) && MatchLiteral(w).Some?
    ensures MatchLiteral(w).value[0] != w[0]
  {
    hide Python, Json, Growing;
    var l := Growing(w).value;
    Spellings(l);
    assert MatchLiteral(w).value[0] == Json(l)[0];
  }

  /** One turn on a word that is a literal takes the whole word. */
  lemma StepLiteral(s: string)
    requires s != "" && LiteralStart(s[0])
    ensures Step(s, true, Out) == match MatchLiteral(s[..WordLen(s)])
                                  case Some(js) => Move(js, WordLen(s), Out)
                                  case None => Move([s[0]], 1, Out)
  {
    hide MatchLiteral, N;
  }

  lemma WholeLiteral(x: string)
    requires x != "" && LiteralStart(x[0]) && MatchLiteral(x).Some?
    ensures WordLen(x) == |x| && N(x, true, Out) == MatchLiteral(x).value
  {
    LiteralIsWord(x);
    assert x[..|x|] == x && x[|x|..] == "";
    StepLiteral(x);
    Unfold(x, true, Out);
    var js := MatchLiteral(x).value;
    assert js + "" == js;
  }

  /** A backslash inside a string, read alone or together with the character after it. */
  lemma MonotoneEscape(y: string, b: bool, q: Quote)
    requires q != Out && |y| > 1 && y[0] == '\\'
    ensures N("\\", b, q) <= N(y, b, q) <==> Harmless(TailOf("\\", b, q), y[1..])
  {
    hide MatchLiteral, WordLen, IsWordChar, N;
    assert "\\"[1..] == "";
    Unfold("\\", b, q);
    NEmpty(BoundaryAfter("\\", 1), q);
    Unfold(y, b, q);
    var rest := N(y[2..], BoundaryAfter(y, 2), q);
    assert N("\\", b, q) == "\\";
    assert N(y, b, q)[0] == Step(y, b, q).emit[0];
    assert N("\\", b, q) <= N(y, b, q) <==> N(y, b, q)[0] == '\\';
  }

  /** The first word of the longer text is the literal so far and the rest of the word. */
  lemma FirstWord(x: string, more: string)
    requires x != "" && WordLen(x) == |x|
    ensures (x + more)[..WordLen(x + more)] == x + more[..WordLen(more)]
    ensures x <= (x + more)[..WordLen(x + more)]
  {
    hide WordLen;
    WordLenAppend(x, more);
  }

  lemma MonotoneLiteral(x: string, y: string)
    requires x != "" && x <= y && LiteralStart(x[0]) && MatchLiteral(x).Some?
    ensures N(x, true, Out) <= N(y, true, Out) <==> Harmless(OpenLiteral(x), y[|x|..])
  {
    hide MatchLiteral, Step, WordLen, IsWordChar, N;
    var more := y[|x|..];
    assert y == x + more;
    WholeLiteral(x);
    FirstWord(x, more);
    StepLiteral(y);
    Unfold(y, true, Out);
    var word := y[..WordLen(y)];
    var js := MatchLiteral(x).value;
    if MatchLiteral(word).Some? {
      LiteralPrefix(x, word);
      PrefixTransitive(js, MatchLiteral(word).value, N(y, true, Out));
    } else {
      LiteralChangesFirst(x);
      assert N(y, true, Out)[0] == x[0];
    }
  }

  /** The claim of the source for whole values. */
  lemma StreamedPrefixExactly(x: string, y: string)
    requires x <= y
    ensures Norm(x) <= Norm(y) <==> Harmless(TailOf(x, true, Out), y[|x|..])
  {
    MonotoneExactly(x, y, true, Out);
  }

  /** The prefix claim is not unconditional: a word can stop being a literal. */
  lemma LiteralCanBeWithdrawn()
    ensures "T" <= "Tx" && !(Norm("T") <= Norm("Tx"))
  {
    hide N;
    assert "x"[1..] == "" && WordLen("x") == 1;
    assert "T" + "x" == "Tx" && "T" <= Python(PyTrue);
    forall l ensures !("Tx" <= Python(l)) {
      assert "Tx"[1] != Python(l)[1];
    }
    assert TailOf("T", true, Out) == OpenLiteral("T");
    assert "Tx"[1..] == "x" && "x"[..1] == "x";
    StreamedPrefixExactly("T", "Tx");
  }

  // ----- a second pass changes nothing -----

  /** A second pass is inside a double-quoted string exactly when the first was inside any. */
  function Again(q: Quote): Quote { if q == Out then Out else Double }

  lemma StepMidWord(s: string)
    requires s != ""
    ensures var m := Step(s, false, Out);
            m.emit != "" && (if IsWordChar(s[0]) then m == Move([s[0]], 1, Out) else !IsWordChar(m.emit[0]))
  {
    hide MatchLiteral, WordLen, N;
  }

  /** In the middle of a word nothing is rewritten, so the word survives with its length. */
  lemma {:induction false} WordPreserved(s: string)
    ensures var w := WordLen(s);
            WordLen(N(s, false, Out)) == w && N(s, false, Out)[..w] == s[..w]
  {
    hide N, MatchLiteral, Step, IsWordChar;
    if s == "" {
      NEmpty(false, Out);
    } else {
      Unfold(s, false, Out);
      StepMidWord(s);
      if IsWordChar(s[0]) {
        WordPreserved(s[1..]);
        var rest := N(s[1..], false, Out);
        assert N(s, false, Out) == [s[0]] + rest;
        assert N(s, false, Out)[1..] == rest;
      } else {
        assert !IsWordChar(N(s, false, Out)[0]);
      }
    }
  }

  lemma {:induction false} PassWord(w: string, t: string, b: bool)
    requires w != "" && forall k :: 0 <= k < |w| ==> IsWordChar(w[k]) && !LiteralStart(w[k])
    ensures N(w + t, b, Out) == w + N(t, false, Out)
  {
    hide N, MatchLiteral, WordLen;
    Unfold(w + t, b, Out);
    assert (w + t)[1..] == w[1..] + t;
    if |w| == 1 {
      assert w[1..] + t == t;
    } else {
      PassWord(w[1..], t, false);
      assert [w[0]] + (w[1..] + N(t, false, Out)) == w + N(t, false, Out);
    }
  }

  predicate TakesLiteral(s: string, b: bool, q: Quote)
    requires s != ""
  {
    q == Out && b && LiteralStart(s[0]) && MatchLiteral(s[..WordLen(s)]).Some?
  }

  lemma SpellingIsPlain(token: string)
    requires MatchLiteral(token).Some?
    ensures var js := MatchLiteral(token).value;
            forall k :: 0 <= k < |js| ==> IsWordChar(js[k]) && !LiteralStart(js[k])
  {
    hide Python, Json, Growing;
    Spellings(Growing(token).value);
  }

  predicate ReadBack(s: string, b: bool, q: Quote, t: string)
    requires s != "" && !TakesLiteral(s, b, q)
  {
    var m := Step(s, b, q);
    && m.emit != ""
    && Step(m.emit + t, b, Again(q)) == Move(m.emit, |m.emit|, Again(m.quote))
    && BoundaryAfter(m.emit + t, |m.emit|) == BoundaryAfter(s, m.used)
  }

  /** What one turn wrote outside strings, the second pass reads back in one turn. */
  lemma StepAgainOut(s: string, b: bool, t: string)
    requires s != "" && !TakesLiteral(s, b, Out)
    requires LiteralStart(s[0]) ==> WordLen(t) == WordLen(s[1..]) && t[..WordLen(t)] == s[1..][..WordLen(t)]
    ensures ReadBack(s, b, Out, t)
  {
    hide MatchLiteral, N;
    if LiteralStart(s[0]) {
      SameWord(s, t);
      hide WordLen;
    }
  }

  lemma SameWord(s: string, t: string)
    requires s != "" && LiteralStart(s[0])
    requires WordLen(t) == WordLen(s[1..]) && t[..WordLen(t)] == s[1..][..WordLen(t)]
    ensures var u := [s[0]] + t; WordLen(u) == WordLen(s) && u[..WordLen(s)] == s[..WordLen(s)]
  {
    var u := [s[0]] + t;
    assert u[1..] == t;
    assert u[..WordLen(s)] == [s[0]] + t[..WordLen(t)] == [s[0]] + s[1..][..WordLen(t)] == s[..WordLen(s)];
  }

  lemma StepAgainSingle(s: string, b: bool, t: string)
    requires s != "" && (|s| == 1 ==> t == "")
    ensures ReadBack(s, b, Single, t)
  {
    hide MatchLiteral, N, WordLen;
  }

  lemma StepAgainDouble(s: string, b: bool, t: string)
    requires s != "" && (|s| == 1 ==> t == "")
    ensures ReadBack(s, b, Double, t)
  {
    hide MatchLiteral, N, WordLen;
  }

  lemma {:induction false} SecondPass(s: string, b: bool, q: Quote)
    ensures N(N(s, b, q), b, Again(q)) == N(s, b, q)
    decreases |s|
  {
    hide Step, MatchLiteral, WordLen, IsWordChar, N;
    if s == "" {
      NEmpty(b, q);
      NEmpty(b, Again(q));
    } else {
      var m := Step(s, b, q);
      var next := BoundaryAfter(s, m.used);
      var t := N(s[m.used..], next, m.quote);
      Unfold(s, b, q);
      SecondPass(s[m.used..], next, m.quote);
      if TakesLiteral(s, b, q) {
        LiteralShape(s);
        SecondPassLiteral(s, t);
      } else {
        StepShape(s, b, q);
        if q == Out && LiteralStart(s[0]) {
          WordPreserved(s[1..]);
        }
        if q != Out && |s| == 1 {
          NEmpty(next, m.quote);
        }
        match q {
          case Out => StepAgainOut(s, b, t);
          case Single => StepAgainSingle(s, b, t);
          case Double => StepAgainDouble(s, b, t);
        }
        Unfold(m.emit + t, b, Again(q));
        assert (m.emit + t)[|m.emit|..] == t;
      }
    }
  }

  lemma StepShape(s: string, b: bool, q: Quote)
    requires s != "" && !TakesLiteral(s, b, q)
    ensures Step(s, b, q).emit != ""
    ensures |s| == 1 ==> Step(s, b, q).used == 1
    ensures q == Out && LiteralStart(s[0]) ==>
              Step(s, b, q).used == 1 && Step(s, b, q).quote == Out && !BoundaryAfter(s, 1)
  {
    hide MatchLiteral, N;
  }

  lemma LiteralShape(s: string)
    requires s != "" && TakesLiteral(s, true, Out)
    ensures Step(s, true, Out) == Move(MatchLiteral(s[..WordLen(s)]).value, WordLen(s), Out)
    ensures WordLen(s) > 0 && !BoundaryAfter(s, WordLen(s))
  {
    StepLiteral(s);
  }

  lemma SecondPassLiteral(s: string, t: string)
    requires s != "" && TakesLiteral(s, true, Out)
    requires N(t, false, Out) == t
    ensures var m := Step(s, true, Out);
            N(m.emit + t, true, Out) == m.emit + t
  {
    hide N;
    LiteralShape(s);
    SpellingIsPlain(s[..WordLen(s)]);
    PassWord(MatchLiteral(s[..WordLen(s)]).value, t, true);
  }

  /** Normalising twice is normalising once, for every input. */
  lemma Idempotent(s: string)
    ensures Norm(Norm(s)) == Norm(s)
  {
    SecondPass(s, true, Out);
  }

  // ----- which texts are left alone? -----

  /** Outside double quotes there is no apostrophe and no bare word that is a Python literal or the
      beginning of one. */
  predicate JsonOnly(s: string, b: bool, inString: bool)
    decreases |s|
  {
    if s == "" then true
    else if inString then
      if s[0] == '\\' && |s| > 1 then JsonOnly(s[2..], !IsWordChar(s[1]), true)
      else JsonOnly(s[1..], !IsWordChar(s[0]), s[0] != '"')
    else
      && s[0] != '\''
      && !(b && LiteralStart(s[0]) && MatchLiteral(s[..WordLen(s)]).Some?)
      && JsonOnly(s[1..], !IsWordChar(s[0]), s[0] == '"')
  }

  lemma SameTail(e: string, a: string, s: string, k: nat)
    requires k <= |s| && e == s[..k]
    ensures e + a == s <==> a == s[k..]
  {
    assert s == s[..k] + s[k..];
    if e + a == s {
      assert a == (e + a)[|e|..];
    }
  }

  lemma {:induction false} FixedExactly(s: string, b: bool, inString: bool)
    ensures N(s, b, if inString then Double else Out) == s <==> JsonOnly(s, b, inString)
    decreases |s|
  {
    hide N, MatchLiteral, WordLen;
    var q := if inString then Double else Out;
    if s == "" {
      NEmpty(b, q);
    } else {
      Unfold(s, b, q);
      var m := Step(s, b, q);
      if !inString && s[0] == '\'' {
        assert N(s, b, q)[0] == '"';
      } else if TakesLiteral(s, b, q) {
        StepLiteral(s);
        FixedLiteral(s);
      } else {
        FixedExactly(s[m.used..], BoundaryAfter(s, m.used), m.quote == Double);
        SameTail(m.emit, N(s[m.used..], BoundaryAfter(s, m.used), m.quote), s, m.used);
      }
    }
  }

  lemma FixedLiteral(s: string)
    requires s != "" && TakesLiteral(s, true, Out)
    ensures N(s, true, Out) != s
  {
    hide N;
    Unfold(s, true, Out);
    StepLiteral(s);
    LiteralChangesFirst(s[..WordLen(s)]);
  }

  /** The texts the normaliser leaves alone are exactly those that are JSON already. */
  lemma UnchangedExactly(s: string)
    ensures Norm(s) == s <==> JsonOnly(s, true, false)
  {
    FixedExactly(s, true, false);
  }

  // ----- brace depth -----

  /** Python's own lexer, one character at a time. */
  datatype PyLex = PyLex(depth: int, quote: Quote, escaped: bool)

  function PyStep(st: PyLex, c: char): PyLex {
    if st.escaped then st.(escaped := false)
    else if c == '\\' && st.quote != Out then st.(escaped := true)
    else if c == '"' && st.quote != Single then st.(quote := if st.quote == Double then Out else Double)
    else if c == '\'' && st.quote != Double then st.(quote := if st.quote == Single then Out else Single)
    else if st.quote == Out && c == '{' then st.(depth := st.depth + 1)
    else if st.quote == Out && c == '}' then st.(depth := st.depth - 1)
    else st
  }

  function PyScan(st: PyLex, s: string): PyLex
    decreases |s|
  {
    if s == "" then st else PyScan(PyStep(st, s[0]), s[1..])
  }

  function JsonView(st: PyLex): Lex { Lex(st.depth, st.quote != Out, st.escaped) }

  /** The JSON lexer on the output walks in step with the Python lexer on the input. */
  lemma {:induction false} LexersAgree(s: string, b: bool, d: int, q: Quote)
    ensures Scan(Lex(d, q != Out, false), N(s, b, q)) == JsonView(PyScan(PyLex(d, q, false), s))
    decreases |s|
  {
    hide Step, MatchLiteral, WordLen, IsWordChar, N;
    if s == "" {
      NEmpty(b, q);
    } else {
      var m := Step(s, b, q);
      Unfold(s, b, q);
      ScanConcat(Lex(d, q != Out, false), m.emit, N(s[m.used..], BoundaryAfter(s, m.used), m.quote));
      if TakesLiteral(s, b, q) {
        LexLiteral(s, d);
        LexersAgree(s[m.used..], BoundaryAfter(s, m.used), d, Out);
      } else {
        var d' := LexTurn(s, b, d, q);
        if |s| == 1 && q != Out && s[0] == '\\' {
          NEmpty(BoundaryAfter(s, m.used), m.quote);
        } else {
          LexersAgree(s[m.used..], BoundaryAfter(s, m.used), d', m.quote);
        }
      }
    }
  }

  lemma ScanTwo(st: Lex, c: char, e: char)
    ensures Scan(st, [c]) == LexStep(st, c)
    ensures Scan(st, [c, e]) == LexStep(LexStep(st, c), e)
  {
    assert [c][1..] == "" && Scan(LexStep(st, c), "") == LexStep(st, c);
    assert [c, e][1..] == [e] && [e][1..] == "";
    assert Scan(LexStep(st, c), [e]) == Scan(LexStep(LexStep(st, c), e), "");
  }

  lemma PyTwo(st: PyLex, s: string)
    requires s != ""
    ensures PyScan(st, s) == PyScan(PyStep(st, s[0]), s[1..])
    ensures |s| > 1 ==> PyScan(st, s) == PyScan(PyStep(PyStep(st, s[0]), s[1]), s[2..])
  {
    if |s| > 1 {
      assert s[1..][1..] == s[2..];
    }
  }

  lemma LexTurn(s: string, b: bool, d: int, q: Quote) returns (d': int)
    requires s != "" && !TakesLiteral(s, b, q)
    ensures var m := Step(s, b, q);
            if |s| == 1 && q != Out && s[0] == '\\' then
              s[m.used..] == "" && Scan(Lex(d, true, false), m.emit) == JsonView(PyScan(PyLex(d, q, false), s))
            else
              && Scan(Lex(d, q != Out, false), m.emit) == Lex(d', m.quote != Out, false)
              && PyScan(PyLex(d, q, false), s) == PyScan(PyLex(d', m.quote, false), s[m.used..])
  {
    hide MatchLiteral, N, Scan, PyScan, WordLen;
    var m := Step(s, b, q);
    ScanTwo(Lex(d, q != Out, false), m.emit[0], if |m.emit| > 1 then m.emit[1] else ' ');
    assert m.emit == if |m.emit| > 1 then [m.emit[0], m.emit[1]] else [m.emit[0]];
    PyTwo(PyLex(d, q, false), s);
    d' := if q == Out && s[0] == '{' then d + 1 else if q == Out && s[0] == '}' then d - 1 else d;
    if |s| == 1 && q != Out && s[0] == '\\' {
      PyEmpty(PyLex(d, q, true));
      assert s[1..] == "";
    }
  }

  lemma PyEmpty(st: PyLex)
    ensures PyScan(st, "") == st
  {
  }

  lemma {:induction false} ScanWordChars(w: string, d: int)
    requires forall k :: 0 <= k < |w| ==> IsWordChar(w[k])
    ensures Scan(Lex(d, false, false), w) == Lex(d, false, false)
  {
    if w != "" {
      ScanWordChars(w[1..], d);
    }
  }

  lemma {:induction false} PyWordChars(s: string, k: nat, d: int)
    requires k <= |s| && forall j :: 0 <= j < k ==> IsWordChar(s[j])
    ensures PyScan(PyLex(d, Out, false), s) == PyScan(PyLex(d, Out, false), s[k..])
    decreases k
  {
    if k > 0 {
      PyWordChars(s[1..], k - 1, d);
      assert s[1..][k - 1..] == s[k..];
    } else {
      assert s[0..] == s;
    }
  }

  lemma LexLiteral(s: string, d: int)
    requires s != "" && TakesLiteral(s, true, Out)
    ensures var m := Step(s, true, Out);
            && m.quote == Out
            && Scan(Lex(d, false, false), m.emit) == Lex(d, false, false)
            && PyScan(PyLex(d, Out, false), s) == PyScan(PyLex(d, Out, false), s[m.used..])
  {
    hide N, Scan, PyScan, MatchLiteral;
    StepLiteral(s);
    SpellingIsPlain(s[..WordLen(s)]);
    ScanWordChars(MatchLiteral(s[..WordLen(s)]).value, d);
    PyWordChars(s, WordLen(s), d);
  }

  /** `json_brace_depth` of the normalised value is the brace depth Python itself would count. */
  lemma DepthPreserved(s: string)
    ensures Scan(START, Norm(s)) == JsonView(PyScan(PyLex(0, Out, false), s))
  {
    LexersAgree(s, true, 0, Out);
  }
}
