/** JSON text as the chat parsers write it: string escaping (section 7 of RFC 8259, in the
    form of nlohmann's `dump`) and the brace-depth lexer that closes unfinished arguments. The
    lexer is a fold over characters, so that a scan of two texts in a row is the scan of one
    after the other, and an escaped text inside a literal leaves it where it was. The lemmas on
    prefixes of concatenations at the front serve all modules that reason about growing text. */
module JsonText {

  /** Two strings with the same beginning are in prefix order iff what follows is. */
  lemma PrefixCancel(e: string, a: string, b: string)
    ensures e + a <= e + b <==> a <= b
  {
    if e + a <= e + b {
      assert (e + a)[|e|..] == a && (e + b)[|e|..] == b;
      assert (e + b)[..|e + a|] == e + a;
      assert b[..|a|] == (e + b)[|e|..|e + a|];
    }
  }

  lemma Assoc(a: string, b: string, c: string)
    ensures a + (b + c) == a + b + c
  {
  }

  lemma PrefixTransitive(a: string, b: string, c: string)
    requires a <= b && b <= c
    ensures a <= c
  {
  }

  lemma AppendBoth(e: string, a: string, b: string, c: string)
    requires a <= b
    ensures e + a <= e + b + c && e + a <= e + b
  {
    assert (e + b + c)[..|e + a|] == e + b[..|a|];
    assert (e + b)[..|e + a|] == e + b[..|a|];
  }

  function HexDigit(n: nat): char
    requires n < 16
  {
    "0123456789abcdef"[n]
  }

  /** One code point inside a JSON string literal. */
  function EscapeChar(c: char): string {
    if c == '\U{0008}' then "\\b"
    else if c == '\t' then "\\t"
    else if c == '\n' then "\\n"
    else if c == '\U{000C}' then "\\f"
    else if c == '\r' then "\\r"
    else if c == '"' then "\\\""
    else if c == '\\' then "\\\\"
    else if c as int <= 0x1F then "\\u00" + [HexDigit(c as int / 16), HexDigit(c as int % 16)]
    else [c]
  }

  /** The inner text of a dumped string, without the surrounding quotes. */
  function Escape(s: string): string {
    if s == "" then "" else EscapeChar(s[0]) + Escape(s[1..])
  }

  function Dump(s: string): string {
    "\"" + Escape(s) + "\""
  }

  lemma {:induction false} EscapeConcat(a: string, b: string)
    ensures Escape(a + b) == Escape(a) + Escape(b)
  {
    hide EscapeChar;
    if a == "" {
      assert a + b == b;
    } else {
      EscapeConcat(a[1..], b);
      var c := a + b;
      assert c[0] == a[0] && c[1..] == a[1..] + b;
      Assoc(EscapeChar(a[0]), Escape(a[1..]), Escape(b));
    }
  }

  lemma EscapePrefix(a: string, b: string)
    requires a <= b
    ensures Escape(a) <= Escape(b)
  {
    EscapeConcat(a, b[|a|..]);
    assert a + b[|a|..] == b;
  }

  /** Escaped are the quotation mark, the backslash and the control characters, and nothing else. */
  lemma EscapedExactly(c: char)
    ensures EscapeChar(c) == [c] <==> c as int >= 0x20 && c != '"' && c != '\\'
    ensures forall k :: 0 <= k < |EscapeChar(c)| ==> EscapeChar(c)[k] as int >= 0x20
  {
  }

  /** Dumped text has no control character. */
  lemma {:induction false} EscapeIsClean(s: string)
    ensures forall k :: 0 <= k < |Escape(s)| ==> Escape(s)[k] as int >= 0x20
    decreases |s|
  {
    hide EscapeChar;
    if s != "" {
      EscapedExactly(s[0]);
      EscapeIsClean(s[1..]);
    }
  }

  // ----- brace-depth lexer -----

  datatype Lex = Lex(depth: int, inString: bool, escaped: bool)

  function LexStep(st: Lex, c: char): Lex {
    if st.escaped then st.(escaped := false)
    else if c == '\\' && st.inString then st.(escaped := true)
    else if c == '"' then st.(inString := !st.inString)
    else if st.inString then st
    else if c == '{' then st.(depth := st.depth + 1)
    else if c == '}' then st.(depth := st.depth - 1)
    else st
  }

  function Scan(st: Lex, s: string): Lex
    decreases |s|
  {
    if s == "" then st else Scan(LexStep(st, s[0]), s[1..])
  }

  const START := Lex(0, false, false)

  lemma {:induction false} ScanConcat(st: Lex, a: string, b: string)
    ensures Scan(st, a + b) == Scan(Scan(st, a), b)
    decreases |a|
  {
    if a == "" {
      assert a + b == b;
    } else {
      ScanConcat(LexStep(st, a[0]), a[1..], b);
      assert (a + b)[1..] == a[1..] + b;
    }
  }

  /** Depth is a running total: where the scan starts counting does not matter. */
  lemma {:induction false} ScanShift(st: Lex, k: int, s: string)
    ensures Scan(st.(depth := st.depth + k), s) == Scan(st, s).(depth := Scan(st, s).depth + k)
    decreases |s|
  {
    if s != "" {
      ScanShift(LexStep(st, s[0]), k, s[1..]);
      assert LexStep(st.(depth := st.depth + k), s[0]) == LexStep(st, s[0]).(depth := LexStep(st, s[0]).depth + k);
    }
  }

  lemma ScanEscapeChar(d: int, c: char)
    ensures Scan(Lex(d, true, false), EscapeChar(c)) == Lex(d, true, false)
  {
    var e := EscapeChar(c);
    if |e| == 1 {
      assert e[1..] == "";
    } else if |e| == 2 {
      assert Scan(Lex(d, true, false), e) == Scan(LexStep(Lex(d, true, true), e[1]), e[1..][1..]);
      assert e[1..][1..] == "";
    } else {
      ScanControl(d, HexDigit(c as int / 16), HexDigit(c as int % 16));
    }
  }

  lemma ScanControl(d: int, h1: char, h2: char)
    requires h1 != '"' && h1 != '\\' && h2 != '"' && h2 != '\\'
    ensures Scan(Lex(d, true, false), "\\u00" + [h1, h2]) == Lex(d, true, false)
  {
    var st := Lex(d, true, false);
    ScanConcat(st, "\\u00", [h1, h2]);
    ScanConcat(st, "\\u", "00");
    assert "\\u" + "00" == "\\u00";
    assert Scan(st, "\\u") == Scan(LexStep(Lex(d, true, true), 'u'), "\\u"[1..][1..]);
    assert Scan(st, "00") == Scan(LexStep(st, '0'), "00"[1..]) == Scan(LexStep(st, '0'), "00"[1..][1..]);
    assert Scan(st, [h1, h2]) == Scan(st, [h1, h2][1..]) == Scan(st, [h1, h2][1..][1..]);
  }

  /** Escaped text never ends the literal it stands in and never touches the depth. */
  lemma {:induction false} ScanEscape(d: int, s: string)
    ensures Scan(Lex(d, true, false), Escape(s)) == Lex(d, true, false)
  {
    hide EscapeChar;
    if s != "" {
      ScanConcat(Lex(d, true, false), EscapeChar(s[0]), Escape(s[1..]));
      ScanEscapeChar(d, s[0]);
      ScanEscape(d, s[1..]);
    }
  }

  /** Number of unclosed braces outside string literals. */
  method BraceDepth(s: string) returns (depth: int)
    ensures depth == Scan(START, s).depth
  {
    depth := 0;
    var inString, escaped := false, false;
    for i := 0 to |s|
      invariant Scan(START, s[..i]) == Lex(depth, inString, escaped)
    {
      var c := s[i];
      ScanConcat(START, s[..i], [c]);
      assert s[..i + 1] == s[..i] + [c];
      assert Scan(Lex(depth, inString, escaped), [c]) == LexStep(Lex(depth, inString, escaped), c) by {
        assert [c][1..] == "";
      }
      if escaped {
        escaped := false;
        continue;
      }
      if c == '\\' && inString {
        escaped := true;
        continue;
      }
      if c == '"' {
        inString := !inString;
        continue;
      }
      if !inString {
        if c == '{' {
          depth := depth + 1;
        } else if c == '}' {
          depth := depth - 1;
        }
      }
    }
    assert s[..|s|] == s;
  }

  /** The closing braces that `tool_close` appends. */
  function Closers(n: int): string {
    if n <= 0 then "" else "}" + Closers(n - 1)
  }

  lemma {:induction false} ScanClosers(d: int)
    requires d >= 0
    ensures Scan(Lex(d, false, false), Closers(d)) == Lex(0, false, false)
  {
    if d > 0 {
      ScanClosers(d - 1);
      assert Closers(d)[1..] == Closers(d - 1);
    }
  }
}
