/** JSON values, their canonical text, and a reader that recovers the value from the text. The
    printer writes no white space and keeps members in order, as the renderers do; the reader
    is a recursive descent over the same grammar that knows nothing about the printer. That the
    two are inverse (`RoundTrip`) is what makes the canonical text a target worth rendering to:
    a client that parses the streamed arguments gets the value the model wrote. */
module JsonValue {
  import opened JsonText

  /** Scalars (numbers, true, false, null) keep the spelling of the model. */
  datatype Value =
    | Scalar(text: string)
    | Str(s: string)
    | Arr(items: seq<Value>)
    | Dict(members: seq<Member>)

  datatype Member = Member(name: string, value: Value)

  /** Canonical JSON, without white space. */
  function Print(v: Value): string
    decreases v, 1
  {
    match v
    case Scalar(text) => text
    case Str(s) => Dump(s)
    case Arr(items) => "[" + PrintItems(items) + "]"
    case Dict(members) => "{" + PrintMembers(members) + "}"
  }

  function PrintItems(vs: seq<Value>): string
    decreases vs, 0
  {
    if vs == [] then ""
    else if |vs| == 1 then Print(vs[0])
    else PrintItems(vs[..|vs| - 1]) + "," + Print(vs[|vs| - 1])
  }

  function PrintMember(m: Member): string
    decreases m, 2
  {
    Dump(m.name) + ":" + Print(m.value)
  }

  function PrintMembers(ms: seq<Member>): string
    decreases ms, 0
  {
    if ms == [] then ""
    else if |ms| == 1 then PrintMember(ms[0])
    else PrintMembers(ms[..|ms| - 1]) + "," + PrintMember(ms[|ms| - 1])
  }

  // ----- the reader -----

  datatype Read<+T> = Fail | Got(value: T, rest: string)

  function HexValue(c: char): int {
    if '0' <= c <= '9' then c as int - '0' as int
    else if 'a' <= c <= 'f' then c as int - 'a' as int + 10
    else -1
  }

  /** The character an escape sequence stands for (section 7 of RFC 8259, below U+0100). */
  function ReadEscape(s: string): (r: Read<char>)
    ensures r.Got? ==> |r.rest| < |s|
  {
    if s == "" then Fail
    else if s[0] == 'b' then Got('\U{0008}', s[1..])
    else if s[0] == 't' then Got('\t', s[1..])
    else if s[0] == 'n' then Got('\n', s[1..])
    else if s[0] == 'f' then Got('\U{000C}', s[1..])
    else if s[0] == 'r' then Got('\r', s[1..])
    else if s[0] == '"' || s[0] == '\\' || s[0] == '/' then Got(s[0], s[1..])
    else if s[0] == 'u' && |s| >= 5 && s[1] == '0' && s[2] == '0' && HexValue(s[3]) >= 0 && HexValue(s[4]) >= 0 then
      Got((16 * HexValue(s[3]) + HexValue(s[4])) as char, s[5..])
    else Fail
  }

  /** The rest of a string literal, after its opening quote. */
  function ReadString(s: string): (r: Read<string>)
    ensures r.Got? ==> |r.rest| < |s|
    decreases |s|
  {
    if s == "" then Fail
    else if s[0] == '"' then Got("", s[1..])
    else
      var c := if s[0] == '\\' then ReadEscape(s[1..]) else Got(s[0], s[1..]);
      match c
      case Fail => Fail
      case Got(ch, rest) =>
        match ReadString(rest)
        case Fail => Fail
        case Got(more, end) => Got([ch] + more, end)
  }

  predicate Structural(c: char) {
    c in {',', ':', '"', '[', ']', '{', '}'}
  }

  function ScalarLen(s: string): (n: nat)
    ensures n <= |s|
  {
    if s == "" || Structural(s[0]) then 0 else 1 + ScalarLen(s[1..])
  }

  function ReadValue(s: string): (r: Read<Value>)
    ensures r.Got? ==> |r.rest| < |s|
    decreases |s|, 0
  {
    if s == "" then Fail
    else if s[0] == '"' then
      match ReadString(s[1..])
      case Fail => Fail
      case Got(text, rest) => Got(Str(text), rest)
    else if s[0] == '[' then
      if |s| > 1 && s[1] == ']' then Got(Arr([]), s[2..])
      else match ReadItems(s[1..])
           case Fail => Fail
           case Got(vs, rest) => Got(Arr(vs), rest)
    else if s[0] == '{' then
      if |s| > 1 && s[1] == '}' then Got(Dict([]), s[2..])
      else match ReadMembers(s[1..])
           case Fail => Fail
           case Got(ms, rest) => Got(Dict(ms), rest)
    else
      var n := ScalarLen(s);
      if n == 0 then Fail else Got(Scalar(s[..n]), s[n..])
  }

  /** One or more values up to the closing bracket. */
  function ReadItems(s: string): (r: Read<seq<Value>>)
    ensures r.Got? ==> |r.rest| < |s|
    decreases |s|, 1
  {
    match ReadValue(s)
    case Fail => Fail
    case Got(v, rest) =>
      if rest == "" then Fail
      else if rest[0] == ']' then Got([v], rest[1..])
      else if rest[0] == ',' then
        match ReadItems(rest[1..])
        case Fail => Fail
        case Got(vs, end) => Got([v] + vs, end)
      else Fail
  }

  function ReadMember(s: string): (r: Read<Member>)
    ensures r.Got? ==> |r.rest| < |s|
    decreases |s|, 1
  {
    if s == "" || s[0] != '"' then Fail
    else match ReadString(s[1..])
      case Fail => Fail
      case Got(name, rest) =>
        if rest == "" || rest[0] != ':' then Fail
        else match ReadValue(rest[1..])
             case Fail => Fail
             case Got(v, end) => Got(Member(name, v), end)
  }

  function ReadMembers(s: string): (r: Read<seq<Member>>)
    ensures r.Got? ==> |r.rest| < |s|
    decreases |s|, 2
  {
    match ReadMember(s)
    case Fail => Fail
    case Got(m, rest) =>
      if rest == "" then Fail
      else if rest[0] == '}' then Got([m], rest[1..])
      else if rest[0] == ',' then
        match ReadMembers(rest[1..])
        case Fail => Fail
        case Got(ms, end) => Got([m] + ms, end)
      else Fail
  }

  // ----- reading back what was printed -----

  predicate Plain(s: string) {
    forall k :: 0 <= k < |s| ==> !Structural(s[k])
  }

  /** Scalars that JSON can tell from their surroundings. */
  predicate WellFormed(v: Value) {
    match v
    case Scalar(text) => text != "" && Plain(text)
    case Str(_) => true
    case Arr(items) => forall i :: 0 <= i < |items| ==> WellFormed(items[i])
    case Dict(members) => forall i :: 0 <= i < |members| ==> WellFormed(members[i].value)
  }

  predicate Closed(rest: string) { rest == "" || Structural(rest[0]) }

  lemma HexInverse(d: nat)
    requires d < 16
    ensures HexValue(HexDigit(d)) == d
  {
  }

  lemma ReadsEscapedChar(c: char, rest: string)
    ensures EscapeChar(c) != "" && EscapeChar(c)[0] != '"'
    ensures if EscapeChar(c)[0] == '\\' then ReadEscape((EscapeChar(c) + rest)[1..]) == Got(c, rest)
            else EscapeChar(c) == [c]
  {
    if |EscapeChar(c)| == 6 {
      ReadsControl(c, rest);
    } else if |EscapeChar(c)| == 2 {
      ReadsShort(c, rest);
    }
  }

  lemma ReadsControl(c: char, rest: string)
    requires |EscapeChar(c)| == 6
    ensures EscapeChar(c)[0] == '\\' && ReadEscape((EscapeChar(c) + rest)[1..]) == Got(c, rest)
  {
    var t, n := (EscapeChar(c) + rest)[1..], c as int;
    HexInverse(n / 16);
    HexInverse(n % 16);
    assert t[3] == HexDigit(n / 16) && t[4] == HexDigit(n % 16) && t[0] == 'u' && t[1] == '0' && t[2] == '0';
    assert t[5..] == rest;
  }

  lemma ReadsShort(c: char, rest: string)
    requires |EscapeChar(c)| == 2
    ensures EscapeChar(c)[0] == '\\' && ReadEscape((EscapeChar(c) + rest)[1..]) == Got(c, rest)
  {
    var t := (EscapeChar(c) + rest)[1..];
    assert t[1..] == rest && t[0] == EscapeChar(c)[1];
  }

  lemma {:induction false} ReadsString(s: string, rest: string)
    ensures ReadString(Escape(s) + "\"" + rest) == Got(s, rest)
  {
    hide EscapeChar, ReadEscape;
    var t := Escape(s) + "\"" + rest;
    if s == "" {
      assert t == "\"" + rest && t[1..] == rest;
    } else {
      var tail := Escape(s[1..]) + "\"" + rest;
      assert t == EscapeChar(s[0]) + tail;
      ReadsEscapedChar(s[0], tail);
      ReadsString(s[1..], rest);
      assert t[0] == EscapeChar(s[0])[0];
      if t[0] != '\\' {
        assert t[1..] == tail;
      }
      assert [s[0]] + s[1..] == s;
    }
  }

  lemma {:induction false} ReadsScalar(text: string, rest: string)
    requires Plain(text) && Closed(rest)
    ensures ScalarLen(text + rest) == |text|
  {
    if text == "" {
      assert text + rest == rest;
    } else {
      ReadsScalar(text[1..], rest);
      assert (text + rest)[1..] == text[1..] + rest;
    }
  }

  /** Reading from the front what was defined from the back. */
  lemma {:induction false} ItemsFromFront(vs: seq<Value>)
    requires |vs| > 1
    ensures PrintItems(vs) == Print(vs[0]) + "," + PrintItems(vs[1..])
    decreases |vs|
  {
    var k := |vs| - 1;
    assert vs[1..][|vs[1..]| - 1] == vs[k];
    if k == 1 {
      assert vs[..1] == [vs[0]] && vs[1..] == [vs[1]];
    } else {
      ItemsFromFront(vs[..k]);
      assert vs[..k][1..] == vs[1..][..k - 1];
      var a, b := Print(vs[0]) + ",", PrintItems(vs[1..][..k - 1]);
      Assoc(a, b, "," + Print(vs[k]));
      Assoc(b, ",", Print(vs[k]));
      Assoc(a + b, ",", Print(vs[k]));
    }
  }

  lemma {:induction false} MembersFromFront(ms: seq<Member>)
    requires |ms| > 1
    ensures PrintMembers(ms) == PrintMember(ms[0]) + "," + PrintMembers(ms[1..])
    decreases |ms|
  {
    hide PrintMember;
    var k := |ms| - 1;
    assert ms[1..][|ms[1..]| - 1] == ms[k];
    if k == 1 {
      assert ms[..1] == [ms[0]] && ms[1..] == [ms[1]];
    } else {
      MembersFromFront(ms[..k]);
      assert ms[..k][1..] == ms[1..][..k - 1];
      var a, b := PrintMember(ms[0]) + ",", PrintMembers(ms[1..][..k - 1]);
      Assoc(a, b, "," + PrintMember(ms[k]));
      Assoc(b, ",", PrintMember(ms[k]));
      Assoc(a + b, ",", PrintMember(ms[k]));
    }
  }

  /** The first character decides how a value is read; no value starts with a closer. */
  lemma FirstChar(v: Value)
    requires WellFormed(v)
    ensures Print(v) != "" && Print(v)[0] != ']' && Print(v)[0] != '}' && Print(v)[0] != ',' && Print(v)[0] != ':'
  {
    match v
    case Scalar(text) => assert !Structural(text[0]);
    case Str(_) =>
    case Arr(_) =>
    case Dict(_) =>
  }

  /** For every value and every text it stands in: the reader gets the value back and stops
      right behind it. */
  lemma {:induction false} ReadsValue(v: Value, rest: string)
    requires WellFormed(v) && Closed(rest)
    ensures ReadValue(Print(v) + rest) == Got(v, rest)
    decreases v, 1
  {
    hide ReadItems, ReadMembers;
    match v
    case Scalar(text) => ReadsScalarValue(text, rest);
    case Str(s) => ReadsStr(s, rest);
    case Arr(items) =>
      if items != [] { ReadsItems(items, rest); }
      ReadsArr(items, rest);
    case Dict(members) =>
      if members != [] { ReadsMembers(members, rest); }
      ReadsDict(members, rest);
  }

  lemma ReadsStr(s: string, rest: string)
    ensures ReadValue(Print(Str(s)) + rest) == Got(Str(s), rest)
  {
    hide ReadString, Escape;
    var t := Print(Str(s)) + rest;
    ReadsString(s, rest);
    assert t[0] == '"' && t[1..] == Escape(s) + "\"" + rest;
  }

  lemma ReadsScalarValue(text: string, rest: string)
    requires text != "" && Plain(text) && Closed(rest)
    ensures ReadValue(text + rest) == Got(Scalar(text), rest)
  {
    ReadsScalar(text, rest);
    var t := text + rest;
    assert !Structural(text[0]) && t[0] == text[0];
    assert t[..|text|] == text && t[|text|..] == rest;
  }

  lemma ReadsArr(items: seq<Value>, rest: string)
    requires forall i :: 0 <= i < |items| ==> WellFormed(items[i])
    requires items != [] ==> ReadItems(PrintItems(items) + "]" + rest) == Got(items, rest)
    ensures ReadValue(Print(Arr(items)) + rest) == Got(Arr(items), rest)
  {
    hide ReadItems;
    var t := Print(Arr(items)) + rest;
    var body := PrintItems(items) + "]" + rest;
    assert t[0] == '[' && t[1..] == body;
    if items == [] {
      assert t[1] == ']' && t[2..] == rest;
    } else {
      FirstItem(items);
      assert t[1] == body[0] == PrintItems(items)[0];
    }
  }

  lemma FirstItem(items: seq<Value>)
    requires items != [] && WellFormed(items[0])
    ensures PrintItems(items) != "" && PrintItems(items)[0] != ']'
  {
    FirstChar(items[0]);
    if |items| > 1 { ItemsFromFront(items); }
  }

  lemma ReadsDict(members: seq<Member>, rest: string)
    requires members != [] ==> ReadMembers(PrintMembers(members) + "}" + rest) == Got(members, rest)
    ensures ReadValue(Print(Dict(members)) + rest) == Got(Dict(members), rest)
  {
    hide ReadMembers;
    var t := Print(Dict(members)) + rest;
    var body := PrintMembers(members) + "}" + rest;
    assert t[0] == '{' && t[1..] == body;
    if members == [] {
      assert t[1] == '}' && t[2..] == rest;
    } else {
      if |members| > 1 { MembersFromFront(members); }
      assert PrintMember(members[0])[0] == '"';
      assert t[1] == body[0] == PrintMembers(members)[0] == '"';
    }
  }

  /** One turn of the item reader, given what the value reader gets. */
  lemma ItemsTurn(t: string, v: Value, after: string)
    requires ReadValue(t) == Got(v, after) && after != ""
    ensures after[0] == ']' ==> ReadItems(t) == Got([v], after[1..])
    ensures after[0] == ',' && ReadItems(after[1..]).Got? ==>
              ReadItems(t) == Got([v] + ReadItems(after[1..]).value, ReadItems(after[1..]).rest)
  {
    hide ReadValue;
  }

  lemma {:induction false} ReadsItems(vs: seq<Value>, rest: string)
    requires vs != [] && forall i :: 0 <= i < |vs| ==> WellFormed(vs[i])
    ensures ReadItems(PrintItems(vs) + "]" + rest) == Got(vs, rest)
    decreases vs, 0
  {
    hide Print, ReadValue, ReadItems, PrintItems;
    var t := PrintItems(vs) + "]" + rest;
    if |vs| == 1 {
      ReadsValue(vs[0], "]" + rest);
      OnlyItem(vs, rest);
      ItemsTurn(t, vs[0], "]" + rest);
    } else {
      var more := PrintItems(vs[1..]) + "]" + rest;
      ReadsValue(vs[0], "," + more);
      ReadsItems(vs[1..], rest);
      ItemsFromFront(vs);
      JoinedText(Print(vs[0]), PrintItems(vs[1..]), "]", rest);
      assert ("," + more)[1..] == more;
      assert [vs[0]] + vs[1..] == vs;
      ItemsTurn(t, vs[0], "," + more);
    }
  }

  lemma OnlyItem(vs: seq<Value>, rest: string)
    requires |vs| == 1
    ensures PrintItems(vs) + "]" + rest == Print(vs[0]) + ("]" + rest)
    ensures ("]" + rest)[1..] == rest && [vs[0]] == vs
  {
    hide Print;
    Assoc(Print(vs[0]), "]", rest);
  }

  lemma JoinedText(a: string, more: string, close: string, rest: string)
    ensures a + "," + more + close + rest == a + ("," + (more + close + rest))
  {
  }

  /** One member, given what the string reader and the value reader get. */
  lemma MemberTurn(t: string, name: string, mid: string, v: Value, end: string)
    requires t != "" && t[0] == '"' && ReadString(t[1..]) == Got(name, mid)
    requires mid != "" && mid[0] == ':' && ReadValue(mid[1..]) == Got(v, end)
    ensures ReadMember(t) == Got(Member(name, v), end)
  {
    hide ReadValue, ReadString;
  }

  lemma MemberText(name: string, value: string, rest: string)
    ensures Dump(name) + ":" + value + rest == "\"" + (Escape(name) + "\"" + (":" + (value + rest)))
  {
  }

  lemma ReadsMember(m: Member, rest: string)
    requires WellFormed(m.value) && Closed(rest)
    ensures ReadMember(PrintMember(m) + rest) == Got(m, rest)
    decreases m, 2
  {
    hide Print, ReadValue, ReadMember, ReadString, Escape, Dump;
    var t := PrintMember(m) + rest;
    var mid := ":" + (Print(m.value) + rest);
    MemberText(m.name, Print(m.value), rest);
    ReadsString(m.name, mid);
    assert t[1..] == Escape(m.name) + "\"" + mid;
    ReadsValue(m.value, rest);
    assert mid[1..] == Print(m.value) + rest;
    MemberTurn(t, m.name, mid, m.value, rest);
  }

  lemma MembersTurn(t: string, m: Member, after: string)
    requires ReadMember(t) == Got(m, after) && after != ""
    ensures after[0] == '}' ==> ReadMembers(t) == Got([m], after[1..])
    ensures after[0] == ',' && ReadMembers(after[1..]).Got? ==>
              ReadMembers(t) == Got([m] + ReadMembers(after[1..]).value, ReadMembers(after[1..]).rest)
  {
    hide ReadMember;
  }

  lemma {:induction false} ReadsMembers(ms: seq<Member>, rest: string)
    requires ms != [] && forall i :: 0 <= i < |ms| ==> WellFormed(ms[i].value)
    ensures ReadMembers(PrintMembers(ms) + "}" + rest) == Got(ms, rest)
    decreases ms, 0
  {
    hide PrintMember, ReadMember, ReadMembers, PrintMembers;
    var t := PrintMembers(ms) + "}" + rest;
    if |ms| == 1 {
      ReadsMember(ms[0], "}" + rest);
      OnlyMember(ms, rest);
      MembersTurn(t, ms[0], "}" + rest);
    } else {
      var more := PrintMembers(ms[1..]) + "}" + rest;
      ReadsMember(ms[0], "," + more);
      ReadsMembers(ms[1..], rest);
      MembersFromFront(ms);
      JoinedText(PrintMember(ms[0]), PrintMembers(ms[1..]), "}", rest);
      assert ("," + more)[1..] == more;
      assert [ms[0]] + ms[1..] == ms;
      MembersTurn(t, ms[0], "," + more);
    }
  }

  lemma OnlyMember(ms: seq<Member>, rest: string)
    requires |ms| == 1
    ensures PrintMembers(ms) + "}" + rest == PrintMember(ms[0]) + ("}" + rest)
    ensures ("}" + rest)[1..] == rest && [ms[0]] == ms
  {
    hide PrintMember;
    Assoc(PrintMember(ms[0]), "}", rest);
  }

  /** Printing then reading gives the value back, with nothing left over. */
  lemma RoundTrip(v: Value)
    requires WellFormed(v)
    ensures ReadValue(Print(v)) == Got(v, "")
  {
    ReadsValue(v, "");
    assert Print(v) + "" == Print(v);
  }
}
