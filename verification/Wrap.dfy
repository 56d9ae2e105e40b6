/** Wrapping of help texts: a line that fits is kept as it is, an over-long one is taken apart into
    words and filled greedily. `Words` is what reading strings from a stream gives, `Fill` the
    greedy filling, and the loops of the code are proved to compute them. No word is lost or moved,
    every line fits unless it is a single word that cannot, and no other way of cutting the same
    words into acceptable lines takes fewer of them. */
module Wrap {
  import opened Chars

  // ----- words -----

  function RunLen(s: string): (n: nat)
    ensures n <= |s| && (n < |s| ==> IsSpace(s[n]))
    ensures forall k :: 0 <= k < n ==> !IsSpace(s[k])
    ensures s != "" && !IsSpace(s[0]) ==> n > 0
  {
    if s == "" || IsSpace(s[0]) then 0 else 1 + RunLen(s[1..])
  }

  /** What `>>` reads from the text, one string at a time. */
  function Words(s: string): seq<string>
    decreases |s|
  {
    if s == "" then []
    else if IsSpace(s[0]) then Words(s[1..])
    else [s[..RunLen(s)]] + Words(s[RunLen(s)..])
  }

  predicate IsWord(w: string) { w != "" && forall k :: 0 <= k < |w| ==> !IsSpace(w[k]) }

  predicate AreWords(ws: seq<string>) { forall k :: 0 <= k < |ws| ==> IsWord(ws[k]) }

  lemma {:induction false} WordsAreWords(s: string)
    ensures AreWords(Words(s))
    decreases |s|
  {
    if s != "" {
      if IsSpace(s[0]) {
        WordsAreWords(s[1..]);
      } else {
        WordsAreWords(s[RunLen(s)..]);
      }
    }
  }

  lemma {:induction false} RunLenIs(s: string, n: nat)
    requires n <= |s| && (n < |s| ==> IsSpace(s[n])) && forall k :: 0 <= k < n ==> !IsSpace(s[k])
    ensures RunLen(s) == n
  {
    if n > 0 {
      RunLenIs(s[1..], n - 1);
    }
  }

  lemma NoWords()
    ensures Words("") == []
  {
  }

  /** A word at the front, followed by nothing or by white space. */
  lemma WordFirst(w: string, rest: string)
    requires IsWord(w) && (rest == "" || IsSpace(rest[0]))
    ensures Words(w + rest) == [w] + Words(rest)
  {
    var s := w + rest;
    assert s[0] == w[0];
    RunLenIs(s, |w|);
    assert s[..|w|] == w && s[|w|..] == rest;
  }

  lemma BlankFirst(c: char, rest: string)
    requires IsSpace(c)
    ensures Words([c] + rest) == Words(rest)
  {
    assert ([c] + rest)[1..] == rest;
  }

  /** A text is empty, begins with white space, or with a word. */
  lemma FirstWord(s: string) returns (w: string, rest: string)
    requires s != ""
    ensures s == w + rest && |rest| < |s|
    ensures (|w| == 1 && IsSpace(w[0])) || (IsWord(w) && (rest == "" || IsSpace(rest[0])))
  {
    var n := if IsSpace(s[0]) then 1 else RunLen(s);
    w, rest := s[..n], s[n..];
  }

  /** Words on either side of white space. */
  lemma {:induction false} WordsAcross(a: string, b: string)
    requires b == "" || IsSpace(b[0])
    ensures Words(a + b) == Words(a) + Words(b)
    decreases |a|
  {
    hide Words;
    if a == "" {
      NoWords();
      assert a + b == b && [] + Words(b) == Words(b);
    } else {
      var w, rest := FirstWord(a);
      WordsAcross(rest, b);
      assert a + b == w + (rest + b);
      if |w| == 1 && IsSpace(w[0]) {
        assert w == [w[0]];
        BlankFirst(w[0], rest);
        BlankFirst(w[0], rest + b);
      } else {
        assert rest + b == "" || IsSpace((rest + b)[0]);
        WordFirst(w, rest);
        WordFirst(w, rest + b);
        var x, y, z := [w], Words(rest), Words(b);
        assert x + (y + z) == x + y + z;
      }
    }
  }

  // ----- lines as groups of words -----

  function Join(g: seq<string>): string {
    if g == [] then "" else if |g| == 1 then g[0] else Join(g[..|g| - 1]) + " " + g[|g| - 1]
  }

  lemma WordAlone(w: string)
    requires IsWord(w)
    ensures Words(w) == [w]
  {
    NoWords();
    WordFirst(w, "");
    assert w + "" == w;
  }

  lemma {:induction false} WordsOfJoin(g: seq<string>)
    requires AreWords(g)
    ensures Words(Join(g)) == g
  {
    hide Words, IsWord;
    if g == [] {
      NoWords();
    } else if |g| == 1 {
      WordAlone(g[0]);
      assert g == [g[0]];
    } else {
      var init, w := g[..|g| - 1], g[|g| - 1];
      WordsOfJoin(init);
      assert Join(g) == Join(init) + (" " + w) by {
        var a, b, c := Join(init), " ", w;
        assert a + (b + c) == a + b + c;
      }
      WordsAcross(Join(init), " " + w);
      BlankFirst(' ', w);
      WordAlone(w);
      assert g == init + [w];
    }
  }

  lemma JoinSnoc(g: seq<string>, w: string)
    ensures Join(g + [w]) == if g == [] then w else Join(g) + " " + w
  {
    assert (g + [w])[..|g|] == g;
  }

  /** A line with words in front is longer. */
  lemma {:induction false} JoinSuffix(a: seq<string>, b: seq<string>)
    ensures |Join(b)| <= |Join(a + b)|
  {
    if b == [] {
    } else {
      var init, w := b[..|b| - 1], b[|b| - 1];
      JoinSuffix(a, init);
      JoinSnoc(init, w);
      JoinSnoc(a + init, w);
      assert init + [w] == b && a + init + [w] == a + b;
    }
  }

  // ----- the greedy filling -----

  predicate Fits(g: seq<string>, width: nat) { |Join(g)| <= width }

  function Last<T>(s: seq<T>): T
    requires s != []
  {
    s[|s| - 1]
  }

  function Init<T>(s: seq<T>): (r: seq<T>)
    requires s != []
    ensures |r| == |s| - 1
  {
    s[..|s| - 1]
  }

  /** Each word goes on the line begun before it if it fits there. */
  function Fill(ws: seq<string>, width: nat): (gs: seq<seq<string>>)
  {
    if ws == [] then []
    else
      var gs, w := Fill(Init(ws), width), Last(ws);
      if gs != [] && Fits(Last(gs) + [w], width) then Init(gs) + [Last(gs) + [w]] else gs + [[w]]
  }

  function Flatten(gs: seq<seq<string>>): seq<string> {
    if gs == [] then [] else Flatten(Init(gs)) + Last(gs)
  }

  lemma FlattenSnoc(gs: seq<seq<string>>, g: seq<string>)
    ensures Flatten(gs + [g]) == Flatten(gs) + g
  {
    assert Init(gs + [g]) == gs;
  }

  /** Every line fits or holds a single word. */
  predicate Allowed(gs: seq<seq<string>>, width: nat) {
    forall i {:trigger gs[i]} :: 0 <= i < |gs| ==> gs[i] != [] && (|gs[i]| == 1 || Fits(gs[i], width))
  }

  lemma {:induction false} FillIsAllowed(ws: seq<string>, width: nat)
    ensures Allowed(Fill(ws, width), width) && Flatten(Fill(ws, width)) == ws
    ensures Fill(ws, width) == [] <==> ws == []
  {
    hide Fits;
    if ws != [] {
      var gs, w := Fill(Init(ws), width), Last(ws);
      FillIsAllowed(Init(ws), width);
      assert ws == Init(ws) + [w];
      if gs != [] && Fits(Last(gs) + [w], width) {
        FlattenSnoc(Init(gs), Last(gs) + [w]);
        assert Flatten(Init(gs)) + (Last(gs) + [w]) == Flatten(Init(gs)) + Last(gs) + [w];
      } else {
        FlattenSnoc(gs, [w]);
      }
    }
  }

  predicate Suffix(a: seq<string>, b: seq<string>) { |a| <= |b| && b[|b| - |a|..] == a }

  /** The greedy filling never falls behind: it has fewer lines, or as many and its open line is no longer. */
  predicate Ahead(gs: seq<seq<string>>, hs: seq<seq<string>>) {
    |gs| < |hs| || (|gs| == |hs| && (gs == [] || Suffix(Last(gs), Last(hs))))
  }

  /** The grouping before its last word came. */
  function Before(hs: seq<seq<string>>): seq<seq<string>>
    requires hs != [] && Last(hs) != []
  {
    var h := Last(hs);
    if |h| == 1 then Init(hs) else Init(hs) + [Init(h)]
  }

  lemma BeforeIsAllowed(hs: seq<seq<string>>, width: nat)
    requires hs != [] && Allowed(hs, width)
    ensures Last(hs) != [] && Allowed(Before(hs), width)
    ensures var ws := Flatten(hs); ws != [] && Last(ws) == Last(Last(hs)) && Flatten(Before(hs)) == Init(ws)
  {
    hide Join;
    var h, init := Last(hs), Init(hs);
    var w := Last(h);
    assert h == Init(h) + [w];
    assert Flatten(init) + (Init(h) + [w]) == Flatten(init) + Init(h) + [w];
    if |h| == 1 {
      assert Flatten(init) + Init(h) == Flatten(init);
    } else {
      FlattenSnoc(init, Init(h));
      JoinSnoc(Init(h), w);
      assert Fits(Init(h), width);
    }
  }

  lemma {:induction false} FillIsAhead(ws: seq<string>, width: nat, hs: seq<seq<string>>)
    requires Allowed(hs, width) && Flatten(hs) == ws
    ensures Ahead(Fill(ws, width), hs)
    decreases |ws|
  {
    if hs != [] {
      hide Allowed, Flatten, Ahead, Fits;
      BeforeIsAllowed(hs, width);
      FillIsAhead(Init(ws), width, Before(hs));
      FillIsAllowed(Init(ws), width);
      OneMoreWord(Fill(Init(ws), width), hs, width);
    }
  }

  /** A line that is no longer has room wherever the other has. */
  lemma RoomForBoth(g: seq<string>, h: seq<string>, width: nat)
    requires h != [] && Suffix(g, Init(h))
    ensures Suffix(g + [Last(h)], h)
    ensures Fits(h, width) ==> Fits(g + [Last(h)], width)
  {
    var front := Init(h)[..|h| - 1 - |g|];
    assert h == front + (g + [Last(h)]);
    JoinSuffix(front, g + [Last(h)]);
  }

  lemma OneMoreWord(gs: seq<seq<string>>, hs: seq<seq<string>>, width: nat)
    requires hs != [] && Last(hs) != [] && Allowed(hs, width)
    requires Ahead(gs, Before(hs))
    ensures var w := Last(Last(hs));
            Ahead(if gs != [] && Fits(Last(gs) + [w], width) then Init(gs) + [Last(gs) + [w]] else gs + [[w]], hs)
  {
    var h := Last(hs);
    assert |h| == 1 || Fits(h, width) by {
      assert h == hs[|hs| - 1];
    }
    hide Fits, Allowed;
    var ks := Before(hs);
    if |h| > 1 && |gs| == |ks| && gs != [] {
      RoomForBoth(Last(gs), h, width);
    }
  }

  // ----- wrapping a line -----

  function Joined(gs: seq<seq<string>>): (r: seq<string>)
    ensures |r| == |gs| && forall i :: 0 <= i < |gs| ==> r[i] == Join(gs[i])
  {
    seq(|gs|, i requires 0 <= i < |gs| => Join(gs[i]))
  }

  function WrapLine(l: string, width: nat): seq<string> {
    if |l| <= width then [l] else Joined(Fill(Words(l), width))
  }

  function AllWords(ls: seq<string>): seq<string> {
    if ls == [] then [] else AllWords(Init(ls)) + Words(Last(ls))
  }

  lemma InitLast<T>(s: seq<T>)
    requires s != []
    ensures Init(s) + [Last(s)] == s
  {
  }

  lemma WrapAllSnoc(ls: seq<string>, l: string, width: nat)
    ensures WrapAll(ls + [l], width) == WrapAll(ls, width) + WrapLine(l, width)
  {
    hide WrapLine;
    assert Init(ls + [l]) == ls;
  }

  lemma AllWordsSnoc(ls: seq<string>, l: string)
    ensures AllWords(ls + [l]) == AllWords(ls) + Words(l)
  {
    assert Init(ls + [l]) == ls;
  }

  lemma {:induction false} JoinedWords(gs: seq<seq<string>>)
    requires AreWords(Flatten(gs))
    ensures AllWords(Joined(gs)) == Flatten(gs)
  {
    hide Words, Join, IsWord;
    if gs != [] {
      var init, g := Init(gs), Last(gs);
      var a, b := Flatten(init), g;
      assert AreWords(a) && AreWords(b) by {
        forall k | 0 <= k < |a| ensures IsWord(a[k]) {
          assert (a + b)[k] == a[k];
        }
        forall k | 0 <= k < |b| ensures IsWord(b[k]) {
          assert (a + b)[|a| + k] == b[k];
        }
      }
      JoinedWords(init);
      WordsOfJoin(g);
      AllWordsSnoc(Joined(init), Join(g));
      assert Joined(gs) == Joined(init) + [Join(g)];
    }
  }

  /** No word is lost, added or moved. */
  lemma WrapKeepsWords(l: string, width: nat)
    ensures AllWords(WrapLine(l, width)) == Words(l)
  {
    hide Words, Fill, AllWords;
    if |l| <= width {
      AllWordsSnoc([], l);
      NoLines();
      assert [] + [l] == [l] && [] + Words(l) == Words(l);
    } else {
      WordsAreWords(l);
      FillIsAllowed(Words(l), width);
      JoinedWords(Fill(Words(l), width));
    }
  }

  lemma NoLines()
    ensures AllWords([]) == []
  {
  }

  /** A line that is too long is one word and nothing else. */
  lemma WrapFits(l: string, width: nat, i: nat)
    requires i < |WrapLine(l, width)|
    ensures var line := WrapLine(l, width)[i]; |line| <= width || (IsWord(line) && Words(line) == [line])
  {
    hide Words, Fill, Join, IsWord;
    if |l| > width {
      WordsAreWords(l);
      FillIsAllowed(Words(l), width);
      var gs := Fill(Words(l), width);
      if |gs[i]| == 1 {
        GroupWords(gs, i);
        JoinOne(gs[i]);
        WordAlone(gs[i][0]);
      }
    }
  }

  lemma JoinOne(g: seq<string>)
    requires |g| == 1
    ensures Join(g) == g[0]
  {
  }

  lemma {:induction false} GroupWords(gs: seq<seq<string>>, i: nat)
    requires i < |gs| && AreWords(Flatten(gs))
    ensures AreWords(gs[i])
  {
    hide IsWord;
    var init, g := Init(gs), Last(gs);
    var a := Flatten(init);
    if i == |gs| - 1 {
      forall k | 0 <= k < |g| ensures IsWord(g[k]) {
        assert (a + g)[|a| + k] == g[k];
      }
    } else {
      forall k | 0 <= k < |a| ensures IsWord(a[k]) {
        assert (a + g)[k] == a[k];
      }
      GroupWords(init, i);
    }
  }

  // ----- the fewest lines -----

  lemma {:induction false} JoinFront(w: string, g: seq<string>)
    ensures |Join([w] + g)| == |w| + if g == [] then 0 else 1 + |Join(g)|
  {
    hide Join;
    if g == [] {
      assert [w] + g == [w];
      JoinOne([w]);
    } else {
      var init, v := Init(g), Last(g);
      JoinFront(w, init);
      JoinSnoc([w] + init, v);
      JoinSnoc(init, v);
      assert [w] + init + [v] == [w] + g && init + [v] == g;
    }
  }

  /** Words never take more room than the text they were read from. */
  lemma {:induction false} WordsAreShorter(s: string)
    ensures |Join(Words(s))| <= |s|
    decreases |s|
  {
    hide Words, Join;
    if s == "" {
      NoWords();
      assert |Join([])| == 0 by { JoinEmpty(); }
    } else {
      var w, rest := FirstWord(s);
      if |w| == 1 && IsSpace(w[0]) {
        assert w == [w[0]];
        BlankFirst(w[0], rest);
        WordsAreShorter(rest);
      } else {
        WordFirst(w, rest);
        JoinFront(w, Words(rest));
        if rest == "" {
          NoWords();
        } else {
          assert rest == [rest[0]] + rest[1..];
          BlankFirst(rest[0], rest[1..]);
          WordsAreShorter(rest[1..]);
        }
      }
    }
  }

  lemma JoinEmpty()
    ensures Join([]) == ""
  {
  }

  /** The words of each line that has any. */
  function Groups(ls: seq<string>): (gs: seq<seq<string>>)
    ensures |gs| <= |ls|
  {
    if ls == [] then []
    else if Words(Last(ls)) == [] then Groups(Init(ls))
    else Groups(Init(ls)) + [Words(Last(ls))]
  }

  lemma {:induction false} GroupsFlatten(ls: seq<string>)
    ensures Flatten(Groups(ls)) == AllWords(ls)
  {
    hide Words;
    if ls != [] {
      GroupsFlatten(Init(ls));
      FlattenSnoc(Groups(Init(ls)), Words(Last(ls)));
      assert AllWords(Init(ls)) + [] == AllWords(Init(ls));
    }
  }

  /** A line of a wrapping: it fits, or it holds a single word. */
  predicate Acceptable(l: string, width: nat) { |l| <= width || |Words(l)| == 1 }

  lemma {:induction false} GroupsAllowed(ls: seq<string>, width: nat)
    requires forall l <- ls :: Acceptable(l, width)
    ensures Allowed(Groups(ls), width)
  {
    hide Words, Join;
    if ls != [] {
      assert Acceptable(Last(ls), width);
      GroupsAllowed(Init(ls), width);
      WordsAreShorter(Last(ls));
    }
  }

  /** No list of acceptable lines with the same words is shorter. */
  lemma FewestLines(l: string, width: nat, others: seq<string>)
    requires |l| > width
    requires AllWords(others) == Words(l) && forall o <- others :: Acceptable(o, width)
    ensures |WrapLine(l, width)| <= |others|
  {
    hide Words, Fill, Groups, AllWords, Acceptable;
    GroupsFlatten(others);
    GroupsAllowed(others, width);
    FillIsAhead(Words(l), width, Groups(others));
  }

  // ----- all lines of a text -----

  function FirstBreak(s: string): (n: nat)
    ensures n <= |s| && (n < |s| ==> s[n] == '\n')
    ensures forall k :: 0 <= k < n ==> s[k] != '\n'
  {
    if s == "" || s[0] == '\n' then 0 else 1 + FirstBreak(s[1..])
  }

  /** What `getline` reads: a final line break does not begin another line. */
  function Lines(s: string): seq<string> {
    if s == "" then []
    else
      var n := FirstBreak(s);
      [s[..n]] + if n < |s| then Lines(s[n + 1..]) else []
  }

  function WrapAll(ls: seq<string>, width: nat): seq<string> {
    if ls == [] then [] else WrapAll(Init(ls), width) + WrapLine(Last(ls), width)
  }

  function BreakUp(s: string, width: nat): seq<string> { WrapAll(Lines(s), width) }

  lemma Regroup<T>(a: seq<T>, b: seq<T>, c: seq<T>)
    ensures a + (b + c) == a + b + c
  {
  }

  lemma {:induction false} AllWordsConcat(a: seq<string>, b: seq<string>)
    ensures AllWords(a + b) == AllWords(a) + AllWords(b)
  {
    if b == [] {
      assert a + b == a;
    } else {
      var b', x := Init(b), Last(b);
      hide *;
      InitLast(b);
      AllWordsConcat(a, b');
      AllWordsSnoc(a + b', x);
      AllWordsSnoc(b', x);
      Regroup(a, b', [x]);
      Regroup(AllWords(a), AllWords(b'), Words(x));
    }
  }

  lemma AllWordsFirst(l: string, ls: seq<string>)
    ensures AllWords([l] + ls) == Words(l) + AllWords(ls)
  {
    AllWordsConcat([l], ls);
    assert AllWords([l]) == Words(l) by {
      NoLines();
      assert Init([l]) == [] && [] + Words(l) == Words(l);
    }
  }

  lemma WordsAroundBreak(s: string, n: nat)
    requires n < |s| && s[n] == '\n'
    ensures Words(s) == Words(s[..n]) + Words(s[n + 1..])
  {
    hide Words;
    BlankFirst('\n', s[n + 1..]);
    WordsAcross(s[..n], s[n..]);
    assert s == s[..n] + s[n..] && s[n..] == ['\n'] + s[n + 1..];
  }

  lemma LinesStep(s: string)
    requires s != ""
    ensures var n := FirstBreak(s);
            Lines(s) == [s[..n]] + if n < |s| then Lines(s[n + 1..]) else []
  {
  }

  lemma {:induction false} LinesKeepWords(s: string)
    ensures AllWords(Lines(s)) == Words(s)
    decreases |s|
  {
    hide Words, AllWords;
    if s == "" {
      NoWords();
      NoLines();
    } else {
      LinesStep(s);
      hide Lines, FirstBreak;
      var n := FirstBreak(s);
      if n < |s| {
        AllWordsFirst(s[..n], Lines(s[n + 1..]));
        LinesKeepWords(s[n + 1..]);
        WordsAroundBreak(s, n);
      } else {
        assert s[..n] == s;
        LastLine(s);
      }
    }
  }

  lemma LastLine(l: string)
    ensures AllWords([l] + []) == Words(l)
  {
    hide Words, AllWords;
    AllWordsFirst(l, []);
    NoLines();
    assert Words(l) + [] == Words(l);
  }

  lemma {:induction false} WrapAllKeepsWords(ls: seq<string>, width: nat)
    ensures AllWords(WrapAll(ls, width)) == AllWords(ls)
  {
    hide Words, WrapLine;
    if ls != [] {
      WrapAllKeepsWords(Init(ls), width);
      WrapKeepsWords(Last(ls), width);
      AllWordsConcat(WrapAll(Init(ls), width), WrapLine(Last(ls), width));
    }
  }

  /** The whole text keeps its words in order. */
  lemma BreakUpKeepsWords(s: string, width: nat)
    ensures AllWords(BreakUp(s, width)) == Words(s)
  {
    LinesKeepWords(s);
    WrapAllKeepsWords(Lines(s), width);
  }

  // ----- the loops -----

  /** One `>>`: skips white space and reads a word, if there is one. */
  method NextWord(s: string, from: nat) returns (found: bool, word: string, next: nat)
    requires from <= |s|
    ensures next <= |s|
    ensures found ==> from < next && word != "" && Words(s[from..]) == [word] + Words(s[next..])
    ensures !found ==> Words(s[from..]) == []
  {
    hide Words;
    next := from;
    while next < |s| && IsSpace(s[next])
      invariant from <= next <= |s|
      invariant Words(s[from..]) == Words(s[next..])
    {
      assert s[next..] == [s[next]] + s[next + 1..];
      BlankFirst(s[next], s[next + 1..]);
      next := next + 1;
    }
    if next == |s| {
      NoWords();
      return false, "", next;
    }
    var start := next;
    while next < |s| && !IsSpace(s[next])
      invariant start <= next <= |s| && (start == next ==> next < |s| && !IsSpace(s[next]))
      invariant forall k :: start <= k < next ==> !IsSpace(s[k])
    {
      next := next + 1;
    }
    found, word := true, s[start..next];
    WordFirst(word, s[next..]);
    assert s[start..] == word + s[next..];
  }

  /** The lines finished so far and the one being filled. */
  predicate Filling(lines: seq<string>, current: string, seen: seq<string>, width: nat) {
    var gs := Fill(seen, width);
    if current == "" then seen == [] && lines == []
    else gs != [] && current == Join(Last(gs)) && lines == Joined(Init(gs))
  }

  lemma FillingFirst(lines: seq<string>, seen: seq<string>, width: nat, w: string)
    requires Filling(lines, "", seen, width) && w != ""
    ensures lines == [] && Filling(lines, w, seen + [w], width)
  {
    hide Fill, Join;
    FillOne(seen, w, width);
    JoinOne([w]);
    assert Init([[w]]) == [] && Joined([]) == [];
  }

  lemma FillingStep(lines: seq<string>, current: string, seen: seq<string>, width: nat, w: string)
    requires Filling(lines, current, seen, width) && current != "" && w != ""
    ensures if |current| + 1 + |w| <= width then Filling(lines, current + " " + w, seen + [w], width)
            else Filling(lines + [current], w, seen + [w], width)
  {
    hide Fill, Join;
    var gs := Fill(seen, width);
    FillNext(seen, w, width);
    JoinEmpty();
    JoinSnoc(Last(gs), w);
    if |current| + 1 + |w| <= width {
      assert Init(Init(gs) + [Last(gs) + [w]]) == Init(gs);
    } else {
      JoinOne([w]);
      assert Init(gs + [[w]]) == gs;
      assert Joined(gs) == Joined(Init(gs)) + [Join(Last(gs))];
    }
  }

  lemma FillOne(seen: seq<string>, w: string, width: nat)
    requires seen == []
    ensures Fill(seen + [w], width) == [[w]]
  {
    assert Init([w]) == [] && seen + [w] == [w];
  }

  lemma FillNext(seen: seq<string>, w: string, width: nat)
    ensures Fill(seen, width) == [] <==> seen == []
    ensures var gs := Fill(seen, width);
            Fill(seen + [w], width) ==
            if gs != [] && Fits(Last(gs) + [w], width) then Init(gs) + [Last(gs) + [w]] else gs + [[w]]
  {
    assert Init(seen + [w]) == seen;
  }

  method WrapLong(l: string, width: nat) returns (lines: seq<string>)
    requires |l| > width
    ensures lines == WrapLine(l, width)
  {
    hide Words, Fill, IsWord;
    lines := [];
    var current := "";
    ghost var seen: seq<string> := [];
    assert l[0..] == l && [] + Words(l) == Words(l);
    var found, word, next := NextWord(l, 0);
    while found
      invariant next <= |l|
      invariant Filling(lines, current, seen, width)
      invariant Words(l) == seen + if found then [word] + Words(l[next..]) else []
      invariant found ==> word != ""
      decreases found, |l| - next
    {
      if current == "" {
        FillingFirst(lines, seen, width, word);
      } else {
        FillingStep(lines, current, seen, width, word);
      }
      if |current| + (if current != "" then 1 else 0) + |word| > width {
        if current != "" {
          lines := lines + [current];
        }
        current := word;
      } else {
        current := current + (if current != "" then " " else "") + word;
      }
      assert seen + ([word] + Words(l[next..])) == seen + [word] + Words(l[next..]);
      seen := seen + [word];
      found, word, next := NextWord(l, next);
    }
    FillIsAllowed(seen, width);
    assert seen == Words(l);
    if current != "" {
      var gs := Fill(seen, width);
      assert Joined(gs) == Joined(Init(gs)) + [Join(Last(gs))];
      lines := lines + [current];
    }
  }

  lemma WrapNone(width: nat)
    ensures WrapAll([], width) == []
  {
  }

  method BreakIntoLines(input: string, width: nat) returns (result: seq<string>)
    ensures result == BreakUp(input, width)
    ensures AllWords(result) == Words(input)
  {
    BreakUpKeepsWords(input, width);
    WrapNone(width);
    hide Words, Fill, Lines, WrapLine, WrapAll, AllWords;
    result := [];
    ghost var seen: seq<string> := [];
    var pos := 0;
    assert input[0..] == input && [] + Lines(input) == Lines(input);
    while pos < |input|
      invariant pos <= |input|
      invariant Lines(input) == seen + Lines(input[pos..])
      invariant result == WrapAll(seen, width)
    {
      var start := pos;
      while pos < |input| && input[pos] != '\n'
        invariant start <= pos <= |input|
        invariant forall k :: start <= k < pos ==> input[k] != '\n'
      {
        pos := pos + 1;
      }
      var line := input[start..pos];
      NextLine(input, start, pos);
      if pos < |input| {
        pos := pos + 1;
      }
      assert seen + ([line] + Lines(input[pos..])) == seen + [line] + Lines(input[pos..]);
      WrapAllSnoc(seen, line, width);
      if |line| <= width {
        assert WrapLine(line, width) == [line] by { ShortLine(line, width); }
        result := result + [line];
      } else {
        var lines := WrapLong(line, width);
        result := result + lines;
      }
      seen := seen + [line];
    }
    NextLine(input, pos, pos);
    assert seen + [] == seen;
  }

  /** A line that fits is kept as it is, white space and all. */
  lemma ShortLine(l: string, width: nat)
    requires |l| <= width
    ensures WrapLine(l, width) == [l]
  {
  }

  lemma NextLine(s: string, start: nat, end: nat)
    requires start <= end <= |s| && (end < |s| ==> s[end] == '\n')
    requires forall k :: start <= k < end ==> s[k] != '\n'
    ensures start == |s| ==> Lines(s[start..]) == []
    ensures start < |s| ==> Lines(s[start..]) == [s[start..end]] + Lines(s[if end < |s| then end + 1 else end..])
  {
    if start < |s| {
      var t := s[start..];
      BreakIs(t, end - start);
      assert t[..end - start] == s[start..end];
      if end < |s| {
        assert t[end - start + 1..] == s[end + 1..];
      }
    }
  }

  lemma {:induction false} BreakIs(s: string, n: nat)
    requires n <= |s| && (n < |s| ==> s[n] == '\n') && forall k :: 0 <= k < n ==> s[k] != '\n'
    ensures FirstBreak(s) == n
  {
    if n > 0 {
      BreakIs(s[1..], n - 1);
    }
  }
}
