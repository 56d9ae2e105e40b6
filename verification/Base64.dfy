/** Base64 (sections 4 and 5 of RFC 4648) on bytes. `Decode` records what the decoder has written
    when it returns or throws, so that decoding a buffer onto itself can be compared with
    decoding a copy. The encoder takes three bytes at a time, the decoder one symbol, with the
    bits still open left over from the last. The alphabet of a text is fixed, or detected from the
    first symbol that only one of the two has. */
module Base64 {
  import opened Wrappers

  type Byte = bv8

  datatype Alphabet = Auto | Standard | UrlSafe

  datatype Behavior = Moderate | Loose

  const PAD: Byte := 61

  // ----- one symbol -----

  /** The character that stands for a six-bit value. */
  function Symbol(alphabet: Alphabet, v: Byte): Byte
    requires v < 64
  {
    if v < 26 then 65 + v
    else if v < 52 then 97 + (v - 26)
    else if v < 62 then 48 + (v - 52)
    else if alphabet == UrlSafe then (if v == 62 then 45 else 95)
    else (if v == 62 then 43 else 47)
  }

  datatype Reading = Reading(alphabet: Alphabet, value: Byte)

  /** The value of a character; automatic detection settles on the alphabet that has it. */
  function Value(alphabet: Alphabet, c: Byte): (r: Option<Reading>)
    ensures r.Some? ==> r.value.value < 64 && c != PAD
  {
    if 65 <= c <= 90 then Some(Reading(alphabet, c - 65))
    else if 97 <= c <= 122 then Some(Reading(alphabet, c - 97 + 26))
    else if 48 <= c <= 57 then Some(Reading(alphabet, c - 48 + 52))
    else match alphabet
         case Standard =>
           if c == 43 then Some(Reading(Standard, 62)) else if c == 47 then Some(Reading(Standard, 63)) else None
         case UrlSafe =>
           if c == 45 then Some(Reading(UrlSafe, 62)) else if c == 95 then Some(Reading(UrlSafe, 63)) else None
         case Auto =>
           if c == 43 then Some(Reading(Standard, 62))
           else if c == 47 then Some(Reading(Standard, 63))
           else if c == 45 then Some(Reading(UrlSafe, 62))
           else if c == 95 then Some(Reading(UrlSafe, 63))
           else None
  }

  /** What an encoder for `alphabet` writes. */
  function Written(alphabet: Alphabet): Alphabet { if alphabet == UrlSafe then UrlSafe else Standard }

  lemma ValueOfSymbol(alphabet: Alphabet, v: Byte)
    requires v < 64
    ensures alphabet != Auto ==> Value(alphabet, Symbol(alphabet, v)) == Some(Reading(alphabet, v))
    ensures Symbol(alphabet, v) != PAD
  {
  }

  lemma SymbolOfValue(alphabet: Alphabet, c: Byte)
    requires alphabet != Auto && Value(alphabet, c).Some?
    ensures Value(alphabet, c).value.alphabet == alphabet
    ensures Symbol(alphabet, Value(alphabet, c).value.value) == c
  {
  }

  // ----- encoding -----

  function First(i0: Byte): (v: Byte) ensures v < 64 { (i0 >> 2) & 0x3f }

  function Second(i0: Byte, i1: Byte): (v: Byte) ensures v < 64 { ((i0 & 0x3) << 4) | ((i1 >> 4) & 0x0f) }

  function Third(i1: Byte, i2: Byte): (v: Byte) ensures v < 64 { ((i1 & 0xf) << 2) | ((i2 >> 6) & 0x03) }

  function Fourth(i2: Byte): (v: Byte) ensures v < 64 { i2 & 0x3f }

  function Encode(alphabet: Alphabet, s: seq<Byte>): seq<Byte>
  {
    if s == [] then []
    else if |s| == 1 then
      [Symbol(alphabet, First(s[0])), Symbol(alphabet, Second(s[0], 0)), PAD, PAD]
    else if |s| == 2 then
      [Symbol(alphabet, First(s[0])), Symbol(alphabet, Second(s[0], s[1])), Symbol(alphabet, Third(s[1], 0)), PAD]
    else
      [Symbol(alphabet, First(s[0])), Symbol(alphabet, Second(s[0], s[1])),
       Symbol(alphabet, Third(s[1], s[2])), Symbol(alphabet, Fourth(s[2]))] + Encode(alphabet, s[3..])
  }

  // ----- decoding -----

  /** What has been written to the output, and whether the decoder came to the end. */
  datatype Decoded = Decoded(bytes: seq<Byte>, ok: bool)

  predicate AllPadding(t: seq<Byte>) { forall i :: 0 <= i < |t| ==> t[i] == PAD }

  /** The byte that `bits` pending bits of `last` and the new symbol `part` make. */
  function Join(bits: nat, last: Byte, part: Byte): Byte {
    if bits == 6 then (last << 2) | (part >> 4)
    else if bits == 4 then (last << 4) | (part >> 2)
    else (last << 6) | part
  }

  function After(bits: nat): nat { if bits >= 2 then bits - 2 else bits + 6 }

  function DecodeFrom(t: seq<Byte>, alphabet: Alphabet, behavior: Behavior, bits: nat, last: Byte): Decoded {
    if t == [] then Decoded([], true)
    else if t[0] == PAD then Decoded([], behavior == Loose || AllPadding(t[1..]))
    else match Value(alphabet, t[0])
         case None => Decoded([], false)
         case Some(r) =>
           var rest := DecodeFrom(t[1..], r.alphabet, behavior, After(bits), r.value);
           if bits >= 2 then rest.(bytes := [Join(bits, last, r.value)] + rest.bytes) else rest
  }

  function Decode(t: seq<Byte>, alphabet: Alphabet, behavior: Behavior): Decoded {
    DecodeFrom(t, alphabet, behavior, 0, 0)
  }

  // ----- bits -----

  lemma JoinsBack(i0: Byte, i1: Byte, i2: Byte)
    ensures Join(6, First(i0), Second(i0, i1)) == i0
    ensures Join(4, Second(i0, i1), Third(i1, i2)) == i1
    ensures Join(2, Third(i1, i2), Fourth(i2)) == i2
  {
  }

  lemma SplitsBack(v0: Byte, v1: Byte, v2: Byte, v3: Byte)
    requires v0 < 64 && v1 < 64 && v2 < 64 && v3 < 64
    ensures var i0, i1, i2 := Join(6, v0, v1), Join(4, v1, v2), Join(2, v2, v3);
            First(i0) == v0 && Second(i0, i1) == v1 && Third(i1, i2) == v2 && Fourth(i2) == v3
  {
  }

  lemma PaddedBits(v0: Byte, v1: Byte, v2: Byte)
    requires v0 < 64 && v1 < 64 && v2 < 64
    ensures v1 & 0xf == 0 ==> First(Join(6, v0, v1)) == v0 && Second(Join(6, v0, v1), 0) == v1
    ensures v2 & 0x3 == 0 ==> var i0, i1 := Join(6, v0, v1), Join(4, v1, v2);
                             First(i0) == v0 && Second(i0, i1) == v1 && Third(i1, 0) == v2
  {
  }

  lemma PaddingBits(i: Byte)
    ensures Second(i, 0) & 0xf == 0 && Third(i, 0) & 0x3 == 0
  {
  }

  // ----- one group -----

  lemma Unfold(t: seq<Byte>, alphabet: Alphabet, behavior: Behavior, bits: nat, last: Byte)
    requires t != [] && Value(alphabet, t[0]).Some?
    ensures var r := Value(alphabet, t[0]).value;
            var rest := DecodeFrom(t[1..], r.alphabet, behavior, After(bits), r.value);
            DecodeFrom(t, alphabet, behavior, bits, last) ==
            if bits >= 2 then rest.(bytes := [Join(bits, last, r.value)] + rest.bytes) else rest
  {
    hide Join, Value;
  }

  predicate Symbols(alphabet: Alphabet, t: seq<Byte>) {
    forall i :: 0 <= i < |t| ==> Value(alphabet, t[i]).Some?
  }

  function Val(alphabet: Alphabet, c: Byte): (v: Byte)
    requires Value(alphabet, c).Some?
    ensures v < 64
  {
    Value(alphabet, c).value.value
  }

  lemma Pair(t: seq<Byte>, alphabet: Alphabet, behavior: Behavior, last: Byte)
    requires alphabet != Auto && |t| >= 2 && Symbols(alphabet, t[..2])
    ensures Value(alphabet, t[0]).Some? && Value(alphabet, t[1]).Some?
    ensures var v0, v1 := Val(alphabet, t[0]), Val(alphabet, t[1]);
            var rest := DecodeFrom(t[2..], alphabet, behavior, 4, v1);
            DecodeFrom(t, alphabet, behavior, 0, last) == rest.(bytes := [Join(6, v0, v1)] + rest.bytes)
  {
    hide DecodeFrom, Join;
    assert t[..2][0] == t[0] && t[..2][1] == t[1];
    var v0 := Val(alphabet, t[0]);
    SymbolOfValue(alphabet, t[0]);
    SymbolOfValue(alphabet, t[1]);
    Unfold(t, alphabet, behavior, 0, last);
    Unfold(t[1..], alphabet, behavior, 6, v0);
    assert t[1..][1..] == t[2..];
  }

  lemma Triple(t: seq<Byte>, alphabet: Alphabet, behavior: Behavior, last: Byte)
    requires alphabet != Auto && |t| >= 3 && Symbols(alphabet, t[..3])
    ensures Symbols(alphabet, t[..2])
    ensures Value(alphabet, t[0]).Some? && Value(alphabet, t[1]).Some? && Value(alphabet, t[2]).Some?
    ensures var v0, v1, v2 := Val(alphabet, t[0]), Val(alphabet, t[1]), Val(alphabet, t[2]);
            var rest := DecodeFrom(t[3..], alphabet, behavior, 2, v2);
            DecodeFrom(t, alphabet, behavior, 0, last) ==
            rest.(bytes := [Join(6, v0, v1), Join(4, v1, v2)] + rest.bytes)
  {
    hide DecodeFrom, Join;
    assert t[..3][..2] == t[..2] && t[..3][2] == t[2];
    assert Symbols(alphabet, t[..2]) by {
      forall i | 0 <= i < 2 ensures Value(alphabet, t[..2][i]).Some? {
        assert t[..2][i] == t[..3][i];
      }
    }
    Pair(t, alphabet, behavior, last);
    SymbolOfValue(alphabet, t[2]);
    var v0, v1, v2 := Val(alphabet, t[0]), Val(alphabet, t[1]), Val(alphabet, t[2]);
    Unfold(t[2..], alphabet, behavior, 4, v1);
    assert t[2..][1..] == t[3..];
    var rest := DecodeFrom(t[3..], alphabet, behavior, 2, v2);
    assert [Join(6, v0, v1)] + ([Join(4, v1, v2)] + rest.bytes) == [Join(6, v0, v1), Join(4, v1, v2)] + rest.bytes;
  }

  lemma Group(t: seq<Byte>, alphabet: Alphabet, behavior: Behavior, last: Byte)
    requires alphabet != Auto && |t| >= 4 && Symbols(alphabet, t[..4])
    ensures Symbols(alphabet, t[..3]) && Value(alphabet, t[0]).Some? && Value(alphabet, t[1]).Some?
    ensures Value(alphabet, t[2]).Some? && Value(alphabet, t[3]).Some?
    ensures var v0, v1, v2, v3 := Val(alphabet, t[0]), Val(alphabet, t[1]), Val(alphabet, t[2]), Val(alphabet, t[3]);
            var rest := DecodeFrom(t[4..], alphabet, behavior, 0, v3);
            DecodeFrom(t, alphabet, behavior, 0, last) ==
            rest.(bytes := [Join(6, v0, v1), Join(4, v1, v2), Join(2, v2, v3)] + rest.bytes)
  {
    hide DecodeFrom, Join;
    assert Symbols(alphabet, t[..3]) by {
      forall i | 0 <= i < 3 ensures Value(alphabet, t[..3][i]).Some? {
        assert t[..3][i] == t[..4][i];
      }
    }
    assert t[..4][3] == t[3];
    Triple(t, alphabet, behavior, last);
    SymbolOfValue(alphabet, t[3]);
    var v0, v1, v2, v3 := Val(alphabet, t[0]), Val(alphabet, t[1]), Val(alphabet, t[2]), Val(alphabet, t[3]);
    Unfold(t[3..], alphabet, behavior, 2, v2);
    assert t[3..][1..] == t[4..];
    var rest := DecodeFrom(t[4..], alphabet, behavior, 0, v3);
    assert [Join(6, v0, v1), Join(4, v1, v2)] + ([Join(2, v2, v3)] + rest.bytes) ==
           [Join(6, v0, v1), Join(4, v1, v2), Join(2, v2, v3)] + rest.bytes;
  }

  /** One or two padding characters end the text. */
  lemma Padded(t: seq<Byte>, alphabet: Alphabet, behavior: Behavior, bits: nat, last: Byte)
    requires t == [PAD] || t == [PAD, PAD]
    ensures DecodeFrom(t, alphabet, behavior, bits, last) == Decoded([], true)
  {
    assert AllPadding(t[1..]);
  }

  // ----- decode undoes encode -----

  lemma DecodesShort(alphabet: Alphabet, s: seq<Byte>, behavior: Behavior, last: Byte)
    requires |s| == 1 || |s| == 2
    ensures DecodeFrom(Encode(alphabet, s), Written(alphabet), behavior, 0, last) == Decoded(s, true)
  {
    hide DecodeFrom, Join, First, Second, Third, Fourth, Symbol, Value;
    var t, w := Encode(alphabet, s), Written(alphabet);
    Knows(alphabet, First(s[0]));
    if |s| == 1 {
      Knows(alphabet, Second(s[0], 0));
      Pair(t, w, behavior, last);
      Padded(t[2..], w, behavior, 4, Second(s[0], 0));
      JoinsBack(s[0], 0, 0);
      assert [s[0]] + [] == s;
    } else {
      Knows(alphabet, Second(s[0], s[1]));
      Knows(alphabet, Third(s[1], 0));
      Triple(t, w, behavior, last);
      Padded(t[3..], w, behavior, 2, Third(s[1], 0));
      JoinsBack(s[0], s[1], 0);
      assert [s[0], s[1]] + [] == s;
    }
  }

  lemma {:induction false} DecodesBackFrom(alphabet: Alphabet, s: seq<Byte>, behavior: Behavior, last: Byte)
    ensures DecodeFrom(Encode(alphabet, s), Written(alphabet), behavior, 0, last) == Decoded(s, true)
  {
    hide DecodeFrom, Join, First, Second, Third, Fourth, Symbol, Value;
    var t, w := Encode(alphabet, s), Written(alphabet);
    if s == [] {
      NothingLeft(w, behavior, 0, last);
    } else if |s| <= 2 {
      DecodesShort(alphabet, s, behavior, last);
    } else {
      Knows(alphabet, First(s[0]));
      Knows(alphabet, Second(s[0], s[1]));
      Knows(alphabet, Third(s[1], s[2]));
      Knows(alphabet, Fourth(s[2]));
      Group(t, w, behavior, last);
      assert t[4..] == Encode(alphabet, s[3..]);
      DecodesBackFrom(alphabet, s[3..], behavior, Fourth(s[2]));
      JoinsBack(s[0], s[1], s[2]);
      assert [s[0], s[1], s[2]] + s[3..] == s;
    }
  }

  lemma NothingLeft(alphabet: Alphabet, behavior: Behavior, bits: nat, last: Byte)
    ensures DecodeFrom([], alphabet, behavior, bits, last) == Decoded([], true)
  {
  }

  lemma Knows(alphabet: Alphabet, v: Byte)
    requires v < 64
    ensures Value(Written(alphabet), Symbol(alphabet, v)) == Some(Reading(Written(alphabet), v))
  {
    ValueOfSymbol(Written(alphabet), v);
  }

  /** Automatic detection behaves as one of the two alphabets and accepts what either accepts, so it
      never accepts a text that mixes them. */
  lemma {:induction false} DetectsFrom(t: seq<Byte>, behavior: Behavior, bits: nat, last: Byte)
    ensures var d, s, u := DecodeFrom(t, Auto, behavior, bits, last), DecodeFrom(t, Standard, behavior, bits, last),
                           DecodeFrom(t, UrlSafe, behavior, bits, last);
            && (d == s || d == u) && (s.ok ==> d == s) && (u.ok ==> d == u)
  {
    hide Join;
    if t != [] && t[0] != PAD && Value(Auto, t[0]).Some? {
      var r := Value(Auto, t[0]).value;
      if r.alphabet == Auto {
        DetectsFrom(t[1..], behavior, After(bits), r.value);
      }
    }
  }

  lemma Detects(t: seq<Byte>, behavior: Behavior)
    ensures var d, s, u := Decode(t, Auto, behavior), Decode(t, Standard, behavior), Decode(t, UrlSafe, behavior);
            d == if s.ok then s else if u.ok then u else d
    ensures Decode(t, Auto, behavior).ok <==> Decode(t, Standard, behavior).ok || Decode(t, UrlSafe, behavior).ok
  {
    hide DecodeFrom;
    DetectsFrom(t, behavior, 0, 0);
  }

  /** Decoding gives back every byte string, in the alphabet it was written in or detecting it. */
  lemma DecodesBack(alphabet: Alphabet, s: seq<Byte>, behavior: Behavior)
    ensures Decode(Encode(alphabet, s), Written(alphabet), behavior) == Decoded(s, true)
    ensures Decode(Encode(alphabet, s), Auto, behavior) == Decoded(s, true)
  {
    hide DecodeFrom, Encode;
    DecodesBackFrom(alphabet, s, behavior, 0);
    DetectsFrom(Encode(alphabet, s), behavior, 0, 0);
  }

  // ----- encode undoes decode -----

  /** Whole groups of four, padding only in the last one, and no stray bits before it. */
  predicate Canonical(alphabet: Alphabet, t: seq<Byte>) {
    t == [] ||
    (&& |t| >= 4
     && Symbols(alphabet, t[..2])
     && if t[3] != PAD then Symbols(alphabet, t[..4]) && Canonical(alphabet, t[4..])
        else
          && |t| == 4
          && (if t[2] == PAD then Value(alphabet, t[1]).Some? && Val(alphabet, t[1]) & 0xf == 0
              else Value(alphabet, t[2]).Some? && Val(alphabet, t[2]) & 0x3 == 0))
  }

  lemma {:induction false} EncodeIsCanonical(alphabet: Alphabet, s: seq<Byte>)
    ensures Canonical(Written(alphabet), Encode(alphabet, s))
  {
    hide First, Second, Third, Fourth, Symbol, Value;
    var t, w := Encode(alphabet, s), Written(alphabet);
    if s == [] {
    } else if |s| == 1 {
      Knows(alphabet, First(s[0]));
      Knows(alphabet, Second(s[0], 0));
      PaddingBits(s[0]);
    } else if |s| == 2 {
      Knows(alphabet, First(s[0]));
      Knows(alphabet, Second(s[0], s[1]));
      Knows(alphabet, Third(s[1], 0));
      NotPadding(alphabet, Third(s[1], 0));
      PaddingBits(s[1]);
    } else {
      Knows(alphabet, First(s[0]));
      Knows(alphabet, Second(s[0], s[1]));
      Knows(alphabet, Third(s[1], s[2]));
      Knows(alphabet, Fourth(s[2]));
      NotPadding(alphabet, Fourth(s[2]));
      EncodeIsCanonical(alphabet, s[3..]);
      assert t[4..] == Encode(alphabet, s[3..]);
    }
  }

  lemma NotPadding(alphabet: Alphabet, v: Byte)
    requires v < 64
    ensures Symbol(alphabet, v) != PAD
  {
  }

  lemma EncodesBackPair(alphabet: Alphabet, t: seq<Byte>, last: Byte)
    requires alphabet != Auto && |t| == 4 && Symbols(alphabet, t[..2]) && t[2] == t[3] == PAD
    requires Value(alphabet, t[1]).Some? && Val(alphabet, t[1]) & 0xf == 0
    ensures var d := DecodeFrom(t, alphabet, Moderate, 0, last); d.ok && Encode(alphabet, d.bytes) == t
  {
    hide DecodeFrom, Join, First, Second, Third, Fourth, Symbol, Value;
    Pair(t, alphabet, Moderate, last);
    SymbolOfValue(alphabet, t[0]);
    SymbolOfValue(alphabet, t[1]);
    var v0, v1 := Val(alphabet, t[0]), Val(alphabet, t[1]);
    Padded(t[2..], alphabet, Moderate, 4, v1);
    PaddedBits(v0, v1, 0);
    assert t == [t[0], t[1], PAD, PAD];
  }

  lemma EncodesBackTriple(alphabet: Alphabet, t: seq<Byte>, last: Byte)
    requires alphabet != Auto && |t| == 4 && Symbols(alphabet, t[..3]) && t[3] == PAD
    requires Value(alphabet, t[2]).Some? && Val(alphabet, t[2]) & 0x3 == 0
    ensures var d := DecodeFrom(t, alphabet, Moderate, 0, last); d.ok && Encode(alphabet, d.bytes) == t
  {
    hide DecodeFrom, Join, First, Second, Third, Fourth, Symbol, Value;
    Triple(t, alphabet, Moderate, last);
    SymbolOfValue(alphabet, t[0]);
    SymbolOfValue(alphabet, t[1]);
    SymbolOfValue(alphabet, t[2]);
    var v0, v1, v2 := Val(alphabet, t[0]), Val(alphabet, t[1]), Val(alphabet, t[2]);
    Padded(t[3..], alphabet, Moderate, 2, v2);
    PaddedBits(v0, v1, v2);
    assert t == [t[0], t[1], t[2], PAD];
  }

  lemma EncodesBackGroup(alphabet: Alphabet, t: seq<Byte>, last: Byte)
    requires alphabet != Auto && |t| >= 4 && Symbols(alphabet, t[..4])
    requires Value(alphabet, t[3]).Some?
    ensures var d, rest := DecodeFrom(t, alphabet, Moderate, 0, last),
                           DecodeFrom(t[4..], alphabet, Moderate, 0, Val(alphabet, t[3]));
            d.ok == rest.ok && Encode(alphabet, d.bytes) == t[..4] + Encode(alphabet, rest.bytes)
  {
    hide DecodeFrom, Encode, Join, First, Second, Third, Fourth, Symbol, Value;
    Group(t, alphabet, Moderate, last);
    SymbolOfValue(alphabet, t[0]);
    SymbolOfValue(alphabet, t[1]);
    SymbolOfValue(alphabet, t[2]);
    SymbolOfValue(alphabet, t[3]);
    var v0, v1, v2, v3 := Val(alphabet, t[0]), Val(alphabet, t[1]), Val(alphabet, t[2]), Val(alphabet, t[3]);
    SplitsBack(v0, v1, v2, v3);
    EncodeGroup(alphabet, [Join(6, v0, v1), Join(4, v1, v2), Join(2, v2, v3)],
                DecodeFrom(t[4..], alphabet, Moderate, 0, v3).bytes);
    assert t[..4] == [t[0], t[1], t[2], t[3]];
  }

  lemma {:induction false} EncodesBackFrom(alphabet: Alphabet, t: seq<Byte>, last: Byte)
    requires alphabet != Auto && Canonical(alphabet, t)
    ensures var d := DecodeFrom(t, alphabet, Moderate, 0, last); d.ok && Encode(alphabet, d.bytes) == t
  {
    if t == [] {
      NothingLeft(alphabet, Moderate, 0, last);
    } else if t[3] != PAD {
      hide DecodeFrom, Encode, Value;
      assert t[..4][3] == t[3];
      EncodesBackGroup(alphabet, t, last);
      EncodesBackFrom(alphabet, t[4..], Val(alphabet, t[3]));
    } else if t[2] == PAD {
      hide DecodeFrom, Encode, Value;
      EncodesBackPair(alphabet, t, last);
    } else {
      hide DecodeFrom, Encode, Value;
      forall i | 0 <= i < 3 ensures Value(alphabet, t[..3][i]).Some? {
        assert i < 2 ==> t[..3][i] == t[..2][i];
      }
      EncodesBackTriple(alphabet, t, last);
    }
  }

  lemma EncodeGroup(alphabet: Alphabet, g: seq<Byte>, s: seq<Byte>)
    requires |g| == 3
    ensures Encode(alphabet, g + s) ==
            [Symbol(alphabet, First(g[0])), Symbol(alphabet, Second(g[0], g[1])),
             Symbol(alphabet, Third(g[1], g[2])), Symbol(alphabet, Fourth(g[2]))] + Encode(alphabet, s)
  {
    hide First, Second, Third, Fourth, Symbol;
    assert (g + s)[3..] == s;
  }

  /** Encoding gives back exactly the canonical texts. */
  lemma EncodesBackExactly(alphabet: Alphabet, t: seq<Byte>)
    requires alphabet != Auto
    ensures var d := Decode(t, alphabet, Moderate);
            d.ok && Encode(alphabet, d.bytes) == t <==> Canonical(alphabet, t)
  {
    hide DecodeFrom, Encode, Canonical;
    if Canonical(alphabet, t) {
      EncodesBackFrom(alphabet, t, 0);
    }
    EncodeIsCanonical(alphabet, Decode(t, alphabet, Moderate).bytes);
  }

  // ----- sizes -----

  function MaxDecodeSize(size: nat): nat { (size / 4 + if size % 4 != 0 then 1 else 0) * 3 }

  function RequiredEncodeSize(size: nat): nat { (size / 3 + if size % 3 != 0 then 1 else 0) * 4 }

  lemma {:induction false} EncodeSize(alphabet: Alphabet, s: seq<Byte>)
    ensures |Encode(alphabet, s)| == RequiredEncodeSize(|s|)
  {
    hide First, Second, Third, Fourth, Symbol;
    if |s| > 2 {
      EncodeSize(alphabet, s[3..]);
    }
  }

  lemma {:induction false} DecodeSizeFrom(t: seq<Byte>, alphabet: Alphabet, behavior: Behavior, bits: nat, last: Byte)
    ensures 8 * |DecodeFrom(t, alphabet, behavior, bits, last).bytes| <= 6 * |t| + bits
  {
    hide Join, Value;
    if t != [] && t[0] != PAD && Value(alphabet, t[0]).Some? {
      var r := Value(alphabet, t[0]).value;
      DecodeSizeFrom(t[1..], r.alphabet, behavior, After(bits), r.value);
    }
  }

  lemma DecodeSize(t: seq<Byte>, alphabet: Alphabet, behavior: Behavior)
    ensures |Decode(t, alphabet, behavior).bytes| <= MaxDecodeSize(|t|)
    ensures |Decode(t, alphabet, behavior).bytes| <= |t|
  {
    hide DecodeFrom;
    DecodeSizeFrom(t, alphabet, behavior, 0, 0);
  }

  // ----- the loops -----

  lemma EncodeEnd(alphabet: Alphabet, s: seq<Byte>)
    ensures s == [] ==> Encode(alphabet, s) == []
    ensures |s| == 1 ==>
              Encode(alphabet, s) == [Symbol(alphabet, First(s[0])), Symbol(alphabet, Second(s[0], 0)), PAD, PAD]
    ensures |s| == 2 ==> Encode(alphabet, s) == [Symbol(alphabet, First(s[0])), Symbol(alphabet, Second(s[0], s[1])),
                                                 Symbol(alphabet, Third(s[1], 0)), PAD]
  {
  }

  /** `out` holds the encoding of everything before `pos`. */
  predicate Encoded(alphabet: Alphabet, s: seq<Byte>, pos: nat, out: seq<Byte>) {
    pos <= |s| && out + Encode(alphabet, s[pos..]) == Encode(alphabet, s)
  }

  lemma EncodedGroup(alphabet: Alphabet, s: seq<Byte>, pos: nat, out: seq<Byte>, next: seq<Byte>)
    requires Encoded(alphabet, s, pos, out) && pos + 3 <= |s|
    requires next == out + [Symbol(alphabet, First(s[pos])), Symbol(alphabet, Second(s[pos], s[pos + 1])),
                            Symbol(alphabet, Third(s[pos + 1], s[pos + 2])), Symbol(alphabet, Fourth(s[pos + 2]))]
    ensures Encoded(alphabet, s, pos + 3, next)
  {
    hide Encode, First, Second, Third, Fourth, Symbol;
    var g, rest := s[pos..pos + 3], s[pos + 3..];
    assert s[pos..] == g + rest;
    EncodeGroup(alphabet, g, rest);
    var a, b, c := out, next[|out|..], Encode(alphabet, rest);
    assert a + (b + c) == a + b + c;
  }

  lemma EncodedAll(alphabet: Alphabet, s: seq<Byte>, pos: nat, out: seq<Byte>, next: seq<Byte>)
    requires Encoded(alphabet, s, pos, out)
    requires next == out + Encode(alphabet, s[pos..])
    ensures next == Encode(alphabet, s)
  {
  }

  lemma Grows(a: seq<Byte>, b: seq<Byte>, c: seq<Byte>)
    ensures a + b + c == a + (b + c)
  {
  }

  method EncodeBytes(alphabet: Alphabet, s: seq<Byte>) returns (out: seq<Byte>)
    ensures out == Encode(alphabet, s)
    ensures |out| == RequiredEncodeSize(|s|)
  {
    EncodeSize(alphabet, s);
    assert Encoded(alphabet, s, 0, []) by {
      assert s[0..] == s && [] + Encode(alphabet, s) == Encode(alphabet, s);
    }
    hide First, Second, Third, Fourth, Symbol, Encode, Encoded, RequiredEncodeSize;
    out := [];
    var pos := 0;
    while pos != |s|
      invariant pos <= |s| && Encoded(alphabet, s, pos, out)
      decreases |s| - pos
    {
      ghost var was, from := out, pos;
      EncodeEnd(alphabet, s[from..]);
      var i0 := s[pos];
      pos := pos + 1;
      var first := Symbol(alphabet, First(i0));
      out := out + [first];
      if pos == |s| {
        var second := Symbol(alphabet, Second(i0, 0));
        out := out + [second, PAD, PAD];
        Grows(was, [first], [second, PAD, PAD]);
        assert [first] + [second, PAD, PAD] == [first, second, PAD, PAD];
        EncodedAll(alphabet, s, from, was, out);
        return;
      }
      var i1 := s[pos];
      pos := pos + 1;
      var second := Symbol(alphabet, Second(i0, i1));
      out := out + [second];
      Grows(was, [first], [second]);
      assert [first] + [second] == [first, second];
      if pos == |s| {
        var third := Symbol(alphabet, Third(i1, 0));
        out := out + [third, PAD];
        Grows(was, [first, second], [third, PAD]);
        assert [first, second] + [third, PAD] == [first, second, third, PAD];
        EncodedAll(alphabet, s, from, was, out);
        return;
      }
      var i2 := s[pos];
      pos := pos + 1;
      var third, fourth := Symbol(alphabet, Third(i1, i2)), Symbol(alphabet, Fourth(i2));
      out := out + [third, fourth];
      Grows(was, [first, second], [third, fourth]);
      assert [first, second] + [third, fourth] == [first, second, third, fourth];
      EncodedGroup(alphabet, s, from, was, out);
    }
    EncodeEnd(alphabet, s[pos..]);
    EncodedAll(alphabet, s, pos, out, out);
  }

  /** `done` has been written before the symbol at `i` is read, and 8 * |done| + bits is the number of bits read. */
  predicate Underway(d: Decoded, t: seq<Byte>, i: nat, alphabet: Alphabet, behavior: Behavior, bits: nat, last: Byte,
                     done: seq<Byte>) {
    && i <= |t|
    && 8 * |done| + bits == 6 * i && (bits == 0 || bits == 2 || bits == 4 || bits == 6)
    && var rest := DecodeFrom(t[i..], alphabet, behavior, bits, last);
       d == Decoded(done + rest.bytes, rest.ok)
  }

  lemma Begins(t: seq<Byte>, alphabet: Alphabet, behavior: Behavior)
    ensures Underway(Decode(t, alphabet, behavior), t, 0, alphabet, behavior, 0, 0, [])
  {
    hide DecodeFrom;
    assert t[0..] == t;
    var d := Decode(t, alphabet, behavior);
    assert [] + d.bytes == d.bytes;
  }

  lemma Advances(d: Decoded, t: seq<Byte>, i: nat, alphabet: Alphabet, behavior: Behavior, bits: nat, last: Byte,
                 done: seq<Byte>)
    requires Underway(d, t, i, alphabet, behavior, bits, last, done)
    requires i < |t| && Value(alphabet, t[i]).Some?
    ensures var r := Value(alphabet, t[i]).value;
            Underway(d, t, i + 1, r.alphabet, behavior, After(bits), r.value,
                     if bits >= 2 then done + [Join(bits, last, r.value)] else done)
  {
    hide DecodeFrom, Join, Value;
    Unfold(t[i..], alphabet, behavior, bits, last);
    assert t[i..][1..] == t[i + 1..];
    var r := Value(alphabet, t[i]).value;
    var a, b := done, [Join(bits, last, r.value)];
    var c := DecodeFrom(t[i + 1..], r.alphabet, behavior, After(bits), r.value).bytes;
    assert a + (b + c) == a + b + c;
  }

  lemma Ends(d: Decoded, t: seq<Byte>, i: nat, alphabet: Alphabet, behavior: Behavior, bits: nat, last: Byte,
             done: seq<Byte>)
    requires Underway(d, t, i, alphabet, behavior, bits, last, done)
    requires i < |t| ==> t[i] == PAD || Value(alphabet, t[i]).None?
    ensures i == |t| ==> d == Decoded(done, true)
    ensures i < |t| && t[i] == PAD ==> d == Decoded(done, behavior == Loose || AllPadding(t[i + 1..]))
    ensures i < |t| && t[i] != PAD ==> d == Decoded(done, false)
  {
    hide Join, Value;
    assert done + [] == done;
    if i < |t| {
      assert t[i..][1..] == t[i + 1..];
    }
  }

  method OnlyPadding(src: array<Byte>, from: nat) returns (ok: bool)
    requires from <= src.Length
    ensures ok == AllPadding(src[from..])
  {
    var i := from;
    while i != src.Length
      invariant from <= i <= src.Length
      invariant forall k :: from <= k < i ==> src[k] == PAD
      decreases src.Length - i
    {
      if src[i] != PAD {
        assert src[from..][i - from] != PAD;
        return false;
      }
      i := i + 1;
    }
    ok := true;
  }

  /** Decodes `src` into `dst`, which may be the same buffer. In either case the outcome is that of
      decoding the text `src` held before the call; nothing beyond the decoded bytes is touched. */
  method DecodeInto(src: array<Byte>, dst: array<Byte>, alphabet: Alphabet, behavior: Behavior)
    returns (n: nat, ok: bool)
    requires src == dst || MaxDecodeSize(src.Length) <= dst.Length
    modifies dst
    ensures n <= dst.Length
    ensures Decoded(dst[..n], ok) == Decode(old(src[..]), alphabet, behavior)
    ensures forall k :: n <= k < dst.Length ==> dst[k] == old(dst[k])
  {
    hide Decode, Join, Value, Underway, AllPadding;
    ghost var t := src[..];
    ghost var d := Decode(t, alphabet, behavior);
    var bits: nat, last: Byte := 0, 0;
    var detected := alphabet;
    var i := 0;
    n := 0;
    Begins(t, alphabet, behavior);
    while i != src.Length
      invariant i <= src.Length && n <= dst.Length
      invariant 8 * n + bits == 6 * i
      invariant forall k :: i <= k < src.Length ==> src[k] == t[k]
      invariant forall k :: n <= k < dst.Length ==> dst[k] == old(dst[k])
      invariant Underway(d, t, i, detected, behavior, bits, last, dst[..n])
      decreases src.Length - i
    {
      var c := src[i];
      if c == PAD {
        break;
      }
      var v := Value(detected, c);
      if v.None? {
        Ends(d, t, i, detected, behavior, bits, last, dst[..n]);
        ok := false;
        return;
      }
      Advances(d, t, i, detected, behavior, bits, last, dst[..n]);
      i := i + 1;
      var part := v.value.value;
      detected := v.value.alphabet;
      if bits + 6 >= 8 {
        ghost var was := dst[..n];
        dst[n] := Join(bits, last, part);
        n := n + 1;
        assert dst[..n] == was + [Join(bits, last, part)];
        bits := bits - 2;
      } else {
        bits := bits + 6;
      }
      last := part;
    }
    Ends(d, t, i, detected, behavior, bits, last, dst[..n]);
    if i == src.Length {
      ok := true;
      return;
    }
    ok := true;
    if behavior != Loose {
      ok := OnlyPadding(src, i + 1);
      assert src[i + 1..] == t[i + 1..];
    }
  }
}
