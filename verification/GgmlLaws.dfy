/** Which legacy files the loader accepts, spelled out by magic, version and type. */
module GgmlLaws {
  import opened Wrappers
  import opened GgmlTensors
  import opened Ggml

  function Ascii(s: string): (b: seq<Byte>)
    requires forall k :: 0 <= k < |s| ==> s[k] as int < 256
    ensures |b| == |s| && forall k :: 0 <= k < |b| ==> b[k] == s[k] as int
  {
    seq(|s|, k requires 0 <= k < |s| => s[k] as int)
  }

  /** The four magics, and the tensor that gives the width of the feed-forward layer. */
  lemma Spelled()
    ensures MAGIC_GGUF == Ascii("GGUF") && MAGIC_GGML == Ascii("lmgg")
    ensures MAGIC_GGMF == Ascii("fmgg") && MAGIC_GGJT == Ascii("tjgg")
    ensures FF_NAME == Ascii("layers.0.feed_forward.w1.weight")
  {
  }

  /** A header is accepted exactly for these magics and versions. */
  lemma HeaderExactly(data: seq<Byte>, o: nat, version: nat)
    requires o + 8 <= |data| && Read32(data, o + 4) == Some(version)
    ensures var magic, r := data[o..o + 4], ValidateHeader(data, o);
            && (magic == Ascii("lmgg") ==> r == Ok((Header(GGML, 1), o + 4)))
            && (magic == Ascii("fmgg") ==> r == if version == 1 then Ok((Header(GGMF, 1), o + 8)) else Err(BadVersion))
            && (magic == Ascii("tjgg") ==>
                  r == if version in {1, 2, 3} then Ok((Header(GGJT, version), o + 8)) else Err(BadVersion))
            && (magic == Ascii("GGUF") ==> r == Err(AlreadyGguf))
            && (magic !in {Ascii("lmgg"), Ascii("fmgg"), Ascii("tjgg"), Ascii("GGUF")} ==> r == Err(BadMagic))
  {
    hide Read32;
    Spelled();
    assert Slice(data, o, o + 4) == data[o..o + 4];
    assert Ascii("lmgg")[0] == 108 && Ascii("fmgg")[0] == 102 && Ascii("tjgg")[0] == 116 && Ascii("GGUF")[0] == 71;
  }

  /** The members of the enumeration of file types. */
  predicate IsFileType(f: nat) {
    f in {0, 1, 2, 3, 4, 7, 8, 9, 10, 11, 12, 13, 14, 15, 16, 17, 18}
  }

  lemma TypeExactly(data: seq<Byte>, o: nat, w: seq<nat>)
    requires Reads32(data, o, 7) == Some(w)
    ensures LoadHyper(data, o) == if IsFileType(w[6]) then Ok((Hyper(w[0], w[1..6], w[6]), o + 28)) else Err(BadFtype)
  {
    hide Reads32;
  }

  const ALL_F32 := 0
  const MOSTLY_F16 := 1
  const MOSTLY_Q4_0 := 2
  const MOSTLY_Q4_1 := 3
  const MOSTLY_Q4_1_SOME_F16 := 4
  const MOSTLY_Q8_0 := 7

  /** The quantized formats that have changed since: all of them before the second version of GGJT, and four
      of them in it. */
  predicate Outdated(kind: Kind, version: nat, ftype: nat) {
    match kind
    case GGML => ftype != ALL_F32 && ftype != MOSTLY_F16
    case GGMF => ftype != ALL_F32 && ftype != MOSTLY_F16
    case GGJT =>
      || (version == 1 && ftype != ALL_F32 && ftype != MOSTLY_F16)
      || (version == 2 && ftype in {MOSTLY_Q4_0, MOSTLY_Q4_1, MOSTLY_Q4_1_SOME_F16, MOSTLY_Q8_0})
  }

  lemma {:induction false} VocabNeverRefuses(data: seq<Byte>, o: nat, count: nat, scores: bool)
    ensures LoadVocab(data, o, count, scores) != Err(NotEligible)
    decreases count
  {
    hide Read32, Slice;
    if count > 0 && LoadItem(data, o, scores).Ok? {
      VocabNeverRefuses(data, LoadItem(data, o, scores).value.1, count - 1, scores);
    }
  }

  lemma {:induction false} WidthNeverRefuses(es: seq<Entry>)
    ensures FeedForward(es) != Err(NotEligible)
    decreases |es|
  {
    if es != [] {
      WidthNeverRefuses(es[..|es| - 1]);
    }
  }

  lemma {:induction false} TurnsNeverRefuse(data: seq<Byte>, o: int, quants: map<nat, Quant>, padded: bool, k: nat)
    ensures Turns(data, o, quants, padded, k) != Failed(NotEligible)
    decreases k
  {
    hide Reads32, Slice, NumBytes, Wrap64, AlignUp, HeaderEnd;
    if o < |data| && k > 0 && LoadTensor(data, o, quants, padded).Ok? {
      TurnsNeverRefuse(data, LoadTensor(data, o, quants, padded).value.1, quants, padded, k - 1);
    }
  }

  lemma TensorsNeverRefuse(data: seq<Byte>, o: int, quants: map<nat, Quant>, padded: bool)
    ensures LoadTensors(data, o, quants, padded) != Returns(Err(NotEligible))
  {
    hide Turns;
    TurnsNeverRefuse(data, o, quants, padded, Enough(data));
  }

  lemma EligibleExactly(h: Header, ftype: nat)
    requires if h.kind == GGJT then 1 <= h.version <= 3 else h.version == 1
    ensures !Eligible(h, ftype) <==> Outdated(h.kind, h.version, ftype)
  {
  }

  /** A file whose header and hyperparameters are read is refused as not eligible exactly for the outdated
      formats, whatever follows. */
  lemma RefusedExactly(data: seq<Byte>, o: nat, quants: map<nat, Quant>, h: Header, at: nat, hp: Hyper, end: nat)
    requires ValidateHeader(data, o) == Ok((h, at)) && LoadHyper(data, at) == Ok((hp, end))
    ensures Load(data, o, quants) == Returns(Err(NotEligible)) <==> Outdated(h.kind, h.version, hp.ftype)
  {
    hide ValidateHeader, LoadHyper, LoadVocab, LoadTensors, FeedForward, Eligible, Outdated;
    HeaderVersion(data, o);
    EligibleExactly(h, hp.ftype);
    VocabNeverRefuses(data, end, hp.vocab, h.kind != GGML);
    if LoadVocab(data, end, hp.vocab, h.kind != GGML).Ok? {
      var v := LoadVocab(data, end, hp.vocab, h.kind != GGML).value;
      TensorsNeverRefuse(data, v.1, quants, h.kind == GGJT);
      var r := LoadTensors(data, v.1, quants, h.kind == GGJT);
      if r.Returns? && r.outcome.Ok? {
        WidthNeverRefuses(Entries(r.outcome.value.0, Loaded));
      }
    }
  }

  lemma HeaderVersion(data: seq<Byte>, o: nat)
    ensures ValidateHeader(data, o).Ok? ==>
              var h := ValidateHeader(data, o).value.0;
              if h.kind == GGJT then 1 <= h.version <= 3 else h.version == 1
  {
    hide Read32, Slice;
  }

  /** Absurd lengths are refused: a vocabulary item or a tensor name of 4096 bytes or more, more than four
      dimensions; and types that have no known size. */
  lemma AbsurdRefused(data: seq<Byte>, o: nat, quants: map<nat, Quant>, padded: bool, scores: bool)
    ensures Read32(data, o).Some? && Read32(data, o).value >= 4096 ==>
              LoadItem(data, o, scores) == Err(AssertionFailed)
    ensures Reads32(data, o, 3).Some? ==>
              var w, r := Reads32(data, o, 3).value, LoadTensor(data, o, quants, padded);
              && (w[0] > 4 || w[1] >= 4096 ==> r == Err(AssertionFailed))
              && (w[0] <= 4 && w[1] < 4096 ==> (r == Err(BadType) <==> w[2] !in quants))
  {
    hide Reads32, Slice, NumBytes, Wrap64, AlignUp, HeaderEnd;
  }
}
