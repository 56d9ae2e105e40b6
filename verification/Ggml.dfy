/** The loader for legacy GGML, GGMF and GGJT files: header, hyperparameters, vocabulary and the
    tensors behind them, and a straightforward writer whose files it must load back. */
module Ggml {
  import opened Wrappers
  import opened GgmlTensors

  // ----- header and hyperparameters -----

  datatype Kind = GGML | GGMF | GGJT

  datatype Header = Header(kind: Kind, version: nat)

  const MAGIC_GGUF: seq<Byte> := [71, 71, 85, 70]
  const MAGIC_GGML: seq<Byte> := [108, 109, 103, 103]
  const MAGIC_GGMF: seq<Byte> := [102, 109, 103, 103]
  const MAGIC_GGJT: seq<Byte> := [116, 106, 103, 103]

  function ValidateHeader(data: seq<Byte>, o: nat): Outcome<(Header, nat)> {
    var magic := Slice(data, o, o + 4);
    if magic == MAGIC_GGUF then Err(AlreadyGguf)
    else if magic == MAGIC_GGML then Ok((Header(GGML, 1), o + 4))
    else match Read32(data, o + 4)
         case None => Err(UnpackError)
         case Some(version) =>
           if magic == MAGIC_GGMF then
             if version != 1 then Err(BadVersion) else Ok((Header(GGMF, version), o + 8))
           else if magic == MAGIC_GGJT then
             if version < 1 || version > 3 then Err(BadVersion) else Ok((Header(GGJT, version), o + 8))
           else Err(BadMagic)
  }

  /** n_vocab, n_embd, n_mult, n_head, n_layer, n_rot and ftype, in file order. */
  datatype Hyper = Hyper(vocab: nat, others: seq<nat>, ftype: nat)

  predicate KnownFtype(f: nat) { f <= 4 || 7 <= f <= 18 }

  function LoadHyper(data: seq<Byte>, o: nat): Outcome<(Hyper, nat)> {
    match Reads32(data, o, 7)
    case None => Err(UnpackError)
    case Some(w) =>
      if !KnownFtype(w[6]) then Err(BadFtype) else Ok((Hyper(w[0], w[1..6], w[6]), o + 28))
  }

  /** Which files the conversion can handle. */
  predicate Eligible(h: Header, ftype: nat) {
    if h.kind != GGJT || h.version < 2 then ftype == 0 || ftype == 1
    else h.version == 2 ==> ftype !in {2, 3, 4, 7}
  }

  // ----- vocabulary -----

  /** A score is kept as its four bytes; files of the first kind have none. */
  datatype Item = Item(text: seq<Byte>, score: seq<Byte>)

  function LoadItem(data: seq<Byte>, o: nat, scores: bool): (r: Outcome<(Item, nat)>)
    ensures r.Ok? ==> r.value.1 > o
  {
    match Read32(data, o)
    case None => Err(UnpackError)
    case Some(n) =>
      if n >= 4096 then Err(AssertionFailed)
      else
        var text, o' := Slice(data, o + 4, o + 4 + n), o + 4 + n;
        if !scores then Ok((Item(text, []), o'))
        else if o' + 4 <= |data| then Ok((Item(text, data[o'..o' + 4]), o' + 4))
        else Err(UnpackError)
  }

  function LoadVocab(data: seq<Byte>, o: nat, count: nat, scores: bool): Outcome<(seq<Item>, nat)>
    decreases count
  {
    if count == 0 then Ok(([], o))
    else match LoadItem(data, o, scores)
         case Err(e) => Err(e)
         case Ok(one) =>
           match LoadVocab(data, one.1, count - 1, scores)
           case Err(e) => Err(e)
           case Ok(rest) => Ok(([one.0] + rest.0, rest.1))
  }

  // ----- the whole file -----

  const FF_NAME: seq<Byte> := [108, 97, 121, 101, 114, 115, 46, 48, 46, 102, 101, 101, 100, 95, 102, 111, 114, 119, 97,
                               114, 100, 46, 119, 49, 46, 119, 101, 105, 103, 104, 116]

  datatype Entry = Entry(name: seq<Byte>, dims: seq<nat>)

  /** The names and dimensions of some tensors, as loaded or as given to the writer. */
  function Entries<T>(ts: seq<T>, entry: T -> Entry): (es: seq<Entry>)
    ensures |es| == |ts|
  {
    seq(|ts|, i requires 0 <= i < |ts| => entry(ts[i]))
  }

  function Loaded(t: Tensor): Entry { Entry(t.name, t.dims) }

  function Described(t: Given): Entry { Entry(t.name, t.dims) }

  /** The width of the feed-forward layer, from the first layer's tensor: the map from names holds the
      last one of that name. */
  function FeedForward(es: seq<Entry>): Outcome<nat> {
    if es == [] then Err(AssertionFailed)
    else
      var e := es[|es| - 1];
      if e.name != FF_NAME then FeedForward(es[..|es| - 1])
      else if |e.dims| < 2 then Err(NoSuchDim)
      else Ok(e.dims[1])
  }

  datatype Model = Model(header: Header, hyper: Hyper, ff: nat, items: seq<Item>, tensors: seq<Tensor>, end: int)

  function Load(data: seq<Byte>, o: nat, quants: map<nat, Quant>): Answer<Model> {
    match ValidateHeader(data, o)
    case Err(e) => Returns(Err(e))
    case Ok(h) =>
      match LoadHyper(data, h.1)
      case Err(e) => Returns(Err(e))
      case Ok(hp) =>
        if !Eligible(h.0, hp.0.ftype) then Returns(Err(NotEligible))
        else match LoadVocab(data, hp.1, hp.0.vocab, h.0.kind != GGML)
             case Err(e) => Returns(Err(e))
             case Ok(v) =>
               match LoadTensors(data, v.1, quants, h.0.kind == GGJT)
               case NeverReturns => NeverReturns
               case Returns(Err(e)) => Returns(Err(e))
               case Returns(Ok(ts)) =>
                 match FeedForward(Entries(ts.0, Loaded))
                 case Err(e) => Returns(Err(e))
                 case Ok(ff) => Returns(Ok(Model(h.0, hp.0, ff, v.0, ts.0, ts.1)))
  }

  // ----- a straightforward writer -----

  datatype Given = Given(name: seq<Byte>, dims: seq<nat>, dtype: nat, content: seq<Byte>)

  datatype File = File(header: Header, hyper: Hyper, items: seq<Item>, tensors: seq<Given>)

  function Padding(n: nat): (p: seq<Byte>)
    ensures |p| == n
  {
    seq(n, _ => 0)
  }

  function WriteHeader(h: Header): seq<Byte>
    requires h.version < U32
  {
    match h.kind
    case GGML => MAGIC_GGML
    case GGMF => MAGIC_GGMF + Write32(h.version)
    case GGJT => MAGIC_GGJT + Write32(h.version)
  }

  predicate ValidHeader(h: Header) {
    match h.kind
    case GGML => h.version == 1
    case GGMF => h.version == 1
    case GGJT => 1 <= h.version <= 3
  }

  function HyperWords(hp: Hyper): seq<nat> { [hp.vocab] + hp.others + [hp.ftype] }

  predicate ValidItem(i: Item, scores: bool) { |i.text| < 4096 && |i.score| == if scores then 4 else 0 }

  function WriteItems(items: seq<Item>, scores: bool): seq<Byte>
    requires forall k :: 0 <= k < |items| ==> ValidItem(items[k], scores)
  {
    if items == [] then []
    else
      assert ValidItem(items[0], scores);
      Write32(|items[0].text|) + (items[0].text + (items[0].score + WriteItems(items[1..], scores)))
  }

  predicate ValidTensor(t: Given, quants: map<nat, Quant>) {
    && |t.dims| <= 4 && Words(t.dims) && |t.name| < 4096 && t.dtype < U32 && t.dtype in quants
    && NoWrap(t.dims, quants[t.dtype]) && |t.content| == NumBytes(t.dims, quants[t.dtype])
  }

  function Start(t: Given, o: nat, padded: bool): (s: nat)
    ensures HeaderEnd(o, |t.dims|, |t.name|) <= s
  {
    var end := HeaderEnd(o, |t.dims|, |t.name|);
    if padded then AlignUp(end) else end
  }

  function WriteTensor(t: Given, o: nat, quants: map<nat, Quant>, padded: bool): (e: seq<Byte>)
    requires ValidTensor(t, quants)
    ensures o + |e| == Start(t, o, padded) + |t.content|
  {
    Writes32([|t.dims|, |t.name|, t.dtype]) +
    (Writes32(t.dims) + (t.name + (Padding(Start(t, o, padded) - HeaderEnd(o, |t.dims|, |t.name|)) + t.content)))
  }

  predicate AllValid(ts: seq<Given>, quants: map<nat, Quant>) {
    forall k :: 0 <= k < |ts| ==> ValidTensor(ts[k], quants)
  }

  function WriteTensors(ts: seq<Given>, o: nat, quants: map<nat, Quant>, padded: bool): seq<Byte>
    requires AllValid(ts, quants)
  {
    if ts == [] then []
    else
      var e := WriteTensor(ts[0], o, quants, padded);
      e + WriteTensors(ts[1..], o + |e|, quants, padded)
  }

  // ----- reading back, piece by piece -----

  lemma FivePieces(data: seq<Byte>, o: nat, a: seq<Byte>, b: seq<Byte>, c: seq<Byte>, d: seq<Byte>, e: seq<Byte>)
    requires At(data, o, a + (b + (c + (d + e))))
    ensures At(data, o, a) && At(data, o + |a|, b) && At(data, o + |a| + |b|, c)
    ensures At(data, o + |a| + |b| + |c| + |d|, e)
  {
    hide At;
    var de := d + e;
    var cde := c + de;
    var bcde := b + cde;
    AtSplit(data, o, a, bcde);
    AtSplit(data, o + |a|, b, cde);
    AtSplit(data, o + |a| + |b|, c, de);
    AtSplit(data, o + |a| + |b| + |c|, d, e);
  }

  lemma TensorPieces(data: seq<Byte>, o: nat, t: Given, quants: map<nat, Quant>, padded: bool)
    requires ValidTensor(t, quants) && At(data, o, WriteTensor(t, o, quants, padded))
    ensures At(data, o, Writes32([|t.dims|, |t.name|, t.dtype])) && At(data, o + 12, Writes32(t.dims))
    ensures At(data, o + 12 + 4 * |t.dims|, t.name) && At(data, Start(t, o, padded), t.content)
  {
    hide At, NumBytes, NoWrap, AlignUp, Writes32, Padding;
    FivePieces(data, o, Writes32([|t.dims|, |t.name|, t.dtype]), Writes32(t.dims), t.name,
               Padding(Start(t, o, padded) - HeaderEnd(o, |t.dims|, |t.name|)), t.content);
  }

  lemma TensorReadsBack(data: seq<Byte>, o: nat, t: Given, quants: map<nat, Quant>, padded: bool)
    requires ValidTensor(t, quants) && At(data, o, WriteTensor(t, o, quants, padded)) && |data| < HALF
    ensures LoadTensor(data, o, quants, padded) ==
            Ok((Tensor(t.name, t.dims, t.dtype, Start(t, o, padded), |t.content|), Start(t, o, padded) + |t.content|))
    ensures At(data, Start(t, o, padded), t.content)
  {
    hide At, NumBytes, NoWrap, AlignUp, Reads32, Writes32, Slice, WriteTensor, Wrap64;
    TensorPieces(data, o, t, quants, padded);
    ReadsAll(data, o, [|t.dims|, |t.name|, t.dtype]);
    ReadsAll(data, o + 12, t.dims);
    Clips(data, o + 12 + 4 * |t.dims|, t.name);
    AtIs(data, Start(t, o, padded), t.content);
  }

  /** The tensors as loaded: the file holds the content of each at its data region. */
  predicate ReadBack(data: seq<Byte>, ts: seq<Tensor>, given: seq<Given>) {
    |ts| == |given| &&
    forall k {:trigger ts[k]} {:trigger given[k]} :: 0 <= k < |given| ==>
      && ts[k].name == given[k].name && ts[k].dims == given[k].dims && ts[k].dtype == given[k].dtype
      && ts[k].bytes == |given[k].content| && At(data, ts[k].start, given[k].content)
  }

  /** The tensors in front of `rest` are read in as many turns; without a rest the loop ends there. */
  lemma {:induction false} TensorsReadBack(data: seq<Byte>, o: nat, ts: seq<Given>, quants: map<nat, Quant>,
                                           padded: bool, rest: seq<Byte>)
    requires AllValid(ts, quants) && From(data, o, WriteTensors(ts, o, quants, padded) + rest) && |data| < HALF
    ensures var r := Turns(data, o, quants, padded, |ts|);
            && !r.Failed? && r.o == |data| - |rest| && ReadBack(data, r.ts, ts) && (r.Ended? <==> rest == [])
    decreases |ts|
  {
    hide *;
    TurnsStep(data, o, quants, padded, |ts|);
    if ts == [] {
      RestStands(data, o, quants, padded, rest);
      NothingReadBack(data);
    } else {
      WriteTensorsStep(ts, o, quants, padded, rest);
      var e := WriteTensor(ts[0], o, quants, padded);
      var more := WriteTensors(ts[1..], o + |e|, quants, padded) + rest;
      StandsAt(data, o, e, more);
      HeaderIsLong(ts[0], o, quants, padded, data);
      TensorReadsBack(data, o, ts[0], quants, padded);
      TensorsReadBack(data, o + |e|, ts[1..], quants, padded, rest);
      var one, r := LoadTensor(data, o, quants, padded).value.0, Turns(data, o + |e|, quants, padded, |ts| - 1);
      AfterIs([one], r);
      ReadBackFirst(data, one, r.ts, ts);
    }
  }

  lemma WriteTensorsStep(ts: seq<Given>, o: nat, quants: map<nat, Quant>, padded: bool, rest: seq<Byte>)
    requires AllValid(ts, quants) && ts != []
    ensures ValidTensor(ts[0], quants) && AllValid(ts[1..], quants)
    ensures var e := WriteTensor(ts[0], o, quants, padded);
            WriteTensors(ts, o, quants, padded) + rest == e + (WriteTensors(ts[1..], o + |e|, quants, padded) + rest)
  {
    hide ValidTensor, WriteTensor, Start;
    assert ValidTensor(ts[0], quants) && AllValid(ts[1..], quants);
    var e := WriteTensor(ts[0], o, quants, padded);
    JoinsOn(e, WriteTensors(ts[1..], o + |e|, quants, padded), rest);
  }

  lemma JoinsOn(a: seq<Byte>, b: seq<Byte>, c: seq<Byte>)
    ensures a + b + c == a + (b + c)
  {
  }

  lemma RestStands(data: seq<Byte>, o: nat, quants: map<nat, Quant>, padded: bool, rest: seq<Byte>)
    requires AllValid([], quants) && From(data, o, WriteTensors([], o, quants, padded) + rest)
    ensures o == |data| - |rest|
  {
    assert [] + rest == rest;
  }

  lemma NothingReadBack(data: seq<Byte>)
    ensures ReadBack(data, [], [])
  {
  }

  lemma ReadBackFirst(data: seq<Byte>, t: Tensor, ts: seq<Tensor>, given: seq<Given>)
    requires given != [] && ReadBack(data, ts, given[1..])
    requires t.name == given[0].name && t.dims == given[0].dims && t.dtype == given[0].dtype
    requires t.bytes == |given[0].content| && At(data, t.start, given[0].content)
    ensures ReadBack(data, [t] + ts, given)
  {
    hide At;
    var all := [t] + ts;
    forall k | 0 <= k < |given|
      ensures all[k].name == given[k].name && all[k].dims == given[k].dims && all[k].dtype == given[k].dtype
      ensures all[k].bytes == |given[k].content| && At(data, all[k].start, given[k].content)
    {
      if k > 0 {
        assert all[k] == ts[k - 1] && given[k] == given[1..][k - 1];
      }
    }
  }

  /** The file from `o` to its end. */
  predicate From(data: seq<Byte>, o: nat, e: seq<Byte>) { o <= |data| && data[o..] == e }

  lemma StandsAt(data: seq<Byte>, o: nat, e: seq<Byte>, rest: seq<Byte>)
    requires From(data, o, e + rest)
    ensures At(data, o, e) && From(data, o + |e|, rest)
  {
    assert |data| == o + |e| + |rest|;
    assert data[o..o + |e|] == data[o..][..|e|];
    assert data[o + |e|..] == data[o..][|e|..];
  }

  lemma HeaderIsLong(t: Given, o: nat, quants: map<nat, Quant>, padded: bool, data: seq<Byte>)
    requires ValidTensor(t, quants) && At(data, o, WriteTensor(t, o, quants, padded))
    ensures o < |data|
  {
  }

  lemma ItemReadsBack(data: seq<Byte>, o: nat, i: Item, scores: bool, rest: seq<Byte>)
    requires ValidItem(i, scores)
    requires From(data, o, Write32(|i.text|) + (i.text + (i.score + rest)))
    ensures var o' := o + 4 + |i.text| + |i.score|;
            LoadItem(data, o, scores) == Ok((i, o')) && From(data, o', rest)
  {
    hide At, From, Write32, Read32, Slice;
    var o1 := o + 4;
    var o2 := o1 + |i.text|;
    StandsAt(data, o, Write32(|i.text|), i.text + (i.score + rest));
    StandsAt(data, o1, i.text, i.score + rest);
    StandsAt(data, o2, i.score, rest);
    Reads(data, o, |i.text|);
    Clips(data, o1, i.text);
    AtIs(data, o2, i.score);
  }

  lemma {:induction false} ItemsReadBack(data: seq<Byte>, o: nat, items: seq<Item>, scores: bool, rest: seq<Byte>)
    requires forall k :: 0 <= k < |items| ==> ValidItem(items[k], scores)
    requires From(data, o, WriteItems(items, scores) + rest)
    ensures LoadVocab(data, o, |items|, scores) == Ok((items, o + |WriteItems(items, scores)|))
    decreases |items|
  {
    hide LoadItem, Write32, From;
    if items != [] {
      var i, more := items[0], WriteItems(items[1..], scores);
      var a, b, c, d := Write32(|i.text|), i.text, i.score, more;
      assert WriteItems(items, scores) == a + (b + (c + d));
      Regroup(a, b, c, d, rest);
      ItemReadsBack(data, o, i, scores, more + rest);
      ItemsReadBack(data, o + 4 + |i.text| + |i.score|, items[1..], scores, rest);
      assert items == [i] + items[1..];
    }
  }

  lemma Regroup(a: seq<Byte>, b: seq<Byte>, c: seq<Byte>, d: seq<Byte>, e: seq<Byte>)
    ensures a + (b + (c + d)) + e == a + (b + (c + (d + e)))
  {
  }

  lemma AtIs(data: seq<Byte>, o: nat, e: seq<Byte>)
    requires At(data, o, e)
    ensures o + |e| <= |data| && data[o..o + |e|] == e
  {
  }

  lemma HeaderReadsBack(data: seq<Byte>, h: Header, rest: seq<Byte>)
    requires ValidHeader(h) && From(data, 0, WriteHeader(h) + rest)
    ensures ValidateHeader(data, 0) == Ok((h, |WriteHeader(h)|))
  {
    hide Read32, Write32, From, At;
    if h.kind == GGML {
      StandsAt(data, 0, MAGIC_GGML, rest);
      Clips(data, 0, MAGIC_GGML);
    } else {
      var magic := if h.kind == GGMF then MAGIC_GGMF else MAGIC_GGJT;
      assert WriteHeader(h) + rest == magic + (Write32(h.version) + rest);
      StandsAt(data, 0, magic, Write32(h.version) + rest);
      Clips(data, 0, magic);
      StandsAt(data, 4, Write32(h.version), rest);
      Reads(data, 4, h.version);
    }
  }

  // ----- the whole file -----

  predicate ValidFile(f: File, quants: map<nat, Quant>) {
    && ValidHeader(f.header)
    && |f.hyper.others| == 5 && Words(HyperWords(f.hyper)) && KnownFtype(f.hyper.ftype)
    && Eligible(f.header, f.hyper.ftype)
    && f.hyper.vocab == |f.items| && (forall k :: 0 <= k < |f.items| ==> ValidItem(f.items[k], f.header.kind != GGML))
    && AllValid(f.tensors, quants)
  }

  function Head(f: File): seq<Byte>
    requires ValidHeader(f.header) && Words(HyperWords(f.hyper))
    requires forall k :: 0 <= k < |f.items| ==> ValidItem(f.items[k], f.header.kind != GGML)
  {
    WriteHeader(f.header) + (Writes32(HyperWords(f.hyper)) + WriteItems(f.items, f.header.kind != GGML))
  }

  function Write(f: File, quants: map<nat, Quant>): seq<Byte>
    requires ValidFile(f, quants)
  {
    Head(f) + WriteTensors(f.tensors, |Head(f)|, quants, f.header.kind == GGJT)
  }

  lemma SameEntries(data: seq<Byte>, ts: seq<Tensor>, given: seq<Given>)
    requires ReadBack(data, ts, given)
    ensures Entries(ts, Loaded) == Entries(given, Described)
  {
    hide At;
    forall i | 0 <= i < |ts| ensures Loaded(ts[i]) == Described(given[i]) {
    }
  }

  lemma HyperReadsBack(data: seq<Byte>, o: nat, hp: Hyper)
    requires |hp.others| == 5 && Words(HyperWords(hp)) && KnownFtype(hp.ftype) && At(data, o, Writes32(HyperWords(hp)))
    ensures LoadHyper(data, o) == Ok((hp, o + 28))
  {
    hide At, Reads32, Writes32;
    var w := HyperWords(hp);
    ReadsAll(data, o, w);
    assert w[0] == hp.vocab && w[1..6] == hp.others && w[6] == hp.ftype;
  }

  predicate ValidItems(items: seq<Item>, scores: bool) {
    forall k :: 0 <= k < |items| ==> ValidItem(items[k], scores)
  }

  /** The part before the tensors, given as its three pieces. */
  lemma HeadReadsBack(data: seq<Byte>, h: Header, hp: Hyper, items: seq<Item>, rest: seq<Byte>,
                      a: seq<Byte>, b: seq<Byte>, c: seq<Byte>)
    requires ValidHeader(h) && |hp.others| == 5 && Words(HyperWords(hp)) && KnownFtype(hp.ftype)
    requires ValidItems(items, h.kind != GGML)
    requires a == WriteHeader(h) && b == Writes32(HyperWords(hp)) && c == WriteItems(items, h.kind != GGML)
    requires |b| == 28 && From(data, 0, a + (b + (c + rest)))
    ensures ValidateHeader(data, 0) == Ok((h, |a|)) && LoadHyper(data, |a|) == Ok((hp, |a| + 28))
    ensures LoadVocab(data, |a| + 28, |items|, h.kind != GGML) == Ok((items, |a| + 28 + |c|))
    ensures From(data, |a| + 28 + |c|, rest)
  {
    hide *;
    var bc, cd := b + (c + rest), c + rest;
    HeaderReadsBack(data, h, bc);
    StandsAt(data, 0, a, bc);
    StandsAt(data, |a|, b, cd);
    HyperReadsBack(data, |a|, hp);
    ItemsAllValid(items, h.kind != GGML);
    ItemsReadBack(data, |a| + 28, items, h.kind != GGML, rest);
    StandsAt(data, |a| + 28, c, rest);
  }

  lemma ItemsAllValid(items: seq<Item>, scores: bool)
    requires ValidItems(items, scores)
    ensures forall k :: 0 <= k < |items| ==> ValidItem(items[k], scores)
  {
  }

  lemma WriteIs(f: File, quants: map<nat, Quant>, tail: seq<Byte>)
    requires ValidFile(f, quants)
    ensures |Writes32(HyperWords(f.hyper))| == 28
    ensures |Head(f)| == |WriteHeader(f.header)| + 28 + |WriteItems(f.items, f.header.kind != GGML)|
    ensures From(Write(f, quants) + tail, 0,
                 WriteHeader(f.header) +
                 (Writes32(HyperWords(f.hyper)) +
                  (WriteItems(f.items, f.header.kind != GGML) +
                   (WriteTensors(f.tensors, |Head(f)|, quants, f.header.kind == GGJT) + tail))))
  {
    var a, b, c := WriteHeader(f.header), Writes32(HyperWords(f.hyper)), WriteItems(f.items, f.header.kind != GGML);
    var d := WriteTensors(f.tensors, |Head(f)|, quants, f.header.kind == GGJT);
    hide WriteHeader, Writes32, WriteItems, WriteTensors, ValidItem, AllValid, Eligible, KnownFtype, Words;
    RegroupTail(a, b, c, d, tail);
    var data := Write(f, quants) + tail;
    assert data[0..] == data;
  }

  lemma RegroupTail(a: seq<Byte>, b: seq<Byte>, c: seq<Byte>, d: seq<Byte>, e: seq<Byte>)
    ensures a + (b + c) + d + e == a + (b + (c + (d + e)))
  {
  }

  /** Everything in front of whatever follows a written file. */
  lemma ReadsUpTo(f: File, quants: map<nat, Quant>, tail: seq<Byte>)
    requires ValidFile(f, quants) && |Write(f, quants) + tail| < HALF
    ensures var data, padded := Write(f, quants) + tail, f.header.kind == GGJT;
            var o1, o := |WriteHeader(f.header)|, |Head(f)|;
            && ValidateHeader(data, 0) == Ok((f.header, o1)) && LoadHyper(data, o1) == Ok((f.hyper, o1 + 28))
            && LoadVocab(data, o1 + 28, |f.items|, f.header.kind != GGML) == Ok((f.items, o))
            && var r := Turns(data, o, quants, padded, |f.tensors|);
               && !r.Failed? && r.o == |Write(f, quants)| && ReadBack(data, r.ts, f.tensors)
               && (r.Ended? <==> tail == [])
  {
    hide At, ValidTensor, ReadBack, WriteHeader, Writes32, WriteItems, WriteTensors, Write, Head, Eligible, ValidItem,
         LoadVocab, ValidateHeader, LoadHyper, AllValid, HyperWords, Words, From, KnownFtype, LoadItem, LoadTensor,
         Write32, WriteTensor, Turns;
    var a, b, c := WriteHeader(f.header), Writes32(HyperWords(f.hyper)), WriteItems(f.items, f.header.kind != GGML);
    var data, padded, o := Write(f, quants) + tail, f.header.kind == GGJT, |Head(f)|;
    var rest := WriteTensors(f.tensors, o, quants, padded) + tail;
    WriteIs(f, quants, tail);
    hide ValidFile, ValidHeader;
    HeadReadsBack(data, f.header, f.hyper, f.items, rest, a, b, c);
    TensorsReadBack(data, o, f.tensors, quants, padded, tail);
  }

  lemma LoadIs(data: seq<Byte>, quants: map<nat, Quant>, h: Header, hp: Hyper, items: seq<Item>, ts: seq<Tensor>,
               o1: nat, o2: nat, o3: nat, end: int)
    requires ValidateHeader(data, 0) == Ok((h, o1)) && LoadHyper(data, o1) == Ok((hp, o2)) && Eligible(h, hp.ftype)
    requires LoadVocab(data, o2, hp.vocab, h.kind != GGML) == Ok((items, o3))
    requires LoadTensors(data, o3, quants, h.kind == GGJT) == Returns(Ok((ts, end)))
    ensures Load(data, 0, quants) ==
            match FeedForward(Entries(ts, Loaded))
            case Err(e) => Returns(Err(e))
            case Ok(ff) => Returns(Ok(Model(h, hp, ff, items, ts, end)))
  {
    hide ValidateHeader, LoadHyper, Eligible, LoadVocab, LoadTensors, FeedForward, Entries;
  }

  /** What a load of the written file must return. */
  predicate GivesBack(f: File, data: seq<Byte>, r: Answer<Model>) {
    match FeedForward(Entries(f.tensors, Described))
    case Err(e) => r == Returns(Err(e))
    case Ok(ff) =>
      && r.Returns? && r.outcome.Ok?
      && var m := r.outcome.value;
         && ReadBack(data, m.tensors, f.tensors) && m.end == |data|
         && m.header == f.header && m.hyper == f.hyper && m.ff == ff && m.items == f.items
  }

  lemma GivesBackAll(f: File, data: seq<Byte>, quants: map<nat, Quant>, ts: seq<Tensor>, o1: nat, o2: nat, o3: nat)
    requires f.hyper.vocab == |f.items| && Eligible(f.header, f.hyper.ftype)
    requires ValidateHeader(data, 0) == Ok((f.header, o1)) && LoadHyper(data, o1) == Ok((f.hyper, o2))
    requires LoadVocab(data, o2, |f.items|, f.header.kind != GGML) == Ok((f.items, o3))
    requires LoadTensors(data, o3, quants, f.header.kind == GGJT) == Returns(Ok((ts, |data|)))
    requires ReadBack(data, ts, f.tensors)
    ensures GivesBack(f, data, Load(data, 0, quants))
  {
    hide ValidateHeader, LoadHyper, Eligible, LoadVocab, LoadTensors, FeedForward, Entries, ReadBack, Load;
    LoadIs(data, quants, f.header, f.hyper, f.items, ts, o1, o2, o3, |data|);
    SameEntries(data, ts, f.tensors);
  }

  /** Loading a written file gives back everything in it, with the cursor at the end of the file; it
      fails exactly when the first layer's feed-forward tensor is missing or has fewer than two dimensions. */
  lemma LoadsBack(f: File, quants: map<nat, Quant>)
    requires ValidFile(f, quants) && |Write(f, quants)| < HALF
    ensures GivesBack(f, Write(f, quants), Load(Write(f, quants), 0, quants))
  {
    var data, padded, o := Write(f, quants), f.header.kind == GGJT, |Head(f)|;
    hide *;
    assert data + [] == data;
    ReadsUpTo(f, quants, []);
    FileIs(f, quants);
    EndedHere(data, o, quants, padded, |f.tensors|);
    GivesBackAll(f, data, quants, Turns(data, o, quants, padded, |f.tensors|).ts, |WriteHeader(f.header)|,
                 |WriteHeader(f.header)| + 28, o);
  }

  lemma FileIs(f: File, quants: map<nat, Quant>)
    requires ValidFile(f, quants)
    ensures f.hyper.vocab == |f.items| && Eligible(f.header, f.hyper.ftype)
  {
  }

  lemma EndedHere(data: seq<Byte>, o: nat, quants: map<nat, Quant>, padded: bool, k: nat)
    requires Turns(data, o, quants, padded, k).Ended?
    ensures var r := Turns(data, o, quants, padded, k); LoadTensors(data, o, quants, padded) == Returns(Ok((r.ts, r.o)))
  {
    hide Turns, LoadTensors;
    AnswerIs(data, o, quants, padded, k);
  }

  // ----- files behind which the loop goes wrong -----

  lemma LoadsForever(data: seq<Byte>, quants: map<nat, Quant>, h: Header, hp: Hyper, items: seq<Item>,
                     o1: nat, o2: nat, o3: nat)
    requires ValidateHeader(data, 0) == Ok((h, o1)) && LoadHyper(data, o1) == Ok((hp, o2)) && Eligible(h, hp.ftype)
    requires LoadVocab(data, o2, hp.vocab, h.kind != GGML) == Ok((items, o3))
    requires LoadTensors(data, o3, quants, h.kind == GGJT) == NeverReturns
    ensures Load(data, 0, quants) == NeverReturns
  {
    hide ValidateHeader, LoadHyper, Eligible, LoadVocab, LoadTensors, FeedForward, Entries;
  }

  lemma StandsBehind(a: seq<Byte>, b: seq<Byte>)
    ensures At(a + b, |a|, b)
  {
    assert (a + b)[|a|..|a| + |b|] == b;
  }

  /** What the tensor loop makes of a written file and a tail. */
  lemma BehindFile(f: File, quants: map<nat, Quant>, tail: seq<Byte>)
    requires ValidFile(f, quants) && tail != [] && |Write(f, quants) + tail| < HALF
    ensures var data, o, padded := Write(f, quants) + tail, |Head(f)|, f.header.kind == GGJT;
            var r := Turns(data, o, quants, padded, |f.tensors|);
            && r.Running? && r.o == |Write(f, quants)| && ReadBack(data, r.ts, f.tensors)
            && LoadTensors(data, o, quants, padded) ==
               match LoadTensors(data, |Write(f, quants)|, quants, padded)
               case NeverReturns => NeverReturns
               case Returns(Err(e)) => Returns(Err(e))
               case Returns(Ok(rest)) => Returns(Ok((r.ts + rest.0, rest.1)))
  {
    var data, o, padded := Write(f, quants) + tail, |Head(f)|, f.header.kind == GGJT;
    hide Write, Head, ValidFile, ReadBack, Turns, LoadTensors, ValidateHeader, LoadHyper, LoadVocab;
    ReadsUpTo(f, quants, tail);
    GoesOn(data, o, quants, padded, |f.tensors|);
  }

  /** If the tensor loop never ends behind a file, neither does the loader. */
  lemma EndlessTail(f: File, quants: map<nat, Quant>, data: seq<Byte>, tail: seq<Byte>)
    requires ValidFile(f, quants) && data == Write(f, quants) + tail && tail != [] && |data| < HALF
    requires LoadTensors(data, |Write(f, quants)|, quants, f.header.kind == GGJT) == NeverReturns
    ensures Load(data, 0, quants) == NeverReturns
  {
    var o1, o := |WriteHeader(f.header)|, |Head(f)|;
    hide *;
    BehindFile(f, quants, tail);
    ReadsUpTo(f, quants, tail);
    FileIs(f, quants);
    LoadsForever(data, quants, f.header, f.hyper, f.items, o1, o1 + 28, o);
  }

  /** Behind any file, a tensor whose size wraps to what takes the cursor back over its header: the
      loader never returns. */
  lemma EndlessFile(f: File, quants: map<nat, Quant>, d0: nat, d1: nat)
    requires ValidFile(f, quants) && PlainFloats(quants) && d0 < U32 && d1 < U32 && |Write(f, quants)| + 36 < HALF
    requires var o := |Write(f, quants)|; NumBytes([d0, d1], Quant(1, 4)) == o - Behind(o, f.header.kind == GGJT)
    ensures Load(Write(f, quants) + Tail(d0, d1), 0, quants) == NeverReturns
  {
    hide *;
    var w, tail := Write(f, quants), Tail(d0, d1);
    StandsBehind(w, tail);
    NeverAdvances(w + tail, |w|, quants, f.header.kind == GGJT, d0, d1);
    EndlessTail(f, quants, w + tail, tail);
  }

  lemma OtherNames(es: seq<Entry>, more: seq<Entry>)
    requires |more| == 2 && more[0].name != FF_NAME && more[1].name != FF_NAME
    ensures FeedForward(es + more) == FeedForward(es)
  {
    hide FeedForward;
    var all := es + more;
    assert all[..|all| - 1][..|es|] == es;
    FeedForwardStep(all);
    FeedForwardStep(all[..|all| - 1]);
  }

  lemma EntriesBehind(data: seq<Byte>, ts: seq<Tensor>, given: seq<Given>, t: Tensor, u: Tensor)
    requires ReadBack(data, ts, given) && t.name == seq(16, _ => 0) && u.name == []
    ensures FeedForward(Entries(ts + [t, u], Loaded)) == FeedForward(Entries(given, Described))
  {
    hide ReadBack, FeedForward;
    SameEntries(data, ts, given);
    assert Entries(ts + [t, u], Loaded) == Entries(ts, Loaded) + [Loaded(t), Loaded(u)];
    assert |t.name| == 16 && |u.name| == 0;
    OtherNames(Entries(ts, Loaded), [Loaded(t), Loaded(u)]);
  }

  /** Two more tensors behind a file, neither of them the feed-forward one. */
  lemma TailLoads(f: File, quants: map<nat, Quant>, data: seq<Byte>, tail: seq<Byte>, t: Tensor, u: Tensor)
    requires ValidFile(f, quants) && data == Write(f, quants) + tail && tail != [] && |data| < HALF
    requires LoadTensors(data, |Write(f, quants)|, quants, f.header.kind == GGJT) == Returns(Ok(([t, u], |data|)))
    requires t.name == seq(16, _ => 0) && u.name == [] && FeedForward(Entries(f.tensors, Described)).Ok?
    ensures var r, n := Load(data, 0, quants), |f.tensors|;
            r.Returns? && r.outcome.Ok? && |r.outcome.value.tensors| == n + 2 && r.outcome.value.tensors[n..] == [t, u]
  {
    var o1, o, padded := |WriteHeader(f.header)|, |Head(f)|, f.header.kind == GGJT;
    hide *;
    BehindFile(f, quants, tail);
    ReadsUpTo(f, quants, tail);
    FileIs(f, quants);
    var ts := Turns(data, o, quants, padded, |f.tensors|).ts;
    ReadBackLength(data, ts, f.tensors);
    EntriesBehind(data, ts, f.tensors, t, u);
    LoadIs(data, quants, f.header, f.hyper, f.items, ts + [t, u], o1, o1 + 28, o, |data|);
  }

  /** Behind any file without padding, a tensor whose size wraps to minus sixteen: the loader accepts the
      file, with two tensors more, the second of which has its region before the other. */
  lemma CrossedFile(f: File, quants: map<nat, Quant>, d0: nat, d1: nat)
    requires ValidFile(f, quants) && PlainFloats(quants) && d0 < U32 && d1 < U32 && |Write(f, quants)| + 40 < HALF
    requires f.header.kind != GGJT && FeedForward(Entries(f.tensors, Described)).Ok?
    requires NumBytes([d0, d1], Quant(1, 4)) == -16
    ensures var r, n := Load(Write(f, quants) + Tail(d0, d1), 0, quants), |f.tensors|;
            && r.Returns? && r.outcome.Ok?
            && var ts := r.outcome.value.tensors;
               |ts| == n + 2 && ts[n + 1].start < ts[n].start
  {
    hide *;
    var w, tail := Write(f, quants), Tail(d0, d1);
    var data, n := w + tail, |f.tensors|;
    var t, u := Tensor(seq(16, _ => 0), [d0, d1], 0, |w| + 36, -16), Tensor([], [], 0, |w| + 32, 4);
    StandsBehind(w, tail);
    RegionsCanGoBack(data, |w|, quants, d0, d1);
    TailLoads(f, quants, data, tail, t, u);
    var ts := Load(data, 0, quants).outcome.value.tensors;
    assert ts[n] == ts[n..][0] && ts[n + 1] == ts[n..][1];
  }

  lemma ReadBackLength(data: seq<Byte>, ts: seq<Tensor>, given: seq<Given>)
    requires ReadBack(data, ts, given)
    ensures |ts| == |given|
  {
  }

  // ----- the loops -----

  function Prepend<T>(done: seq<T>, r: Outcome<(seq<T>, nat)>): Outcome<(seq<T>, nat)> {
    match r case Err(e) => Err(e) case Ok(rest) => Ok((done + rest.0, rest.1))
  }

  lemma PrependOne<T>(done: seq<T>, x: T, r: Outcome<(seq<T>, nat)>)
    ensures Prepend(done, Prepend([x], r)) == Prepend(done + [x], r)
  {
    if r.Ok? {
      assert done + ([x] + r.value.0) == done + [x] + r.value.0;
    }
  }

  lemma PrependNone<T>(r: Outcome<(seq<T>, nat)>)
    ensures Prepend([], r) == r
  {
    if r.Ok? {
      assert [] + r.value.0 == r.value.0;
    }
  }

  lemma VocabStep(data: seq<Byte>, o: nat, count: nat, scores: bool)
    ensures count == 0 ==> LoadVocab(data, o, count, scores) == Ok(([], o))
    ensures var one := LoadItem(data, o, scores);
            count > 0 ==>
              LoadVocab(data, o, count, scores) ==
              if one.Err? then Err(one.error)
              else Prepend([one.value.0], LoadVocab(data, one.value.1, count - 1, scores))
  {
    hide LoadItem;
  }

  method ReadVocab(data: seq<Byte>, origin: nat, count: nat, scores: bool) returns (r: Outcome<(seq<Item>, nat)>)
    ensures r == LoadVocab(data, origin, count, scores)
  {
    hide LoadVocab, LoadItem;
    var items, offset := [], origin;
    PrependNone(LoadVocab(data, origin, count, scores));
    for i := 0 to count
      invariant LoadVocab(data, origin, count, scores) == Prepend(items, LoadVocab(data, offset, count - i, scores))
    {
      VocabStep(data, offset, count - i, scores);
      var one := LoadItem(data, offset, scores);
      if one.Err? {
        return Err(one.error);
      }
      PrependOne(items, one.value.0, LoadVocab(data, one.value.1, count - i - 1, scores));
      items, offset := items + [one.value.0], one.value.1;
    }
    VocabStep(data, offset, 0, scores);
    assert items + [] == items;
    r := Ok((items, offset));
  }

  /** Looking the tensor up in the map finds the last one of its name. */
  lemma {:induction false} FeedForwardByMap(names: map<seq<Byte>, nat>, ts: seq<Tensor>, n: nat)
    requires Maps(names, ts) && n <= |ts| && forall k :: n <= k < |ts| ==> ts[k].name != FF_NAME
    ensures FeedForward(Entries(ts, Loaded)[..n]) ==
            if FF_NAME !in names then Err(AssertionFailed)
            else if |ts[names[FF_NAME]].dims| < 2 then Err(NoSuchDim)
            else Ok(ts[names[FF_NAME]].dims[1])
  {
    hide FeedForward;
    var es := Entries(ts, Loaded);
    FeedForwardStep(es[..n]);
    if n > 0 {
      assert es[..n][n - 1] == Loaded(ts[n - 1]);
      if ts[n - 1].name != FF_NAME {
        assert es[..n][..n - 1] == es[..n - 1];
        FeedForwardByMap(names, ts, n - 1);
      } else {
        assert names[FF_NAME] == n - 1;
      }
    }
  }

  lemma FeedForwardStep(es: seq<Entry>)
    ensures es == [] ==> FeedForward(es) == Err(AssertionFailed)
    ensures es != [] ==> var e := es[|es| - 1];
                         FeedForward(es) ==
                         if e.name != FF_NAME then FeedForward(es[..|es| - 1])
                         else if |e.dims| < 2 then Err(NoSuchDim)
                         else Ok(e.dims[1])
  {
  }

  method LoadModel(data: seq<Byte>, offset: nat, quants: map<nat, Quant>) returns (r: Answer<Model>)
    ensures r == Load(data, offset, quants)
  {
    hide ValidateHeader, LoadHyper, LoadVocab, LoadTensors, FeedForward, Eligible, Maps;
    var h := ValidateHeader(data, offset);
    if h.Err? {
      return Returns(Err(h.error));
    }
    var hp := LoadHyper(data, h.value.1);
    if hp.Err? {
      return Returns(Err(hp.error));
    }
    if !Eligible(h.value.0, hp.value.0.ftype) {
      return Returns(Err(NotEligible));
    }
    var v := ReadVocab(data, hp.value.1, hp.value.0.vocab, h.value.0.kind != GGML);
    if v.Err? {
      return Returns(Err(v.error));
    }
    var ts, names := ReadTensors(data, v.value.1, quants, h.value.0.kind == GGJT);
    if ts.NeverReturns? {
      return NeverReturns;
    }
    if ts.outcome.Err? {
      return Returns(Err(ts.outcome.error));
    }
    var (tensors, end) := ts.outcome.value;
    FeedForwardByMap(names, tensors, |tensors|);
    ghost var es := Entries(tensors, Loaded);
    assert es[..|tensors|] == es;
    assert Load(data, offset, quants) ==
           if FeedForward(es).Err? then Returns(Err(FeedForward(es).error))
           else Returns(Ok(Model(h.value.0, hp.value.0, FeedForward(es).value, v.value.0, tensors, end)));
    if FF_NAME !in names {
      return Returns(Err(AssertionFailed));
    }
    MappedIndex(names, tensors);
    var ff := tensors[names[FF_NAME]];
    if |ff.dims| < 2 {
      return Returns(Err(NoSuchDim));
    }
    r := Returns(Ok(Model(h.value.0, hp.value.0, ff.dims[1], v.value.0, tensors, end)));
  }

  lemma MappedIndex(names: map<seq<Byte>, nat>, ts: seq<Tensor>)
    requires Maps(names, ts)
    ensures forall n <- names :: names[n] < |ts|
  {
  }
}
