/** Packing the selected tokens of a padded batch and unpacking them: `unpad_input`,
    `unpad_input_for_concatenated_sequences` and `pad_input` in `flash_attn/bert_padding.py`. */
module BertPadding {
  import opened StableSort
  import opened IndexFirstAxis

  datatype Option<T> = None | Some(value: T)

  /** The maximum of an empty tensor is an error. */
  datatype Result<T> = Success(value: T) | EmptyMaximum

  /** Boolean masks add by disjunction, integer masks by addition. */
  datatype MaskType = Bool | Int

  datatype Unpadded<T> = Unpadded(hidden: seq<T>, indices: seq<nat>, cuSeqlens: seq<int>, maxSeqlen: int,
                                  seqused: seq<int>)

  // ---------------------------------------------------------------- tensor primitives

  predicate Shaped<T>(m: seq<seq<T>>, batch: nat, seqlen: nat) {
    |m| == batch && forall b | 0 <= b < batch :: |m[b]| == seqlen
  }

  /** `"b s ... -> (b s) ..."` */
  function Flat<T>(m: seq<seq<T>>): seq<T> {
    if m == [] then [] else Flat(m[..|m| - 1]) + m[|m| - 1]
  }

  function Bits(v: seq<int>): (w: seq<bool>)
    ensures |w| == |v| && forall i | 0 <= i < |v| :: w[i] == (v[i] != 0)
  {
    seq(|v|, i requires 0 <= i < |v| => v[i] != 0)
  }

  function SumOf(v: seq<int>): int {
    if v == [] then 0 else SumOf(v[..|v| - 1]) + v[|v| - 1]
  }

  function RowSums(m: seq<seq<int>>): (s: seq<int>)
    ensures |s| == |m| && forall b | 0 <= b < |m| :: s[b] == SumOf(m[b])
  {
    seq(|m|, b requires 0 <= b < |m| => SumOf(m[b]))
  }

  /** `F.pad(cumsum(lens), (1, 0))` */
  function CuSeqlens(lens: seq<int>): (cu: seq<int>)
    ensures |cu| == |lens| + 1 && forall i | 0 <= i <= |lens| :: cu[i] == SumOf(lens[..i])
  {
    seq(|lens| + 1, i requires 0 <= i <= |lens| => SumOf(lens[..i]))
  }

  function MaxOf(v: seq<int>): (m: int)
    requires v != []
    ensures m in v && forall i | 0 <= i < |v| :: v[i] <= m
  {
    if |v| == 1 then v[0]
    else
      var m := MaxOf(v[..|v| - 1]);
      assert forall i | 0 <= i < |v| - 1 :: v[..|v| - 1][i] == v[i];
      if v[|v| - 1] > m then v[|v| - 1] else m
  }

  // ---------------------------------------------------------------- the operations

  function Sum2(kind: MaskType, x: int, y: int): int {
    if kind.Bool? then (if x != 0 || y != 0 then 1 else 0) else x + y
  }

  function AllMasks(kind: MaskType, attention: seq<seq<int>>, unused: Option<seq<seq<int>>>, batch: nat,
                    seqlen: nat): (m: seq<seq<int>>)
    requires Shaped(attention, batch, seqlen) && (unused.Some? ==> Shaped(unused.value, batch, seqlen))
    ensures Shaped(m, batch, seqlen)
  {
    if unused.None? then attention
    else seq(batch, b requires 0 <= b < batch =>
               seq(seqlen, s requires 0 <= s < seqlen => Sum2(kind, attention[b][s], unused.value[b][s])))
  }

  lemma {:induction false} FlatLength<T>(m: seq<seq<T>>, batch: nat, seqlen: nat)
    requires Shaped(m, batch, seqlen)
    ensures |Flat(m)| == batch * seqlen
  {
    if batch > 0 {
      FlatLength(m[..batch - 1], batch - 1, seqlen);
      assert batch * seqlen == (batch - 1) * seqlen + seqlen;
    }
  }

  function UnpadInput<T>(hidden: seq<seq<T>>, kind: MaskType, attention: seq<seq<int>>,
                         unused: Option<seq<seq<int>>>, batch: nat, seqlen: nat): Result<Unpadded<T>>
    requires Shaped(hidden, batch, seqlen) && Shaped(attention, batch, seqlen)
    requires unused.Some? ==> Shaped(unused.value, batch, seqlen)
  {
    var all := AllMasks(kind, attention, unused, batch, seqlen);
    var lens := RowSums(all);
    var indices := Nonzero(Bits(Flat(all)));
    if lens == [] then EmptyMaximum
    else
      FlatLength(all, batch, seqlen);
      FlatLength(hidden, batch, seqlen);
      Success(Unpadded(Gather(Flat(hidden), indices), indices, CuSeqlens(lens), MaxOf(lens), RowSums(attention)))
  }

  // ---------------------------------------------------------------- flattening and counting

  /** What lies before position (b, s) of the flattened tensor. */
  lemma {:induction false} FlatPrefix<T>(m: seq<seq<T>>, batch: nat, seqlen: nat, b: nat, s: nat)
    requires Shaped(m, batch, seqlen) && b < batch && s <= seqlen
    ensures 0 <= b * seqlen + s <= |Flat(m)|
    ensures Flat(m)[..b * seqlen + s] == Flat(m[..b]) + m[b][..s]
  {
    var front := m[..batch - 1];
    FlatLength(front, batch - 1, seqlen);
    if b < batch - 1 {
      FlatPrefix(front, batch - 1, seqlen, b, s);
      assert front[..b] == m[..b];
    } else {
      assert m[..b] == front;
    }
  }

  lemma FlatAt<T>(m: seq<seq<T>>, batch: nat, seqlen: nat, b: nat, s: nat)
    requires Shaped(m, batch, seqlen) && b < batch && s < seqlen
    ensures 0 <= b * seqlen + s < |Flat(m)| && Flat(m)[b * seqlen + s] == m[b][s]
  {
    FlatPrefix(m, batch, seqlen, b, s + 1);
    FlatPrefix(m, batch, seqlen, b, s);
    var f := b * seqlen + s;
    assert Flat(m)[..f + 1][f] == m[b][..s + 1][s];
  }

  lemma {:induction false} SumAppend(v: seq<int>, w: seq<int>)
    ensures SumOf(v + w) == SumOf(v) + SumOf(w)
  {
    if w == [] {
      assert v + w == v;
    } else {
      SumAppend(v, w[..|w| - 1]);
      assert (v + w)[..|v + w| - 1] == v + w[..|w| - 1];
    }
  }

  lemma {:induction false} SumOfFlat(m: seq<seq<int>>)
    ensures SumOf(Flat(m)) == SumOf(RowSums(m))
  {
    if m != [] {
      var n := |m| - 1;
      SumOfFlat(m[..n]);
      SumAppend(Flat(m[..n]), m[n]);
      assert RowSums(m)[..n] == RowSums(m[..n]);
    }
  }

  /** The number of selected entries. */
  function Ones(v: seq<bool>): nat { |Nonzero(v)| }

  lemma {:induction false} OnesAppend(v: seq<bool>, w: seq<bool>)
    ensures Ones(v + w) == Ones(v) + Ones(w)
  {
    if w == [] {
      assert v + w == v;
    } else {
      OnesAppend(v, w[..|w| - 1]);
      assert (v + w)[..|v + w| - 1] == v + w[..|w| - 1];
    }
  }

  lemma NonzeroSnoc(v: seq<bool>, n: nat)
    requires |v| == n + 1
    ensures Nonzero(v) == Nonzero(v[..n]) + if v[n] then [n] else []
  {
  }

  /** A selected position stands in `nonzero` behind exactly the selected positions before it. */
  lemma {:induction false} RankOf(v: seq<bool>, f: nat)
    requires f < |v| && v[f]
    ensures Ones(v[..f]) < Ones(v) && Nonzero(v)[Ones(v[..f])] == f
  {
    hide Nonzero;
    var n := |v| - 1;
    NonzeroSnoc(v, n);
    if f < n {
      RankOf(v[..n], f);
      assert v[..n][..f] == v[..f];
    }
  }

  lemma SameIndex(p: seq<nat>, k: nat, l: nat)
    requires (forall i, j | 0 <= i < j < |p| :: p[i] < p[j]) && k < |p| && l < |p| && p[k] == p[l]
    ensures k == l
  {
  }

  lemma RankAt(v: seq<bool>, k: nat)
    requires k < Ones(v)
    ensures Nonzero(v)[k] < |v| && Ones(v[..Nonzero(v)[k]]) == k
  {
    var p := Nonzero(v);
    hide Nonzero;
    RankOf(v, p[k]);
    var l := Ones(v[..p[k]]);
    SameIndex(p, k, l);
  }

  lemma BitsAppend(v: seq<int>, w: seq<int>)
    ensures Bits(v + w) == Bits(v) + Bits(w)
  {
  }

  /** Selected entries before (b, s) of a flattened mask. */
  lemma OnesBefore(m: seq<seq<int>>, batch: nat, seqlen: nat, b: nat, s: nat)
    requires Shaped(m, batch, seqlen) && b < batch && s <= seqlen
    ensures 0 <= b * seqlen + s <= |Bits(Flat(m))|
    ensures Ones(Bits(Flat(m))[..b * seqlen + s]) == Ones(Bits(Flat(m[..b]))) + Ones(Bits(m[b][..s]))
  {
    FlatPrefix(m, batch, seqlen, b, s);
    assert Bits(Flat(m))[..b * seqlen + s] == Bits(Flat(m)[..b * seqlen + s]);
    BitsAppend(Flat(m[..b]), m[b][..s]);
    OnesAppend(Bits(Flat(m[..b])), Bits(m[b][..s]));
  }

  // ---------------------------------------------------------------- counts and sums of masks

  ghost predicate ZeroOne(v: seq<int>) { forall i | 0 <= i < |v| :: v[i] == 0 || v[i] == 1 }

  lemma OnesSnoc(v: seq<int>)
    requires v != []
    ensures Ones(Bits(v)) == Ones(Bits(v[..|v| - 1])) + if v[|v| - 1] != 0 then 1 else 0
  {
    assert Bits(v)[..|v| - 1] == Bits(v[..|v| - 1]);
  }

  lemma ZeroOneSnoc(v: seq<int>)
    requires v != []
    ensures ZeroOne(v) <==> ZeroOne(v[..|v| - 1]) && (v[|v| - 1] == 0 || v[|v| - 1] == 1)
  {
    assert forall i | 0 <= i < |v| - 1 :: v[..|v| - 1][i] == v[i];
  }

  lemma EmptyMask(v: seq<int>)
    requires v == []
    ensures Ones(Bits(v)) == 0 && ZeroOne(v)
  {
  }

  /** A mask with entries 0, 1, 2 sums to at least its selected count, and to exactly that
      count when it has no 2. */
  lemma {:induction false} SumCounts(v: seq<int>)
    requires forall i | 0 <= i < |v| :: 0 <= v[i] <= 2
    ensures SumOf(v) >= Ones(Bits(v)) && (SumOf(v) == Ones(Bits(v)) <==> ZeroOne(v))
  {
    hide Ones, ZeroOne;
    if v == [] {
      EmptyMask(v);
    } else {
      SumCounts(v[..|v| - 1]);
      OnesSnoc(v);
      ZeroOneSnoc(v);
    }
  }

  lemma FlatElements(m: seq<seq<int>>, i: nat) returns (b: nat, s: nat)
    requires i < |Flat(m)|
    ensures b < |m| && s < |m[b]| && Flat(m)[i] == m[b][s]
  {
    var n := |m| - 1;
    if i < |Flat(m[..n])| {
      b, s := FlatElements(m[..n], i);
    } else {
      b, s := n, i - |Flat(m[..n])|;
    }
  }

  lemma ZeroOneAppend(v: seq<int>, w: seq<int>)
    ensures ZeroOne(v + w) <==> ZeroOne(v) && ZeroOne(w)
  {
    if ZeroOne(v + w) {
      assert forall i | 0 <= i < |v| :: (v + w)[i] == v[i];
      assert forall i | 0 <= i < |w| :: (v + w)[|v| + i] == w[i];
    }
  }

  lemma {:induction false} FlatIsZeroOne(m: seq<seq<int>>)
    ensures ZeroOne(Flat(m)) <==> forall b | 0 <= b < |m| :: ZeroOne(m[b])
  {
    if m != [] {
      var n := |m| - 1;
      FlatIsZeroOne(m[..n]);
      ZeroOneAppend(Flat(m[..n]), m[n]);
      assert forall b | 0 <= b < n :: m[..n][b] == m[b];
    }
  }

  ghost predicate IsMask(m: seq<seq<int>>) { forall b | 0 <= b < |m| :: ZeroOne(m[b]) }

  // ---------------------------------------------------------------- unpad_input

  /** Row b of a 0-1 mask starts, among the selected entries, at cu[b]. */
  lemma CuIsCount(m: seq<seq<int>>, b: nat)
    requires IsMask(m) && b <= |m|
    ensures CuSeqlens(RowSums(m))[b] == Ones(Bits(Flat(m[..b])))
  {
    assert RowSums(m)[..b] == RowSums(m[..b]);
    SumOfFlat(m[..b]);
    FlatIsZeroOne(m[..b]);
    SumCounts(Flat(m[..b]));
  }

  /** The k-th selected token of row b is entry cu[b] + k of the indices. */
  lemma IndexOfToken(m: seq<seq<int>>, batch: nat, seqlen: nat, b: nat, k: nat)
    requires Shaped(m, batch, seqlen) && IsMask(m) && b < batch && k < Ones(Bits(m[b]))
    ensures var at := CuSeqlens(RowSums(m))[b] + k;
            && 0 <= at < Ones(Bits(Flat(m)))
            && Nonzero(Bits(m[b]))[k] < seqlen
            && Nonzero(Bits(Flat(m)))[at] == b * seqlen + Nonzero(Bits(m[b]))[k]
  {
    var s := Nonzero(Bits(m[b]))[k];
    hide Nonzero, CuSeqlens, RowSums, IsMask, Flat, Bits;
    RankAt(Bits(m[b]), k);
    CuIsCount(m, b);
    OnesBefore(m, batch, seqlen, b, s);
    FlatAt(m, batch, seqlen, b, s);
    assert Bits(m[b][..s]) == Bits(m[b])[..s];
    RankOf(Bits(Flat(m)), b * seqlen + s);
  }

  lemma OnesOfPrefix(v: seq<bool>, n: nat)
    requires n <= |v|
    ensures Ones(v[..n]) <= Ones(v)
  {
    hide Ones;
    OnesAppend(v[..n], v[n..]);
    assert v[..n] + v[n..] == v;
  }

  lemma SegmentLength(m: seq<seq<int>>, batch: nat, seqlen: nat, b: nat)
    requires Shaped(m, batch, seqlen) && IsMask(m) && b < batch
    ensures var cu := CuSeqlens(RowSums(m));
            && cu[b + 1] == cu[b] + Ones(Bits(m[b]))
            && 0 <= cu[b] <= cu[b + 1] <= Ones(Bits(Flat(m)))
  {
    hide Nonzero, CuSeqlens, RowSums, Ones;
    CuIsCount(m, b);
    CuIsCount(m, b + 1);
    assert m[..b + 1][..b] == m[..b];
    BitsAppend(Flat(m[..b]), m[b]);
    OnesAppend(Bits(Flat(m[..b])), Bits(m[b]));
    FlatPrefix(m, batch, seqlen, b, seqlen);
    OnesOfPrefix(Bits(Flat(m)), b * seqlen + seqlen);
    assert m[b][..seqlen] == m[b];
    assert Bits(Flat(m))[..b * seqlen + seqlen] == Bits(Flat(m)[..b * seqlen + seqlen]);
  }

  lemma TokensInRange<T>(hidden: seq<seq<T>>, m: seq<seq<int>>, batch: nat, seqlen: nat)
    requires Shaped(hidden, batch, seqlen) && Shaped(m, batch, seqlen)
    ensures |Flat(hidden)| == |Flat(m)| && InRange(Nonzero(Bits(Flat(m))), |Flat(hidden)|)
  {
    hide Nonzero, Flat;
    FlatLength(hidden, batch, seqlen);
    FlatLength(m, batch, seqlen);
  }

  /** A row's selected tokens, in order. */
  function Selected<T>(row: seq<T>, mask: seq<int>): (r: seq<T>)
    requires |row| == |mask|
    ensures |r| == Ones(Bits(mask))
  {
    Gather(row, Nonzero(Bits(mask)))
  }

  function Packed<T>(hidden: seq<seq<T>>, m: seq<seq<int>>): seq<T>
    requires InRange(Nonzero(Bits(Flat(m))), |Flat(hidden)|)
  {
    Gather(Flat(hidden), Nonzero(Bits(Flat(m))))
  }

  function Start(m: seq<seq<int>>, b: nat): int
    requires b <= |m|
  {
    CuSeqlens(RowSums(m))[b]
  }

  /** Packed entry cu[b] + k is the k-th selected token of batch b. */
  lemma PackedToken<T>(hidden: seq<seq<T>>, m: seq<seq<int>>, batch: nat, seqlen: nat, b: nat, i: int)
    requires Shaped(hidden, batch, seqlen) && Shaped(m, batch, seqlen) && IsMask(m) && b < batch
    requires InRange(Nonzero(Bits(Flat(m))), |Flat(hidden)|)
    requires Start(m, b) <= i < Start(m, b) + Ones(Bits(m[b]))
    ensures 0 <= i < |Packed(hidden, m)| && Packed(hidden, m)[i] == Selected(hidden[b], m[b])[i - Start(m, b)]
  {
    hide Nonzero, CuSeqlens, RowSums, IsMask, Flat, Gather, Bits;
    var k := i - Start(m, b);
    IndexOfToken(m, batch, seqlen, b, k);
    FlatAt(hidden, batch, seqlen, b, Nonzero(Bits(m[b]))[k]);
  }

  lemma SliceIs<T>(h: seq<T>, lo: nat, hi: nat, g: seq<T>)
    requires lo <= hi <= |h| && |g| == hi - lo && forall i | lo <= i < hi :: h[i] == g[i - lo]
    ensures h[lo..hi] == g
  {
  }

  /** Each segment of the packed tensor is exactly one batch's selected tokens, in order. */
  lemma PackedSegment<T>(hidden: seq<seq<T>>, m: seq<seq<int>>, batch: nat, seqlen: nat, b: nat)
    requires Shaped(hidden, batch, seqlen) && Shaped(m, batch, seqlen) && IsMask(m) && b < batch
    requires InRange(Nonzero(Bits(Flat(m))), |Flat(hidden)|)
    ensures 0 <= Start(m, b) <= Start(m, b + 1) <= |Packed(hidden, m)|
    ensures Packed(hidden, m)[Start(m, b)..Start(m, b + 1)] == Selected(hidden[b], m[b])
  {
    SegmentLength(m, batch, seqlen, b);
    var lo, hi, selected := Start(m, b), Start(m, b + 1), Selected(hidden[b], m[b]);
    assert |Packed(hidden, m)| == Ones(Bits(Flat(m)));
    hide Start, Packed, Selected, Flat, IsMask, Ones, Nonzero, Bits, CuSeqlens, RowSums;
    forall i | lo <= i < hi ensures Packed(hidden, m)[i] == selected[i - lo] {
      PackedToken(hidden, m, batch, seqlen, b, i);
    }
    SliceIs(Packed(hidden, m), lo, hi, selected);
  }

  /** A token is selected by the attention mask, or by the two masks together. */
  predicate Selects(kind: MaskType, attention: seq<seq<int>>, unused: Option<seq<seq<int>>>, b: nat, s: nat)
    requires b < |attention| && s < |attention[b]|
    requires unused.Some? ==> b < |unused.value| && s < |unused.value[b]|
  {
    match unused
    case None => attention[b][s] != 0
    case Some(u) => if kind.Bool? then attention[b][s] != 0 || u[b][s] != 0 else attention[b][s] + u[b][s] != 0
  }

  /** For 0-1 masks it is selected by either. */
  lemma SelectsEither(kind: MaskType, attention: seq<seq<int>>, unused: Option<seq<seq<int>>>, b: nat, s: nat)
    requires b < |attention| && s < |attention[b]| && IsMask(attention)
    requires unused.Some? ==> b < |unused.value| && s < |unused.value[b]| && IsMask(unused.value)
    ensures Selects(kind, attention, unused, b, s)
            <==> attention[b][s] != 0 || (unused.Some? && unused.value[b][s] != 0)
  {
    assert ZeroOne(attention[b]) && (unused.Some? ==> ZeroOne(unused.value[b]));
  }

  function Wanted(kind: MaskType, attention: seq<seq<int>>, unused: Option<seq<seq<int>>>,
                  batch: nat, seqlen: nat, b: nat): (w: seq<bool>)
    requires Shaped(attention, batch, seqlen) && (unused.Some? ==> Shaped(unused.value, batch, seqlen)) && b < batch
    ensures |w| == seqlen && forall s | 0 <= s < seqlen :: w[s] <==> Selects(kind, attention, unused, b, s)
  {
    seq(seqlen, s requires 0 <= s < seqlen => Selects(kind, attention, unused, b, s))
  }

  lemma AllMasksSelect(kind: MaskType, attention: seq<seq<int>>, unused: Option<seq<seq<int>>>,
                       batch: nat, seqlen: nat, b: nat)
    requires Shaped(attention, batch, seqlen) && (unused.Some? ==> Shaped(unused.value, batch, seqlen)) && b < batch
    ensures Bits(AllMasks(kind, attention, unused, batch, seqlen)[b])
         == Wanted(kind, attention, unused, batch, seqlen, b)
  {
  }

  /** The returned indices are exactly the selected tokens' places in the flattened batch. */
  lemma IndicesSelect<T>(hidden: seq<seq<T>>, kind: MaskType, attention: seq<seq<int>>,
                         unused: Option<seq<seq<int>>>, batch: nat, seqlen: nat, b: nat, s: nat)
    requires Shaped(hidden, batch, seqlen) && Shaped(attention, batch, seqlen) && b < batch && s < seqlen
    requires unused.Some? ==> Shaped(unused.value, batch, seqlen)
    ensures var r := UnpadInput(hidden, kind, attention, unused, batch, seqlen);
            && r.Success? && |r.value.hidden| == |r.value.indices|
            && (b * seqlen + s in r.value.indices <==> Selects(kind, attention, unused, b, s))
            && (forall k | 0 <= k < |r.value.indices| :: r.value.indices[k] < batch * seqlen)
            && (forall k, l | 0 <= k < l < |r.value.indices| :: r.value.indices[k] < r.value.indices[l])
  {
    var all := AllMasks(kind, attention, unused, batch, seqlen);
    hide AllMasks, Flat, RowSums, CuSeqlens, MaxOf, Selects;
    AllMasksSelect(kind, attention, unused, batch, seqlen, b);
    TokensInRange(hidden, all, batch, seqlen);
    FlatLength(all, batch, seqlen);
    FlatAt(all, batch, seqlen, b, s);
    assert Bits(all[b])[s] == Wanted(kind, attention, unused, batch, seqlen, b)[s];
  }

  /** Each segment of the packed tensor is exactly one batch's selected tokens, in order, when
      the masks add up to a 0-1 mask. */
  lemma SegmentIsBatch<T>(hidden: seq<seq<T>>, kind: MaskType, attention: seq<seq<int>>,
                          unused: Option<seq<seq<int>>>, batch: nat, seqlen: nat, b: nat)
    requires Shaped(hidden, batch, seqlen) && Shaped(attention, batch, seqlen) && b < batch
    requires unused.Some? ==> Shaped(unused.value, batch, seqlen)
    requires IsMask(AllMasks(kind, attention, unused, batch, seqlen))
    ensures var r := UnpadInput(hidden, kind, attention, unused, batch, seqlen);
            && r.Success? && 0 <= r.value.cuSeqlens[b] <= r.value.cuSeqlens[b + 1] <= |r.value.hidden|
            && r.value.hidden[r.value.cuSeqlens[b]..r.value.cuSeqlens[b + 1]]
               == Gather(hidden[b], Nonzero(Wanted(kind, attention, unused, batch, seqlen, b)))
  {
    var all := AllMasks(kind, attention, unused, batch, seqlen);
    hide Nonzero, CuSeqlens, RowSums, IsMask, AllMasks, Flat, Gather, MaxOf, Wanted;
    AllMasksSelect(kind, attention, unused, batch, seqlen, b);
    TokensInRange(hidden, all, batch, seqlen);
    PackedSegment(hidden, all, batch, seqlen, b);
  }

  lemma SegmentSum(lens: seq<int>, b: nat)
    requires b < |lens|
    ensures CuSeqlens(lens)[b + 1] == CuSeqlens(lens)[b] + lens[b]
  {
    assert lens[..b + 1][..b] == lens[..b];
  }

  lemma RowLength(kind: MaskType, attention: seq<seq<int>>, unused: Option<seq<seq<int>>>,
                  batch: nat, seqlen: nat, b: nat)
    requires Shaped(attention, batch, seqlen) && (unused.Some? ==> Shaped(unused.value, batch, seqlen)) && b < batch
    requires IsMask(AllMasks(kind, attention, unused, batch, seqlen)) && IsMask(attention)
    ensures var lens := RowSums(AllMasks(kind, attention, unused, batch, seqlen));
            && CuSeqlens(lens)[b + 1] - CuSeqlens(lens)[b] == lens[b]
            && lens[b] == Ones(Wanted(kind, attention, unused, batch, seqlen, b))
            && SumOf(attention[b]) == Ones(Bits(attention[b]))
  {
    var all := AllMasks(kind, attention, unused, batch, seqlen);
    hide AllMasks, Wanted, Ones, CuSeqlens, SumOf;
    AllMasksSelect(kind, attention, unused, batch, seqlen, b);
    SegmentSum(RowSums(all), b);
    SumCounts(all[b]);
    SumCounts(attention[b]);
  }

  /** The returned lengths: cu_seqlens steps by each batch's selected tokens, max_seqlen is the
      longest of these steps, and seqused counts the attention mask.  An empty batch has no
      maximum. */
  lemma LengthsCountTokens<T>(hidden: seq<seq<T>>, kind: MaskType, attention: seq<seq<int>>,
                              unused: Option<seq<seq<int>>>, batch: nat, seqlen: nat)
    requires Shaped(hidden, batch, seqlen) && Shaped(attention, batch, seqlen)
    requires unused.Some? ==> Shaped(unused.value, batch, seqlen)
    requires IsMask(AllMasks(kind, attention, unused, batch, seqlen)) && IsMask(attention)
    ensures var r := UnpadInput(hidden, kind, attention, unused, batch, seqlen);
            && (r.Success? <==> batch > 0)
            && (r.Success? ==>
                && |r.value.cuSeqlens| == batch + 1 && |r.value.seqused| == batch && r.value.cuSeqlens[0] == 0
                && (forall b | 0 <= b < batch ::
                      && r.value.cuSeqlens[b + 1] - r.value.cuSeqlens[b]
                         == Ones(Wanted(kind, attention, unused, batch, seqlen, b)) <= r.value.maxSeqlen
                      && r.value.seqused[b] == Ones(Bits(attention[b])))
                && (exists b :: 0 <= b < batch
                      && r.value.maxSeqlen == Ones(Wanted(kind, attention, unused, batch, seqlen, b))))
  {
    var all := AllMasks(kind, attention, unused, batch, seqlen);
    hide Nonzero, AllMasks, Flat, Gather, Wanted, Ones, CuSeqlens, RowSums, MaxOf, IsMask, SumOf, Bits;
    TokensInRange(hidden, all, batch, seqlen);
    forall b | 0 <= b < batch
      ensures RowSums(all)[b] == Ones(Wanted(kind, attention, unused, batch, seqlen, b))
      ensures CuSeqlens(RowSums(all))[b + 1] - CuSeqlens(RowSums(all))[b] == RowSums(all)[b]
      ensures RowSums(attention)[b] == Ones(Bits(attention[b]))
    {
      RowLength(kind, attention, unused, batch, seqlen, b);
    }
  }

  lemma {:induction false} SumsAgreeIff(v: seq<int>, w: seq<int>)
    requires |v| == |w| && forall s | 0 <= s < |v| :: v[s] <= w[s]
    ensures SumOf(v) <= SumOf(w) && (SumOf(v) == SumOf(w) <==> forall s | 0 <= s < |v| :: v[s] == w[s])
  {
    if v != [] {
      var n := |v| - 1;
      SumsAgreeIff(v[..n], w[..n]);
      assert forall s | 0 <= s < n :: v[..n][s] == v[s] && w[..n][s] == w[s];
    }
  }

  lemma AllMasksAt(kind: MaskType, attention: seq<seq<int>>, unused: seq<seq<int>>, batch: nat, seqlen: nat,
                   b: nat, s: nat)
    requires Shaped(attention, batch, seqlen) && Shaped(unused, batch, seqlen) && b < batch && s < seqlen
    requires IsMask(attention) && IsMask(unused)
    ensures var x := AllMasks(kind, attention, Some(unused), batch, seqlen)[b][s];
            && x == Sum2(kind, attention[b][s], unused[b][s]) && 0 <= x <= 2
  {
    assert ZeroOne(attention[b]) && ZeroOne(unused[b]);
  }

  /** The returned seqused counts the attention mask alone, its description both masks: row b
      has as many used tokens as its segment has tokens exactly when the unused mask adds none
      to it. */
  lemma SequsedIsSegmentIff<T>(hidden: seq<seq<T>>, kind: MaskType, attention: seq<seq<int>>, unused: seq<seq<int>>,
                               batch: nat, seqlen: nat, b: nat)
    requires Shaped(hidden, batch, seqlen) && Shaped(attention, batch, seqlen) && Shaped(unused, batch, seqlen)
    requires IsMask(attention) && IsMask(unused) && b < batch
    ensures var r := UnpadInput(hidden, kind, attention, Some(unused), batch, seqlen);
            && r.Success? && |r.value.seqused| == batch && |r.value.cuSeqlens| == batch + 1
            && r.value.seqused[b] <= r.value.cuSeqlens[b + 1] - r.value.cuSeqlens[b]
            && (r.value.seqused[b] == r.value.cuSeqlens[b + 1] - r.value.cuSeqlens[b]
                <==> forall s | 0 <= s < seqlen :: unused[b][s] == 0 || (kind.Bool? && attention[b][s] != 0))
  {
    var all := AllMasks(kind, attention, Some(unused), batch, seqlen);
    hide AllMasks, Flat, Nonzero, Gather, MaxOf;
    TokensInRange(hidden, all, batch, seqlen);
    SegmentSum(RowSums(all), b);
    forall s | 0 <= s < seqlen
      ensures all[b][s] == Sum2(kind, attention[b][s], unused[b][s]) && ZeroOne(attention[b]) && ZeroOne(unused[b])
    {
      AllMasksAt(kind, attention, unused, batch, seqlen, b, s);
    }
    SumsAgreeIff(attention[b], all[b]);
  }

  lemma MasksDisjointIff(kind: MaskType, attention: seq<seq<int>>, unused: seq<seq<int>>, batch: nat, seqlen: nat)
    requires Shaped(attention, batch, seqlen) && Shaped(unused, batch, seqlen)
    requires IsMask(attention) && IsMask(unused)
    ensures (forall b | 0 <= b < batch :: ZeroOne(AllMasks(kind, attention, Some(unused), batch, seqlen)[b]))
            <==> kind.Bool? || forall b, s | 0 <= b < batch && 0 <= s < seqlen ::
                                 attention[b][s] == 0 || unused[b][s] == 0
  {
    var all := AllMasks(kind, attention, Some(unused), batch, seqlen);
    hide AllMasks;
    forall b, s | 0 <= b < batch && 0 <= s < seqlen
      ensures all[b][s] == Sum2(kind, attention[b][s], unused[b][s])
      ensures ZeroOne(attention[b]) && ZeroOne(unused[b])
    {
      AllMasksAt(kind, attention, unused, batch, seqlen, b, s);
    }
    if kind.Int? {
      if b, s :| 0 <= b < batch && 0 <= s < seqlen && attention[b][s] != 0 && unused[b][s] != 0 {
        assert all[b][s] == 2;
      }
    }
  }

  /** The packed length is the last entry of cu_seqlens exactly when integer masks do not
      overlap; boolean masks always agree. */
  lemma LengthsAgreeIff(kind: MaskType, attention: seq<seq<int>>, unused: seq<seq<int>>, batch: nat, seqlen: nat)
    requires Shaped(attention, batch, seqlen) && Shaped(unused, batch, seqlen)
    requires IsMask(attention) && IsMask(unused)
    ensures var all := AllMasks(kind, attention, Some(unused), batch, seqlen);
            CuSeqlens(RowSums(all))[batch] == |Nonzero(Bits(Flat(all)))|
            <==> kind.Bool? || forall b, s | 0 <= b < batch && 0 <= s < seqlen ::
                                 attention[b][s] == 0 || unused[b][s] == 0
  {
    var all := AllMasks(kind, attention, Some(unused), batch, seqlen);
    hide Nonzero, AllMasks;
    assert RowSums(all)[..batch] == RowSums(all);
    SumOfFlat(all);
    forall i | 0 <= i < |Flat(all)| ensures 0 <= Flat(all)[i] <= 2 {
      var b, s := FlatElements(all, i);
      AllMasksAt(kind, attention, unused, batch, seqlen, b, s);
    }
    SumCounts(Flat(all));
    FlatIsZeroOne(all);
    MasksDisjointIff(kind, attention, unused, batch, seqlen);
  }

  // ---------------------------------------------------------------- pad_input

  lemma OneRowLess(batch: nat, seqlen: nat)
    requires batch > 0
    ensures batch * seqlen == (batch - 1) * seqlen + seqlen && (batch - 1) * seqlen >= 0
  {
  }

  lemma FlatSnoc<T>(m: seq<seq<T>>, row: seq<T>)
    ensures Flat(m + [row]) == Flat(m) + row
  {
    assert (m + [row])[..|m|] == m;
  }

  function Reshape<T>(flat: seq<T>, batch: nat, seqlen: nat): (m: seq<seq<T>>)
    requires |flat| == batch * seqlen
    ensures Shaped(m, batch, seqlen) && Flat(m) == flat
  {
    if batch == 0 then []
    else
      OneRowLess(batch, seqlen);
      var n := |flat| - seqlen;
      var front := Reshape(flat[..n], batch - 1, seqlen);
      FlatSnoc(front, flat[n..]);
      front + [flat[n..]]
  }

  method PadInput<T>(hidden: seq<T>, indices: seq<nat>, batch: nat, seqlen: nat, zero: T) returns (m: seq<seq<T>>)
    requires |hidden| == |indices| && InRange(indices, batch * seqlen)
    ensures Shaped(m, batch, seqlen) && IsScatter(Flat(m), indices, hidden, zero)
  {
    var output := IndexPut(hidden, indices, batch * seqlen, zero);
    m := Reshape(output[..], batch, seqlen);
  }

  /** Padding what was unpadded restores the selected tokens and clears the others. */
  lemma PadOfUnpad<T>(hidden: seq<seq<T>>, kind: MaskType, attention: seq<seq<int>>, unused: Option<seq<seq<int>>>,
                      batch: nat, seqlen: nat, zero: T, m: seq<seq<T>>, b: nat, s: nat)
    requires Shaped(hidden, batch, seqlen) && Shaped(attention, batch, seqlen) && b < batch && s < seqlen
    requires unused.Some? ==> Shaped(unused.value, batch, seqlen)
    requires var r := UnpadInput(hidden, kind, attention, unused, batch, seqlen);
             r.Success? && Shaped(m, batch, seqlen) && |r.value.hidden| == |r.value.indices|
             && IsScatter(Flat(m), r.value.indices, r.value.hidden, zero)
    ensures m[b][s] == if Selects(kind, attention, unused, b, s) then hidden[b][s] else zero
  {
    var all := AllMasks(kind, attention, unused, batch, seqlen);
    var f := b * seqlen + s;
    hide AllMasks, Flat, Nonzero, RowSums, CuSeqlens, MaxOf, IsScatter, Gather, Selects;
    AllMasksSelect(kind, attention, unused, batch, seqlen, b);
    assert Bits(all[b])[s] == Wanted(kind, attention, unused, batch, seqlen, b)[s];
    TokensInRange(hidden, all, batch, seqlen);
    FlatAt(hidden, batch, seqlen, b, s);
    FlatAt(all, batch, seqlen, b, s);
    FlatAt(m, batch, seqlen, b, s);
    TokensInRange(m, all, batch, seqlen);
    ScatterOfGather(Flat(m), Flat(hidden), Nonzero(Bits(Flat(all))), zero);
  }

  /** Unpadding what was padded gives the packed tokens back. */
  lemma UnpadOfPad<T>(packed: seq<T>, kind: MaskType, attention: seq<seq<int>>, unused: Option<seq<seq<int>>>,
                      batch: nat, seqlen: nat, zero: T, m: seq<seq<T>>)
    requires Shaped(attention, batch, seqlen) && Shaped(m, batch, seqlen)
    requires unused.Some? ==> Shaped(unused.value, batch, seqlen)
    requires var indices := Nonzero(Bits(Flat(AllMasks(kind, attention, unused, batch, seqlen))));
             |packed| == |indices| && IsScatter(Flat(m), indices, packed, zero)
    ensures batch > 0 ==>
              var r := UnpadInput(m, kind, attention, unused, batch, seqlen); r.Success? && r.value.hidden == packed
  {
    var all := AllMasks(kind, attention, unused, batch, seqlen);
    hide AllMasks, Flat, Nonzero, RowSums, CuSeqlens, MaxOf, IsScatter, Gather;
    TokensInRange(m, all, batch, seqlen);
    GatherOfScatter(Flat(m), Nonzero(Bits(Flat(all))), packed, zero);
  }

  lemma FlatOfOne<T>(x: T)
    ensures Flat([[x]]) == [x]
  {
    FlatSnoc([], [x]);
    assert [] + [[x]] == [[x]];
  }

  lemma OneEntry(x: int)
    ensures RowSums([[x]]) == [x] && CuSeqlens([x]) == [0, x] && MaxOf([x]) == x
  {
    assert SumOf([]) == 0 && [x][..0] == [];
    assert SumOf([x]) == x;
    assert RowSums([[x]]) == [SumOf([x])];
  }

  /** One token that both integer masks select: one packed row, but cu_seqlens counts two, and
      seqused one of them. */
  lemma OverlappingMasksExample<T>(x: T)
    ensures UnpadInput([[x]], Int, [[1]], Some([[1]]), 1, 1) == Success(Unpadded([x], [0], [0, 2], 2, [1]))
  {
    hide Flat, AllMasks, Bits, RowSums, CuSeqlens, Gather, MaxOf;
    var mask: seq<seq<int>> := [[1]];
    var all := AllMasks(Int, mask, Some(mask), 1, 1);
    AllMasksAt(Int, mask, mask, 1, 1, 0, 0);
    assert all[0] == [2];
    assert all == [[2]];
    FlatOfOne(2);
    FlatOfOne(x);
    OneEntry(2);
    OneEntry(1);
    assert Bits([2]) == [true];
    assert Nonzero([true]) == [0];
    assert Gather([x], [0]) == [x];
  }
}
