/** Packing rows that hold several short sequences one after the other:
    `unpad_input_for_concatenated_sequences` in `flash_attn/bert_padding.py`. */
module ConcatenatedSequences {
  import opened TruncatedDivision
  import opened StableSort
  import opened IndexFirstAxis
  import opened BertPadding

  datatype Concatenated<T> = Concatenated(hidden: seq<T>, indices: seq<nat>, cuSeqlens: seq<int>, maxSeqlen: int)

  /** attention_mask_2d: the first length[b] positions of each row. */
  function PrefixMask(length: seq<int>, seqlen: nat): (m: seq<seq<int>>)
    ensures Shaped(m, |length|, seqlen)
    ensures forall b, s | 0 <= b < |length| && 0 <= s < seqlen :: m[b][s] == if s < length[b] then 1 else 0
  {
    seq(|length|, b requires 0 <= b < |length| =>
      seq(seqlen, s requires 0 <= s < seqlen => if s < length[b] then 1 else 0))
  }

  /** The nonzero entries of a vector, in order. */
  function Kept(v: seq<int>): (r: seq<int>)
    ensures |r| == Ones(Bits(v))
  {
    Gather(v, Nonzero(Bits(v)))
  }

  /** The lengths of the concatenated sequences, in order. */
  function RealLengths(lens: seq<seq<int>>): seq<int> {
    Kept(Flat(lens))
  }

  function ConcatenatedIndices(lens: seq<seq<int>>, seqlen: nat): seq<nat> {
    Nonzero(Bits(Flat(PrefixMask(RowSums(lens), seqlen))))
  }

  function UnpadConcatenated<T>(hidden: seq<seq<T>>, lens: seq<seq<int>>, batch: nat,
                                seqlen: nat): Result<Concatenated<T>>
    requires Shaped(hidden, batch, seqlen) && Shaped(lens, batch, seqlen)
  {
    var lengths := RealLengths(lens);
    var indices := ConcatenatedIndices(lens, seqlen);
    if lengths == [] then EmptyMaximum
    else
      TokensInRange(hidden, PrefixMask(RowSums(lens), seqlen), batch, seqlen);
      Success(Concatenated(Gather(Flat(hidden), indices), indices, CuSeqlens(lengths), MaxOf(lengths)))
  }

  ghost predicate NonNegative(m: seq<seq<int>>) {
    forall b, s | 0 <= b < |m| && 0 <= s < |m[b]| :: m[b][s] >= 0
  }

  // ---------------------------------------------------------------- the lengths

  lemma {:induction false} NonzeroPrefix(v: seq<bool>, f: nat)
    requires f <= |v|
    ensures Ones(v[..f]) <= |Nonzero(v)| && Nonzero(v)[..Ones(v[..f])] == Nonzero(v[..f])
  {
    hide Nonzero;
    if f == |v| {
      assert v[..f] == v;
    } else {
      var n := |v| - 1;
      NonzeroSnoc(v, n);
      NonzeroPrefix(v[..n], f);
      assert v[..n][..f] == v[..f];
    }
  }

  lemma KeptSnoc(v: seq<int>)
    requires v != []
    ensures Kept(v) == Kept(v[..|v| - 1]) + if v[|v| - 1] != 0 then [v[|v| - 1]] else []
  {
    hide Nonzero;
    var n := |v| - 1;
    NonzeroSnoc(Bits(v), n);
    assert Bits(v)[..n] == Bits(v[..n]);
  }

  lemma SumSnoc(v: seq<int>, x: int)
    ensures SumOf(v + [x]) == SumOf(v) + x
  {
    assert (v + [x])[..|v|] == v;
  }

  /** Zeros contribute nothing to a sum. */
  lemma {:induction false} SumOfNonzero(v: seq<int>)
    ensures SumOf(Kept(v)) == SumOf(v)
  {
    hide Kept, SumOf, Ones, Bits;
    if v == [] {
      EmptyMask(v);
      assert Kept(v) == v;
    } else {
      var front, x := v[..|v| - 1], v[|v| - 1];
      SumOfNonzero(front);
      KeptSnoc(v);
      assert v == front + [x];
      SumSnoc(front, x);
      if x == 0 { assert Kept(v) == Kept(front); } else { SumSnoc(Kept(front), x); }
    }
  }

  /** Where a sequence starts: the sum of all entries before its length. */
  lemma CuOfLength(v: seq<int>, f: nat)
    requires f < |v| && v[f] != 0
    ensures var i, lengths := Ones(Bits(v)[..f]), Kept(v);
            && i < |lengths| && lengths[i] == v[f]
            && CuSeqlens(lengths)[i] == SumOf(v[..f]) && CuSeqlens(lengths)[i + 1] == SumOf(v[..f]) + v[f]
  {
    hide Nonzero;
    var i, lengths := Ones(Bits(v)[..f]), Kept(v);
    RankOf(Bits(v), f);
    NonzeroPrefix(Bits(v), f);
    assert Bits(v)[..f] == Bits(v[..f]);
    SumOfNonzero(v[..f]);
    assert lengths[..i] == Kept(v[..f]);
    assert lengths[..i + 1][..i] == lengths[..i];
  }

  // ---------------------------------------------------------------- the mask

  function Clip(x: int, bound: nat): (r: nat) {
    if x < 0 then 0 else if x > bound then bound else x
  }

  lemma {:induction false} PrefixMaskSum(row: seq<int>, length: int, u: nat)
    requires u <= |row| && forall s | 0 <= s < |row| :: row[s] == if s < length then 1 else 0
    ensures SumOf(row[..u]) == Clip(length, u)
  {
    if u > 0 {
      PrefixMaskSum(row, length, u - 1);
      assert row[..u][..u - 1] == row[..u - 1];
    }
  }

  lemma PrefixMaskIsMask(length: seq<int>, seqlen: nat)
    ensures IsMask(PrefixMask(length, seqlen))
    ensures forall b | 0 <= b < |length| :: RowSums(PrefixMask(length, seqlen))[b] == Clip(length[b], seqlen)
  {
    var m := PrefixMask(length, seqlen);
    forall b | 0 <= b < |length| ensures ZeroOne(m[b]) && SumOf(m[b]) == Clip(length[b], seqlen) {
      PrefixMaskSum(m[b], length[b], seqlen);
      assert m[b][..seqlen] == m[b];
    }
  }

  /** The indices of row b start at cu_seqlens of the clipped row lengths, and are consecutive. */
  lemma RunOfRow(lens: seq<seq<int>>, batch: nat, seqlen: nat, b: nat, u: nat)
    requires Shaped(lens, batch, seqlen) && b < batch && u < seqlen && u < SumOf(lens[b])
    ensures var at := CuSeqlens(RowSums(PrefixMask(RowSums(lens), seqlen)))[b] + u;
            && 0 <= at < |ConcatenatedIndices(lens, seqlen)|
            && ConcatenatedIndices(lens, seqlen)[at] == b * seqlen + u
  {
    var m := PrefixMask(RowSums(lens), seqlen);
    hide Nonzero, Flat, CuSeqlens, Bits;
    PrefixMaskIsMask(RowSums(lens), seqlen);
    CuIsCount(m, b);
    OnesBefore(m, batch, seqlen, b, u);
    PrefixMaskSum(m[b], SumOf(lens[b]), u);
    SumCounts(m[b][..u]);
    FlatAt(m, batch, seqlen, b, u);
    RankOf(Bits(Flat(m)), b * seqlen + u);
  }

  // ---------------------------------------------------------------- the main results

  /** Every row's lengths are non-negative and fit in the row. */
  ghost predicate RowsFit(lens: seq<seq<int>>, seqlen: nat) {
    NonNegative(lens) && forall b | 0 <= b < |lens| :: SumOf(lens[b]) <= seqlen
  }

  lemma {:induction false} SumNonNegative(v: seq<int>)
    requires forall i | 0 <= i < |v| :: v[i] >= 0
    ensures SumOf(v) >= 0
  {
    if v != [] { SumNonNegative(v[..|v| - 1]); }
  }

  lemma RowSumsNonNegative(lens: seq<seq<int>>)
    requires NonNegative(lens)
    ensures forall b | 0 <= b < |lens| :: SumOf(lens[b]) >= 0
  {
    forall b | 0 <= b < |lens| ensures SumOf(lens[b]) >= 0 {
      SumNonNegative(lens[b]);
    }
  }

  /** cu_seqlens counts sequence by sequence what the mask counts row by row. */
  lemma RowsBefore(lens: seq<seq<int>>, batch: nat, seqlen: nat, b: nat)
    requires Shaped(lens, batch, seqlen) && RowsFit(lens, seqlen) && b <= batch
    ensures CuSeqlens(RowSums(PrefixMask(RowSums(lens), seqlen)))[b] == SumOf(Flat(lens[..b]))
  {
    var m := PrefixMask(RowSums(lens), seqlen);
    hide PrefixMask;
    PrefixMaskIsMask(RowSums(lens), seqlen);
    RowSumsNonNegative(lens);
    assert RowSums(m) == RowSums(lens);
    assert RowSums(m)[..b] == RowSums(lens[..b]);
    SumOfFlat(lens[..b]);
  }

  lemma PrefixBelowTotal(v: seq<int>, s: nat)
    requires s < |v| && forall i | 0 <= i < |v| :: v[i] >= 0
    ensures 0 <= SumOf(v[..s]) && SumOf(v[..s]) + v[s] <= SumOf(v)
  {
    SumNonNegative(v[..s]);
    SumNonNegative(v[s + 1..]);
    SumAppend(v[..s + 1], v[s + 1..]);
    assert v[..s + 1] + v[s + 1..] == v;
    assert v[..s + 1] == v[..s] + [v[s]];
    SumSnoc(v[..s], v[s]);
  }

  /** The number of the sequence whose length stands at column s of row b. */
  function SequenceAt(lens: seq<seq<int>>, seqlen: nat, b: nat, s: nat): nat
    requires 0 <= b * seqlen + s <= |Bits(Flat(lens))|
  {
    Ones(Bits(Flat(lens))[..b * seqlen + s])
  }

  /** A sequence whose length stands at column s of row b is one contiguous run inside that row:
      it starts where the lengths before it in the row end. */
  lemma SequenceIsRun(lens: seq<seq<int>>, batch: nat, seqlen: nat, b: nat, s: nat, t: nat)
    requires Shaped(lens, batch, seqlen) && RowsFit(lens, seqlen)
    requires b < batch && s < seqlen && t < lens[b][s]
    ensures 0 <= b * seqlen + s <= |Bits(Flat(lens))|
    ensures var i, lengths, start := SequenceAt(lens, seqlen, b, s), RealLengths(lens), SumOf(lens[b][..s]);
            && i < |lengths| && lengths[i] == lens[b][s]
            && CuSeqlens(lengths)[i + 1] == CuSeqlens(lengths)[i] + lens[b][s]
            && 0 <= start && start + lens[b][s] <= SumOf(lens[b]) <= seqlen
            && 0 <= CuSeqlens(lengths)[i] + t < |ConcatenatedIndices(lens, seqlen)|
            && ConcatenatedIndices(lens, seqlen)[CuSeqlens(lengths)[i] + t] == b * seqlen + start + t
  {
    hide Nonzero, Flat, Bits, PrefixMask, RowSums, Ones, Kept, CuSeqlens, SumOf;
    var start := SumOf(lens[b][..s]);
    FlatAt(lens, batch, seqlen, b, s);
    FlatPrefix(lens, batch, seqlen, b, s);
    CuOfLength(Flat(lens), b * seqlen + s);
    SumAppend(Flat(lens[..b]), lens[b][..s]);
    PrefixBelowTotal(lens[b], s);
    RunOfRow(lens, batch, seqlen, b, start + t);
    RowsBefore(lens, batch, seqlen, b);
  }

  lemma IndicesInRange<T>(hidden: seq<seq<T>>, lens: seq<seq<int>>, batch: nat, seqlen: nat)
    requires Shaped(hidden, batch, seqlen) && Shaped(lens, batch, seqlen)
    ensures InRange(ConcatenatedIndices(lens, seqlen), |Flat(hidden)|)
  {
    TokensInRange(hidden, PrefixMask(RowSums(lens), seqlen), batch, seqlen);
  }

  lemma PackedSequenceToken<T>(hidden: seq<seq<T>>, lens: seq<seq<int>>, batch: nat, seqlen: nat, b: nat, s: nat,
                               t: nat)
    requires Shaped(hidden, batch, seqlen) && Shaped(lens, batch, seqlen) && RowsFit(lens, seqlen)
    requires b < batch && s < seqlen && t < lens[b][s] && 0 <= b * seqlen + s <= |Bits(Flat(lens))|
    ensures var r := UnpadConcatenated(hidden, lens, batch, seqlen);
            var i, start := SequenceAt(lens, seqlen, b, s), SumOf(lens[b][..s]);
            && r.Success? && i + 1 < |r.value.cuSeqlens| && 0 <= start && start + t < seqlen
            && 0 <= r.value.cuSeqlens[i] + t < |r.value.hidden|
            && r.value.cuSeqlens[i + 1] == r.value.cuSeqlens[i] + lens[b][s]
            && r.value.hidden[r.value.cuSeqlens[i] + t] == hidden[b][start + t]
  {
    hide Nonzero, Flat, Bits, PrefixMask, RowSums, Ones, Kept, SumOf, RealLengths;
    hide ConcatenatedIndices, SequenceAt, MaxOf, RowsFit;
    SequenceIsRun(lens, batch, seqlen, b, s, t);
    IndicesInRange(hidden, lens, batch, seqlen);
    FlatAt(hidden, batch, seqlen, b, SumOf(lens[b][..s]) + t);
  }

  /** The packed tensor: segment i of cu_seqlens is the i-th sequence's stretch of its row. */
  lemma SegmentIsSequence<T>(hidden: seq<seq<T>>, lens: seq<seq<int>>, batch: nat, seqlen: nat, b: nat, s: nat)
    requires Shaped(hidden, batch, seqlen) && Shaped(lens, batch, seqlen) && RowsFit(lens, seqlen)
    requires b < batch && s < seqlen && lens[b][s] > 0
    ensures 0 <= b * seqlen + s <= |Bits(Flat(lens))|
    ensures var r := UnpadConcatenated(hidden, lens, batch, seqlen);
            var i, start := SequenceAt(lens, seqlen, b, s), SumOf(lens[b][..s]);
            && r.Success? && i + 1 < |r.value.cuSeqlens| && 0 <= start && start + lens[b][s] <= seqlen
            && 0 <= r.value.cuSeqlens[i] <= r.value.cuSeqlens[i + 1] <= |r.value.hidden|
            && r.value.hidden[r.value.cuSeqlens[i]..r.value.cuSeqlens[i + 1]] == hidden[b][start..start + lens[b][s]]
  {
    hide Nonzero, Flat, Bits, SumOf, SequenceAt, RowsFit, UnpadConcatenated;
    FlatAt(lens, batch, seqlen, b, s);
    PackedSequenceToken(hidden, lens, batch, seqlen, b, s, 0);
    PackedSequenceToken(hidden, lens, batch, seqlen, b, s, lens[b][s] - 1);
    var r := UnpadConcatenated(hidden, lens, batch, seqlen).value;
    var i, start := SequenceAt(lens, seqlen, b, s), SumOf(lens[b][..s]);
    var lo := r.cuSeqlens[i];
    forall x | lo <= x < lo + lens[b][s]
      ensures 0 <= x < |r.hidden| && r.hidden[x] == hidden[b][start..start + lens[b][s]][x - lo]
    {
      PackedSequenceToken(hidden, lens, batch, seqlen, b, s, x - lo);
    }
    SliceIs(r.hidden, lo, lo + lens[b][s], hidden[b][start..start + lens[b][s]]);
  }

  /** Position u of a row lies at offset t of the sequence at column s. */
  predicate InRun(row: seq<int>, u: int, s: nat, t: nat) {
    s < |row| && t < row[s] && SumOf(row[..s]) + t == u
  }

  lemma {:induction false} RunOf(row: seq<int>, u: nat) returns (s: nat, t: nat)
    requires (forall i | 0 <= i < |row| :: row[i] >= 0) && u < SumOf(row)
    ensures InRun(row, u, s, t)
  {
    var n := |row| - 1;
    if u < SumOf(row[..n]) {
      s, t := RunOf(row[..n], u);
      assert row[..n][..s] == row[..s];
    } else {
      s, t := n, u - SumOf(row[..n]);
    }
  }

  /** A later run starts at or after the end of an earlier one. */
  lemma RunsAscend(row: seq<int>, s: nat, s': nat)
    requires s < s' < |row| && forall i | 0 <= i < |row| :: row[i] >= 0
    ensures SumOf(row[..s]) + row[s] <= SumOf(row[..s'])
  {
    PrefixBelowTotal(row[..s'], s);
    assert row[..s'][..s] == row[..s];
  }

  /** The runs of a row tile its first SumOf(row) positions: each lies in exactly one run, at
      one offset, and no run reaches further. */
  lemma RunsTileRow(row: seq<int>, u: nat)
    requires forall i | 0 <= i < |row| :: row[i] >= 0
    ensures (exists s: nat, t: nat :: InRun(row, u, s, t)) <==> u < SumOf(row)
    ensures forall s: nat, t: nat, s': nat, t': nat | InRun(row, u, s, t) && InRun(row, u, s', t') :: s == s' && t == t'
  {
    forall s: nat, t: nat | InRun(row, u, s, t) ensures u < SumOf(row) {
      PrefixBelowTotal(row, s);
    }
    if u < SumOf(row) { var s, t := RunOf(row, u); }
    forall s: nat, t: nat, s': nat, t': nat | InRun(row, u, s, t) && InRun(row, u, s', t') ensures s == s' && t == t' {
      if s < s' { RunsAscend(row, s, s'); } else if s' < s { RunsAscend(row, s', s); }
    }
  }

  lemma RowColumn(f: nat, batch: nat, seqlen: nat) returns (b: nat, s: nat)
    requires f < batch * seqlen
    ensures b < batch && s < seqlen && f == b * seqlen + s
  {
    assert seqlen > 0 by { assert batch * 0 == 0; }
    b, s := f / seqlen, f % seqlen;
    QuotientAtLeast(f, seqlen, batch);
  }

  /** Every sequence comes from one row and column. */
  lemma EverySequenceHasARow(lens: seq<seq<int>>, batch: nat, seqlen: nat, i: nat) returns (b: nat, s: nat)
    requires Shaped(lens, batch, seqlen) && i < |RealLengths(lens)|
    ensures b < batch && s < seqlen && lens[b][s] != 0
    ensures 0 <= b * seqlen + s <= |Bits(Flat(lens))| && SequenceAt(lens, seqlen, b, s) == i
  {
    hide Nonzero, Flat, Bits;
    var f := Nonzero(Bits(Flat(lens)))[i];
    RankAt(Bits(Flat(lens)), i);
    FlatLength(lens, batch, seqlen);
    b, s := RowColumn(f, batch, seqlen);
    FlatAt(lens, batch, seqlen, b, s);
  }

  // ---------------------------------------------------------------- indices, longest length, padding

  /** The returned indices are exactly the places of each row's first SumOf(lens[b]) positions. */
  lemma IndicesArePrefixes<T>(hidden: seq<seq<T>>, lens: seq<seq<int>>, batch: nat, seqlen: nat, b: nat, u: nat)
    requires Shaped(hidden, batch, seqlen) && Shaped(lens, batch, seqlen) && b < batch && u < seqlen
    ensures var r := UnpadConcatenated(hidden, lens, batch, seqlen);
            r.Success? ==>
              && |r.value.hidden| == |r.value.indices|
              && (b * seqlen + u in r.value.indices <==> u < SumOf(lens[b]))
              && (forall k | 0 <= k < |r.value.indices| :: r.value.indices[k] < batch * seqlen)
              && (forall k, l | 0 <= k < l < |r.value.indices| :: r.value.indices[k] < r.value.indices[l])
  {
    var m := PrefixMask(RowSums(lens), seqlen);
    hide Flat, PrefixMask, RealLengths, CuSeqlens, MaxOf, SumOf;
    TokensInRange(hidden, m, batch, seqlen);
    FlatLength(m, batch, seqlen);
    FlatAt(m, batch, seqlen, b, u);
  }

  lemma LengthIsReal(lens: seq<seq<int>>, batch: nat, seqlen: nat, b: nat, s: nat)
    requires Shaped(lens, batch, seqlen) && b < batch && s < seqlen && lens[b][s] != 0
    ensures lens[b][s] in RealLengths(lens)
  {
    hide Flat, Nonzero, Bits;
    FlatAt(lens, batch, seqlen, b, s);
    CuOfLength(Flat(lens), b * seqlen + s);
  }

  lemma RealLengthIsEntry(lens: seq<seq<int>>, batch: nat, seqlen: nat, i: nat) returns (b: nat, s: nat)
    requires Shaped(lens, batch, seqlen) && i < |RealLengths(lens)|
    ensures b < batch && s < seqlen && lens[b][s] != 0 && lens[b][s] == RealLengths(lens)[i]
  {
    hide Flat, Nonzero, Bits, Kept;
    b, s := EverySequenceHasARow(lens, batch, seqlen, i);
    FlatAt(lens, batch, seqlen, b, s);
    CuOfLength(Flat(lens), b * seqlen + s);
  }

  /** max_seqlen is the length of a sequence and bounds them all; without any sequence there is
      no maximum. */
  lemma MaxSeqlenIsLongest<T>(hidden: seq<seq<T>>, lens: seq<seq<int>>, batch: nat, seqlen: nat)
    requires Shaped(hidden, batch, seqlen) && Shaped(lens, batch, seqlen)
    ensures var r := UnpadConcatenated(hidden, lens, batch, seqlen);
            && (r.Success? <==> exists b, s :: 0 <= b < batch && 0 <= s < seqlen && lens[b][s] != 0)
            && (r.Success? ==>
                  && (exists b, s :: 0 <= b < batch && 0 <= s < seqlen && lens[b][s] != 0
                                     && lens[b][s] == r.value.maxSeqlen)
                  && (forall b, s | 0 <= b < batch && 0 <= s < seqlen && lens[b][s] != 0 ::
                        lens[b][s] <= r.value.maxSeqlen))
  {
    var lengths := RealLengths(lens);
    hide Flat, PrefixMask, RealLengths, CuSeqlens, MaxOf, SumOf, ConcatenatedIndices;
    forall b, s | 0 <= b < batch && 0 <= s < seqlen && lens[b][s] != 0 ensures lens[b][s] in lengths {
      LengthIsReal(lens, batch, seqlen, b, s);
    }
    if lengths != [] {
      var i :| 0 <= i < |lengths| && lengths[i] == MaxOf(lengths);
      var b, s := RealLengthIsEntry(lens, batch, seqlen, i);
    }
  }

  /** Padding what was unpadded restores each row's sequences and clears the rest. */
  lemma PadOfConcatenated<T>(hidden: seq<seq<T>>, lens: seq<seq<int>>, batch: nat, seqlen: nat, zero: T,
                             m: seq<seq<T>>, b: nat, u: nat)
    requires Shaped(hidden, batch, seqlen) && Shaped(lens, batch, seqlen) && b < batch && u < seqlen
    requires var r := UnpadConcatenated(hidden, lens, batch, seqlen);
             r.Success? && Shaped(m, batch, seqlen) && |r.value.hidden| == |r.value.indices|
             && IsScatter(Flat(m), r.value.indices, r.value.hidden, zero)
    ensures m[b][u] == if u < SumOf(lens[b]) then hidden[b][u] else zero
  {
    hide Flat, PrefixMask, RealLengths, CuSeqlens, MaxOf, SumOf, ConcatenatedIndices, IsScatter, Gather;
    IndicesArePrefixes(hidden, lens, batch, seqlen, b, u);
    IndicesInRange(hidden, lens, batch, seqlen);
    FlatAt(hidden, batch, seqlen, b, u);
    FlatAt(m, batch, seqlen, b, u);
    FlatLength(hidden, batch, seqlen);
    FlatLength(m, batch, seqlen);
    ScatterOfGather(Flat(m), Flat(hidden), ConcatenatedIndices(lens, seqlen), zero);
  }

  // ---------------------------------------------------------------- the packed length

  lemma {:induction false} ClippedSum(v: seq<int>, w: seq<int>, bound: nat)
    requires |v| == |w| && forall b | 0 <= b < |v| :: v[b] >= 0 && w[b] == Clip(v[b], bound)
    ensures SumOf(w) <= SumOf(v) && (SumOf(w) == SumOf(v) <==> forall b | 0 <= b < |v| :: v[b] <= bound)
  {
    if v != [] {
      var n := |v| - 1;
      ClippedSum(v[..n], w[..n], bound);
      assert forall b | 0 <= b < n :: v[..n][b] == v[b];
    }
  }

  /** The last entry of cu_seqlens is the number of packed tokens exactly when every row's
      lengths fit in the row. */
  lemma PackedLengthIff(lens: seq<seq<int>>, batch: nat, seqlen: nat)
    requires Shaped(lens, batch, seqlen) && NonNegative(lens)
    ensures CuSeqlens(RealLengths(lens))[|RealLengths(lens)|] == |ConcatenatedIndices(lens, seqlen)|
            <==> RowsFit(lens, seqlen)
  {
    var m, lengths := PrefixMask(RowSums(lens), seqlen), RealLengths(lens);
    hide Nonzero, Flat, Bits, PrefixMask, Kept;
    assert lengths[..|lengths|] == lengths;
    SumOfNonzero(Flat(lens));
    SumOfFlat(lens);
    SumOfFlat(m);
    PrefixMaskIsMask(RowSums(lens), seqlen);
    FlatIsZeroOne(m);
    SumCounts(Flat(m));
    RowSumsNonNegative(lens);
    ClippedSum(RowSums(lens), RowSums(m), seqlen);
  }
}
