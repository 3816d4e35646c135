/** Sequence-parallel accumulation of dQ: one program per column block, atomic adds in any
    order.  The ATOMIC_ADD branch of `_bwd_kernel_one_col_block` and the parallel branch of
    `_bwd_kernel` in `flash_attn/flash_attn_triton.py`. */
module AtomicDq {
  import opened RealSums
  import opened LogReals
  import opened Attention
  import opened AttentionGradient
  import BK = BackwardKernel
  import FK = ForwardKernel
  import TruncatedDivision

  /** Where an atomic add goes: column block n, element (i, d) of dQ. */
  datatype Event = Event(n: int, i: int, d: int)

  datatype Add = Add(at: Event, amount: real)

  /** The entry of dot(ds, k) that the add at e contributes: block n's part of dS K. */
  ghost function Addend(pb: Problem, dO: seq<seq<real>>, bn: nat, e: Event): real {
    Sum(e.n * bn, e.n * bn + bn, GradQTerm(pb, dO, e.i, e.d))
  }

  /** The kernel's tile product is that addend. */
  lemma TileProductIsAddend(pb: Problem, dO: seq<seq<real>>, ds: seq<seq<real>>,
                            m0: nat, bm: nat, n: nat, bn: nat, r: int, d: int)
    requires BK.TileHolds(pb, ds, m0, bm, bn, n * bn, BK.DSEntry(pb, dO)) && 0 <= r < bm && m0 + r < pb.Sq()
    ensures BK.RowProduct(ds, pb.k, r, n * bn, bn, d) == Addend(pb, dO, bn, Event(n, m0 + r, d))
  {
    BK.RowProductIsPartialDQ(pb, dO, ds, m0, bm, n * bn, bn, r, d);
  }

  // ---------------------------------------------------------------- one program

  ghost predicate InRows(pb: Problem, dO: seq<seq<real>>, bn: nat, x: Add, n: int, lo: int, hi: int) {
    && x.at.n == n && lo <= x.at.i < hi && x.at.i < pb.Sq() && 0 <= x.at.d < pb.headdim
    && x.amount == Addend(pb, dO, bn, x.at)
  }

  /** The adds hold, once each and with the right amount, the elements of rows lo to hi that
      exist, and nothing else. */
  ghost predicate CoversRows(pb: Problem, dO: seq<seq<real>>, bn: nat, adds: seq<Add>, n: int, lo: int, hi: int) {
    forall x: Add :: multiset(adds)[x] == if InRows(pb, dO, bn, x, n, lo, hi) then 1 else 0
  }

  /** One row of a tile; head dimensions that do not exist are masked. */
  function RowAdds(pb: Problem, ds: seq<seq<real>>, m0: nat, r: nat, n: nat, bn: nat): seq<Add> {
    seq(pb.headdim, d requires 0 <= d < pb.headdim =>
      Add(Event(n, m0 + r, d), BK.RowProduct(ds, pb.k, r, n * bn, bn, d)))
  }

  lemma {:induction false} RowIsCovered(pb: Problem, dO: seq<seq<real>>, bn: nat, adds: seq<Add>, n: int, i: int)
    requires forall d | 0 <= d < |adds| :: adds[d] == Add(Event(n, i, d), Addend(pb, dO, bn, Event(n, i, d)))
    ensures forall x: Add :: multiset(adds)[x] ==
              if x.at.n == n && x.at.i == i && 0 <= x.at.d < |adds| && x.amount == Addend(pb, dO, bn, x.at)
              then 1 else 0
  {
    hide Addend;
    if adds != [] {
      var k := |adds| - 1;
      RowIsCovered(pb, dO, bn, adds[..k], n, i);
      assert adds == adds[..k] + [adds[k]];
    }
  }

  lemma NoRows(pb: Problem, dO: seq<seq<real>>, bn: nat, n: int, lo: int)
    ensures CoversRows(pb, dO, bn, [], n, lo, lo)
  {
  }

  lemma OneMoreRow(pb: Problem, dO: seq<seq<real>>, bn: nat, adds: seq<Add>, row: seq<Add>, n: int, lo: int, i: int)
    requires lo <= i < pb.Sq() && |row| == pb.headdim && CoversRows(pb, dO, bn, adds, n, lo, i)
    requires forall x: Add :: multiset(row)[x] ==
               if x.at.n == n && x.at.i == i && 0 <= x.at.d < |row| && x.amount == Addend(pb, dO, bn, x.at)
               then 1 else 0
    ensures CoversRows(pb, dO, bn, adds + row, n, lo, i + 1)
  {
    hide Addend;
    assert multiset(adds + row) == multiset(adds) + multiset(row);
  }

  lemma PaddedRow(pb: Problem, dO: seq<seq<real>>, bn: nat, adds: seq<Add>, n: int, lo: int, i: int)
    requires i >= pb.Sq() && CoversRows(pb, dO, bn, adds, n, lo, i)
    ensures CoversRows(pb, dO, bn, adds, n, lo, i + 1)
  {
  }

  /** tl.atomic_add of one tile: the rows and head dimensions that exist. */
  method TileAdds(pb: Problem, ghost dO: seq<seq<real>>, ds: seq<seq<real>>, m0: nat, bm: nat, n: nat, bn: nat)
    returns (adds: seq<Add>)
    requires BK.TileHolds(pb, ds, m0, bm, bn, n * bn, BK.DSEntry(pb, dO))
    ensures CoversRows(pb, dO, bn, adds, n, m0, m0 + bm)
  {
    hide Addend, BK.TileHolds, BK.RowProduct, CoversRows;
    adds := [];
    NoRows(pb, dO, bn, n, m0);
    for r := 0 to bm
      invariant CoversRows(pb, dO, bn, adds, n, m0, m0 + r)
    {
      if m0 + r < pb.Sq() {
        var row := RowAdds(pb, ds, m0, r, n, bn);
        forall d | 0 <= d < |row| ensures row[d] == Add(Event(n, m0 + r, d), Addend(pb, dO, bn, Event(n, m0 + r, d))) {
          TileProductIsAddend(pb, dO, ds, m0, bm, n, bn, r, d);
        }
        RowIsCovered(pb, dO, bn, row, n, m0 + r);
        OneMoreRow(pb, dO, bn, adds, row, n, m0, m0 + r);
        adds := adds + row;
      } else {
        PaddedRow(pb, dO, bn, adds, n, m0, m0 + r);
      }
    }
  }

  lemma JoinRows(pb: Problem, dO: seq<seq<real>>, bn: nat, adds: seq<Add>, more: seq<Add>, n: int, lo: int,
                 mid: int, hi: int)
    requires lo <= mid <= hi && CoversRows(pb, dO, bn, adds, n, lo, mid) && CoversRows(pb, dO, bn, more, n, mid, hi)
    ensures CoversRows(pb, dO, bn, adds + more, n, lo, hi)
  {
    hide Addend;
    assert multiset(adds + more) == multiset(adds) + multiset(more);
  }

  lemma RowsThatExist(pb: Problem, dO: seq<seq<real>>, bn: nat, adds: seq<Add>, n: int, lo: int, hi: int)
    requires hi >= pb.Sq() && CoversRows(pb, dO, bn, adds, n, lo, hi)
    ensures CoversRows(pb, dO, bn, adds, n, lo, pb.Sq())
  {
  }

  /** One program of the parallel grid: it stores its rows of dK and dV, and issues its atomic
      adds with the amounts it computes. */
  method ParallelProgram(pb: Problem, dO: seq<seq<real>>, startN: nat, lse: seq<LogReal>, delta: seq<real>,
                         bm: nat, bn: nat, dim: nat, dK: array2<real>, dV: array2<real>)
    returns (adds: seq<Add>)
    requires bm > 0 && bn > 0 && FK.Usable(pb, bm, bn) && |dO| == pb.Sq() && dim >= pb.headdim
    requires startN * bn < pb.Sk()
    requires BK.SavedRows(pb, dO, TruncatedDivision.CeilDiv(pb.Sq(), bm) * bm, lse, delta)
    requires dK.Length0 == pb.Sk() && dK.Length1 == pb.headdim
    requires dV.Length0 == pb.Sk() && dV.Length1 == pb.headdim && dK != dV
    modifies dK, dV
    ensures CoversRows(pb, dO, bn, adds, startN, BK.BeginM(pb, startN, bm, bn), pb.Sq())
    ensures forall j, d | 0 <= j < pb.Sk() && 0 <= d < pb.headdim ::
              if startN * bn <= j < startN * bn + bn
              then dK[j, d] == GradK(pb, dO, j, d) && dV[j, d] == GradV(pb, dO, j, d)
              else dK[j, d] == old(dK[j, d]) && dV[j, d] == old(dV[j, d])
  {
    hide Sum, GradK, GradV, RowSum, RowDot, BK.TileHolds, CoversRows;
    var n0 := startN * bn;
    FK.EndIsMultiple(startN, bn);
    var m := BK.BeginM(pb, startN, bm, bn);
    ghost var begin := m;
    BK.BeginMBounds(pb, startN, bm, bn);
    BK.RowsBelowBeginM(pb, dO, startN, bm, bn, dim);
    var dv := seq(bn, _ => seq(dim, _ => 0.0));
    var dk := seq(bn, _ => seq(dim, _ => 0.0));
    adds := [];
    NoRows(pb, dO, bn, startN, m);
    var endM := TruncatedDivision.CeilDiv(pb.Sq(), bm) * bm;
    FK.BlocksCover(pb.Sq(), bm);
    if m < pb.Sq() {
      FK.EndIsMultiple(TruncatedDivision.CeilDiv(pb.Sq(), bm), bm);
      while m < endM
        invariant m % bm == 0 && endM % bm == 0 && begin <= m <= endM
        invariant BK.Partial(dv, m, n0, bn, dim, BK.VTerms(pb, dO)) && BK.Partial(dk, m, n0, bn, dim, BK.KTerms(pb, dO))
        invariant CoversRows(pb, dO, bn, adds, startN, begin, m)
        invariant forall j, d | 0 <= j < pb.Sk() && 0 <= d < pb.headdim ::
                    dK[j, d] == old(dK[j, d]) && dV[j, d] == old(dV[j, d])
      {
        FK.WholeBlockFits(m, bm, endM);
        BK.RowsOfTile(pb, dO, endM, lse, delta, m, bm);
        BK.ColumnTileIsScalable(pb, startN, bm, bn, m);
        var p, ds := BK.GradientTile(pb, dO, lse[m..m + bm], delta[m..m + bm], m, n0, bn, dim);
        BK.TileExtendsPartial(pb, dO, p, ds, m, bm, n0, bn, dim, dv, dk);
        dv := BK.AddColumns(dv, p, dO, m, bn, dim);
        dk := BK.AddColumns(dk, ds, pb.q, m, bn, dim);
        var tile := TileAdds(pb, dO, ds, m, bm, startN, bn);
        JoinRows(pb, dO, bn, adds, tile, startN, begin, m, m + bm);
        adds := adds + tile;
        FK.NextMultiple(m, bm);
        m := m + bm;
      }
    }
    RowsThatExist(pb, dO, bn, adds, startN, begin, m);
    BK.StoreColumns(pb, dv, n0, bn, dim, dV);
    BK.StoreColumns(pb, dk, n0, bn, dim, dK);
    BK.FinishColumn(pb, dO, m, n0, bn, dim, dv, dk);
  }

  // ---------------------------------------------------------------- all programs

  /** The elements the launch adds to: program n starts at its begin_m and masks what does not
      exist. */
  predicate Issued(pb: Problem, bm: nat, bn: nat, e: Event)
    requires bm > 0 && bn > 0
  {
    && 0 <= e.n < TruncatedDivision.CeilDiv(pb.Sk(), bn)
    && BK.BeginM(pb, e.n, bm, bn) <= e.i < pb.Sq()
    && 0 <= e.d < pb.headdim
  }

  ghost predicate Right(pb: Problem, dO: seq<seq<real>>, bm: nat, bn: nat, x: Add)
    requires bm > 0 && bn > 0
  {
    Issued(pb, bm, bn, x.at) && x.amount == Addend(pb, dO, bn, x.at)
  }

  /** Every issued element once, with its addend, and nothing else; in any order. */
  ghost predicate Complete(pb: Problem, dO: seq<seq<real>>, bm: nat, bn: nat, adds: multiset<Add>)
    requires bm > 0 && bn > 0
  {
    forall x: Add :: adds[x] == if Right(pb, dO, bm, bn, x) then 1 else 0
  }

  /** What all programs issue together. */
  ghost function Union(lists: seq<seq<Add>>): multiset<Add> {
    if lists == [] then multiset{} else Union(lists[..|lists| - 1]) + multiset(lists[|lists| - 1])
  }

  ghost predicate ProgramsCover(pb: Problem, dO: seq<seq<real>>, bm: nat, bn: nat, lists: seq<seq<Add>>)
    requires bm > 0
  {
    forall n | 0 <= n < |lists| :: CoversRows(pb, dO, bn, lists[n], n, BK.BeginM(pb, n, bm, bn), pb.Sq())
  }

  lemma {:induction false} UnionBelow(pb: Problem, dO: seq<seq<real>>, bm: nat, bn: nat, lists: seq<seq<Add>>, x: Add)
    requires bm > 0 && bn > 0 && |lists| <= TruncatedDivision.CeilDiv(pb.Sk(), bn)
    requires ProgramsCover(pb, dO, bm, bn, lists)
    ensures Union(lists)[x] == if Right(pb, dO, bm, bn, x) && x.at.n < |lists| then 1 else 0
  {
    hide Addend, BK.BeginM, TruncatedDivision.CeilDiv;
    if lists != [] {
      var k := |lists| - 1;
      UnionBelow(pb, dO, bm, bn, lists[..k], x);
      assert CoversRows(pb, dO, bn, lists[k], k, BK.BeginM(pb, k, bm, bn), pb.Sq());
    }
  }

  /** The programs' lists together issue every add exactly once. */
  lemma ProgramsAreComplete(pb: Problem, dO: seq<seq<real>>, bm: nat, bn: nat, lists: seq<seq<Add>>)
    requires bm > 0 && bn > 0 && |lists| == TruncatedDivision.CeilDiv(pb.Sk(), bn)
    requires ProgramsCover(pb, dO, bm, bn, lists)
    ensures Complete(pb, dO, bm, bn, Union(lists))
  {
    hide Union, Addend, ProgramsCover, BK.BeginM;
    forall x: Add ensures Union(lists)[x] == if Right(pb, dO, bm, bn, x) then 1 else 0 {
      UnionBelow(pb, dO, bm, bn, lists, x);
    }
  }

  /** A merge takes one program's next add at a time. */
  ghost predicate IsMerge(lists: seq<seq<Add>>, run: seq<Add>)
    decreases |run|
  {
    if run == [] then forall n | 0 <= n < |lists| :: lists[n] == []
    else exists n | 0 <= n < |lists| && lists[n] != [] ::
           lists[n][0] == run[0] && IsMerge(lists[n := lists[n][1..]], run[1..])
  }

  lemma {:induction false} UnionTake(lists: seq<seq<Add>>, n: nat)
    requires n < |lists| && lists[n] != []
    ensures Union(lists) == Union(lists[n := lists[n][1..]]) + multiset{lists[n][0]}
  {
    var k, rest := |lists| - 1, lists[n := lists[n][1..]];
    if n == k {
      assert rest[..k] == lists[..k];
      assert lists[n] == [lists[n][0]] + lists[n][1..];
    } else {
      UnionTake(lists[..k], n);
      assert rest[..k] == lists[..k][n := lists[..k][n][1..]];
    }
  }

  lemma {:induction false} EmptyUnion(lists: seq<seq<Add>>)
    requires forall n | 0 <= n < |lists| :: lists[n] == []
    ensures Union(lists) == multiset{}
  {
    if lists != [] { EmptyUnion(lists[..|lists| - 1]); }
  }

  /** Every merge of the programs' lists performs exactly what they issue. */
  lemma {:induction false} MergeIsUnion(lists: seq<seq<Add>>, run: seq<Add>)
    requires IsMerge(lists, run)
    ensures multiset(run) == Union(lists)
    decreases |run|
  {
    if run == [] {
      EmptyUnion(lists);
    } else {
      var n :| 0 <= n < |lists| && lists[n] != [] && lists[n][0] == run[0]
               && IsMerge(lists[n := lists[n][1..]], run[1..]);
      hide Union, IsMerge;
      MergeIsUnion(lists[n := lists[n][1..]], run[1..]);
      UnionTake(lists, n);
      assert run == [run[0]] + run[1..];
    }
  }

  // ---------------------------------------------------------------- the sum of a run

  ghost function RightAdd(pb: Problem, dO: seq<seq<real>>, bn: nat, e: Event): Add { Add(e, Addend(pb, dO, bn, e)) }

  /** What a run has added to element (i, d), grouped by column block. */
  ghost function TallyTerm(pb: Problem, dO: seq<seq<real>>, bn: nat, run: seq<Add>, i: int, d: int): int -> real {
    n => multiset(run)[RightAdd(pb, dO, bn, Event(n, i, d))] as real * Addend(pb, dO, bn, Event(n, i, d))
  }

  ghost function Tally(pb: Problem, dO: seq<seq<real>>, bn: nat, run: seq<Add>, i: int, d: int): real
    requires bn > 0
  {
    Sum(0, TruncatedDivision.CeilDiv(pb.Sk(), bn), TallyTerm(pb, dO, bn, run, i, d))
  }

  lemma EmptyTally(pb: Problem, dO: seq<seq<real>>, bn: nat, i: int, d: int)
    requires bn > 0
    ensures Tally(pb, dO, bn, [], i, d) == 0.0
  {
    hide Addend;
    SumZero(0, TruncatedDivision.CeilDiv(pb.Sk(), bn), TallyTerm(pb, dO, bn, [], i, d));
  }

  lemma CountStep(run: seq<Add>, x: Add, y: Add)
    ensures multiset(run + [x])[y] == multiset(run)[y] + (if y == x then 1 else 0)
  {
  }

  lemma OneMore(count: int, x: real)
    ensures (count + 1) as real * x == count as real * x + x
  {
  }

  lemma TallyTermStep(pb: Problem, dO: seq<seq<real>>, bn: nat, run: seq<Add>, x: Add, n: int, i: int, d: int)
    requires x.amount == Addend(pb, dO, bn, x.at)
    ensures TallyTerm(pb, dO, bn, run + [x], i, d)(n)
            == TallyTerm(pb, dO, bn, run, i, d)(n) + (if Event(n, i, d) == x.at then x.amount else 0.0)
  {
    hide Addend;
    var y := RightAdd(pb, dO, bn, Event(n, i, d));
    CountStep(run, x, y);
    OneMore(multiset(run)[y], y.amount);
  }

  /** One more add changes exactly its own element, by its amount. */
  lemma TallyStep(pb: Problem, dO: seq<seq<real>>, bm: nat, bn: nat, run: seq<Add>, x: Add, i: int, d: int)
    requires bm > 0 && bn > 0 && Right(pb, dO, bm, bn, x)
    ensures Tally(pb, dO, bn, run + [x], i, d)
            == Tally(pb, dO, bn, run, i, d) + (if x.at.i == i && x.at.d == d then x.amount else 0.0)
  {
    hide Sum, Addend;
    var f, g := TallyTerm(pb, dO, bn, run, i, d), TallyTerm(pb, dO, bn, run + [x], i, d);
    var blocks := TruncatedDivision.CeilDiv(pb.Sk(), bn);
    forall n ensures g(n) == f(n) + (if Event(n, i, d) == x.at then x.amount else 0.0) {
      TallyTermStep(pb, dO, bn, run, x, n, i, d);
    }
    hide TallyTerm;
    if x.at.i == i && x.at.d == d {
      assert Event(x.at.n, i, d) == x.at;
      SumBump(0, blocks, f, g, x.at.n, x.amount);
    } else {
      SumExt(0, blocks, f, g);
    }
  }

  /** Programs that skip a row have nothing to add to it. */
  lemma SkippedAddendIsZero(pb: Problem, dO: seq<seq<real>>, bm: nat, bn: nat, e: Event)
    requires bm > 0 && bn > 0 && e.n >= 0 && 0 <= e.i < BK.BeginM(pb, e.n, bm, bn)
    ensures Addend(pb, dO, bn, e) == 0.0
  {
    hide Sum, GradQTerm;
    BK.RowsBelowBeginM(pb, dO, e.n, bm, bn, 0);
  }

  lemma AddendUnfolds(pb: Problem, dO: seq<seq<real>>, bn: nat, e: Event)
    ensures Addend(pb, dO, bn, e) == Sum(e.n * bn, e.n * bn + bn, GradQTerm(pb, dO, e.i, e.d))
  {
  }

  /** Every complete run, in whatever order the programs interleave, leaves exactly dS K: the
      result of the sequential loop over column blocks. */
  lemma EveryInterleavingGivesGradQ(pb: Problem, dO: seq<seq<real>>, bm: nat, bn: nat, run: seq<Add>, i: int, d: int)
    requires bm > 0 && bn > 0 && Complete(pb, dO, bm, bn, multiset(run))
    requires 0 <= i < pb.Sq() && 0 <= d < pb.headdim
    ensures Tally(pb, dO, bn, run, i, d) == GradQ(pb, dO, i, d)
  {
    hide Sum, GradQ, GradQTerm, Addend;
    var blocks := TruncatedDivision.CeilDiv(pb.Sk(), bn);
    FK.BlocksCover(pb.Sk(), bn);
    var f := TallyTerm(pb, dO, bn, run, i, d);
    forall n | 0 <= n < blocks ensures f(n) == Sum(n * bn, n * bn + bn, GradQTerm(pb, dO, i, d)) {
      var e := Event(n, i, d);
      AddendUnfolds(pb, dO, bn, e);
      if !Issued(pb, bm, bn, e) { SkippedAddendIsZero(pb, dO, bm, bn, e); }
    }
    SumOfBlocks(blocks, bn, f, GradQTerm(pb, dO, i, d));
    BK.KeysBeyondAddNothing(pb, dO, i, d, blocks * bn);
  }

  lemma AddIsRight(pb: Problem, dO: seq<seq<real>>, bm: nat, bn: nat, run: seq<Add>, t: nat)
    requires bm > 0 && bn > 0 && Complete(pb, dO, bm, bn, multiset(run)) && t < |run|
    ensures Right(pb, dO, bm, bn, run[t])
    ensures var e := run[t].at; 0 <= e.i < pb.Sq() && 0 <= e.d < pb.headdim
  {
    hide Addend;
    assert run[t] in multiset(run);
  }

  /** The atomic adds in place, in the order of `run`, on a zeroed dQ. */
  method AtomicAdds(pb: Problem, ghost dO: seq<seq<real>>, ghost bm: nat, ghost bn: nat, run: seq<Add>,
                    dQ: array2<real>)
    requires bm > 0 && bn > 0 && Complete(pb, dO, bm, bn, multiset(run))
    requires dQ.Length0 == pb.Sq() && dQ.Length1 == pb.headdim
    requires forall i, d | 0 <= i < pb.Sq() && 0 <= d < pb.headdim :: dQ[i, d] == 0.0
    modifies dQ
    ensures forall i, d | 0 <= i < pb.Sq() && 0 <= d < pb.headdim :: dQ[i, d] == GradQ(pb, dO, i, d)
  {
    hide Sum, Addend, GradQ, Tally, BK.BeginM, TruncatedDivision.CeilDiv;
    forall i, d ensures Tally(pb, dO, bn, [], i, d) == 0.0 { EmptyTally(pb, dO, bn, i, d); }
    assert run[..0] == [];
    for t := 0 to |run|
      invariant forall i, d | 0 <= i < pb.Sq() && 0 <= d < pb.headdim ::
                  dQ[i, d] == Tally(pb, dO, bn, run[..t], i, d)
    {
      var x := run[t];
      AddIsRight(pb, dO, bm, bn, run, t);
      assert run[..t + 1] == run[..t] + [x];
      forall i, d ensures Tally(pb, dO, bn, run[..t + 1], i, d)
                          == Tally(pb, dO, bn, run[..t], i, d) + (if x.at.i == i && x.at.d == d then x.amount else 0.0)
      {
        TallyStep(pb, dO, bm, bn, run[..t], x, i, d);
      }
      dQ[x.at.i, x.at.d] := dQ[x.at.i, x.at.d] + x.amount;
    }
    assert run[..|run|] == run;
    forall i, d | 0 <= i < pb.Sq() && 0 <= d < pb.headdim ensures dQ[i, d] == GradQ(pb, dO, i, d) {
      EveryInterleavingGivesGradQ(pb, dO, bm, bn, run, i, d);
    }
  }

  // ---------------------------------------------------------------- the launch

  /** The programs whose turn in `order` is over have stored their rows. */
  ghost predicate Stored(pb: Problem, dO: seq<seq<real>>, bn: nat, done: seq<nat>, dK: array2<real>, dV: array2<real>)
    requires bn > 0 && dK.Length0 == dV.Length0 == pb.Sk() && dK.Length1 == dV.Length1 == pb.headdim
    reads dK, dV
  {
    forall j, d | 0 <= j < pb.Sk() && 0 <= d < pb.headdim && j / bn in done ::
      dK[j, d] == GradK(pb, dO, j, d) && dV[j, d] == GradV(pb, dO, j, d)
  }

  lemma RowOfBlock(j: int, n: nat, bn: nat)
    requires bn > 0
    ensures n * bn <= j < n * bn + bn <==> j / bn == n
  {
    if n * bn <= j < n * bn + bn { TruncatedDivision.QuotientFrom(j, bn, n, n * bn); }
    TruncatedDivision.FloorBounds(j, bn);
    assert (n + 1) * bn == n * bn + bn;
  }

  /** One more program of the launch. */
  method NextProgram(pb: Problem, dO: seq<seq<real>>, ghost done: seq<nat>, n: nat, lse: seq<LogReal>, delta: seq<real>,
                     bm: nat, bn: nat, dim: nat, dK: array2<real>, dV: array2<real>)
    returns (adds: seq<Add>)
    requires bm > 0 && bn > 0 && FK.Usable(pb, bm, bn) && |dO| == pb.Sq() && dim >= pb.headdim
    requires n * bn < pb.Sk()
    requires BK.SavedRows(pb, dO, TruncatedDivision.CeilDiv(pb.Sq(), bm) * bm, lse, delta)
    requires dK.Length0 == dV.Length0 == pb.Sk() && dK.Length1 == dV.Length1 == pb.headdim && dK != dV
    requires Stored(pb, dO, bn, done, dK, dV)
    modifies dK, dV
    ensures CoversRows(pb, dO, bn, adds, n, BK.BeginM(pb, n, bm, bn), pb.Sq())
    ensures Stored(pb, dO, bn, done + [n], dK, dV)
  {
    hide Sum, GradK, GradV, BK.SavedRows, CoversRows, BK.BeginM, TruncatedDivision.CeilDiv;
    adds := ParallelProgram(pb, dO, n, lse, delta, bm, bn, dim, dK, dV);
    forall j: int ensures n * bn <= j < n * bn + bn <==> j / bn == n {
      RowOfBlock(j, n, bn);
    }
  }

  lemma NothingStored(pb: Problem, dO: seq<seq<real>>, bn: nat, dK: array2<real>, dV: array2<real>)
    requires bn > 0 && dK.Length0 == dV.Length0 == pb.Sk() && dK.Length1 == dV.Length1 == pb.headdim
    ensures Stored(pb, dO, bn, [], dK, dV)
  {
  }

  lemma AllStored(pb: Problem, dO: seq<seq<real>>, bn: nat, order: seq<nat>, dK: array2<real>, dV: array2<real>)
    requires bn > 0 && dK.Length0 == dV.Length0 == pb.Sk() && dK.Length1 == dV.Length1 == pb.headdim
    requires Stored(pb, dO, bn, order, dK, dV)
    requires forall n | 0 <= n < TruncatedDivision.CeilDiv(pb.Sk(), bn) :: n in order
    ensures forall j, d | 0 <= j < pb.Sk() && 0 <= d < pb.headdim ::
              dK[j, d] == GradK(pb, dO, j, d) && dV[j, d] == GradV(pb, dO, j, d)
  {
    hide GradK, GradV;
    forall j | 0 <= j < pb.Sk() ensures j / bn in order {
      TruncatedDivision.FloorBounds(j, bn);
      TruncatedDivision.QuotientAtLeast(j, bn, 0);
      TruncatedDivision.BelowCeilDiv(j / bn, pb.Sk(), bn);
    }
  }

  /** The whole parallel launch.  The programs store dK and dV in any order; no program reads
      dQ, so their atomic adds may take effect in any order at all, every merge included. */
  method BackwardParallel(pb: Problem, dO: seq<seq<real>>, lse: seq<LogReal>, delta: seq<real>,
                          bm: nat, bn: nat, dim: nat, order: seq<nat>, interleave: seq<seq<Add>> -> seq<Add>)
    returns (dQ: array2<real>, dK: array2<real>, dV: array2<real>)
    requires bm > 0 && bn > 0 && FK.Usable(pb, bm, bn) && |dO| == pb.Sq() && dim >= pb.headdim
    requires BK.SavedRows(pb, dO, TruncatedDivision.CeilDiv(pb.Sq(), bm) * bm, lse, delta)
    requires forall n | n in order :: n < TruncatedDivision.CeilDiv(pb.Sk(), bn)
    requires forall n | 0 <= n < TruncatedDivision.CeilDiv(pb.Sk(), bn) :: n in order
    requires forall lists :: multiset(interleave(lists)) == Union(lists)
    ensures dQ.Length0 == pb.Sq() && dK.Length0 == dV.Length0 == pb.Sk()
    ensures dQ.Length1 == dK.Length1 == dV.Length1 == pb.headdim
    ensures forall i, d | 0 <= i < pb.Sq() && 0 <= d < pb.headdim :: dQ[i, d] == GradQ(pb, dO, i, d)
    ensures forall j, d | 0 <= j < pb.Sk() && 0 <= d < pb.headdim ::
              dK[j, d] == GradK(pb, dO, j, d) && dV[j, d] == GradV(pb, dO, j, d)
  {
    hide Sum, GradQ, GradK, GradV, BK.SavedRows, BK.BeginM, CoversRows, Union, Stored, Complete;
    hide TruncatedDivision.CeilDiv;
    dQ := new real[pb.Sq(), pb.headdim]((_, _) => 0.0);
    dK := new real[pb.Sk(), pb.headdim];
    dV := new real[pb.Sk(), pb.headdim];
    var blocks := TruncatedDivision.CeilDiv(pb.Sk(), bn);
    FK.BlocksCover(pb.Sk(), bn);
    var lists: seq<seq<Add>> := seq(blocks, _ => []);
    NothingStored(pb, dO, bn, dK, dV);
    assert order[..0] == [];
    for t := 0 to |order|
      invariant |lists| == blocks && Stored(pb, dO, bn, order[..t], dK, dV)
      invariant forall i, d | 0 <= i < pb.Sq() && 0 <= d < pb.headdim :: dQ[i, d] == 0.0
      invariant forall n | n in order[..t] :: n < blocks
                  && CoversRows(pb, dO, bn, lists[n], n, BK.BeginM(pb, n, bm, bn), pb.Sq())
    {
      var n := order[t];
      assert n in order;
      TruncatedDivision.BelowCeilDiv(n, pb.Sk(), bn);
      assert order[..t + 1] == order[..t] + [n];
      var adds := NextProgram(pb, dO, order[..t], n, lse, delta, bm, bn, dim, dK, dV);
      lists := lists[n := adds];
    }
    assert order[..|order|] == order;
    ProgramsAreComplete(pb, dO, bm, bn, lists);
    AtomicAdds(pb, dO, bm, bn, interleave(lists), dQ);
    AllStored(pb, dO, bn, order, dK, dV);
  }
}
