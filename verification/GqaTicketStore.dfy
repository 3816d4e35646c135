/** Deterministic accumulation of dV and dK when several query heads share a key/value head:
    CTAs take turns through two arrays of semaphores.  `CollectiveEpilogueBwdGQA::store` in
    `hopper/epilogue_bwd.hpp`.  The addition is an arbitrary binary operation, so the order of
    the additions is visible in the result. */
module GqaTicketStore {
  import opened TruncatedDivision
  import opened SeqTotals

  /** One CTA: key block, query head, batch entry. */
  datatype Cta = Cta(n: nat, h: nat, b: nat)

  /** An accumulator tile: key block, batch entry, key/value head. */
  datatype Tile = Tile(n: nat, b: nat, hk: nat)

  /** Phase 0 stores dV and phase 1 stores dK.  `part` is the tile element a CTA contributes. */
  datatype Config<!T> = Config(blocks: nat, batch: nat, headsKv: nat, group: nat, elements: nat,
                              ctas: seq<Cta>, zero: T, add: (T, T) -> T, part: (nat, Cta, nat) -> T)
  {
    /** Every CTA of the launch exactly once, in any order. */
    ghost predicate Valid() {
      && group > 0
      && (forall x | 0 <= x < |ctas| :: InLaunch(ctas[x]))
      && (forall c | InLaunch(c) :: c in ctas)
      && (forall x, y | 0 <= x < y < |ctas| :: ctas[x] != ctas[y])
    }

    predicate InLaunch(c: Cta) { c.n < blocks && c.h < headsKv * group && c.b < batch }

    /** qhead_per_khead_divmod. */
    function Turn(c: Cta): (i: nat)
      requires group > 0
      ensures i < group
    {
      c.h % group
    }

    function TileOf(c: Cta): Tile
      requires group > 0
    {
      Tile(c.n, c.b, c.h / group)
    }

    predicate InGrid(t: Tile) { t.n < blocks && t.b < batch && t.hk < headsKv }

    /** Offset of the tile's flag: the lock pointer plus the flag id. */
    function Slot(t: Tile): nat { t.n * batch * headsKv + t.b * headsKv + t.hk }

    function Row(t: Tile): nat { t.n * batch + t.b }

    function Slots(): nat { blocks * batch * headsKv }

    /** The CTA whose turn it is at a tile. */
    function Holder(t: Tile, i: nat): Cta { Cta(t.n, t.hk * group + i, t.b) }
  }

  // ---------------------------------------------------------------- slots

  /** Mixed-radix digits: `digit` below `radix` on top of a row number below `rows`. */
  lemma DigitsFit(row: nat, rows: nat, radix: nat, digit: nat)
    requires row < rows && digit < radix
    ensures row * radix + digit < rows * radix
  {
    MulMonotone(row + 1, rows, radix);
    assert (row + 1) * radix == row * radix + radix;
  }

  lemma DigitsAreDistinct(row: nat, digit: nat, row': nat, digit': nat, radix: nat)
    requires digit < radix && digit' < radix && row * radix + digit == row' * radix + digit'
    ensures row == row' && digit == digit'
  {
    QuotientFrom(row * radix + digit, radix, row, row * radix);
    QuotientFrom(row' * radix + digit', radix, row', row' * radix);
  }

  lemma SlotDigits<T>(c: Config<T>, t: Tile)
    ensures c.Slot(t) == c.Row(t) * c.headsKv + t.hk
  {
  }

  /** The slots of the tiles of a launch lie inside the allocation. */
  lemma SlotInAllocation<T>(c: Config<T>, t: Tile)
    requires c.InGrid(t)
    ensures c.Slot(t) < c.Slots()
  {
    SlotDigits(c, t);
    DigitsFit(t.n, c.blocks, c.batch, t.b);
    DigitsFit(c.Row(t), c.blocks * c.batch, c.headsKv, t.hk);
  }

  lemma RowsAreDistinct<T>(c: Config<T>, t: Tile, u: Tile)
    requires c.InGrid(t) && c.InGrid(u) && c.Row(t) == c.Row(u)
    ensures t.n == u.n && t.b == u.b
  {
    DigitsAreDistinct(t.n, t.b, u.n, u.b, c.batch);
  }

  /** Different tiles have different slots. */
  lemma SlotsAreDistinct<T>(c: Config<T>, t: Tile, u: Tile)
    requires c.InGrid(t) && c.InGrid(u) && c.Slot(t) == c.Slot(u)
    ensures t == u
  {
    hide Config.Slot, Config.Row;
    SlotDigits(c, t);
    SlotDigits(c, u);
    DigitsAreDistinct(c.Row(t), t.hk, c.Row(u), u.hk, c.headsKv);
    RowsAreDistinct(c, t, u);
  }

  /** A CTA is the holder of its own turn, and belongs to a tile of the grid. */
  lemma CtaHoldsItsTurn<T>(c: Config<T>, x: Cta)
    requires c.Valid() && c.InLaunch(x)
    ensures c.InGrid(c.TileOf(x)) && c.Holder(c.TileOf(x), c.Turn(x)) == x
  {
    QuotientAtLeast(x.h, c.group, c.headsKv);
    QuotientAtLeast(x.h, c.group, 0);
    assert x.h == x.h / c.group * c.group + x.h % c.group;
  }

  lemma HolderIsInLaunch<T>(c: Config<T>, t: Tile, i: nat)
    requires c.Valid() && c.InGrid(t) && i < c.group
    ensures c.InLaunch(c.Holder(t, i)) && c.TileOf(c.Holder(t, i)) == t && c.Turn(c.Holder(t, i)) == i
  {
    MulMonotone(t.hk + 1, c.headsKv, c.group);
    assert (t.hk + 1) * c.group == t.hk * c.group + c.group;
    QuotientFrom(t.hk * c.group + i, c.group, t.hk, t.hk * c.group);
  }

  // ---------------------------------------------------------------- the protocol

  /** wait_eq, the element-wise additions of the critical section, arrive_inc. */
  datatype Pc = Waiting(phase: nat) | Adding(phase: nat, left: set<nat>) | Finished

  datatype State<T> = State(sem: seq<seq<nat>>, acc: seq<map<Tile, seq<T>>>, pcs: seq<Pc>)

  datatype Action = Acquire(x: nat) | Add(x: nat, e: nat) | Arrive(x: nat)

  ghost predicate Shape<T>(c: Config<T>, st: State<T>) {
    && |st.sem| == |st.acc| == 2 && |st.pcs| == |c.ctas|
    && (forall p | 0 <= p < 2 :: |st.sem[p]| == c.Slots())
    && (forall p, t | 0 <= p < 2 && c.InGrid(t) :: t in st.acc[p] && |st.acc[p][t]| == c.elements)
    && (forall x | 0 <= x < |st.pcs| ::
          match st.pcs[x]
          case Waiting(p) => p < 2
          case Adding(p, left) => p < 2 && forall e | e in left :: e < c.elements
          case Finished => true)
  }

  function Semaphore<T>(c: Config<T>, st: State<T>, p: nat, t: Tile): nat
    requires Shape(c, st) && p < 2 && c.InGrid(t)
  {
    SlotInAllocation(c, t);
    st.sem[p][c.Slot(t)]
  }

  predicate Enabled<T>(c: Config<T>, st: State<T>, a: Action)
    requires c.Valid() && Shape(c, st)
  {
    && a.x < |c.ctas|
    && (CtaHoldsItsTurn(c, c.ctas[a.x]);
        match a
        case Acquire(x) =>
          st.pcs[x].Waiting? && Semaphore(c, st, st.pcs[x].phase, c.TileOf(c.ctas[x])) == c.Turn(c.ctas[x])
        case Add(x, e) => st.pcs[x].Adding? && e in st.pcs[x].left
        case Arrive(x) => st.pcs[x].Adding? && st.pcs[x].left == {})
  }

  function Next<T>(c: Config<T>, st: State<T>, a: Action): State<T>
    requires c.Valid() && Shape(c, st) && Enabled(c, st, a)
  {
    var cta := c.ctas[a.x];
    var t := c.TileOf(cta);
    CtaHoldsItsTurn(c, cta);
    SlotInAllocation(c, t);
    match a
    case Acquire(x) => st.(pcs := st.pcs[x := Adding(st.pcs[x].phase, Below(c.elements))])
    case Add(x, e) =>
      var p := st.pcs[x].phase;
      var tile := st.acc[p][t];
      st.(pcs := st.pcs[x := Adding(p, st.pcs[x].left - {e})],
          acc := st.acc[p := st.acc[p][t := tile[e := c.add(tile[e], c.part(p, cta, e))]]])
    case Arrive(x) =>
      var p := st.pcs[x].phase;
      st.(pcs := st.pcs[x := if p == 0 then Waiting(1) else Finished],
          sem := st.sem[p := st.sem[p][c.Slot(t) := st.sem[p][c.Slot(t)] + 1]])
  }

  lemma AddKeepsShape<T>(c: Config<T>, st: State<T>, x: nat, e: nat)
    requires c.Valid() && Shape(c, st) && Enabled(c, st, Add(x, e))
    ensures Shape(c, Next(c, st, Add(x, e)))
  {
    hide Config.Slot, Config.Slots;
  }

  lemma NextKeepsShape<T>(c: Config<T>, st: State<T>, a: Action)
    requires c.Valid() && Shape(c, st) && Enabled(c, st, a)
    ensures Shape(c, Next(c, st, a))
  {
    hide Config.Slot, Config.Slots;
    CtaHoldsItsTurn(c, c.ctas[a.x]);
    SlotInAllocation(c, c.TileOf(c.ctas[a.x]));
    if a.Add? { AddKeepsShape(c, st, a.x, a.e); }
  }

  // ---------------------------------------------------------------- the invariant

  /** The CTA has added its phase-p tile and passed the semaphore on. */
  predicate Passed(pc: Pc, p: nat) {
    pc.Finished? || pc.phase > p
  }

  /** A CTA has passed exactly when its semaphore is beyond its turn, and adds only in its turn. */
  ghost predicate TurnIsRight<T>(c: Config<T>, st: State<T>, x: nat)
    requires c.Valid() && Shape(c, st) && x < |c.ctas| && c.InGrid(c.TileOf(c.ctas[x]))
  {
    && (forall p | 0 <= p < 2 ::
          Passed(st.pcs[x], p) <==> c.Turn(c.ctas[x]) < Semaphore(c, st, p, c.TileOf(c.ctas[x])))
    && (st.pcs[x].Adding? ==> c.Turn(c.ctas[x]) == Semaphore(c, st, st.pcs[x].phase, c.TileOf(c.ctas[x])))
  }

  /** A semaphore counts the turns that are over, and only the CTA whose turn it is adds. */
  ghost predicate Ordered<T>(c: Config<T>, st: State<T>)
    requires c.Valid() && Shape(c, st)
  {
    && (forall p, t | 0 <= p < 2 && c.InGrid(t) :: Semaphore(c, st, p, t) <= c.group)
    && (forall x | 0 <= x < |c.ctas| && c.InGrid(c.TileOf(c.ctas[x])) :: TurnIsRight(c, st, x))
  }

  /** The fixed left fold over the heads of a group, in order 0, 1, ..., k - 1. */
  ghost function Fold<T>(c: Config<T>, p: nat, t: Tile, e: nat, k: nat): T {
    if k == 0 then c.zero else c.add(Fold(c, p, t, e, k - 1), c.part(p, c.Holder(t, k - 1), e))
  }

  /** The CTA in its critical section has added element e already. */
  ghost predicate AddedNow<T>(c: Config<T>, st: State<T>, p: nat, t: Tile, e: nat)
    requires c.Valid() && Shape(c, st)
  {
    exists x :: 0 <= x < |c.ctas| && c.TileOf(c.ctas[x]) == t
                && st.pcs[x].Adding? && st.pcs[x].phase == p && e !in st.pcs[x].left
  }

  /** Every element of every tile is the fold over the turns taken so far. */
  ghost predicate Folded<T>(c: Config<T>, st: State<T>)
    requires c.Valid() && Shape(c, st)
  {
    forall p, t, e | 0 <= p < 2 && c.InGrid(t) && 0 <= e < c.elements ::
      st.acc[p][t][e] == Fold(c, p, t, e, Semaphore(c, st, p, t) + if AddedNow(c, st, p, t, e) then 1 else 0)
  }

  ghost predicate Inv<T>(c: Config<T>, st: State<T>) {
    c.Valid() && Shape(c, st) && Ordered(c, st) && Folded(c, st)
  }

  // ---------------------------------------------------------------- every step keeps it

  /** Mutual exclusion: at most one CTA adds to a tile. */
  lemma OneAdderPerTile<T>(c: Config<T>, st: State<T>, x: nat, y: nat)
    requires c.Valid() && Shape(c, st) && Ordered(c, st) && x < |c.ctas| && y < |c.ctas|
    requires st.pcs[x].Adding? && st.pcs[y].Adding? && st.pcs[x].phase == st.pcs[y].phase
    requires c.TileOf(c.ctas[x]) == c.TileOf(c.ctas[y])
    ensures x == y
  {
    CtaHoldsItsTurn(c, c.ctas[x]);
    CtaHoldsItsTurn(c, c.ctas[y]);
  }

  /** Only the acting CTA's tile and phase can change its semaphore. */
  lemma SemaphoreAfter<T>(c: Config<T>, st: State<T>, a: Action, p: nat, t: Tile)
    requires c.Valid() && Shape(c, st) && Enabled(c, st, a) && p < 2 && c.InGrid(t)
    ensures Shape(c, Next(c, st, a))
    ensures Semaphore(c, Next(c, st, a), p, t) == Semaphore(c, st, p, t)
              + (if a.Arrive? && st.pcs[a.x].phase == p && c.TileOf(c.ctas[a.x]) == t then 1 else 0)
  {
    NextKeepsShape(c, st, a);
    var u := c.TileOf(c.ctas[a.x]);
    CtaHoldsItsTurn(c, c.ctas[a.x]);
    SlotInAllocation(c, t);
    SlotInAllocation(c, u);
    if c.Slot(t) == c.Slot(u) { SlotsAreDistinct(c, t, u); }
  }

  lemma AcquireKeepsInv<T>(c: Config<T>, st: State<T>, x: nat)
    requires Inv(c, st) && Enabled(c, st, Acquire(x))
    ensures Inv(c, Next(c, st, Acquire(x)))
  {
    hide Config.Slot, Config.Slots, Fold;
    var st' := Next(c, st, Acquire(x));
    NextKeepsShape(c, st, Acquire(x));
    CtaHoldsItsTurn(c, c.ctas[x]);
    assert st'.sem == st.sem && st'.acc == st.acc;
    assert forall p, t | 0 <= p < 2 && c.InGrid(t) :: Semaphore(c, st', p, t) == Semaphore(c, st, p, t);
    assert Ordered(c, st');
    forall p, t, e | 0 <= p < 2 && c.InGrid(t) && 0 <= e < c.elements
      ensures AddedNow(c, st', p, t, e) == AddedNow(c, st, p, t, e)
    {
      hide Ordered, Folded;
    }
  }

  lemma AddsNextTerm<T>(c: Config<T>, st: State<T>, x: nat, e: nat)
    requires Inv(c, st) && Enabled(c, st, Add(x, e))
    ensures var p, t := st.pcs[x].phase, c.TileOf(c.ctas[x]);
            && c.InGrid(t) && Shape(c, Next(c, st, Add(x, e)))
            && AddedNow(c, Next(c, st, Add(x, e)), p, t, e)
            && Next(c, st, Add(x, e)).acc[p][t][e] == Fold(c, p, t, e, Semaphore(c, st, p, t) + 1)
  {
    hide Config.Slot, Config.Slots;
    var st', p, t := Next(c, st, Add(x, e)), st.pcs[x].phase, c.TileOf(c.ctas[x]);
    NextKeepsShape(c, st, Add(x, e));
    CtaHoldsItsTurn(c, c.ctas[x]);
    assert c.TileOf(c.ctas[x]) == t && st'.pcs[x].Adding? && e !in st'.pcs[x].left;
    forall y | 0 <= y < |c.ctas| && c.TileOf(c.ctas[y]) == t && st.pcs[y].Adding? && st.pcs[y].phase == p
      ensures y == x
    {
      OneAdderPerTile(c, st, x, y);
    }
  }

  lemma OthersAddedBefore<T>(c: Config<T>, st: State<T>, x: nat, e: nat, p: nat, t: Tile, d: nat)
    requires Inv(c, st) && Enabled(c, st, Add(x, e)) && p < 2 && c.InGrid(t) && d < c.elements
    requires !(p == st.pcs[x].phase && t == c.TileOf(c.ctas[x]) && d == e)
    ensures Shape(c, Next(c, st, Add(x, e)))
    ensures AddedNow(c, Next(c, st, Add(x, e)), p, t, d) == AddedNow(c, st, p, t, d)
    ensures Next(c, st, Add(x, e)).acc[p][t][d] == st.acc[p][t][d]
  {
    hide Config.Slot, Config.Slots, Fold, Ordered, Folded;
    NextKeepsShape(c, st, Add(x, e));
  }

  /** The element gains exactly the next term of the fold; no other element changes. */
  lemma AddKeepsFolded<T>(c: Config<T>, st: State<T>, x: nat, e: nat)
    requires Inv(c, st) && Enabled(c, st, Add(x, e))
    ensures Shape(c, Next(c, st, Add(x, e))) && Folded(c, Next(c, st, Add(x, e)))
  {
    hide Config.Slot, Config.Slots, Fold, Ordered, AddedNow;
    var st' := Next(c, st, Add(x, e));
    NextKeepsShape(c, st, Add(x, e));
    forall p, t, d | 0 <= p < 2 && c.InGrid(t) && 0 <= d < c.elements
      ensures st'.acc[p][t][d] == Fold(c, p, t, d, Semaphore(c, st', p, t) + if AddedNow(c, st', p, t, d) then 1 else 0)
    {
      assert Semaphore(c, st', p, t) == Semaphore(c, st, p, t);
      if p == st.pcs[x].phase && t == c.TileOf(c.ctas[x]) && d == e {
        AddsNextTerm(c, st, x, e);
      } else {
        OthersAddedBefore(c, st, x, e, p, t, d);
      }
    }
  }

  lemma AddKeepsInv<T>(c: Config<T>, st: State<T>, x: nat, e: nat)
    requires Inv(c, st) && Enabled(c, st, Add(x, e))
    ensures Inv(c, Next(c, st, Add(x, e)))
  {
    hide Config.Slot, Config.Slots, Fold, Folded;
    var st' := Next(c, st, Add(x, e));
    NextKeepsShape(c, st, Add(x, e));
    assert forall p, t | 0 <= p < 2 && c.InGrid(t) :: Semaphore(c, st', p, t) == Semaphore(c, st, p, t);
    assert Ordered(c, st');
    AddKeepsFolded(c, st, x, e);
  }

  lemma ArriveKeepsTurn<T>(c: Config<T>, st: State<T>, x: nat, y: nat)
    requires Inv(c, st) && Enabled(c, st, Arrive(x)) && y < |c.ctas| && c.InGrid(c.TileOf(c.ctas[y]))
    ensures Shape(c, Next(c, st, Arrive(x))) && TurnIsRight(c, Next(c, st, Arrive(x)), y)
  {
    hide Config.Slot, Config.Slots, Fold, Folded, Semaphore;
    var a := Arrive(x);
    NextKeepsShape(c, st, a);
    CtaHoldsItsTurn(c, c.ctas[x]);
    CtaHoldsItsTurn(c, c.ctas[y]);
    SemaphoreAfter(c, st, a, 0, c.TileOf(c.ctas[y]));
    SemaphoreAfter(c, st, a, 1, c.TileOf(c.ctas[y]));
    assert TurnIsRight(c, st, x) && TurnIsRight(c, st, y);
    if c.TileOf(c.ctas[x]) == c.TileOf(c.ctas[y]) && c.Turn(c.ctas[x]) == c.Turn(c.ctas[y]) {
      assert c.ctas[x] == c.ctas[y];
      assert x == y;
    }
  }

  lemma ArriveKeepsOrdered<T>(c: Config<T>, st: State<T>, x: nat)
    requires Inv(c, st) && Enabled(c, st, Arrive(x))
    ensures Shape(c, Next(c, st, Arrive(x))) && Ordered(c, Next(c, st, Arrive(x)))
  {
    hide Config.Slot, Config.Slots, Fold, Folded, Semaphore;
    var st', a := Next(c, st, Arrive(x)), Arrive(x);
    NextKeepsShape(c, st, a);
    CtaHoldsItsTurn(c, c.ctas[x]);
    forall p, t | 0 <= p < 2 && c.InGrid(t) ensures Semaphore(c, st', p, t) <= c.group {
      SemaphoreAfter(c, st, a, p, t);
    }
    forall y | 0 <= y < |c.ctas| && c.InGrid(c.TileOf(c.ctas[y]))
      ensures TurnIsRight(c, st', y)
    {
      ArriveKeepsTurn(c, st, x, y);
    }
  }

  /** What was an addition under way is now a turn that is over. */
  lemma ArriveHandsOver<T>(c: Config<T>, st: State<T>, x: nat, p: nat, t: Tile, e: nat)
    requires Inv(c, st) && Enabled(c, st, Arrive(x)) && p < 2 && c.InGrid(t) && e < c.elements
    ensures Shape(c, Next(c, st, Arrive(x)))
    ensures AddedNow(c, st, p, t, e) <==>
              AddedNow(c, Next(c, st, Arrive(x)), p, t, e) || (st.pcs[x].phase == p && c.TileOf(c.ctas[x]) == t)
    ensures !(AddedNow(c, Next(c, st, Arrive(x)), p, t, e) && st.pcs[x].phase == p && c.TileOf(c.ctas[x]) == t)
  {
    hide Config.Slot, Config.Slots, Fold, Folded, Semaphore, Ordered;
    NextKeepsShape(c, st, Arrive(x));
    forall y | 0 <= y < |c.ctas| && c.TileOf(c.ctas[y]) == c.TileOf(c.ctas[x])
               && st.pcs[y].Adding? && st.pcs[y].phase == st.pcs[x].phase
      ensures y == x
    {
      OneAdderPerTile(c, st, x, y);
    }
  }

  lemma ArriveKeepsFolded<T>(c: Config<T>, st: State<T>, x: nat)
    requires Inv(c, st) && Enabled(c, st, Arrive(x))
    ensures Shape(c, Next(c, st, Arrive(x))) && Folded(c, Next(c, st, Arrive(x)))
  {
    hide Config.Slot, Config.Slots, Fold, Semaphore, AddedNow;
    var st', a := Next(c, st, Arrive(x)), Arrive(x);
    NextKeepsShape(c, st, a);
    forall p, t, e | 0 <= p < 2 && c.InGrid(t) && 0 <= e < c.elements
      ensures st'.acc[p][t][e] == Fold(c, p, t, e, Semaphore(c, st', p, t) + if AddedNow(c, st', p, t, e) then 1 else 0)
    {
      SemaphoreAfter(c, st, a, p, t);
      ArriveHandsOver(c, st, x, p, t, e);
    }
  }

  lemma ArriveKeepsInv<T>(c: Config<T>, st: State<T>, x: nat)
    requires Inv(c, st) && Enabled(c, st, Arrive(x))
    ensures Inv(c, Next(c, st, Arrive(x)))
  {
    hide Next, Ordered, Folded;
    ArriveKeepsOrdered(c, st, x);
    ArriveKeepsFolded(c, st, x);
  }

  lemma NextKeepsInv<T>(c: Config<T>, st: State<T>, a: Action)
    requires Inv(c, st) && Enabled(c, st, a)
    ensures Inv(c, Next(c, st, a))
  {
    hide Inv, Next, Enabled;
    match a
    case Acquire(x) => AcquireKeepsInv(c, st, x);
    case Add(x, e) => AddKeepsInv(c, st, x, e);
    case Arrive(x) => ArriveKeepsInv(c, st, x);
  }

  // ---------------------------------------------------------------- the start

  /** Semaphores and accumulators zeroed, as the host allocates them. */
  function Init<T>(c: Config<T>): State<T> {
    var tiles := set n: nat, b: nat, hk: nat | n < c.blocks && b < c.batch && hk < c.headsKv :: Tile(n, b, hk);
    var acc := map t | t in tiles :: seq(c.elements, _ => c.zero);
    State(seq(2, _ => seq(c.Slots(), _ => 0)), seq(2, _ => acc), seq(|c.ctas|, _ => Waiting(0)))
  }

  lemma InitHasInv<T>(c: Config<T>)
    requires c.Valid()
    ensures Inv(c, Init(c))
  {
    hide Config.Slot, Config.Slots;
    var st := Init(c);
    forall t | c.InGrid(t) ensures t in st.acc[0] {
      assert t == Tile(t.n, t.b, t.hk);
    }
    assert Shape(c, st);
    forall p, t | 0 <= p < 2 && c.InGrid(t) ensures Semaphore(c, st, p, t) == 0 {
      SlotInAllocation(c, t);
    }
  }

  // ---------------------------------------------------------------- progress

  ghost predicate Done<T>(st: State<T>) {
    forall x | 0 <= x < |st.pcs| :: st.pcs[x].Finished?
  }

  ghost predicate CanStep<T>(c: Config<T>, st: State<T>)
    requires c.Valid() && Shape(c, st)
  {
    exists a :: Enabled(c, st, a)
  }

  lemma AddingCanStep<T>(c: Config<T>, st: State<T>, x: nat)
    requires Inv(c, st) && x < |c.ctas| && st.pcs[x].Adding?
    ensures CanStep(c, st)
  {
    hide Ordered, Folded;
    if st.pcs[x].left == {} {
      assert Enabled(c, st, Arrive(x));
    } else {
      var e :| e in st.pcs[x].left;
      assert Enabled(c, st, Add(x, e));
    }
  }

  /** While turns remain at a tile, the CTA whose turn it is has not passed. */
  lemma HolderIsBehind<T>(c: Config<T>, st: State<T>, p: nat, t: Tile) returns (y: nat)
    requires Inv(c, st) && p < 2 && c.InGrid(t) && Semaphore(c, st, p, t) < c.group
    ensures y < |c.ctas| && c.TileOf(c.ctas[y]) == t && c.Turn(c.ctas[y]) == Semaphore(c, st, p, t)
    ensures !Passed(st.pcs[y], p)
  {
    hide Config.Slot, Config.Slots, Semaphore, Fold, Folded;
    var s := Semaphore(c, st, p, t);
    HolderIsInLaunch(c, t, s);
    y :| 0 <= y < |c.ctas| && c.ctas[y] == c.Holder(t, s);
    assert TurnIsRight(c, st, y);
  }

  lemma HolderCanStep<T>(c: Config<T>, st: State<T>, y: nat)
    requires Inv(c, st) && y < |c.ctas| && !st.pcs[y].Finished?
    requires c.InGrid(c.TileOf(c.ctas[y]))
    requires Semaphore(c, st, st.pcs[y].phase, c.TileOf(c.ctas[y])) == c.Turn(c.ctas[y])
    ensures CanStep(c, st)
  {
    hide Config.Slot, Config.Slots, Semaphore, Fold, Folded;
    if st.pcs[y].Adding? {
      AddingCanStep(c, st, y);
    } else {
      assert Enabled(c, st, Acquire(y));
    }
  }

  /** The run never sticks: the CTA that a waiting CTA ultimately waits for can step. */
  lemma NeverSticks<T>(c: Config<T>, st: State<T>)
    requires Inv(c, st) && !Done(st)
    ensures CanStep(c, st)
  {
    hide Config.Slot, Config.Slots, Semaphore, Fold, Folded, CanStep, Enabled;
    var x :| 0 <= x < |st.pcs| && !st.pcs[x].Finished?;
    var t := c.TileOf(c.ctas[x]);
    CtaHoldsItsTurn(c, c.ctas[x]);
    assert TurnIsRight(c, st, x);
    if Semaphore(c, st, 0, t) < c.group {
      var y := HolderIsBehind(c, st, 0, t);
      HolderCanStep(c, st, y);
    } else {
      var y := HolderIsBehind(c, st, 1, t);
      assert TurnIsRight(c, st, y);
      HolderCanStep(c, st, y);
    }
  }

  // ---------------------------------------------------------------- termination

  /** Steps a CTA still has to take. */
  ghost function StepsLeft<T>(c: Config<T>): Pc -> int {
    (pc: Pc) =>
      match pc
      case Waiting(p) => (2 - p) * (c.elements + 2)
      case Adding(p, left) => (1 - p) * (c.elements + 2) + |left| + 1
      case Finished => 0
  }

  ghost function Work<T>(c: Config<T>, st: State<T>): int { Total(st.pcs, StepsLeft(c)) }

  /** The number of steps of a complete run. */
  function Steps<T>(c: Config<T>): int { |c.ctas| * (2 * (c.elements + 2)) }

  lemma NextDoesOneStep<T>(c: Config<T>, st: State<T>, a: Action)
    requires Inv(c, st) && Enabled(c, st, a)
    ensures Work(c, Next(c, st, a)) == Work(c, st) - 1
  {
    hide Total, Ordered, Folded, Config.Slot, Config.Slots, Semaphore;
    TotalUpdate(st.pcs, a.x, Next(c, st, a).pcs[a.x], StepsLeft(c));
  }

  lemma WorkLeft<T>(c: Config<T>, st: State<T>)
    requires Inv(c, st)
    ensures Work(c, st) >= 0 && (Done(st) ==> Work(c, st) == 0)
  {
    hide Total, Ordered, Folded;
    TotalNonNegative(st.pcs, StepsLeft(c));
    if Done(st) { TotalOfEqual(st.pcs, StepsLeft(c), 0); }
  }

  lemma InitialWork<T>(c: Config<T>)
    ensures Work(c, Init(c)) == Steps(c)
  {
    hide Total;
    TotalOfEqual(Init(c).pcs, StepsLeft(c), 2 * (c.elements + 2));
  }

  // ---------------------------------------------------------------- whole runs

  ghost predicate CanRun<T>(c: Config<T>, st: State<T>, run: seq<Action>)
    requires Inv(c, st)
    decreases |run|
  {
    run == [] || (Enabled(c, st, run[0]) && (NextKeepsInv(c, st, run[0]); CanRun(c, Next(c, st, run[0]), run[1..])))
  }

  ghost function After<T>(c: Config<T>, st: State<T>, run: seq<Action>): State<T>
    requires Inv(c, st) && CanRun(c, st, run)
    decreases |run|
  {
    if run == [] then st else NextKeepsInv(c, st, run[0]); After(c, Next(c, st, run[0]), run[1..])
  }

  lemma {:induction false} RunsKeepInv<T>(c: Config<T>, st: State<T>, run: seq<Action>)
    requires Inv(c, st) && CanRun(c, st, run)
    ensures Inv(c, After(c, st, run)) && Work(c, After(c, st, run)) == Work(c, st) - |run|
    decreases |run|
  {
    hide Ordered, Folded, Work, Next, Enabled;
    if run != [] {
      NextKeepsInv(c, st, run[0]);
      NextDoesOneStep(c, st, run[0]);
      RunsKeepInv(c, Next(c, st, run[0]), run[1..]);
    }
  }

  /** dV (phase 0) and dK (phase 1) hold the fold over all the heads of the group. */
  ghost predicate IsFold<T>(c: Config<T>, acc: seq<map<Tile, seq<T>>>) {
    && |acc| == 2
    && forall p, t | 0 <= p < 2 && c.InGrid(t) ::
         && t in acc[p] && |acc[p][t]| == c.elements
         && forall e | 0 <= e < c.elements :: acc[p][t][e] == Fold(c, p, t, e, c.group)
  }

  lemma DoneMeansFold<T>(c: Config<T>, st: State<T>)
    requires Inv(c, st) && Done(st)
    ensures IsFold(c, st.acc)
  {
    hide Config.Slot, Config.Slots, Semaphore, Fold;
    forall p, t | 0 <= p < 2 && c.InGrid(t) ensures Semaphore(c, st, p, t) == c.group {
      if Semaphore(c, st, p, t) < c.group { var y := HolderIsBehind(c, st, p, t); }
    }
  }

  lemma InvMeansShape<T>(c: Config<T>, st: State<T>)
    requires Inv(c, st)
    ensures Shape(c, st)
  {
  }

  lemma StepMeansWork<T>(c: Config<T>, st: State<T>)
    requires Inv(c, st) && CanStep(c, st)
    ensures Work(c, st) > 0
  {
    hide Ordered, Folded, Work, Next, Enabled;
    var a :| Enabled(c, st, a);
    NextKeepsInv(c, st, a);
    NextDoesOneStep(c, st, a);
    WorkLeft(c, Next(c, st, a));
  }

  /** The main result.  In every interleaving and for any addition, associative or not: a run
      has at most Steps(c) steps, it can be continued until it has exactly that many, and then
      every element is the one left fold over the query heads of its group in order. */
  lemma EveryRunFoldsInOrder<T>(c: Config<T>, run: seq<Action>)
    requires c.Valid()
    ensures Inv(c, Init(c))
    ensures CanRun(c, Init(c), run) ==>
              var st := After(c, Init(c), run);
              && Inv(c, st) && |run| <= Steps(c)
              && (CanStep(c, st) <==> |run| < Steps(c))
              && (|run| == Steps(c) ==> IsFold(c, st.acc))
  {
    hide Inv, Work, Next, CanStep, IsFold;
    InitHasInv(c);
    if CanRun(c, Init(c), run) {
      RunsKeepInv(c, Init(c), run);
      InitialWork(c);
      var st := After(c, Init(c), run);
      WorkLeft(c, st);
      InvMeansShape(c, st);
      if Done(st) { DoneMeansFold(c, st); } else { NeverSticks(c, st); }
      if CanStep(c, st) { StepMeansWork(c, st); }
    }
  }

  /** A launch that concatenates names: every CTA contributes its own, to an empty list. */
  ghost predicate Lists(c: Config<seq<Cta>>) {
    && c.zero == []
    && (forall a, b :: c.add(a, b) == a + b)
    && (forall p, x, e :: c.part(p, x, e) == [x])
  }

  /** The CTAs of the first k query heads of a tile's group, by head. */
  function ByHead(t: Tile, group: nat, k: nat): seq<Cta> {
    seq(k, i requires 0 <= i < k => Cta(t.n, t.hk * group + i, t.b))
  }

  lemma {:induction false} FoldIsByHead(c: Config<seq<Cta>>, p: nat, t: Tile, e: nat, k: nat)
    requires Lists(c) && k <= c.group
    ensures Fold(c, p, t, e, k) == ByHead(t, c.group, k)
  {
    if k > 0 {
      FoldIsByHead(c, p, t, e, k - 1);
      assert ByHead(t, c.group, k) == ByHead(t, c.group, k - 1) + [Cta(t.n, t.hk * c.group + k - 1, t.b)];
    }
  }

  /** The order of the additions: in every complete run each element has received the CTAs of
      its own key block and batch entry, once each, from head hk * q up to hk * q + q - 1. */
  lemma EveryRunListsHeads(c: Config<seq<Cta>>, run: seq<Action>, p: nat, t: Tile, e: nat)
    requires c.Valid() && Lists(c) && p < 2 && c.InGrid(t) && e < c.elements
    ensures Inv(c, Init(c))
    ensures CanRun(c, Init(c), run) && |run| == Steps(c) ==>
              var st := After(c, Init(c), run);
              |st.acc| == 2 && t in st.acc[p] && |st.acc[p][t]| == c.elements
              && st.acc[p][t][e] == ByHead(t, c.group, c.group)
  {
    hide Inv, CanRun, After, Fold, Lists, Steps;
    EveryRunFoldsInOrder(c, run);
    FoldIsByHead(c, p, t, e, c.group);
  }

  /** The scheduler picks an enabled action whenever there is one. */
  ghost predicate Schedules<T(!new)>(c: Config<T>, schedule: (nat, State<T>) -> Action) {
    forall k, st :: Inv(c, st) && CanStep(c, st) ==> Enabled(c, st, schedule(k, st))
  }

  /** The stores of a whole launch under an arbitrary scheduler. */
  method Execute<T(!new)>(c: Config<T>, schedule: (nat, State<T>) -> Action) returns (acc: seq<map<Tile, seq<T>>>)
    requires c.Valid() && Schedules(c, schedule)
    ensures IsFold(c, acc)
  {
    hide Ordered, Folded, Work, Next, Enabled, CanStep, IsFold, Steps;
    var st := Init(c);
    InitHasInv(c);
    InitialWork(c);
    WorkLeft(c, st);
    var k := 0;
    while k < Steps(c)
      invariant k <= Steps(c) && Inv(c, st) && Work(c, st) == Steps(c) - k
    {
      WorkLeft(c, st);
      if Done(st) { assert false; }
      NeverSticks(c, st);
      var a := schedule(k, st);
      NextKeepsInv(c, st, a);
      NextDoesOneStep(c, st, a);
      st := Next(c, st, a);
      k := k + 1;
    }
    if !Done(st) { NeverSticks(c, st); StepMeansWork(c, st); assert false; }
    DoneMeansFold(c, st);
    acc := st.acc;
  }
}
