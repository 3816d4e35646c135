/** A multi-stage producer/consumer pipeline: one producer, asynchronous copies into a ring of
    shared-memory stages, and a warp of lanes that read a stage and release it together.
    `kernel` in `AI/racecheck_repro_1d_bulk.py`, for any number of blocks, stages and lanes.
    Barriers are counters of completed phases of which a waiter sees only the parity (PTX ISA,
    "Parallel Synchronization and Communication Instructions: mbarrier"). */
module RingPipeline {
  import opened TruncatedDivision
  import opened SeqTotals

  /** `leader` is the lane that signals in consumer_release. */
  datatype Config<T> = Config(src: seq<seq<T>>, stages: nat, lanes: nat, perLane: nat, leader: nat)
  {
    function Blocks(): nat { |src| }
    function Tile(): nat { lanes * perLane }
    ghost predicate Valid() {
      && stages > 0 && leader < lanes
      && (forall k | 0 <= k < Blocks() :: |src[k]| == Tile())
    }
  }

  /** An asynchronous copy in flight: the block and the elements not yet written. */
  datatype Slot = Idle | Copying(blk: nat, left: set<nat>)

  /** `make_pipeline_state`: position and phase bit. */
  datatype Cursor = Cursor(blk: nat, index: nat, phase: nat) {
    function Advance(stages: nat): Cursor {
      if index + 1 == stages then Cursor(blk + 1, 0, if phase == 0 then 1 else 0) else Cursor(blk + 1, index + 1, phase)
    }
  }

  datatype LanePc = Waiting | Reading(i: nat) | AtSync | Releasing

  datatype Lane = Lane(at: Cursor, pc: LanePc)

  datatype State<T> = State(full: seq<nat>, empty: seq<nat>, copies: seq<Slot>, smem: seq<seq<T>>,
                                dst: seq<seq<T>>, producer: Cursor, acquired: bool, lanes: seq<Lane>)

  datatype Action =
    | Acquire | Issue
    | CopyElement(s: nat, e: nat) | CopyDone(s: nat)
    | Wait(l: nat) | Read(l: nat) | Arrive(l: nat) | Pass(l: nat) | Release(l: nat)

  /** mbarrier test with a parity: the phase of that parity has completed. */
  predicate Passes(completed: nat, parity: nat) { completed % 2 != parity }

  // ---------------------------------------------------------------- progress of one lane

  /** Blocks the lane has waited for, read and reported at sync_warp, and left sync_warp for. */
  function Entered(lane: Lane): nat { lane.at.blk + (if lane.pc.Waiting? then 0 else 1) }

  function Arrived(lane: Lane): nat { lane.at.blk + (if lane.pc.AtSync? || lane.pc.Releasing? then 1 else 0) }

  function Left(lane: Lane): nat { lane.at.blk + (if lane.pc.Releasing? then 1 else 0) }

  // ---------------------------------------------------------------- the transitions

  /** Sizes, and indices in range: what makes the transitions well defined. */
  ghost predicate Shape<T>(c: Config<T>, st: State<T>) {
    && c.stages > 0
    && |st.full| == |st.empty| == |st.copies| == |st.smem| == c.stages && |st.lanes| == c.lanes
    && |st.dst| == c.Blocks()
    && (forall k | 0 <= k < c.Blocks() :: |st.dst[k]| == c.Tile())
    && (forall s | 0 <= s < c.stages :: |st.smem[s]| == c.Tile())
    && st.producer.index < c.stages
    && (forall s | 0 <= s < c.stages && st.copies[s].Copying? ::
          st.copies[s].blk < c.Blocks() && forall e | e in st.copies[s].left :: e < c.Tile())
    && (forall l | 0 <= l < c.lanes ::
          st.lanes[l].at.index < c.stages && (!st.lanes[l].pc.Waiting? ==> st.lanes[l].at.blk < c.Blocks()))
  }

  predicate Enabled<T>(c: Config<T>, st: State<T>, a: Action)
    requires Shape(c, st)
  {
    match a
    case Acquire =>
      && st.producer.blk < c.Blocks() && !st.acquired
      && Passes(st.empty[st.producer.index], st.producer.phase)
    case Issue => st.producer.blk < c.Blocks() && st.acquired
    case CopyElement(s, e) => s < c.stages && st.copies[s].Copying? && e in st.copies[s].left
    case CopyDone(s) => s < c.stages && st.copies[s].Copying? && st.copies[s].left == {}
    case Wait(l) => l < c.lanes && st.lanes[l].pc.Waiting? && st.lanes[l].at.blk < c.Blocks()
                    && Passes(st.full[st.lanes[l].at.index], st.lanes[l].at.phase)
    case Read(l) => l < c.lanes && st.lanes[l].pc.Reading? && st.lanes[l].pc.i < c.perLane
    case Arrive(l) => l < c.lanes && st.lanes[l].pc.Reading? && st.lanes[l].pc.i >= c.perLane
    case Pass(l) => l < c.lanes && st.lanes[l].pc.AtSync?
                    && forall k | 0 <= k < c.lanes :: Arrived(st.lanes[k]) > st.lanes[l].at.blk
    case Release(l) => l < c.lanes && st.lanes[l].pc.Releasing?
  }

  function SetPc<T>(st: State<T>, l: nat, pc: LanePc): State<T>
    requires l < |st.lanes|
  {
    st.(lanes := st.lanes[l := st.lanes[l].(pc := pc)])
  }

  /** The i-th element lane l reads. */
  function Element<T>(c: Config<T>, l: nat, i: nat): (e: nat)
    requires l < c.lanes && i < c.perLane
    ensures e < c.Tile() && e % c.lanes == l && e / c.lanes == i
  {
    MulMonotone(i + 1, c.perLane, c.lanes);
    assert (i + 1) * c.lanes == i * c.lanes + c.lanes;
    QuotientUnique(l + i * c.lanes, c.lanes, i);
    l + i * c.lanes
  }

  function Next<T>(c: Config<T>, st: State<T>, a: Action): State<T>
    requires c.Valid() && Shape(c, st) && Enabled(c, st, a)
  {
    match a
    case Acquire => st.(acquired := true)
    case Issue =>
      st.(copies := st.copies[st.producer.index := Copying(st.producer.blk, Below(c.Tile()))],
          acquired := false, producer := st.producer.Advance(c.stages))
    case CopyElement(s, e) =>
      var slot := st.copies[s];
      st.(smem := st.smem[s := st.smem[s][e := c.src[slot.blk][e]]],
          copies := st.copies[s := Copying(slot.blk, slot.left - {e})])
    case CopyDone(s) => st.(copies := st.copies[s := Idle], full := st.full[s := st.full[s] + 1])
    case Wait(l) => SetPc(st, l, Reading(0))
    case Read(l) =>
      var lane := st.lanes[l];
      var e := Element(c, l, lane.pc.i);
      SetPc(st.(dst := st.dst[lane.at.blk := st.dst[lane.at.blk][e := st.smem[lane.at.index][e]]]),
            l, Reading(lane.pc.i + 1))
    case Arrive(l) => SetPc(st, l, AtSync)
    case Pass(l) => SetPc(st, l, Releasing)
    case Release(l) =>
      var at := st.lanes[l].at;
      var st' := st.(lanes := st.lanes[l := Lane(at.Advance(c.stages), Waiting)]);
      if l == c.leader then st'.(empty := st.empty[at.index := st.empty[at.index] + 1]) else st'
  }

  // ---------------------------------------------------------------- counting a stage's uses

  /** The stage of block b, and how often the ring has turned before it. */
  function Stage(b: nat, stages: nat): (s: nat)
    requires stages > 0
    ensures s < stages
  {
    b % stages
  }

  function Turn(b: nat, stages: nat): nat
    requires stages > 0
  {
    b / stages
  }

  lemma StageTurn(b: nat, stages: nat)
    requires stages > 0
    ensures b == Turn(b, stages) * stages + Stage(b, stages)
  {
  }

  lemma StageOf(b: nat, stages: nat, q: nat, qs: nat)
    requires stages > 0 && qs == q * stages && qs <= b < qs + stages
    ensures Turn(b, stages) == q && Stage(b, stages) == b - qs
  {
    QuotientFrom(b, stages, q, qs);
  }

  /** How many of the blocks below n use stage s. */
  ghost function Uses(n: nat, s: nat, stages: nat): nat
    requires stages > 0
  {
    if n == 0 then 0 else Uses(n - 1, s, stages) + (if Stage(n - 1, stages) == s then 1 else 0)
  }

  /** One more block in the current turn, or the first of the next. */
  lemma NextBlock(b: nat, stages: nat)
    requires stages > 0
    ensures Stage(b + 1, stages) == (if Stage(b, stages) + 1 == stages then 0 else Stage(b, stages) + 1)
    ensures Turn(b + 1, stages) == Turn(b, stages) + (if Stage(b, stages) + 1 == stages then 1 else 0)
  {
    hide Stage, Turn;
    StageTurn(b, stages);
    var q := Turn(b, stages);
    var qs := q * stages;
    if Stage(b, stages) + 1 == stages {
      assert (q + 1) * stages == qs + stages;
      StageOf(b + 1, stages, q + 1, qs + stages);
    } else {
      StageOf(b + 1, stages, q, qs);
    }
  }

  /** The uses of a stage below n: one per full turn, and one more once the turn has passed it. */
  lemma {:induction false} UsesFormula(n: nat, s: nat, stages: nat)
    requires s < stages
    ensures Uses(n, s, stages) == Turn(n, stages) + (if Stage(n, stages) > s then 1 else 0)
  {
    if n == 0 {
      StageOf(0, stages, 0, 0);
    } else {
      UsesFormula(n - 1, s, stages);
      NextBlock(n - 1, stages);
    }
  }

  /** A block one turn earlier. */
  lemma TurnBefore(b: nat, stages: nat)
    requires stages > 0
    ensures Stage(b + stages, stages) == Stage(b, stages) && Turn(b + stages, stages) == Turn(b, stages) + 1
  {
    hide Stage, Turn;
    StageTurn(b, stages);
    var q := Turn(b, stages);
    var qs := q * stages;
    assert (q + 1) * stages == qs + stages;
    StageOf(b + stages, stages, q + 1, qs + stages);
  }

  /** Within one turn of the ring, the uses of a block's stage tell whether the block is used. */
  lemma UsesInWindow(n: nat, b: nat, stages: nat)
    requires stages > 0 && b <= n <= b + stages
    ensures Uses(n, Stage(b, stages), stages) == Turn(b, stages) + (if n > b then 1 else 0)
  {
    hide Stage, Turn, Uses;
    var s, q := Stage(b, stages), Turn(b, stages);
    StageTurn(b, stages);
    UsesFormula(n, s, stages);
    var qs := q * stages;
    if n < qs + stages {
      StageOf(n, stages, q, qs);
    } else {
      assert (q + 1) * stages == qs + stages;
      StageOf(n, stages, q + 1, qs + stages);
    }
  }

  /** The same, looking back one turn: whether the stage a block is about to fill is free. */
  lemma UsesBehind(n: nat, b: nat, stages: nat)
    requires stages > 0 && n <= b <= n + stages
    ensures Uses(n, Stage(b, stages), stages) == Turn(b, stages) - (if n + stages > b then 0 else 1)
  {
    hide Stage, Turn, Uses;
    if b >= stages {
      TurnBefore(b - stages, stages);
      UsesInWindow(n, b - stages, stages);
    } else {
      StageOf(b, stages, 0, 0);
      StageOf(n, stages, 0, 0);
      UsesFormula(n, b, stages);
    }
  }

  lemma SameStage(a: nat, b: nat, stages: nat)
    requires stages > 0 && Stage(a, stages) == Stage(b, stages) && a < b
    ensures a + stages <= b
  {
    hide Stage, Turn;
    StageTurn(a, stages);
    StageTurn(b, stages);
    var p, q := Turn(a, stages), Turn(b, stages);
    if p < q {
      MulMonotone(p + 1, q, stages);
      assert (p + 1) * stages == p * stages + stages;
    } else {
      MulMonotone(q, p, stages);
    }
  }

  /** A cursor that tracks its block; the producer starts with the opposite phase bit. */
  predicate Tracks(at: Cursor, stages: nat, flip: nat)
    requires stages > 0
  {
    at.index == Stage(at.blk, stages) && at.phase == (Turn(at.blk, stages) + flip) % 2
  }

  lemma AdvanceTracks(at: Cursor, stages: nat, flip: nat)
    requires stages > 0 && Tracks(at, stages, flip)
    ensures Tracks(at.Advance(stages), stages, flip)
  {
    hide Stage, Turn;
    NextBlock(at.blk, stages);
  }

  // ---------------------------------------------------------------- the invariant

  /** Blocks the leader has released. */
  ghost function Released<T>(c: Config<T>, st: State<T>): nat
    requires c.Valid() && Shape(c, st)
  {
    st.lanes[c.leader].at.blk
  }

  /** The producer is at most one ring ahead of the release, and barriers count uses. */
  ghost predicate Counters<T>(c: Config<T>, st: State<T>)
    requires c.Valid() && Shape(c, st)
  {
    var issued, released := st.producer.blk, Released(c, st);
    && released <= issued <= c.Blocks()
    && issued + (if st.acquired then 1 else 0) <= released + c.stages
    && (st.acquired ==> issued < c.Blocks())
    && Tracks(st.producer, c.stages, 1)
    && (forall l | 0 <= l < c.lanes :: Tracks(st.lanes[l].at, c.stages, 0))
    && (forall s | 0 <= s < c.stages :: st.empty[s] == Uses(released, s, c.stages))
    && (forall s | 0 <= s < c.stages ::
          st.full[s] + (if st.copies[s].Copying? then 1 else 0) == Uses(issued, s, c.stages))
  }

  /** The last block issued to a stage is in the stage, except for what its copy still has to
      write. */
  ghost predicate Contents<T>(c: Config<T>, st: State<T>)
    requires c.Valid() && Shape(c, st)
  {
    && (forall s | 0 <= s < c.stages && st.copies[s].Copying? ::
          Stage(st.copies[s].blk, c.stages) == s && st.copies[s].blk < st.producer.blk <= st.copies[s].blk + c.stages)
    && (forall b, e | 0 <= b < c.Blocks() && b < st.producer.blk <= b + c.stages && 0 <= e < c.Tile() ::
          var s := Stage(b, c.stages);
          (st.copies[s].Copying? && e in st.copies[s].left) || st.smem[s][e] == c.src[b][e])
  }

  /** Lanes move together: none leaves sync_warp before all have arrived, and none enters a
      block before its copy has landed. */
  ghost predicate Together<T>(c: Config<T>, st: State<T>)
    requires c.Valid() && Shape(c, st)
  {
    && (forall l, k | 0 <= l < c.lanes && 0 <= k < c.lanes :: Left(st.lanes[l]) <= Arrived(st.lanes[k]))
    && (forall l | 0 <= l < c.lanes :: Entered(st.lanes[l]) <= st.producer.blk)
    && (forall l, s | 0 <= l < c.lanes && 0 <= s < c.stages && st.copies[s].Copying? ::
          Entered(st.lanes[l]) <= st.copies[s].blk)
    && (forall l | 0 <= l < c.lanes && st.lanes[l].pc.Reading? :: st.lanes[l].pc.i <= c.perLane)
  }

  /** Lane l has copied element i of block b. */
  ghost predicate HasRead<T>(c: Config<T>, lane: Lane, b: nat, i: nat) {
    || b < lane.at.blk
    || (b == lane.at.blk && (lane.pc.AtSync? || lane.pc.Releasing? || (lane.pc.Reading? && i < lane.pc.i)))
  }

  /** What lanes have copied is what the source holds. */
  ghost predicate Written<T>(c: Config<T>, st: State<T>)
    requires c.Valid() && Shape(c, st)
  {
    forall b, l, i | 0 <= b < c.Blocks() && 0 <= l < c.lanes && 0 <= i < c.perLane
                     && HasRead(c, st.lanes[l], b, i) ::
      st.dst[b][Element(c, l, i)] == c.src[b][Element(c, l, i)]
  }

  ghost predicate Inv<T>(c: Config<T>, st: State<T>) {
    && c.Valid() && Shape(c, st)
    && Counters(c, st) && Contents(c, st) && Together(c, st) && Written(c, st)
  }

  // ---------------------------------------------------------------- what a lane sees

  /** A lane inside a block reads a stage whose copy has landed and that no copy is writing. */
  lemma LaneInsideBlock<T>(c: Config<T>, st: State<T>, l: nat)
    requires c.Valid() && Shape(c, st) && Counters(c, st) && Contents(c, st) && Together(c, st)
    requires l < c.lanes && st.lanes[l].pc.Reading?
    ensures var at := st.lanes[l].at;
            && at.blk < st.producer.blk <= at.blk + c.stages
            && at.index == Stage(at.blk, c.stages)
            && st.copies[at.index].Idle?
            && st.smem[at.index] == c.src[at.blk]
  {
    var at := st.lanes[l].at;
    assert Left(st.lanes[c.leader]) <= Arrived(st.lanes[l]);
    if st.copies[at.index].Copying? {
      SameStage(at.blk, st.copies[at.index].blk, c.stages);
    }
    forall e | 0 <= e < c.Tile() ensures st.smem[at.index][e] == c.src[at.blk][e] {}
  }

  /** A parity distinguishes two consecutive phase counts. */
  lemma ParityTells(completed: nat, turn: nat)
    requires completed == turn || completed == turn + 1
    ensures Passes(completed, turn % 2) <==> completed == turn + 1
  {
  }

  /** The same for a waiter that looks at the phase before, with the opposite bit. */
  lemma ParityTellsBehind(completed: nat, turn: nat)
    requires completed == turn || completed + 1 == turn
    ensures Passes(completed, (turn + 1) % 2) <==> completed == turn
  {
    if completed + 1 == turn { assert (completed + 2) % 2 == completed % 2; }
  }

  lemma CopyIsIssued<T>(c: Config<T>, st: State<T>, s: nat)
    requires c.Valid() && Shape(c, st) && Contents(c, st) && s < c.stages
    ensures st.copies[s].Copying? ==> st.copies[s].blk < st.producer.blk
  {
  }

  /** The parity a lane sees tells the truth: it passes exactly when its block has landed. */
  lemma WaitIsExact<T>(c: Config<T>, st: State<T>, l: nat)
    requires Inv(c, st) && l < c.lanes && st.lanes[l].pc.Waiting?
    ensures var at := st.lanes[l].at;
            Passes(st.full[at.index], at.phase)
            <==> at.blk < st.producer.blk && st.copies[at.index].Idle?
  {
    hide Stage, Turn, Uses, Element, Written, Contents, Passes;
    var at := st.lanes[l].at;
    assert Left(st.lanes[c.leader]) <= Arrived(st.lanes[l]);
    assert Entered(st.lanes[l]) <= st.producer.blk;
    UsesInWindow(st.producer.blk, at.blk, c.stages);
    assert st.copies[at.index].Copying? ==> Entered(st.lanes[l]) <= st.copies[at.index].blk;
    CopyIsIssued(c, st, at.index);
    ParityTells(st.full[at.index], Turn(at.blk, c.stages));
  }

  /** The producer's parity test passes exactly when its stage has been released. */
  lemma AcquireIsExact<T>(c: Config<T>, st: State<T>)
    requires Inv(c, st)
    ensures Passes(st.empty[st.producer.index], st.producer.phase)
            <==> st.producer.blk < Released(c, st) + c.stages
  {
    hide Stage, Turn, Uses, Element, Written, Contents, Together, Passes;
    var issued := st.producer.blk;
    UsesBehind(Released(c, st), issued, c.stages);
    ParityTellsBehind(st.empty[st.producer.index], Turn(issued, c.stages));
  }

  // ---------------------------------------------------------------- every step keeps it

  lemma NextKeepsShape<T>(c: Config<T>, st: State<T>, a: Action)
    requires c.Valid() && Shape(c, st) && Enabled(c, st, a)
    ensures Shape(c, Next(c, st, a))
  {
    hide Element;
  }

  lemma AcquireKeepsInv<T>(c: Config<T>, st: State<T>)
    requires Inv(c, st) && Enabled(c, st, Acquire)
    ensures Inv(c, Next(c, st, Acquire))
  {
    hide Stage, Turn, Uses, Element;
    AcquireIsExact(c, st);
  }

  /** The stage the producer fills next is idle and belongs to no block still in the ring. */
  lemma StageToFillIsFree<T>(c: Config<T>, st: State<T>)
    requires Inv(c, st) && Enabled(c, st, Issue)
    ensures st.copies[st.producer.index].Idle?
    ensures forall b: nat | b < st.producer.blk < b + c.stages :: Stage(b, c.stages) != st.producer.index
    ensures forall s | 0 <= s < c.stages && st.copies[s].Copying? :: st.producer.blk < st.copies[s].blk + c.stages
  {
    hide Turn, Uses, Element;
    var issued := st.producer.blk;
    forall b: nat | b < issued < b + c.stages ensures Stage(b, c.stages) != st.producer.index {
      if Stage(b, c.stages) == st.producer.index { SameStage(b, issued, c.stages); }
    }
    forall s | 0 <= s < c.stages && st.copies[s].Copying? ensures issued < st.copies[s].blk + c.stages {
      assert Entered(st.lanes[c.leader]) <= st.copies[s].blk;
    }
  }

  lemma IssueKeepsInv<T>(c: Config<T>, st: State<T>)
    requires Inv(c, st) && Enabled(c, st, Issue)
    ensures Inv(c, Next(c, st, Issue))
  {
    hide Turn, Element, Stage;
    StageToFillIsFree(c, st);
    AdvanceTracks(st.producer, c.stages, 1);
    NextKeepsShape(c, st, Issue);
  }

  /** Two blocks of one turn-length window that share a stage are the same block. */
  lemma OneBlockPerStage(a: nat, b: nat, n: nat, stages: nat)
    requires stages > 0 && Stage(a, stages) == Stage(b, stages)
    requires a < n <= a + stages && b < n <= b + stages
    ensures a == b
  {
    hide Stage;
    if a < b { SameStage(a, b, stages); } else if b < a { SameStage(b, a, stages); }
  }

  lemma CopyElementKeepsInv<T>(c: Config<T>, st: State<T>, s: nat, e: nat)
    requires Inv(c, st) && Enabled(c, st, CopyElement(s, e))
    ensures Inv(c, Next(c, st, CopyElement(s, e)))
  {
    hide Turn, Uses, Element, Stage;
    var k, st' := st.copies[s].blk, Next(c, st, CopyElement(s, e));
    forall b, x | 0 <= b < c.Blocks() && b < st.producer.blk <= b + c.stages && 0 <= x < c.Tile()
      ensures var t := Stage(b, c.stages);
              (st'.copies[t].Copying? && x in st'.copies[t].left) || st'.smem[t][x] == c.src[b][x]
    {
      if Stage(b, c.stages) == s { OneBlockPerStage(b, k, st.producer.blk, c.stages); }
    }
  }

  lemma CopyDoneKeepsInv<T>(c: Config<T>, st: State<T>, s: nat)
    requires Inv(c, st) && Enabled(c, st, CopyDone(s))
    ensures Inv(c, Next(c, st, CopyDone(s)))
  {
    hide Turn, Uses, Element, Stage;
  }

  /** Changing where a lane stands in its block concerns neither barriers nor stages. */
  lemma PcChangeKeepsRing<T>(c: Config<T>, st: State<T>, l: nat, pc: LanePc)
    requires c.Valid() && Shape(c, st) && Counters(c, st) && Contents(c, st) && l < c.lanes
    requires st.lanes[l].at.blk < c.Blocks()
    ensures Shape(c, SetPc(st, l, pc)) && Counters(c, SetPc(st, l, pc)) && Contents(c, SetPc(st, l, pc))
  {
    hide Turn, Uses, Element, Stage;
  }

  lemma WaitKeepsTogether<T>(c: Config<T>, st: State<T>, l: nat)
    requires c.Valid() && Shape(c, st) && Together(c, st) && l < c.lanes && st.lanes[l].pc.Waiting?
    requires st.lanes[l].at.blk < st.producer.blk && st.lanes[l].at.blk < c.Blocks()
    requires forall s | 0 <= s < c.stages && st.copies[s].Copying? :: st.copies[s].blk != st.lanes[l].at.blk
    ensures Shape(c, SetPc(st, l, Reading(0))) && Together(c, SetPc(st, l, Reading(0)))
  {
    hide Element;
  }

  lemma WaitKeepsWritten<T>(c: Config<T>, st: State<T>, l: nat)
    requires c.Valid() && Shape(c, st) && Written(c, st) && l < c.lanes
    requires st.lanes[l].pc.Waiting? && st.lanes[l].at.blk < c.Blocks()
    ensures Shape(c, SetPc(st, l, Reading(0))) && Written(c, SetPc(st, l, Reading(0)))
  {
    hide Element;
  }

  lemma WaitKeepsInv<T>(c: Config<T>, st: State<T>, l: nat)
    requires Inv(c, st) && Enabled(c, st, Wait(l))
    ensures Inv(c, Next(c, st, Wait(l)))
  {
    hide Turn, Uses, Element, Stage, Passes, Together, Written;
    WaitIsExact(c, st, l);
    PcChangeKeepsRing(c, st, l, Reading(0));
    WaitKeepsTogether(c, st, l);
    WaitKeepsWritten(c, st, l);
  }

  lemma ReadKeepsTogether<T>(c: Config<T>, st: State<T>, l: nat)
    requires c.Valid() && Shape(c, st) && Together(c, st) && Enabled(c, st, Read(l)) && Shape(c, Next(c, st, Read(l)))
    ensures Together(c, Next(c, st, Read(l)))
  {
    hide Element;
  }

  lemma ReadKeepsRing<T>(c: Config<T>, st: State<T>, l: nat)
    requires Inv(c, st) && Enabled(c, st, Read(l))
    ensures var st' := Next(c, st, Read(l)); Shape(c, st') && Counters(c, st') && Contents(c, st') && Together(c, st')
  {
    hide Turn, Uses, Stage, Element, Written;
    NextKeepsShape(c, st, Read(l));
    ReadKeepsTogether(c, st, l);
    hide Together, Shape;
  }

  lemma ReadKeepsWritten<T>(c: Config<T>, st: State<T>, l: nat)
    requires Inv(c, st) && Enabled(c, st, Read(l))
    ensures Shape(c, Next(c, st, Read(l))) && Written(c, Next(c, st, Read(l)))
  {
    NextKeepsShape(c, st, Read(l));
    LaneInsideBlock(c, st, l);
    hide Turn, Uses, Stage, Element, Counters, Contents, Together;
  }

  lemma ReadKeepsInv<T>(c: Config<T>, st: State<T>, l: nat)
    requires Inv(c, st) && Enabled(c, st, Read(l))
    ensures Inv(c, Next(c, st, Read(l)))
  {
    ReadKeepsRing(c, st, l);
    ReadKeepsWritten(c, st, l);
  }

  /** Arriving at sync_warp, and leaving it once every lane has arrived. */
  lemma SyncKeepsTogether<T>(c: Config<T>, st: State<T>, l: nat, pc: LanePc)
    requires c.Valid() && Shape(c, st) && Together(c, st) && l < c.lanes
    requires (Enabled(c, st, Arrive(l)) && pc == AtSync) || (Enabled(c, st, Pass(l)) && pc == Releasing)
    ensures Shape(c, SetPc(st, l, pc)) && Together(c, SetPc(st, l, pc))
  {
    hide Element;
  }

  lemma SyncKeepsWritten<T>(c: Config<T>, st: State<T>, l: nat, pc: LanePc)
    requires c.Valid() && Shape(c, st) && Written(c, st) && l < c.lanes
    requires (Enabled(c, st, Arrive(l)) && pc == AtSync) || (Enabled(c, st, Pass(l)) && pc == Releasing)
    ensures Shape(c, SetPc(st, l, pc)) && Written(c, SetPc(st, l, pc))
  {
    hide Element;
  }

  lemma ArriveKeepsInv<T>(c: Config<T>, st: State<T>, l: nat)
    requires Inv(c, st) && Enabled(c, st, Arrive(l))
    ensures Inv(c, Next(c, st, Arrive(l)))
  {
    PcChangeKeepsRing(c, st, l, AtSync);
    SyncKeepsTogether(c, st, l, AtSync);
    SyncKeepsWritten(c, st, l, AtSync);
  }

  lemma PassKeepsInv<T>(c: Config<T>, st: State<T>, l: nat)
    requires Inv(c, st) && Enabled(c, st, Pass(l))
    ensures Inv(c, Next(c, st, Pass(l)))
  {
    PcChangeKeepsRing(c, st, l, Releasing);
    SyncKeepsTogether(c, st, l, Releasing);
    SyncKeepsWritten(c, st, l, Releasing);
  }

  lemma ReleaseKeepsCounters<T>(c: Config<T>, st: State<T>, l: nat)
    requires Inv(c, st) && Enabled(c, st, Release(l))
    ensures Shape(c, Next(c, st, Release(l))) && Counters(c, Next(c, st, Release(l)))
    ensures Contents(c, Next(c, st, Release(l)))
  {
    hide Turn, Element, Stage, Written;
    AdvanceTracks(st.lanes[l].at, c.stages, 0);
    NextKeepsShape(c, st, Release(l));
  }

  /** Releasing a block changes none of the lane's three progress counts. */
  lemma ReleaseKeepsProgress<T>(c: Config<T>, st: State<T>, l: nat)
    requires c.Valid() && Shape(c, st) && Enabled(c, st, Release(l))
    ensures var st' := Next(c, st, Release(l));
            && st'.copies == st.copies && st'.producer == st.producer && |st'.lanes| == |st.lanes|
            && forall k | 0 <= k < c.lanes ::
                 && Entered(st'.lanes[k]) == Entered(st.lanes[k]) && Arrived(st'.lanes[k]) == Arrived(st.lanes[k])
                 && Left(st'.lanes[k]) == Left(st.lanes[k])
                 && (st'.lanes[k].pc.Reading? ==> st'.lanes[k] == st.lanes[k])
  {
    hide Element;
  }

  lemma ReleaseKeepsTogether<T>(c: Config<T>, st: State<T>, l: nat)
    requires c.Valid() && Shape(c, st) && Together(c, st) && Enabled(c, st, Release(l))
    requires Shape(c, Next(c, st, Release(l)))
    ensures Together(c, Next(c, st, Release(l)))
  {
    hide Next, Entered, Arrived, Left, Enabled;
    ReleaseKeepsProgress(c, st, l);
  }

  lemma ReleaseKeepsWritten<T>(c: Config<T>, st: State<T>, l: nat)
    requires c.Valid() && Shape(c, st) && Written(c, st) && Enabled(c, st, Release(l))
    requires Shape(c, Next(c, st, Release(l)))
    ensures Written(c, Next(c, st, Release(l)))
  {
    hide Element;
  }

  lemma ReleaseKeepsLanes<T>(c: Config<T>, st: State<T>, l: nat)
    requires Inv(c, st) && Enabled(c, st, Release(l))
    ensures Shape(c, Next(c, st, Release(l)))
    ensures Together(c, Next(c, st, Release(l))) && Written(c, Next(c, st, Release(l)))
  {
    NextKeepsShape(c, st, Release(l));
    ReleaseKeepsTogether(c, st, l);
    ReleaseKeepsWritten(c, st, l);
  }

  lemma ReleaseKeepsInv<T>(c: Config<T>, st: State<T>, l: nat)
    requires Inv(c, st) && Enabled(c, st, Release(l))
    ensures Inv(c, Next(c, st, Release(l)))
  {
    hide Next, Counters, Contents, Together, Written, Shape, Enabled;
    NextKeepsShape(c, st, Release(l));
    ReleaseKeepsCounters(c, st, l);
    ReleaseKeepsLanes(c, st, l);
  }

  lemma NextKeepsInv<T>(c: Config<T>, st: State<T>, a: Action)
    requires Inv(c, st) && Enabled(c, st, a)
    ensures Inv(c, Next(c, st, a))
  {
    hide Inv, Next, Enabled;
    match a
    case Acquire => AcquireKeepsInv(c, st);
    case Issue => IssueKeepsInv(c, st);
    case CopyElement(s, e) => CopyElementKeepsInv(c, st, s, e);
    case CopyDone(s) => CopyDoneKeepsInv(c, st, s);
    case Wait(l) => WaitKeepsInv(c, st, l);
    case Read(l) => ReadKeepsInv(c, st, l);
    case Arrive(l) => ArriveKeepsInv(c, st, l);
    case Pass(l) => PassKeepsInv(c, st, l);
    case Release(l) => ReleaseKeepsInv(c, st, l);
  }

  // ---------------------------------------------------------------- the start

  /** Fresh barriers, nothing in flight, and any contents of shared memory and dst. */
  function Init<T>(c: Config<T>, smem: seq<seq<T>>, dst: seq<seq<T>>): State<T> {
    State(seq(c.stages, _ => 0), seq(c.stages, _ => 0), seq(c.stages, _ => Idle), smem, dst,
          Cursor(0, 0, 1), false, seq(c.lanes, _ => Lane(Cursor(0, 0, 0), Waiting)))
  }

  ghost predicate Buffers<T>(c: Config<T>, smem: seq<seq<T>>, dst: seq<seq<T>>) {
    && |smem| == c.stages && (forall s | 0 <= s < c.stages :: |smem[s]| == c.Tile())
    && |dst| == c.Blocks() && (forall k | 0 <= k < c.Blocks() :: |dst[k]| == c.Tile())
  }

  lemma InitHasInv<T>(c: Config<T>, smem: seq<seq<T>>, dst: seq<seq<T>>)
    requires c.Valid() && Buffers(c, smem, dst)
    ensures Inv(c, Init(c, smem, dst))
  {
    hide Element;
    StageOf(0, c.stages, 0, 0);
    assert forall s :: Uses(0, s, c.stages) == 0;
  }

  // ---------------------------------------------------------------- safety

  /** No lane reads a stage before its copy has landed or after it is overwritten, and no copy
      writes a stage that some lane is reading. */
  lemma ReadsAreFresh<T>(c: Config<T>, st: State<T>, l: nat)
    requires Inv(c, st) && l < c.lanes && st.lanes[l].pc.Reading?
    ensures st.smem[st.lanes[l].at.index] == c.src[st.lanes[l].at.blk]
    ensures forall s, e :: Enabled(c, st, CopyElement(s, e)) ==> s != st.lanes[l].at.index
    ensures Enabled(c, st, Issue) ==> st.producer.index != st.lanes[l].at.index
  {
    hide Stage, Turn, Uses, Element;
    LaneInsideBlock(c, st, l);
    if Enabled(c, st, Issue) {
      StageToFillIsFree(c, st);
      assert Left(st.lanes[c.leader]) <= Arrived(st.lanes[l]);
    }
  }

  // ---------------------------------------------------------------- progress

  ghost predicate Done<T>(c: Config<T>, st: State<T>)
    requires Shape(c, st)
  {
    st.producer.blk == c.Blocks() && forall l | 0 <= l < c.lanes :: st.lanes[l].at.blk == c.Blocks()
  }

  lemma {:induction false} SlowestLane(lanes: seq<Lane>) returns (l: nat)
    requires lanes != []
    ensures l < |lanes| && forall k | 0 <= k < |lanes| :: Arrived(lanes[l]) <= Arrived(lanes[k])
  {
    if |lanes| == 1 { return 0; }
    var front := lanes[..|lanes| - 1];
    l := SlowestLane(front);
    forall k | 0 <= k < |front| ensures Arrived(lanes[l]) <= Arrived(lanes[k]) {
      assert lanes[k] == front[k];
    }
    if Arrived(lanes[|lanes| - 1]) < Arrived(lanes[l]) { l := |lanes| - 1; }
  }

  ghost predicate CanStep<T>(c: Config<T>, st: State<T>)
    requires Shape(c, st)
  {
    exists a :: Enabled(c, st, a)
  }

  lemma CopyCanStep<T>(c: Config<T>, st: State<T>, s: nat)
    requires Shape(c, st) && s < c.stages && st.copies[s].Copying?
    ensures CanStep(c, st)
  {
    if st.copies[s].left == {} {
      assert Enabled(c, st, CopyDone(s));
    } else {
      var e :| e in st.copies[s].left;
      assert Enabled(c, st, CopyElement(s, e));
    }
  }

  /** A lane that is neither waiting nor held at sync_warp can step. */
  lemma LaneCanStep<T>(c: Config<T>, st: State<T>, l: nat)
    requires Shape(c, st) && l < c.lanes && (st.lanes[l].pc.Reading? || st.lanes[l].pc.Releasing?)
    ensures CanStep(c, st)
  {
    if st.lanes[l].pc.Releasing? {
      assert Enabled(c, st, Release(l));
    } else if st.lanes[l].pc.i < c.perLane {
      assert Enabled(c, st, Read(l));
    } else {
      assert Enabled(c, st, Arrive(l));
    }
  }

  /** The slowest lane waits for a block that has not been issued: the producer can step. */
  lemma ProducerCanStep<T>(c: Config<T>, st: State<T>, l: nat)
    requires Inv(c, st) && l < c.lanes && st.lanes[l].pc.Waiting?
    requires st.lanes[l].at.blk == st.producer.blk < c.Blocks()
    requires forall k | 0 <= k < c.lanes :: Arrived(st.lanes[l]) <= Arrived(st.lanes[k])
    requires forall k | 0 <= k < c.lanes :: st.lanes[k].pc.Waiting? || st.lanes[k].pc.AtSync?
    ensures CanStep(c, st)
  {
    hide Stage, Turn, Uses, Element;
    var lead := st.lanes[c.leader];
    assert Entered(lead) <= st.producer.blk;
    if st.acquired {
      assert Enabled(c, st, Issue);
    } else if lead.pc.AtSync? {
      assert Enabled(c, st, Pass(c.leader));
    } else {
      AcquireIsExact(c, st);
      assert Enabled(c, st, Acquire);
    }
  }

  lemma SyncCanStep<T>(c: Config<T>, st: State<T>, l: nat)
    requires Shape(c, st) && l < c.lanes && st.lanes[l].pc.AtSync?
    requires forall k | 0 <= k < c.lanes :: Arrived(st.lanes[k]) > st.lanes[l].at.blk
    ensures CanStep(c, st)
  {
    assert Enabled(c, st, Pass(l));
  }

  lemma WaitCanStep<T>(c: Config<T>, st: State<T>, l: nat)
    requires Shape(c, st) && l < c.lanes && st.lanes[l].pc.Waiting? && st.lanes[l].at.blk < c.Blocks()
    requires Passes(st.full[st.lanes[l].at.index], st.lanes[l].at.phase)
    ensures CanStep(c, st)
  {
    assert Enabled(c, st, Wait(l));
  }

  /** The run never sticks: until everything is copied, something can step. */
  lemma NeverSticks<T>(c: Config<T>, st: State<T>)
    requires Inv(c, st) && !Done(c, st)
    ensures CanStep(c, st)
  {
    hide Stage, Turn, Uses, Element, CanStep;
    if s :| 0 <= s < c.stages && st.copies[s].Copying? { CopyCanStep(c, st, s); return; }
    if l :| 0 <= l < c.lanes && (st.lanes[l].pc.Reading? || st.lanes[l].pc.Releasing?) {
      LaneCanStep(c, st, l);
      return;
    }
    var l := SlowestLane(st.lanes);
    var at := st.lanes[l].at;
    if st.lanes[l].pc.AtSync? {
      SyncCanStep(c, st, l);
    } else if at.blk < st.producer.blk {
      WaitIsExact(c, st, l);
      WaitCanStep(c, st, l);
    } else if at.blk < c.Blocks() {
      ProducerCanStep(c, st, l);
    } else {
      var k :| 0 <= k < c.lanes && st.lanes[k].at.blk != c.Blocks();
      assert Entered(st.lanes[k]) <= st.producer.blk;
      SyncCanStep(c, st, k);
    }
  }

  // ---------------------------------------------------------------- termination

  /** Steps a copy, the producer, and a lane still have to take. */
  ghost function CopyWork(): Slot -> int { (slot: Slot) => if slot.Idle? then 0 else 1 + |slot.left| }

  ghost function ProducerWork<T>(c: Config<T>, st: State<T>): int {
    (c.Blocks() - st.producer.blk) * (c.Tile() + 3) - (if st.acquired then 1 else 0)
  }

  ghost function StepsInBlock<T>(c: Config<T>, pc: LanePc): int {
    match pc
    case Waiting => 0
    case Reading(i) => 1 + i
    case AtSync => c.perLane + 2
    case Releasing => c.perLane + 3
  }

  ghost function LaneWork<T>(c: Config<T>): Lane -> int {
    (lane: Lane) => (c.Blocks() - lane.at.blk) * (c.perLane + 4) - StepsInBlock(c, lane.pc)
  }

  ghost function Work<T>(c: Config<T>, st: State<T>): int {
    ProducerWork(c, st) + Total(st.copies, CopyWork()) + Total(st.lanes, LaneWork(c))
  }

  lemma OneBlockLess(n: int, w: int)
    ensures (n - 1) * w == n * w - w
  {
  }

  lemma IssueWork<T>(c: Config<T>, st: State<T>)
    requires Inv(c, st) && Enabled(c, st, Issue)
    ensures Work(c, Next(c, st, Issue)) == Work(c, st) - 1
  {
    StageToFillIsFree(c, st);
    hide Total, Counters, Contents, Together, Written, LaneWork;
    TotalUpdate(st.copies, st.producer.index, Copying(st.producer.blk, Below(c.Tile())), CopyWork());
    OneBlockLess(c.Blocks() - st.producer.blk, c.Tile() + 3);
  }

  lemma ReleaseWork<T>(c: Config<T>, st: State<T>, l: nat)
    requires Inv(c, st) && Enabled(c, st, Release(l))
    ensures Work(c, Next(c, st, Release(l))) == Work(c, st) - 1
  {
    hide Total, Counters, Contents, Together, Written, CopyWork;
    TotalUpdate(st.lanes, l, Lane(st.lanes[l].at.Advance(c.stages), Waiting), LaneWork(c));
    OneBlockLess(c.Blocks() - st.lanes[l].at.blk, c.perLane + 4);
  }

  lemma LaneStep<T>(c: Config<T>, st: State<T>, l: nat, pc: LanePc)
    requires l < |st.lanes| && StepsInBlock(c, pc) == StepsInBlock(c, st.lanes[l].pc) + 1
    ensures Total(SetPc(st, l, pc).lanes, LaneWork(c)) == Total(st.lanes, LaneWork(c)) - 1
  {
    hide Total;
    TotalUpdate(st.lanes, l, st.lanes[l].(pc := pc), LaneWork(c));
  }

  /** Every step is one step of work. */
  lemma NextDoesOneStep<T>(c: Config<T>, st: State<T>, a: Action)
    requires Inv(c, st) && Enabled(c, st, a)
    ensures Work(c, Next(c, st, a)) == Work(c, st) - 1
  {
    hide Total, Counters, Contents, Written, Element, LaneWork;
    match a {
      case Acquire =>
      case Issue => IssueWork(c, st);
      case CopyElement(s, e) => TotalUpdate(st.copies, s, Next(c, st, a).copies[s], CopyWork());
      case CopyDone(s) => TotalUpdate(st.copies, s, Idle, CopyWork());
      case Wait(l) => LaneStep(c, st, l, Reading(0));
      case Read(l) => LaneStep(c, st, l, Reading(st.lanes[l].pc.i + 1));
      case Arrive(l) => LaneStep(c, st, l, AtSync);
      case Pass(l) => LaneStep(c, st, l, Releasing);
      case Release(l) => ReleaseWork(c, st, l);
    }
  }

  lemma LaneWorkBound<T>(c: Config<T>, st: State<T>, l: nat)
    requires Inv(c, st) && l < c.lanes
    ensures LaneWork(c)(st.lanes[l]) >= 0
  {
    hide Stage, Turn, Uses, Element, Contents, Written;
    var lane := st.lanes[l];
    assert Entered(lane) <= st.producer.blk;
    MulMonotone(if lane.pc.Waiting? then 0 else 1, c.Blocks() - lane.at.blk, c.perLane + 4);
  }

  /** Work is never negative, and none is left exactly when everything is done. */
  lemma WorkIsNonNegative<T>(c: Config<T>, st: State<T>)
    requires Inv(c, st)
    ensures Work(c, st) >= 0
  {
    hide Total, Stage, Turn, Uses, Element, Contents, Written;
    forall l | 0 <= l < c.lanes ensures LaneWork(c)(st.lanes[l]) >= 0 {
      LaneWorkBound(c, st, l);
    }
    TotalNonNegative(st.lanes, LaneWork(c));
    TotalNonNegative(st.copies, CopyWork());
    if st.acquired {
      MulMonotone(1, c.Blocks() - st.producer.blk, c.Tile() + 3);
    } else {
      MulMonotone(0, c.Blocks() - st.producer.blk, c.Tile() + 3);
    }
  }

  // ---------------------------------------------------------------- whole runs

  /** The number of steps of a complete run. */
  function Steps<T>(c: Config<T>): int {
    c.Blocks() * (c.Tile() + 3) + c.lanes * (c.Blocks() * (c.perLane + 4))
  }

  lemma InitialWork<T>(c: Config<T>, smem: seq<seq<T>>, dst: seq<seq<T>>)
    ensures Work(c, Init(c, smem, dst)) == Steps(c)
  {
    hide Total;
    var st := Init(c, smem, dst);
    TotalOfEqual(st.copies, CopyWork(), 0);
    TotalOfEqual(st.lanes, LaneWork(c), c.Blocks() * (c.perLane + 4));
  }

  /** A schedule names the action that happens at each step. */
  ghost predicate CanRun<T>(c: Config<T>, st: State<T>, run: seq<Action>)
    requires Inv(c, st)
    decreases |run|
  {
    run == [] || (Enabled(c, st, run[0]) && (NextKeepsInv(c, st, run[0]); CanRun(c, Next(c, st, run[0]), run[1..])))
  }

  ghost function After<T>(c: Config<T>, st: State<T>, run: seq<Action>): State<T>
    requires Inv(c, st) && CanRun(c, st, run)
    decreases |run|
  {
    if run == [] then st else NextKeepsInv(c, st, run[0]); After(c, Next(c, st, run[0]), run[1..])
  }

  /** Whatever the interleaving, every state reached satisfies the invariant, and a run takes
      one step of work per action. */
  lemma {:induction false} RunsKeepInv<T>(c: Config<T>, st: State<T>, run: seq<Action>)
    requires Inv(c, st) && CanRun(c, st, run)
    ensures Inv(c, After(c, st, run)) && Work(c, After(c, st, run)) == Work(c, st) - |run|
    decreases |run|
  {
    hide Counters, Contents, Together, Written, Work, Next, Enabled;
    if run != [] {
      NextKeepsInv(c, st, run[0]);
      NextDoesOneStep(c, st, run[0]);
      RunsKeepInv(c, Next(c, st, run[0]), run[1..]);
    }
  }

  lemma ElementOwner<T>(c: Config<T>, e: nat) returns (l: nat, i: nat)
    requires e < c.Tile()
    ensures l < c.lanes && i < c.perLane && Element(c, l, i) == e
  {
    assert c.lanes > 0 by { assert 0 * c.perLane == 0; }
    l, i := e % c.lanes, e / c.lanes;
    QuotientAtLeast(e, c.lanes, c.perLane);
  }

  lemma DoneMeansCopied<T>(c: Config<T>, st: State<T>)
    requires Inv(c, st) && Done(c, st)
    ensures st.dst == c.src && Work(c, st) == Total(st.copies, CopyWork())
  {
    hide Stage, Turn, Uses, Total;
    forall b, e | 0 <= b < c.Blocks() && 0 <= e < c.Tile() ensures st.dst[b][e] == c.src[b][e] {
      var l, i := ElementOwner(c, e);
      assert HasRead(c, st.lanes[l], b, i);
    }
    forall b | 0 <= b < c.Blocks() ensures st.dst[b] == c.src[b] {}
    TotalOfEqual(st.lanes, LaneWork(c), 0) by {
      forall l | 0 <= l < c.lanes ensures LaneWork(c)(st.lanes[l]) == 0 {}
    }
  }

  /** No copy is in flight once every lane has entered every block. */
  lemma DoneMeansQuiet<T>(c: Config<T>, st: State<T>)
    requires Inv(c, st) && Done(c, st)
    ensures Work(c, st) == 0 && !CanStep(c, st)
  {
    hide Stage, Turn, Uses, Total, Element;
    forall s | 0 <= s < c.stages ensures st.copies[s].Idle? {
      assert Entered(st.lanes[c.leader]) == c.Blocks();
    }
    DoneMeansCopied(c, st);
    TotalOfEqual(st.copies, CopyWork(), 0);
  }

  lemma InvMeansShape<T>(c: Config<T>, st: State<T>)
    requires Inv(c, st)
    ensures Shape(c, st)
  {
  }

  lemma StepMeansWork<T>(c: Config<T>, st: State<T>)
    requires Inv(c, st) && CanStep(c, st)
    ensures Work(c, st) > 0
  {
    hide Counters, Contents, Together, Written, Work, Next, Enabled;
    var a :| Enabled(c, st, a);
    NextKeepsInv(c, st, a);
    NextDoesOneStep(c, st, a);
    WorkIsNonNegative(c, Next(c, st, a));
  }

  /** The main result.  From any initial contents and in every interleaving: a run has at most
      Steps(c) steps, it can be continued until it has exactly that many, and then dst is src. */
  lemma EveryRunCopies<T>(c: Config<T>, smem: seq<seq<T>>, dst: seq<seq<T>>, run: seq<Action>)
    requires c.Valid() && Buffers(c, smem, dst)
    ensures Inv(c, Init(c, smem, dst))
    ensures CanRun(c, Init(c, smem, dst), run) ==>
              var st := After(c, Init(c, smem, dst), run);
              && Inv(c, st) && |run| <= Steps(c)
              && (CanStep(c, st) <==> |run| < Steps(c))
              && (|run| == Steps(c) ==> st.dst == c.src)
  {
    hide Inv, Work, Next, CanStep;
    InitHasInv(c, smem, dst);
    var st0 := Init(c, smem, dst);
    if CanRun(c, st0, run) {
      RunsKeepInv(c, st0, run);
      InitialWork(c, smem, dst);
      var st := After(c, st0, run);
      WorkIsNonNegative(c, st);
      InvMeansShape(c, st);
      if Done(c, st) {
        DoneMeansQuiet(c, st);
        DoneMeansCopied(c, st);
      } else {
        NeverSticks(c, st);
        StepMeansWork(c, st);
      }
    }
  }

  /** The scheduler picks an enabled action whenever there is one. */
  ghost predicate Schedules<T(!new)>(c: Config<T>, schedule: (nat, State<T>) -> Action) {
    forall t, st :: Inv(c, st) && CanStep(c, st) ==> Enabled(c, st, schedule(t, st))
  }

  /** The kernel under an arbitrary scheduler, which may look at the step number and the state. */
  method Execute<T(!new)>(c: Config<T>, smem: seq<seq<T>>, dst: seq<seq<T>>, steps: nat,
                          schedule: (nat, State<T>) -> Action)
    returns (result: seq<seq<T>>)
    requires c.Valid() && Buffers(c, smem, dst) && steps == Steps(c)
    requires Schedules(c, schedule)
    ensures result == c.src
  {
    hide Counters, Contents, Together, Written, Work, Next, Enabled, CanStep, Steps;
    var st := Init(c, smem, dst);
    InitHasInv(c, smem, dst);
    InitialWork(c, smem, dst);
    var t := 0;
    while t < steps
      invariant t <= steps && Inv(c, st) && Work(c, st) == steps - t
    {
      InvMeansShape(c, st);
      if Done(c, st) { DoneMeansQuiet(c, st); assert false; }
      NeverSticks(c, st);
      var a := schedule(t, st);
      NextKeepsInv(c, st, a);
      NextDoesOneStep(c, st, a);
      st := Next(c, st, a);
      t := t + 1;
    }
    InvMeansShape(c, st);
    if !Done(c, st) { NeverSticks(c, st); StepMeansWork(c, st); assert false; }
    DoneMeansCopied(c, st);
    result := st.dst;
  }
}
