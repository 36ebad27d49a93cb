/** The Miller loop of the optimal ate pairing, driven by the bits of the
    curve parameter x. `preCompute` walks the bits of x below the top one and
    writes one line per bit plus one more per set bit into a 70-entry table;
    `millerLoop` walks the same bits again, squaring the accumulator once per
    bit and folding the table entries in for every pair.

    The loop is described twice. A plan is the list of accumulator
    events (square, fold entry j) that a schedule produces; `GenericPlan`
    treats every bit below the top alike, while `WrittenPlan` is what the
    engine does: it folds entries 0 and 1 without squaring first and starts
    its loop one bit lower. */
module Miller {
  import opened Bits
  import opened CurveParam
  import opened Tower
  import opened LineSteps

  /** Number of entries in each pair's line table. */
  const TableSize: nat := 70

  // ---------------------------------------------------------------------
  // Schedules

  /** One thing the Miller loop does to its accumulator. */
  datatype Event = Square | Fold(j: nat)

  /** A plan: the events a schedule performs, in order. */
  datatype Plan = Done | Then(e: Event, next: Plan)

  /** Table entries used by bits `i .. 0` of `n`: one per bit, and a second
      one for every set bit. */
  function EntryCount(n: nat, i: int): nat
    decreases if i < 0 then 0 else i + 1
  {
    if i < 0 then 0 else (if Bit(n, i) then 2 else 1) + EntryCount(n, i - 1)
  }

  /** The events for bits `i .. 0` of `n` when the next table entry is `j`:
      per bit, square and fold entry j, then fold entry j + 1 if the bit is set. */
  function MainLoop(n: nat, i: int, j: nat): Plan
    decreases if i < 0 then 0 else i + 1
  {
    if i < 0 then Done
    else if Bit(n, i) then Then(Square, Then(Fold(j), Then(Fold(j + 1), MainLoop(n, i - 1, j + 2))))
    else Then(Square, Then(Fold(j), MainLoop(n, i - 1, j + 1)))
  }

  /** Every bit below the top bit handled alike, starting from entry 0. */
  function GenericPlan(n: nat): Plan
  {
    MainLoop(n, BitLen(n) - 2, 0)
  }

  /** What `millerLoop` does: entries 0 and 1 folded without a square, then
      the loop from bit `BitLen(n) - 3` starting at entry 2. */
  function WrittenPlan(n: nat): Plan
  {
    Then(Fold(0), Then(Fold(1), MainLoop(n, BitLen(n) - 3, 2)))
  }

  /** The fold indices of a plan, in order. */
  function Folds(plan: Plan): seq<nat>
  {
    match plan
    case Done => []
    case Then(Square, next) => Folds(next)
    case Then(Fold(j), next) => [j] + Folds(next)
  }

  /** The number of squarings in a plan. */
  function Squares(plan: Plan): nat
  {
    match plan
    case Done => 0
    case Then(Square, next) => 1 + Squares(next)
    case Then(Fold(_), next) => Squares(next)
  }

  /** The indices `a, a + 1, ..., b - 1`. */
  function Range(a: nat, b: nat): (s: seq<nat>)
    ensures |s| == if a <= b then b - a else 0
    decreases b - a
  {
    if b <= a then [] else [a] + Range(a + 1, b)
  }

  /** The entry count is one per bit plus the set bits. */
  lemma {:induction false} EntryCountIs(n: nat, i: int)
    requires i >= -1
    ensures EntryCount(n, i) == (i + 1) + PopCountBelow(n, i + 1)
    decreases i + 1
  {
    if i >= 0 {
      EntryCountIs(n, i - 1);
    }
  }

  /** The bits of `n` from `i` down consume exactly the consecutive entries
      from `j` on, and square once per bit. */
  lemma {:induction false} MainLoopFolds(n: nat, i: int, j: nat)
    ensures Folds(MainLoop(n, i, j)) == Range(j, j + EntryCount(n, i))
    ensures Squares(MainLoop(n, i, j)) == if i < 0 then 0 else i + 1
    decreases if i < 0 then 0 else i + 1
  {
    if i >= 0 && Bit(n, i) {
      var rest := MainLoop(n, i - 1, j + 2);
      MainLoopFolds(n, i - 1, j + 2);
      assert Folds(Then(Fold(j + 1), rest)) == [j + 1] + Folds(rest);
      assert Squares(Then(Fold(j + 1), rest)) == Squares(rest);
      assert EntryCount(n, i) == 2 + EntryCount(n, i - 1);
      RangeCons(j, j + 2 + EntryCount(n, i - 1));
      RangeCons(j + 1, j + 2 + EntryCount(n, i - 1));
    } else if i >= 0 {
      var rest := MainLoop(n, i - 1, j + 1);
      MainLoopFolds(n, i - 1, j + 1);
      assert Folds(Then(Fold(j), rest)) == [j] + Folds(rest);
      assert EntryCount(n, i) == 1 + EntryCount(n, i - 1);
      RangeCons(j, j + 1 + EntryCount(n, i - 1));
    }
  }

  /** A non-empty range starts with its lower end. */
  lemma RangeCons(a: nat, b: nat)
    requires a < b
    ensures Range(a, b) == [a] + Range(a + 1, b)
  {
  }

  /** The unrolled prefix of `millerLoop` agrees with the generic schedule
      (up to the one leading squaring of one) exactly when bit
      `BitLen(n) - 2` of `n` is set: otherwise entry 1 would be a doubling
      line of the next bit, to be folded only after a squaring. */
  lemma PrefixIff(n: nat)
    requires BitLen(n) >= 2
    ensures GenericPlan(n) == Then(Square, WrittenPlan(n)) <==> Bit(n, BitLen(n) - 2)
  {
    var i := BitLen(n) - 2;
    if Bit(n, i) {
      PrefixMatch(n, i);
    } else {
      PrefixMismatch(n, i);
    }
  }

  /** With bit `i` set, the generic schedule squares and then folds entries
      0 and 1, as the engine's does after its leading square. */
  lemma PrefixMatch(n: nat, i: nat)
    requires i == BitLen(n) - 2 && Bit(n, i)
    ensures GenericPlan(n) == Then(Square, WrittenPlan(n))
  {
    assert i - 1 == BitLen(n) - 3;
  }

  /** With bit `i` clear, the generic schedule folds entry 0 and then either
      stops or squares, while the engine's folds entry 1 next. */
  lemma PrefixMismatch(n: nat, i: nat)
    requires i == BitLen(n) - 2 && !Bit(n, i)
    ensures GenericPlan(n) != Then(Square, WrittenPlan(n))
  {
    var rest := MainLoop(n, i - 1, 1);
    assert GenericPlan(n) == Then(Square, Then(Fold(0), rest));
    assert rest == Done || rest.e == Square;
  }

  /** Below the top bit, a positive `n` uses one entry per bit and one
      more per set bit other than the top one. */
  lemma EntryCountBelowTop(n: nat)
    requires n > 0
    ensures EntryCount(n, BitLen(n) - 2) == (BitLen(n) - 1) + (PopCount(n) - 1)
  {
    var top := BitLen(n) - 1;
    EntryCountIs(n, top - 1);
    PopCountBelowLen(n);
    TopBitSet(n);
    assert PopCountBelow(n, top + 1) == 1 + PopCountBelow(n, top);
  }

  /** For x the table needs 63 + 5 = 68 entries: one per bit below the top
      bit and one more for each of the five set bits among them. */
  lemma XEntryCount()
    ensures EntryCount(X, BitLen(X) - 2) == (BitLen(X) - 1) + (PopCount(X) - 1) == 68
    ensures 68 <= TableSize
  {
    XBitLen();
    XPopCount();
    EntryCountBelowTop(X);
  }

  /** For x both schedules use table entries 0 .. 67 in order, and the
      engine's squares the accumulator BitLen(x) - 2 = 62 times, one fewer
      than the generic schedule. */
  lemma XPlans()
    ensures Folds(WrittenPlan(X)) == Range(0, 68)
    ensures Folds(GenericPlan(X)) == Range(0, 68)
    ensures Squares(WrittenPlan(X)) == BitLen(X) - 2 == 62
    ensures Squares(GenericPlan(X)) == BitLen(X) - 1
    ensures GenericPlan(X) == Then(Square, WrittenPlan(X))
  {
    XBitLen();
    XSecondBit();
    XEntryCount();
    PrefixIff(X);
    MainLoopFolds(X, 62, 0);
  }

  // ---------------------------------------------------------------------
  // preCompute

  /** The lines `preCompute` records for bit `i` of x from the running
      point `r`, and the point after them: the doubling line, then the
      addition line of `q` when the bit is set. */
  function BitLines(ops: Ops, r: PointG2, q: PointG2, i: nat): (out: (seq<Line>, PointG2))
    ensures |out.0| == if Bit(X, i) then 2 else 1
  {
    var (dl, r1) := DoublingLine(ops, r);
    if Bit(X, i) then
      var (al, r2) := AdditionLine(ops, r1, q);
      ([dl, al], r2)
    else ([dl], r1)
  }

  /** The lines `preCompute` records for bits `i .. 0` of x from the
      running point `r`: per bit, the doubling line, then the addition line
      of `q` if the bit is set, then the lines of the lower bits. */
  function LinesFrom(ops: Ops, r: PointG2, q: PointG2, i: int): seq<Line>
    decreases if i < 0 then 0 else i + 1, 2
  {
    if i < 0 then [] else DoublingThenRest(ops, r, q, i)
  }

  function DoublingThenRest(ops: Ops, r: PointG2, q: PointG2, i: nat): seq<Line>
    decreases i + 1, 1
  {
    var (dl, r1) := DoublingLine(ops, r);
    [dl] + AdditionThenRest(ops, r1, q, i)
  }

  function AdditionThenRest(ops: Ops, r: PointG2, q: PointG2, i: nat): seq<Line>
    decreases i + 1, 0
  {
    if Bit(X, i) then
      var (al, r2) := AdditionLine(ops, r, q);
      [al] + LinesFrom(ops, r2, q, i - 1)
    else LinesFrom(ops, r, q, i - 1)
  }

  /** The lines of bit `i` come first, then those of the lower bits from
      the point they leave behind. */
  lemma LinesFromStep(ops: Ops, r: PointG2, q: PointG2, i: nat)
    ensures LinesFrom(ops, r, q, i) == BitLines(ops, r, q, i).0 + LinesFrom(ops, BitLines(ops, r, q, i).1, q, i - 1)
  {
    var (dl, r1) := DoublingLine(ops, r);
    assert LinesFrom(ops, r, q, i) == [dl] + AdditionThenRest(ops, r1, q, i);
    if Bit(X, i) {
      var (al, r2) := AdditionLine(ops, r1, q);
      var rest := LinesFrom(ops, r2, q, i - 1);
      assert AdditionThenRest(ops, r1, q, i) == [al] + rest;
      assert [dl] + ([al] + rest) == [dl, al] + rest;
    }
  }

  /** One line per bit and one more per set bit. */
  lemma {:induction false} LinesFromLength(ops: Ops, r: PointG2, q: PointG2, i: int)
    ensures |LinesFrom(ops, r, q, i)| == EntryCount(X, i)
    decreases if i < 0 then 0 else i + 1
  {
    if i >= 0 {
      LinesFromStep(ops, r, q, i);
      LinesFromLength(ops, BitLines(ops, r, q, i).1, q, i - 1);
    }
  }

  /** The table of a twist point that is not the identity: 68 lines. */
  function Lines(ops: Ops, q: PointG2): (lines: seq<Line>)
    ensures |lines| == 68
  {
    LinesCount(ops, q);
    LinesFrom(ops, q, q, BitLen(X) - 2)
  }

  /** The bits of x below the top one give 68 lines. */
  lemma LinesCount(ops: Ops, q: PointG2)
    ensures |LinesFrom(ops, q, q, BitLen(X) - 2)| == 68
  {
    XEntryCount();
    LinesCountIs(ops, q, BitLen(X) - 2, 68);
  }

  lemma LinesCountIs(ops: Ops, q: PointG2, i: int, n: nat)
    requires EntryCount(X, i) == n
    ensures |LinesFrom(ops, q, q, i)| == n
  {
    LinesFromLength(ops, q, q, i);
  }

  /** A fresh table: every entry zero. */
  const ZeroTable: seq<Line> := seq(TableSize, _ => ZeroLine)

  /** The table the engine builds for `q` from a fresh one. */
  function TableOf(ops: Ops, q: PointG2): (table: seq<Line>)
    ensures |table| == TableSize
  {
    if ops.g2IsZero(q) then ZeroTable else Lines(ops, q) + ZeroTable[68..]
  }

  /** A table whose first entries have been overwritten by `done`. */
  function Written(table0: seq<Line>, done: seq<Line>): (table: seq<Line>)
    requires |done| <= |table0|
    ensures |table| == |table0|
  {
    done + table0[|done|..]
  }

  /** Writing the next entry extends what has been written. */
  lemma WriteNext(table0: seq<Line>, done: seq<Line>, c: Line)
    requires |done| < |table0|
    ensures Written(table0, done)[|done| := c] == Written(table0, done + [c])
  {
    assert table0[|done|..][1..] == table0[|done| + 1..];
  }

  /** Moving the head of what is left onto what is done. */
  lemma Consume(done: seq<Line>, front: seq<Line>, rest: seq<Line>, all: seq<Line>)
    requires done + (front + rest) == all
    ensures (done + front) + rest == all
  {
  }

  /** The body of the `preCompute` loop for bit `i`, with the next free
      entry at `j == |done|`: it writes the lines of `BitLines` there. */
  method PreComputeBit(ops: Ops, table: seq<Line>, ghost table0: seq<Line>, ghost done: seq<Line>,
                       j: nat, r: PointG2, q: PointG2, i: nat, t0: seq<Fe2>)
    returns (table': seq<Line>, ghost done': seq<Line>, r': PointG2, j': nat, t: seq<Fe2>)
    requires |t0| == 10 && j == |done|
    requires j + |BitLines(ops, r, q, i).0| <= |table0|
    requires table == Written(table0, done)
    ensures done' == done + BitLines(ops, r, q, i).0 && r' == BitLines(ops, r, q, i).1
    ensures table' == Written(table0, done')
    ensures j' == |done'|
    ensures |t| == 10
  {
    var c: Line;
    j' := j;
    c, r', t := DoublingStep(ops, t0, r);
    WriteNext(table0, done, c);
    table' := table[j' := c];
    done' := done + [c];
    if Bit(X, i) {
      j' := j' + 1;
      table' := table'[j' := ZeroLine];
      c, r', t := AdditionStep(ops, t, r', q);
      WriteNext(table0, done', c);
      table' := table'[j' := c];
      done' := done' + [c];
    }
    j' := j' + 1;
  }

  /** The same step seen from the loop: the lines still to be written for
      bits `i .. 0` lose their head to what is done. */
  method PreComputeNext(ops: Ops, table: seq<Line>, ghost table0: seq<Line>, ghost done: seq<Line>, ghost all: seq<Line>,
                        j: nat, r: PointG2, q: PointG2, i: nat, t0: seq<Fe2>)
    returns (table': seq<Line>, ghost done': seq<Line>, r': PointG2, j': nat, t: seq<Fe2>)
    requires |t0| == 10 && j == |done|
    requires done + LinesFrom(ops, r, q, i) == all && |all| <= |table0|
    requires table == Written(table0, done)
    ensures done' + LinesFrom(ops, r', q, i - 1) == all && |done'| <= |table0|
    ensures table' == Written(table0, done')
    ensures j' == |done'|
    ensures |t| == 10
  {
    ghost var (ls, r1) := BitLines(ops, r, q, i);
    LinesFromStep(ops, r, q, i);
    Consume(done, ls, LinesFrom(ops, r1, q, i - 1), all);
    table', done', r', j', t := PreComputeBit(ops, table, table0, done, j, r, q, i, t0);
  }

  /** `preCompute(ellCoeffs, q)`: for the identity nothing is written;
      otherwise entries 0 .. 67 receive the lines of `q` in order and the
      remaining entries are untouched. `t` is the scratch register file. */
  method PreCompute(ops: Ops, table0: seq<Line>, q: PointG2, t0: seq<Fe2>) returns (table: seq<Line>, t: seq<Fe2>)
    requires |table0| == TableSize && |t0| == 10
    ensures |table| == TableSize && |t| == 10
    ensures ops.g2IsZero(q) ==> table == table0
    ensures !ops.g2IsZero(q) ==> table[..68] == Lines(ops, q) && table[68..] == table0[68..]
    ensures table0 == ZeroTable ==> table == TableOf(ops, q)
  {
    table, t := table0, t0;
    if ops.g2IsZero(q) {
      return;
    }
    table, t := PreComputeLoop(ops, table0, q, t0);
    assert table[..68] == Lines(ops, q) && table[68..] == table0[68..];
  }

  /** The loop of `preCompute` over bits `BitLen(x) - 2 .. 0`, starting with
      `r = q` at entry 0. */
  method PreComputeLoop(ops: Ops, table0: seq<Line>, q: PointG2, t0: seq<Fe2>) returns (table: seq<Line>, t: seq<Fe2>)
    requires |table0| == TableSize && |t0| == 10
    ensures table == Written(table0, Lines(ops, q)) && |t| == 10
  {
    table, t := table0, t0;
    XBitLen();
    LinesOfX(ops, q);
    var r := q;
    var j := 0;
    var i: int := BitLen(X) - 2;
    ghost var all := Lines(ops, q);
    ghost var done: seq<Line> := [];
    NothingDone(table0, all);
    while i >= 0
      invariant -1 <= i <= 62
      invariant |t| == 10
      invariant j == |done| && |all| == 68
      invariant done + LinesFrom(ops, r, q, i) == all
      invariant table == Written(table0, done)
      decreases i + 1
    {
      table, done, r, j, t := PreComputeNext(ops, table, table0, done, all, j, r, q, i, t);
      i := i - 1;
    }
    AllDone(done, LinesFrom(ops, r, q, i), all);
  }

  lemma NothingDone(table0: seq<Line>, all: seq<Line>)
    ensures [] + all == all && Written(table0, []) == table0
  {
    assert table0[0..] == table0;
  }

  lemma AllDone(done: seq<Line>, rest: seq<Line>, all: seq<Line>)
    requires done + rest == all && rest == []
    ensures done == all
  {
  }

  lemma LinesOfX(ops: Ops, q: PointG2)
    ensures Lines(ops, q) == LinesFrom(ops, q, q, 62)
  {
    XBitLen();
  }

  // ---------------------------------------------------------------------
  // millerLoop

  /** Tables for a batch: one per pair, each of TableSize entries. */
  predicate TablesFit(pairs: seq<Pair>, tables: seq<seq<Line>>)
  {
    |tables| == |pairs| && forall p :: 0 <= p < |tables| ==> |tables[p]| == TableSize
  }

  /** Every entry a plan folds lies inside the table. */
  predicate PlanFits(plan: Plan)
  {
    match plan
    case Done => true
    case Then(e, next) => (e.Fold? ==> e.j < TableSize) && PlanFits(next)
  }

  /** Folding one table entry `c` for a G1 point `p`: `mulBy014Assign` with
      c0, c1 * p.x and c2 * p.y. */
  function FoldLine(ops: Ops, f: Fe12, c: Line, p: PointG1): Fe12
  {
    ops.mul014(f, c.c0, ops.mulByFq(c.c1, p.x), ops.mulByFq(c.c2, p.y))
  }

  /** Entry `j` folded in for pairs 0 .. k-1, in that order. */
  function FoldPairs(ops: Ops, f: Fe12, pairs: seq<Pair>, tables: seq<seq<Line>>, j: nat, k: nat): Fe12
    requires TablesFit(pairs, tables) && j < TableSize && k <= |pairs|
  {
    if k == 0 then f
    else FoldLine(ops, FoldPairs(ops, f, pairs, tables, j, k - 1), tables[k - 1][j], pairs[k - 1].g1)
  }

  /** One event applied to the accumulator. */
  function Apply(ops: Ops, e: Event, f: Fe12, pairs: seq<Pair>, tables: seq<seq<Line>>): Fe12
    requires TablesFit(pairs, tables) && (e.Fold? ==> e.j < TableSize)
  {
    match e
    case Square => ops.sqr12(f)
    case Fold(j) => FoldPairs(ops, f, pairs, tables, j, |pairs|)
  }

  /** A plan run on the accumulator `f`. */
  function Run(ops: Ops, plan: Plan, f: Fe12, pairs: seq<Pair>, tables: seq<seq<Line>>): Fe12
    requires TablesFit(pairs, tables) && PlanFits(plan)
  {
    match plan
    case Done => f
    case Then(e, next) => Run(ops, next, Apply(ops, e, f, pairs, tables), pairs, tables)
  }

  /** A plan whose entries stay below `j + EntryCount` fits a table. */
  lemma {:induction false} MainLoopFits(n: nat, i: int, j: nat)
    requires j + EntryCount(n, i) <= TableSize
    ensures PlanFits(MainLoop(n, i, j))
    decreases if i < 0 then 0 else i + 1
  {
    if i >= 0 {
      if Bit(n, i) {
        var rest := MainLoop(n, i - 1, j + 2);
        MainLoopFits(n, i - 1, j + 2);
        assert PlanFits(Then(Fold(j + 1), rest));
      } else {
        MainLoopFits(n, i - 1, j + 1);
      }
    }
  }

  /** Both plans fit when every bit below the top bit fits and the second
      highest bit is set. */
  lemma PlansFit(n: nat)
    requires BitLen(n) >= 2 && Bit(n, BitLen(n) - 2)
    requires EntryCount(n, BitLen(n) - 2) <= TableSize
    ensures PlanFits(WrittenPlan(n)) && PlanFits(GenericPlan(n))
  {
    var i := BitLen(n) - 2;
    MainLoopFits(n, i, 0);
    assert EntryCount(n, i) == 2 + EntryCount(n, i - 1);
    MainLoopFits(n, i - 1, 2);
    assert i - 1 == BitLen(n) - 3;
  }

  /** Both plans for x stay inside the table. */
  lemma XPlansFit()
    ensures PlanFits(WrittenPlan(X)) && PlanFits(GenericPlan(X))
  {
    XBitLen();
    XSecondBit();
    XEntryCount();
    PlansFit(X);
  }

  /** The pair with both points in affine coordinates. */
  function AffinePair(ops: Ops, p: Pair): Pair
  {
    Pair(ops.g1Affine(p.g1), ops.g2Affine(p.g2))
  }

  function Affined(ops: Ops, pairs: seq<Pair>): (r: seq<Pair>)
    ensures |r| == |pairs|
  {
    seq(|pairs|, k requires 0 <= k < |pairs| => AffinePair(ops, pairs[k]))
  }

  /** One fresh-table precomputation per pair. */
  function Tables(ops: Ops, pairs: seq<Pair>): (tables: seq<seq<Line>>)
    ensures TablesFit(pairs, tables)
  {
    seq(|pairs|, k requires 0 <= k < |pairs| => TableOf(ops, pairs[k].g2))
  }

  /** The value `millerLoop` leaves in `f`: the engine's plan run from one
      on the affine pairs and their tables, then conjugated. */
  function MillerLoopValue(ops: Ops, pairs: seq<Pair>): Fe12
  {
    XPlansFit();
    var ps := Affined(ops, pairs);
    ops.conj(Run(ops, WrittenPlan(X), ops.one, ps, Tables(ops, ps)))
  }

  /** The same with the generic schedule. */
  function MillerLoopReference(ops: Ops, pairs: seq<Pair>): Fe12
  {
    XPlansFit();
    var ps := Affined(ops, pairs);
    ops.conj(Run(ops, GenericPlan(X), ops.one, ps, Tables(ops, ps)))
  }

  /** The unrolled prefix is sound: whenever squaring one gives one, the
      engine's loop computes the generic Miller loop. */
  lemma MillerLoopMatchesReference(ops: Ops, pairs: seq<Pair>)
    requires ops.sqr12(ops.one) == ops.one
    ensures MillerLoopValue(ops, pairs) == MillerLoopReference(ops, pairs)
  {
    XPlans();
    XPlansFit();
    var ps := Affined(ops, pairs);
    var tables := Tables(ops, ps);
    assert Run(ops, Then(Square, WrittenPlan(X)), ops.one, ps, tables)
        == Run(ops, WrittenPlan(X), ops.sqr12(ops.one), ps, tables);
  }

  /** The inner `for i` loop of `millerLoop`: entry `j` folded for every pair,
      through the scratch registers t[0] and t[1]. */
  method FoldEach(ops: Ops, f0: Fe12, pairs: seq<Pair>, tables: seq<seq<Line>>, j: nat, t0: seq<Fe2>) returns (f: Fe12, t: seq<Fe2>)
    requires TablesFit(pairs, tables) && j < TableSize && |t0| == 10
    ensures f == FoldPairs(ops, f0, pairs, tables, j, |pairs|)
    ensures |t| == 10
  {
    f, t := f0, t0;
    var i := 0;
    while i <= |pairs| - 1
      invariant 0 <= i <= |pairs| && |t| == 10
      invariant f == FoldPairs(ops, f0, pairs, tables, j, i)
    {
      t := t[0 := ops.mulByFq(tables[i][j].c2, pairs[i].g1.y)];
      t := t[1 := ops.mulByFq(tables[i][j].c1, pairs[i].g1.x)];
      f := ops.mul014(f, tables[i][j].c0, t[1], t[0]);
      i := i + 1;
    }
  }

  /** One pass of the main loop over bit `i`: square, fold entry j, and for
      a set bit fold entry j + 1. */
  lemma MainLoopStep(ops: Ops, i: int, j: nat, f: Fe12, pairs: seq<Pair>, tables: seq<seq<Line>>)
    requires i >= 0 && TablesFit(pairs, tables) && PlanFits(MainLoop(X, i, j))
    ensures j < TableSize
    ensures Bit(X, i) ==> (
      j + 1 < TableSize && PlanFits(MainLoop(X, i - 1, j + 2)) &&
      Run(ops, MainLoop(X, i, j), f, pairs, tables)
        == Run(ops, MainLoop(X, i - 1, j + 2),
               FoldPairs(ops, FoldPairs(ops, ops.sqr12(f), pairs, tables, j, |pairs|), pairs, tables, j + 1, |pairs|),
               pairs, tables))
    ensures !Bit(X, i) ==> (
      PlanFits(MainLoop(X, i - 1, j + 1)) &&
      Run(ops, MainLoop(X, i, j), f, pairs, tables)
        == Run(ops, MainLoop(X, i - 1, j + 1), FoldPairs(ops, ops.sqr12(f), pairs, tables, j, |pairs|), pairs, tables))
  {
    var g := ops.sqr12(f);
    if Bit(X, i) {
      var rest := MainLoop(X, i - 1, j + 2);
      assert MainLoop(X, i, j) == Then(Square, Then(Fold(j), Then(Fold(j + 1), rest)));
      assert PlanFits(Then(Fold(j + 1), rest));
      var g1 := FoldPairs(ops, g, pairs, tables, j, |pairs|);
      assert Run(ops, MainLoop(X, i, j), f, pairs, tables) == Run(ops, Then(Fold(j), Then(Fold(j + 1), rest)), g, pairs, tables);
      assert Run(ops, Then(Fold(j + 1), rest), g1, pairs, tables)
          == Run(ops, rest, FoldPairs(ops, g1, pairs, tables, j + 1, |pairs|), pairs, tables);
    } else {
      var rest := MainLoop(X, i - 1, j + 1);
      assert MainLoop(X, i, j) == Then(Square, Then(Fold(j), rest));
      assert Run(ops, MainLoop(X, i, j), f, pairs, tables) == Run(ops, Then(Fold(j), rest), g, pairs, tables);
    }
  }

  /** The engine's plan starts with entries 0 and 1 folded into `f`. */
  lemma WrittenPrefix(ops: Ops, n: nat, f: Fe12, pairs: seq<Pair>, tables: seq<seq<Line>>)
    requires TablesFit(pairs, tables) && PlanFits(WrittenPlan(n))
    ensures var rest := MainLoop(n, BitLen(n) - 3, 2);
      PlanFits(rest) &&
      Run(ops, WrittenPlan(n), f, pairs, tables)
        == Run(ops, rest, FoldPairs(ops, FoldPairs(ops, f, pairs, tables, 0, |pairs|), pairs, tables, 1, |pairs|), pairs, tables)
  {
    var rest := MainLoop(n, BitLen(n) - 3, 2);
    var f1 := FoldPairs(ops, f, pairs, tables, 0, |pairs|);
    assert Run(ops, WrittenPlan(n), f, pairs, tables) == Run(ops, Then(Fold(1), rest), f1, pairs, tables);
  }

  /** The first loop of `millerLoop`: every point converted to affine form. */
  method AffineAll(ops: Ops, pairs0: seq<Pair>) returns (pairs: seq<Pair>)
    ensures pairs == Affined(ops, pairs0)
  {
    pairs := pairs0;
    var i := 0;
    while i <= |pairs| - 1
      invariant 0 <= i <= |pairs| == |pairs0|
      invariant forall k :: 0 <= k < i ==> pairs[k] == AffinePair(ops, pairs0[k])
      invariant forall k :: i <= k < |pairs| ==> pairs[k] == pairs0[k]
    {
      pairs := pairs[i := AffinePair(ops, pairs[i])];
      i := i + 1;
    }
  }

  /** The second loop of `millerLoop`: one table per pair, each computed by
      `preCompute` from a fresh (all-zero) table. */
  method PreComputeAll(ops: Ops, pairs: seq<Pair>, t0: seq<Fe2>) returns (tables: seq<seq<Line>>, t: seq<Fe2>)
    requires |t0| == 10
    ensures tables == Tables(ops, pairs) && |t| == 10
  {
    tables := seq(|pairs|, _ => ZeroTable);
    t := t0;
    var i := 0;
    while i < |pairs|
      invariant 0 <= i <= |pairs| && |t| == 10
      invariant |tables| == |pairs|
      invariant forall k :: 0 <= k < i ==> tables[k] == TableOf(ops, pairs[k].g2)
      invariant forall k :: i <= k < |pairs| ==> tables[k] == ZeroTable
    {
      var table;
      table, t := PreCompute(ops, tables[i], pairs[i].g2, t);
      tables := tables[i := table];
      i := i + 1;
    }
  }

  /** The main loop of `millerLoop` from bit `i0` down with the next entry
      at `j0`: per bit, square `f`, fold entry j, and for a set bit fold the
      next entry too. */
  method MainLoopRun(ops: Ops, pairs: seq<Pair>, tables: seq<seq<Line>>, f0: Fe12, i0: int, j0: nat, t0: seq<Fe2>)
    returns (f: Fe12, t: seq<Fe2>)
    requires TablesFit(pairs, tables) && |t0| == 10 && i0 >= -1
    requires PlanFits(MainLoop(X, i0, j0))
    ensures f == Run(ops, MainLoop(X, i0, j0), f0, pairs, tables)
    ensures |t| == 10
  {
    f, t := f0, t0;
    var j := j0;
    var i := i0;
    while i >= 0
      invariant i >= -1 && |t| == 10
      invariant PlanFits(MainLoop(X, i, j))
      invariant Run(ops, MainLoop(X, i, j), f, pairs, tables) == Run(ops, MainLoop(X, i0, j0), f0, pairs, tables)
      decreases i + 1
    {
      f, j, t := MainLoopBit(ops, pairs, tables, f, i, j, t);
      i := i - 1;
    }
  }

  /** One iteration of the main loop for bit `i` at entry `j`: square, fold
      entry `j`, and fold entry `j + 1` too when the bit is set. */
  method MainLoopBit(ops: Ops, pairs: seq<Pair>, tables: seq<seq<Line>>, f0: Fe12, i: nat, j0: nat, t0: seq<Fe2>)
    returns (f: Fe12, j: nat, t: seq<Fe2>)
    requires TablesFit(pairs, tables) && |t0| == 10
    requires PlanFits(MainLoop(X, i, j0))
    ensures PlanFits(MainLoop(X, i - 1, j))
    ensures Run(ops, MainLoop(X, i - 1, j), f, pairs, tables) == Run(ops, MainLoop(X, i, j0), f0, pairs, tables)
    ensures |t| == 10
  {
    MainLoopStep(ops, i, j0, f0, pairs, tables);
    j := j0;
    f := ops.sqr12(f0);
    f, t := FoldEach(ops, f, pairs, tables, j, t0);
    if Bit(X, i) {
      j := j + 1;
      f, t := FoldEach(ops, f, pairs, tables, j, t);
    }
    j := j + 1;
  }

  /** The rest of `millerLoop`: f set to one, entries 0 and 1 folded in,
      the loop over bits `BitLen(x) - 3 .. 0`, and the final conjugation. */
  method Accumulate(ops: Ops, pairs: seq<Pair>, tables: seq<seq<Line>>, t0: seq<Fe2>) returns (f: Fe12, t: seq<Fe2>)
    requires TablesFit(pairs, tables) && |t0| == 10
    ensures PlanFits(WrittenPlan(X))
    ensures f == ops.conj(Run(ops, WrittenPlan(X), ops.one, pairs, tables))
    ensures |t| == 10
  {
    XBitLen();
    XPlansFit();
    WrittenPrefix(ops, X, ops.one, pairs, tables);
    f := ops.one;
    f, t := FoldEach(ops, f, pairs, tables, 0, t0);
    f, t := FoldEach(ops, f, pairs, tables, 1, t);
    f, t := MainLoopRun(ops, pairs, tables, f, BitLen(X) - 3, 2, t);
    f := ops.conj(f);
  }

  /** `millerLoop(f, pairs)`: the value it leaves in `f` is the engine's
      plan run on the affine pairs; when squaring one gives one this is the
      generic Miller loop. */
  method MillerLoop(ops: Ops, pairs0: seq<Pair>, t0: seq<Fe2>) returns (f: Fe12, t: seq<Fe2>)
    requires |t0| == 10
    ensures f == MillerLoopValue(ops, pairs0)
    ensures ops.sqr12(ops.one) == ops.one ==> f == MillerLoopReference(ops, pairs0)
    ensures |t| == 10
  {
    var pairs := AffineAll(ops, pairs0);
    var tables;
    tables, t := PreComputeAll(ops, pairs, t0);
    f, t := Accumulate(ops, pairs, tables, t);
    if ops.sqr12(ops.one) == ops.one {
      MillerLoopMatchesReference(ops, pairs0);
    }
  }
}
