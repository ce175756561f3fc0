// Word alignment in whisper/alignment_words.go: dynamic time warping with two rolling cost
// rows, a trace and a traceback, and the tiling of a segment into words.

/** What the recurrence computes: costs, directions, and the path they encode. */
module Warping {

  /** A cost over the reals, with the infinity of the borders. */
  datatype Cost = Fin(v: real) | Inf

  predicate Less(a: Cost, b: Cost) {
    a.Fin? && (b.Inf? || a.v < b.v)
  }

  function Plus(x: real, a: Cost): Cost {
    if a.Inf? then Inf else Fin(x + a.v)
  }

  /** An attention matrix, a row per token. */
  type Matrix = seq<seq<real>>

  ghost predicate Shaped(m: Matrix, rows: nat, frames: nat) {
    |m| == rows && forall i :: 0 <= i < rows ==> |m[i]| == frames
  }

  datatype Direction = Diagonal | Up | Left

  /** The source's choice: the diagonal or the row above when strictly least, else the left. */
  function Choose(diagonal: Cost, up: Cost, left: Cost): Direction {
    if Less(diagonal, up) && Less(diagonal, left) then Diagonal
    else if Less(up, diagonal) && Less(up, left) then Up
    else Left
  }

  function Chosen(diagonal: Cost, up: Cost, left: Cost): Cost {
    match Choose(diagonal, up, left)
    case Diagonal => diagonal
    case Up => up
    case Left => left
  }

  /** The cost of cell (i, j); row and column 0 are the borders. */
  function Total(m: Matrix, rows: nat, frames: nat, i: nat, j: nat): Cost
    requires Shaped(m, rows, frames) && i <= rows && j <= frames
    decreases i, j
  {
    if i == 0 then (if j == 0 then Fin(0.0) else Inf)
    else if j == 0 then Inf
    else
      var diagonal, up := Total(m, rows, frames, i - 1, j - 1), Total(m, rows, frames, i - 1, j);
      Plus(-m[i - 1][j - 1], Chosen(diagonal, up, Total(m, rows, frames, i, j - 1)))
  }

  function Trace(m: Matrix, rows: nat, frames: nat, i: nat, j: nat): Direction
    requires Shaped(m, rows, frames) && 0 < i <= rows && 0 < j <= frames
  {
    Choose(Total(m, rows, frames, i - 1, j - 1), Total(m, rows, frames, i - 1, j), Total(m, rows, frames, i, j - 1))
  }

  /** Diagonal and up tie below left: the choice is not the least. */
  predicate Tie(m: Matrix, rows: nat, frames: nat, i: nat, j: nat)
    requires Shaped(m, rows, frames) && 0 < i <= rows && 0 < j <= frames
  {
    var diagonal, up := Total(m, rows, frames, i - 1, j - 1), Total(m, rows, frames, i - 1, j);
    var left := Total(m, rows, frames, i, j - 1);
    diagonal == up && Less(up, left)
  }

  datatype Cell = Cell(i: nat, j: nat)

  predicate Step(a: Cell, b: Cell) {
    (b.i == a.i || b.i == a.i + 1) && (b.j == a.j || b.j == a.j + 1) && a != b
  }

  /** A monotone path from the first cell to (i, j). */
  ghost predicate Monotone(p: seq<Cell>, i: nat, j: nat) {
    && |p| > 0 && p[0] == Cell(1, 1) && p[|p| - 1] == Cell(i, j)
    && forall k :: 0 <= k < |p| - 1 ==> Step(p[k], p[k + 1])
  }

  function PathCost(m: Matrix, p: seq<Cell>): real {
    if p == [] then 0.0 else
      var c := p[|p| - 1];
      PathCost(m, p[..|p| - 1]) + if 0 < c.i <= |m| && 0 < c.j <= |m[c.i - 1]| then -m[c.i - 1][c.j - 1] else 0.0
  }

  /** Every inner cell is finite, and its direction leads to an inner cell or to the origin. */
  lemma {:induction false} Inner(m: Matrix, rows: nat, frames: nat, i: nat, j: nat)
    requires Shaped(m, rows, frames) && 0 < i <= rows && 0 < j <= frames
    ensures Total(m, rows, frames, i, j).Fin?
    ensures i == j == 1 ==> Trace(m, rows, frames, i, j).Diagonal?
    ensures i == 1 < j ==> Trace(m, rows, frames, i, j).Left?
    ensures j == 1 < i ==> Trace(m, rows, frames, i, j).Up?
    decreases i + j
  {
    if i > 1 {
      Inner(m, rows, frames, i - 1, j);
      if j > 1 {
        Inner(m, rows, frames, i - 1, j - 1);
      }
    }
    if j > 1 {
      Inner(m, rows, frames, i, j - 1);
    }
  }

  /** Where the direction of an inner cell leads. */
  function From(m: Matrix, rows: nat, frames: nat, i: nat, j: nat): Cell
    requires Shaped(m, rows, frames) && 0 < i <= rows && 0 < j <= frames
  {
    match Trace(m, rows, frames, i, j)
    case Diagonal => Cell(i - 1, j - 1)
    case Up => Cell(i - 1, j)
    case Left => Cell(i, j - 1)
  }

  /** The path that the traces back from (i, j) encode. */
  ghost function Back(m: Matrix, rows: nat, frames: nat, i: nat, j: nat): (p: seq<Cell>)
    requires Shaped(m, rows, frames) && 0 < i <= rows && 0 < j <= frames
    ensures Monotone(p, i, j)
    decreases i + j
  {
    Inner(m, rows, frames, i, j);
    if i == j == 1 then [Cell(1, 1)] else
      var c := From(m, rows, frames, i, j);
      Back(m, rows, frames, c.i, c.j) + [Cell(i, j)]
  }

  lemma PathCostAppend(m: Matrix, p: seq<Cell>, i: nat, j: nat)
    requires 0 < i <= |m| && 0 < j <= |m[i - 1]|
    ensures PathCost(m, p + [Cell(i, j)]) == PathCost(m, p) - m[i - 1][j - 1]
  {
    assert (p + [Cell(i, j)])[..|p|] == p;
  }

  /** An inner cell costs its own weight more than the cell its direction leads to. */
  lemma TotalFrom(m: Matrix, rows: nat, frames: nat, i: nat, j: nat)
    requires Shaped(m, rows, frames) && 0 < i <= rows && 0 < j <= frames
    ensures var c := From(m, rows, frames, i, j);
      Total(m, rows, frames, i, j) == Plus(-m[i - 1][j - 1], Total(m, rows, frames, c.i, c.j))
  {
  }

  /** A cell's cost is the cost of the path its traces encode. */
  lemma {:induction false} CostOfPath(m: Matrix, rows: nat, frames: nat, i: nat, j: nat)
    requires Shaped(m, rows, frames) && 0 < i <= rows && 0 < j <= frames
    ensures Total(m, rows, frames, i, j) == Fin(PathCost(m, Back(m, rows, frames, i, j)))
    decreases i + j
  {
    Inner(m, rows, frames, i, j);
    TotalFrom(m, rows, frames, i, j);
    if i == j == 1 {
      PathCostAppend(m, [], 1, 1);
      assert PathCost(m, []) == 0.0;
      assert [] + [Cell(1, 1)] == [Cell(1, 1)];
    } else {
      hide Total, PathCost, Trace, Monotone;
      var c := From(m, rows, frames, i, j);
      CostOfPath(m, rows, frames, c.i, c.j);
      PathCostAppend(m, Back(m, rows, frames, c.i, c.j), i, j);
    }
  }

  /** No monotone path to (i, j) is cheaper than the one chosen. */
  ghost predicate Cheapest(m: Matrix, rows: nat, frames: nat, i: nat, j: nat)
    requires Shaped(m, rows, frames) && 0 < i <= rows && 0 < j <= frames
  {
    forall p :: Monotone(p, i, j) ==> PathCost(m, Back(m, rows, frames, i, j)) <= PathCost(m, p)
  }

  ghost predicate NoTies(m: Matrix, rows: nat, frames: nat, i: nat, j: nat)
    requires Shaped(m, rows, frames) && i <= rows && j <= frames
  {
    forall a, b :: 0 < a <= i && 0 < b <= j ==> !Tie(m, rows, frames, a, b)
  }

  /** A monotone path stays between its ends. */
  lemma {:induction false} Between(p: seq<Cell>, i: nat, j: nat, k: nat)
    requires Monotone(p, i, j) && k < |p|
    ensures 1 <= p[k].i <= i && 1 <= p[k].j <= j
    decreases |p|
  {
    if k < |p| - 1 {
      var c := p[|p| - 2];
      assert Step(c, p[|p| - 1]);
      Between(p[..|p| - 1], c.i, c.j, k);
    } else if |p| > 1 {
      var c := p[|p| - 2];
      assert Step(c, p[|p| - 1]);
      Between(p[..|p| - 1], c.i, c.j, k - 1);
    }
  }

  /** No cell of p ties. */
  ghost predicate TieFree(m: Matrix, rows: nat, frames: nat, p: seq<Cell>)
    requires Shaped(m, rows, frames)
  {
    forall k :: 0 <= k < |p| ==>
      0 < p[k].i <= rows && 0 < p[k].j <= frames && !Tie(m, rows, frames, p[k].i, p[k].j)
  }

  /** A monotone path without ties on it costs no less than the cell it leads to. */
  lemma {:induction false} NothingCheaper(m: Matrix, rows: nat, frames: nat, p: seq<Cell>, i: nat, j: nat)
    requires Shaped(m, rows, frames) && 0 < i <= rows && 0 < j <= frames
    requires Monotone(p, i, j) && TieFree(m, rows, frames, p)
    ensures Total(m, rows, frames, i, j).Fin? && Total(m, rows, frames, i, j).v <= PathCost(m, p)
    decreases |p|
  {
    hide PathCost, Trace, Choose, Total;
    Inner(m, rows, frames, i, j);
    var q := p[..|p| - 1];
    assert p == q + [Cell(i, j)];
    PathCostAppend(m, q, i, j);
    assert !Tie(m, rows, frames, p[|p| - 1].i, p[|p| - 1].j);
    if |p| > 1 {
      var c := p[|p| - 2];
      assert Step(c, p[|p| - 1]);
      Between(p, i, j, |p| - 2);
      assert Monotone(q, c.i, c.j);
      NothingCheaper(m, rows, frames, q, c.i, c.j);
      ChosenBelow(m, rows, frames, i, j, c.i, c.j);
    } else {
      assert q == [];
      FirstCell(m, rows, frames);
    }
  }

  lemma FirstCell(m: Matrix, rows: nat, frames: nat)
    requires Shaped(m, rows, frames) && 0 < rows && 0 < frames
    ensures Total(m, rows, frames, 1, 1) == Fin(-m[0][0]) && PathCost(m, []) == 0.0
  {
  }

  /** Without a tie a cell costs no more than its weight after any cell before it. */
  lemma ChosenBelow(m: Matrix, rows: nat, frames: nat, i: nat, j: nat, a: nat, b: nat)
    requires Shaped(m, rows, frames) && 0 < i <= rows && 0 < j <= frames && !Tie(m, rows, frames, i, j)
    requires Step(Cell(a, b), Cell(i, j)) && 0 < a && 0 < b
    requires Total(m, rows, frames, a, b).Fin?
    ensures Total(m, rows, frames, i, j).Fin?
    ensures Total(m, rows, frames, i, j).v <= Total(m, rows, frames, a, b).v - m[i - 1][j - 1]
  {
    hide Total, Chosen, Tie;
    ChosenIsLeast(m, rows, frames, i, j);
    TotalIs(m, rows, frames, i, j);
  }

  lemma TotalIs(m: Matrix, rows: nat, frames: nat, i: nat, j: nat)
    requires Shaped(m, rows, frames) && 0 < i <= rows && 0 < j <= frames
    ensures Total(m, rows, frames, i, j) == Plus(-m[i - 1][j - 1],
      Chosen(Total(m, rows, frames, i - 1, j - 1), Total(m, rows, frames, i - 1, j), Total(m, rows, frames, i, j - 1)))
  {
  }

  /** The choice is the least of the three unless they tie. */
  lemma ChosenIsLeast(m: Matrix, rows: nat, frames: nat, i: nat, j: nat)
    requires Shaped(m, rows, frames) && 0 < i <= rows && 0 < j <= frames
    ensures var d, u := Total(m, rows, frames, i - 1, j - 1), Total(m, rows, frames, i - 1, j);
      var l := Total(m, rows, frames, i, j - 1);
      !Tie(m, rows, frames, i, j) <==>
        !Less(d, Chosen(d, u, l)) && !Less(u, Chosen(d, u, l)) && !Less(l, Chosen(d, u, l))
  {
  }

  /** A tied cell has a cheaper path: its diagonal's, then itself. */
  lemma TieIsNotCheapest(m: Matrix, rows: nat, frames: nat, i: nat, j: nat)
    requires Shaped(m, rows, frames) && 0 < i <= rows && 0 < j <= frames && Tie(m, rows, frames, i, j)
    ensures !Cheapest(m, rows, frames, i, j)
  {
    hide PathCost, Trace, Back, Choose, Total;
    TieIsInner(m, rows, frames, i, j);
    CostOfPath(m, rows, frames, i, j);
    CostOfPath(m, rows, frames, i - 1, j - 1);
    var p := Back(m, rows, frames, i - 1, j - 1);
    PathCostAppend(m, p, i, j);
    MonotoneAppend(p, i, j);
  }

  lemma MonotoneAppend(p: seq<Cell>, i: nat, j: nat)
    requires i > 1 && j > 1 && Monotone(p, i - 1, j - 1)
    ensures Monotone(p + [Cell(i, j)], i, j)
  {
    var q := p + [Cell(i, j)];
    forall k | 0 <= k < |q| - 1 ensures Step(q[k], q[k + 1]) {
      if k < |p| - 1 {
        assert Step(p[k], p[k + 1]);
      }
    }
  }

  /** A tie has a row and a column before it, and costs more than its diagonal would. */
  lemma TieIsInner(m: Matrix, rows: nat, frames: nat, i: nat, j: nat)
    requires Shaped(m, rows, frames) && 0 < i <= rows && 0 < j <= frames && Tie(m, rows, frames, i, j)
    ensures i > 1 && j > 1
    ensures Less(Plus(-m[i - 1][j - 1], Total(m, rows, frames, i - 1, j - 1)), Total(m, rows, frames, i, j))
  {
    if j > 1 {
      Inner(m, rows, frames, i, j - 1);
    }
  }

  lemma NoneOnPath(m: Matrix, rows: nat, frames: nat, p: seq<Cell>, i: nat, j: nat)
    requires Shaped(m, rows, frames) && 0 < i <= rows && 0 < j <= frames
    requires Monotone(p, i, j) && NoTies(m, rows, frames, rows, frames)
    ensures TieFree(m, rows, frames, p)
  {
    hide Tie;
    forall k | 0 <= k < |p|
      ensures 0 < p[k].i <= rows && 0 < p[k].j <= frames && !Tie(m, rows, frames, p[k].i, p[k].j)
    {
      Between(p, i, j, k);
    }
  }

  /** One more cell after a monotone path. */
  lemma MonotoneStep(p: seq<Cell>, c: Cell, i: nat, j: nat)
    requires Monotone(p, c.i, c.j) && Step(c, Cell(i, j))
    ensures Monotone(p + [Cell(i, j)], i, j)
  {
    var q := p + [Cell(i, j)];
    forall k | 0 <= k < |q| - 1 ensures Step(q[k], q[k + 1]) {
      if k < |p| - 1 {
        assert Step(p[k], p[k + 1]);
      }
    }
  }

  /** A cheapest path is cheapest up to the cell before its last, too. */
  lemma CheapestBefore(m: Matrix, rows: nat, frames: nat, i: nat, j: nat)
    requires Shaped(m, rows, frames) && 0 < i <= rows && 0 < j <= frames && !(i == j == 1)
    requires Cheapest(m, rows, frames, i, j)
    ensures var c := From(m, rows, frames, i, j);
      0 < c.i <= rows && 0 < c.j <= frames && Cheapest(m, rows, frames, c.i, c.j)
  {
    hide PathCost;
    Inner(m, rows, frames, i, j);
    var c := From(m, rows, frames, i, j);
    var back := Back(m, rows, frames, c.i, c.j);
    PathCostAppend(m, back, i, j);
    forall p | Monotone(p, c.i, c.j) ensures PathCost(m, back) <= PathCost(m, p) {
      MonotoneStep(p, c, i, j);
      PathCostAppend(m, p, i, j);
    }
  }

  /** A traced path that is cheapest has no tie on it. */
  lemma {:induction false} CheapestIsTieFree(m: Matrix, rows: nat, frames: nat, i: nat, j: nat)
    requires Shaped(m, rows, frames) && 0 < i <= rows && 0 < j <= frames && Cheapest(m, rows, frames, i, j)
    ensures TieFree(m, rows, frames, Back(m, rows, frames, i, j))
    decreases i + j
  {
    hide Cheapest, Tie, Total;
    if Tie(m, rows, frames, i, j) {
      TieIsNotCheapest(m, rows, frames, i, j);
    } else if !(i == j == 1) {
      Inner(m, rows, frames, i, j);
      CheapestBefore(m, rows, frames, i, j);
      var c := From(m, rows, frames, i, j);
      CheapestIsTieFree(m, rows, frames, c.i, c.j);
    }
  }

  /** A cheapest monotone path to (i, j). */
  ghost predicate Optimal(m: Matrix, p: seq<Cell>, i: nat, j: nat) {
    Monotone(p, i, j) && forall q :: Monotone(q, i, j) ==> PathCost(m, p) <= PathCost(m, q)
  }

  /** The path traced back from a cell is cheapest exactly when some cheapest path to it meets no tie. */
  lemma CheapestIff(m: Matrix, rows: nat, frames: nat, i: nat, j: nat)
    requires Shaped(m, rows, frames) && 0 < i <= rows && 0 < j <= frames
    ensures Cheapest(m, rows, frames, i, j) <==> exists p :: Optimal(m, p, i, j) && TieFree(m, rows, frames, p)
  {
    hide TieFree, Total;
    CostOfPath(m, rows, frames, i, j);
    if Cheapest(m, rows, frames, i, j) {
      CheapestIsTieFree(m, rows, frames, i, j);
      assert Optimal(m, Back(m, rows, frames, i, j), i, j);
    }
    if exists p :: Optimal(m, p, i, j) && TieFree(m, rows, frames, p) {
      var p :| Optimal(m, p, i, j) && TieFree(m, rows, frames, p);
      NothingCheaper(m, rows, frames, p, i, j);
    }
  }

  /** Every cell's path is cheapest exactly when no cell ties its diagonal and up below left. */
  lemma CheapestIffNoTies(m: Matrix, rows: nat, frames: nat)
    requires Shaped(m, rows, frames)
    ensures NoTies(m, rows, frames, rows, frames) <==>
      forall i, j :: 0 < i <= rows && 0 < j <= frames ==> Cheapest(m, rows, frames, i, j)
  {
    if NoTies(m, rows, frames, rows, frames) {
      forall i, j | 0 < i <= rows && 0 < j <= frames ensures Cheapest(m, rows, frames, i, j) {
        CostOfPath(m, rows, frames, i, j);
        forall p | Monotone(p, i, j) ensures PathCost(m, Back(m, rows, frames, i, j)) <= PathCost(m, p) {
          NoneOnPath(m, rows, frames, p, i, j);
          NothingCheaper(m, rows, frames, p, i, j);
        }
      }
    } else {
      var i, j :| 0 < i <= rows && 0 < j <= frames && Tie(m, rows, frames, i, j);
      TieIsNotCheapest(m, rows, frames, i, j);
    }
  }

  /** Two tokens and two frames for which the path found is not the cheapest. */
  const Tied: Matrix := [[0.0, 0.0], [-1.0, 0.0]]

  lemma TiedIsNotCheapest()
    ensures Shaped(Tied, 2, 2) && !Cheapest(Tied, 2, 2, 2, 2)
  {
    assert Total(Tied, 2, 2, 0, 1) == Inf && Total(Tied, 2, 2, 1, 0) == Inf;
    assert Total(Tied, 2, 2, 2, 0) == Inf && Total(Tied, 2, 2, 0, 2) == Inf;
    assert Total(Tied, 2, 2, 1, 1) == Fin(0.0);
    assert Total(Tied, 2, 2, 1, 2) == Fin(0.0);
    assert Total(Tied, 2, 2, 2, 1) == Fin(1.0);
    TieIsNotCheapest(Tied, 2, 2, 2, 2);
  }

  /** A third frame, reached past the same tie: the path found is cheapest all the same. */
  const Passed: Matrix := [[0.0, 0.0, -5.0], [-1.0, 0.0, 0.0]]

  lemma {:induction false} NothingIsFree(p: seq<Cell>)
    ensures PathCost(Passed, p) >= 0.0
  {
    if p != [] {
      NothingIsFree(p[..|p| - 1]);
    }
  }

  lemma TieOffThePath()
    ensures Shaped(Passed, 2, 3) && Tie(Passed, 2, 3, 2, 2) && Cheapest(Passed, 2, 3, 2, 3)
  {
    assert Total(Passed, 2, 3, 0, 1) == Inf && Total(Passed, 2, 3, 1, 0) == Inf && Total(Passed, 2, 3, 2, 0) == Inf
        && Total(Passed, 2, 3, 0, 2) == Inf && Total(Passed, 2, 3, 0, 3) == Inf;
    assert Total(Passed, 2, 3, 1, 1) == Fin(0.0);
    assert Total(Passed, 2, 3, 1, 2) == Fin(0.0);
    assert Total(Passed, 2, 3, 1, 3) == Fin(5.0);
    assert Total(Passed, 2, 3, 2, 1) == Fin(1.0);
    assert Total(Passed, 2, 3, 2, 2) == Fin(1.0);
    assert Total(Passed, 2, 3, 2, 3) == Fin(0.0);
    CostOfPath(Passed, 2, 3, 2, 3);
    forall p | Monotone(p, 2, 3) ensures PathCost(Passed, Back(Passed, 2, 3, 2, 3)) <= PathCost(Passed, p) {
      NothingIsFree(p);
    }
  }
}

/** The loops of alignmentJumps and of the word tiling. */
module Alignment {
  import opened Warping

  /** (i, j) is on the path, and is its first cell in row i. */
  ghost predicate FirstInRow(p: seq<Cell>, i: nat, j: nat) {
    exists k :: 0 <= k < |p| && p[k] == Cell(i, j) && (k == 0 || p[k - 1].i < i)
  }

  /** What jumps holds: the first frame of every row on the path, or nothing without one. */
  ghost predicate Jumps(m: Matrix, rows: nat, frames: nat, jumps: seq<nat>)
    requires Shaped(m, rows, frames)
  {
    |jumps| == rows &&
    forall i :: 0 <= i < rows ==>
      if frames == 0 then jumps[i] == 0
      else jumps[i] < frames && FirstInRow(Back(m, rows, frames, rows, frames), i + 1, jumps[i] + 1)
  }

  /** Row i of the cost matrix, as a rolling buffer holds it. */
  ghost predicate RowIs(m: Matrix, rows: nat, frames: nat, i: nat, row: seq<Cost>)
    requires Shaped(m, rows, frames) && i <= rows
  {
    |row| == frames + 1 && forall j :: 0 <= j <= frames ==> row[j] == Total(m, rows, frames, i, j)
  }

  /** The first i rows of the trace, and the first j columns of the next. */
  ghost predicate Traced(m: Matrix, rows: nat, frames: nat, trace: array2<Direction>, i: nat, j: nat)
    requires Shaped(m, rows, frames) && trace.Length0 == rows + 1 && trace.Length1 == frames + 1
    reads trace
  {
    forall a, b :: 0 < a <= rows && 0 < b <= frames && (a <= i || (a == i + 1 && b <= j)) ==>
      trace[a, b] == Trace(m, rows, frames, a, b)
  }

  /** Warps the rows to the frames: two rolling cost rows and a trace. */
  method Warp(m: Matrix, rows: nat, frames: nat) returns (trace: array2<Direction>)
    requires Shaped(m, rows, frames)
    ensures fresh(trace) && trace.Length0 == rows + 1 && trace.Length1 == frames + 1
    ensures Traced(m, rows, frames, trace, rows, 0)
  {
    hide Total, Choose, Chosen;
    var stride := frames + 1;
    trace := new Direction[rows + 1, stride];
    var previous, current := new Cost[stride], new Cost[stride];
    previous[0] := Fin(0.0);
    for j := 1 to stride
      invariant previous[0] == Fin(0.0) && forall b :: 1 <= b < j ==> previous[b] == Inf
    {
      previous[j] := Inf;
    }
    Borders(m, rows, frames);
    for i := 1 to rows + 1
      invariant previous.Length == current.Length == stride && previous != current && fresh(previous) && fresh(current)
      invariant RowIs(m, rows, frames, i - 1, previous[..]) && Traced(m, rows, frames, trace, i - 1, 0)
    {
      current[0] := Inf;
      for j := 1 to frames + 1
        invariant RowIs(m, rows, frames, i - 1, previous[..]) && Traced(m, rows, frames, trace, i - 1, j - 1)
        invariant forall b :: 0 <= b < j ==> current[b] == Total(m, rows, frames, i, b)
      {
        var diagonal, up, left := previous[j - 1], previous[j], current[j - 1];
        assert diagonal == previous[..][j - 1] && up == previous[..][j];
        var direction, best := Left, left;
        if Less(diagonal, up) && Less(diagonal, left) {
          direction, best := Diagonal, diagonal;
        } else if Less(up, diagonal) && Less(up, left) {
          direction, best := Up, up;
        }
        Choices(diagonal, up, left, direction, best);
        TotalIs(m, rows, frames, i, j);
        current[j] := Plus(-m[i - 1][j - 1], best);
        trace[i, j] := direction;
      }
      previous, current := current, previous;
    }
  }

  lemma Choices(diagonal: Cost, up: Cost, left: Cost, direction: Direction, best: Cost)
    requires if Less(diagonal, up) && Less(diagonal, left) then direction == Diagonal && best == diagonal
             else if Less(up, diagonal) && Less(up, left) then direction == Up && best == up
             else direction == Left && best == left
    ensures Choose(diagonal, up, left) == direction && Chosen(diagonal, up, left) == best
  {
  }

  lemma Borders(m: Matrix, rows: nat, frames: nat)
    requires Shaped(m, rows, frames)
    ensures Total(m, rows, frames, 0, 0) == Fin(0.0)
    ensures forall j :: 1 <= j <= frames ==> Total(m, rows, frames, 0, j) == Inf
    ensures forall i :: 1 <= i <= rows ==> Total(m, rows, frames, i, 0) == Inf
  {
  }

  /** Follows the trace from the last cell, leaving each row's first frame. */
  method AlignmentJumps(m: Matrix, rows: nat, frames: nat) returns (jumps: array<nat>)
    requires Shaped(m, rows, frames)
    ensures Jumps(m, rows, frames, jumps[..])
  {
    hide Total, Choose, Chosen, Trace, Monotone, Back;
    var trace := Warp(m, rows, frames);
    jumps := new nat[rows](_ => 0);
    var i, j := rows, frames;
    ghost var path: seq<Cell>, k: nat := [], 0;
    if rows > 0 && frames > 0 {
      path := Back(m, rows, frames, rows, frames);
      PathNotEmpty(m, rows, frames, rows, frames);
      k := |path| - 1;
    }
    while i > 0 || j > 0
      invariant i <= rows && j <= frames && trace.Length0 == rows + 1 && trace.Length1 == frames + 1
      invariant Traced(m, rows, frames, trace, rows, 0)
      invariant rows == 0 || frames == 0 ==> (i == 0 || j == 0) && forall r :: 0 <= r < rows ==> jumps[r] == 0
      invariant rows > 0 && frames > 0 ==> (i > 0 <==> j > 0)
      invariant rows > 0 && frames > 0 && i > 0 ==> OnPath(m, rows, frames, path, k, i, j)
      invariant rows > 0 && frames > 0 ==>
        forall r :: i <= r < rows ==> jumps[r] < frames && FirstInRow(path, r + 1, jumps[r] + 1)
      decreases i + j
    {
      if i > 0 && j > 0 {
        jumps[i - 1] := j - 1;
        assert trace[i, j] == Trace(m, rows, frames, i, j);
        StepBack(m, rows, frames, path, k, i, j);
        k := if k > 0 then k - 1 else 0;
        match trace[i, j]
        case Diagonal =>
          i, j := i - 1, j - 1;
        case Up =>
          i := i - 1;
        case Left =>
          j := j - 1;
      } else if i == 0 {
        j := j - 1;
      } else {
        i := i - 1;
      }
    }
  }

  /** The cell (i, j) is the path's k-th, reached from the end by the trace. */
  ghost predicate OnPath(m: Matrix, rows: nat, frames: nat, path: seq<Cell>, k: nat, i: nat, j: nat)
    requires Shaped(m, rows, frames)
  {
    0 < i <= rows && 0 < j <= frames && k < |path| && path[..k + 1] == Back(m, rows, frames, i, j)
  }

  lemma PathNotEmpty(m: Matrix, rows: nat, frames: nat, i: nat, j: nat)
    requires Shaped(m, rows, frames) && 0 < i <= rows && 0 < j <= frames
    ensures var p := Back(m, rows, frames, i, j); |p| > 0 && p[..|p| - 1 + 1] == p
  {
  }

  /** One step of the traceback: where it leads, and the first cell of a row it leaves. */
  lemma StepBack(m: Matrix, rows: nat, frames: nat, path: seq<Cell>, k: nat, i: nat, j: nat)
    requires Shaped(m, rows, frames) && OnPath(m, rows, frames, path, k, i, j)
    ensures k == 0 ==> i == j == 1 && Trace(m, rows, frames, i, j).Diagonal?
    ensures k > 0 ==> var c := From(m, rows, frames, i, j); OnPath(m, rows, frames, path, k - 1, c.i, c.j)
    ensures !Trace(m, rows, frames, i, j).Left? ==> FirstInRow(path, i, j)
  {
    hide Total, Choose, Chosen, Trace;
    Inner(m, rows, frames, i, j);
    var b := Back(m, rows, frames, i, j);
    assert b[|b| - 1] == Cell(i, j) && path[k] == path[..k + 1][k];
    if i == j == 1 {
      assert b == [Cell(1, 1)];
    } else {
      var c := From(m, rows, frames, i, j);
      var a := Back(m, rows, frames, c.i, c.j);
      assert b == a + [Cell(i, j)];
      assert path[..k] == b[..k] == a;
      assert path[k - 1] == a[|a| - 1] == c;
    }
  }

  lemma {:induction false} Along(p: seq<Cell>, i: nat, j: nat, a: nat, b: nat)
    requires Monotone(p, i, j) && a <= b < |p|
    ensures p[a].i <= p[b].i && p[a].j <= p[b].j
    decreases b
  {
    if a < b {
      assert Step(p[b - 1], p[b]);
      Along(p, i, j, a, b - 1);
    }
  }

  /** The frames where the rows begin never go back, and the first row begins at the start. */
  lemma JumpsNeverGoBack(m: Matrix, rows: nat, frames: nat, jumps: seq<nat>)
    requires Shaped(m, rows, frames) && Jumps(m, rows, frames, jumps)
    ensures forall a, b :: 0 <= a <= b < rows ==> jumps[a] <= jumps[b]
    ensures rows > 0 ==> jumps[0] == 0
  {
    hide Back, Total;
    if frames > 0 && rows > 0 {
      var p := Back(m, rows, frames, rows, frames);
      forall a, b | 0 <= a < b < rows ensures jumps[a] <= jumps[b] {
        var k :| 0 <= k < |p| && p[k] == Cell(a + 1, jumps[a] + 1) && (k == 0 || p[k - 1].i < a + 1);
        var l :| 0 <= l < |p| && p[l] == Cell(b + 1, jumps[b] + 1) && (l == 0 || p[l - 1].i < b + 1);
        Along(p, rows, frames, if k <= l then k else l, if k <= l then l else k);
      }
      var k :| 0 <= k < |p| && p[k] == Cell(1, jumps[0] + 1) && (k == 0 || p[k - 1].i < 1);
      if k > 0 {
        Between(p, rows, frames, k - 1);
      }
    }
  }

  type Bytes = seq<bv8>

  datatype Word = Word(start: real, end: real, textStart: nat, textEnd: nat)

  predicate Punctuation(b: bv8) {
    b in {46, 44, 33, 63, 59, 58, 41, 93, 125, 34, 39, 45, 40} // . , ! ? ; : ) ] } " ' - (
  }

  predicate WordBreak(piece: Bytes) {
    piece != [] && (piece[0] == 32 || piece[0] == 10 || piece[0] == 9 || Punctuation(piece[0]))
  }

  predicate TrailingPunctuation(piece: Bytes) {
    0 < |piece| <= 3 && forall b :: b in piece ==> Punctuation(b)
  }

  /** Words that follow each other without gap or overlap, in text and in time. */
  ghost predicate Tiles(words: seq<Word>, textStart: nat, textEnd: nat, start: real, end: real) {
    && |words| > 0
    && words[0].textStart == textStart && words[|words| - 1].textEnd == textEnd
    && words[0].start == start && words[|words| - 1].end == end
    && (forall k :: 0 <= k < |words| ==> words[k].start <= words[k].end && words[k].textStart <= words[k].textEnd)
    && (forall k :: 0 <= k < |words| - 1 ==>
      words[k].textEnd == words[k + 1].textStart && words[k].end == words[k + 1].start)
  }

  lemma TilesExtend(words: seq<Word>, w: Word, textStart: nat, textEnd: nat, start: real, end: real, merge: bool)
    requires if words == [] then !merge && w.textStart == textStart && w.start == start
      else Tiles(words, textStart, w.textStart, start, w.start)
    requires w.textEnd == textEnd && w.end == end && w.start <= w.end && w.textStart <= w.textEnd
    ensures !merge ==> Tiles(words + [w], textStart, textEnd, start, end)
    ensures merge ==> var last := words[|words| - 1];
      Tiles(words[|words| - 1 := last.(textEnd := w.textEnd, end := w.end)], textStart, textEnd, start, end)
  {
  }

  // Where words begin.

  const PUNCTUATION: set<bv8> := {33, 34, 39, 40, 41, 44, 45, 46, 58, 59, 63, 93, 125}

  const SPACES: set<bv8> := {9, 10, 32}

  ghost predicate Ordered(offsets: seq<nat>, text: Bytes) {
    forall a, b :: 0 <= a <= b < |offsets| ==> offsets[a] <= offsets[b] <= |text|
  }

  /** Token b's piece begins with a space or punctuation. */
  ghost predicate Breaks(text: Bytes, offsets: seq<nat>, b: nat)
    requires b + 1 < |offsets| && Ordered(offsets, text)
  {
    offsets[b] < offsets[b + 1] && text[offsets[b]] in SPACES + PUNCTUATION
  }

  /** The first token from b on that breaks, or the end. */
  ghost function NextBreak(text: Bytes, offsets: seq<nat>, b: nat, tokenEnd: nat): (e: nat)
    requires b <= tokenEnd < |offsets| && Ordered(offsets, text)
    ensures b <= e <= tokenEnd && (e < tokenEnd ==> Breaks(text, offsets, e))
    ensures forall t :: b <= t < e ==> !Breaks(text, offsets, t)
    decreases tokenEnd - b
  {
    if b == tokenEnd || Breaks(text, offsets, b) then b else NextBreak(text, offsets, b + 1, tokenEnd)
  }

  /** The text from token b to the next break is one to three bytes of punctuation. */
  ghost predicate Trails(text: Bytes, offsets: seq<nat>, b: nat, tokenEnd: nat)
    requires b < tokenEnd < |offsets| && Ordered(offsets, text)
  {
    var e := NextBreak(text, offsets, b + 1, tokenEnd);
    1 <= offsets[e] - offsets[b] <= 3 && forall x :: offsets[b] <= x < offsets[e] ==> text[x] in PUNCTUATION
  }

  /** The tokens [tokenStart, done) are in words that begin at the tokens starts: the first token, and
      every one that breaks, unless it trails behind another word. */
  ghost predicate Divides(text: Bytes, offsets: seq<nat>, tokenStart: nat, done: nat, tokenEnd: nat, starts: seq<nat>)
    requires tokenStart <= done <= tokenEnd < |offsets| && Ordered(offsets, text)
  {
    && (tokenStart < done ==> starts != [] && starts[0] == tokenStart)
    && (forall i, j :: 0 <= i < j < |starts| ==> starts[i] < starts[j])
    && (forall i :: 0 <= i < |starts| ==> tokenStart <= starts[i] < done)
    && forall b :: tokenStart < b < done ==>
         (b in starts <==> Breaks(text, offsets, b) && !Trails(text, offsets, b, tokenEnd))
  }

  /** Each word begins at the offset and the time of the token that begins it. */
  ghost predicate BeginAt(words: seq<Word>, starts: seq<nat>, offsets: seq<nat>, jumps: seq<nat>, time: nat -> real) {
    |words| == |starts| && forall k :: 0 <= k < |words| ==>
      starts[k] < |offsets| && starts[k] < |jumps| &&
      words[k].textStart == offsets[starts[k]] && words[k].start == time(jumps[starts[k]])
  }

  lemma BreakIs(text: Bytes, offsets: seq<nat>, b: nat)
    requires b + 1 < |offsets| && Ordered(offsets, text)
    ensures WordBreak(text[offsets[b]..offsets[b + 1]]) <==> Breaks(text, offsets, b)
  {
  }

  lemma TrailsIs(text: Bytes, offsets: seq<nat>, b: nat, tokenEnd: nat)
    requires b < tokenEnd < |offsets| && Ordered(offsets, text)
    ensures var e := NextBreak(text, offsets, b + 1, tokenEnd);
      TrailingPunctuation(text[offsets[b]..offsets[e]]) <==> Trails(text, offsets, b, tokenEnd)
  {
    var e := NextBreak(text, offsets, b + 1, tokenEnd);
    var piece := text[offsets[b]..offsets[e]];
    assert forall x :: offsets[b] <= x < offsets[e] ==> piece[x - offsets[b]] == text[x];
    forall i | 0 <= i < |piece| ensures piece[i] == text[offsets[b] + i] {
    }
    if TrailingPunctuation(piece) {
      forall x | offsets[b] <= x < offsets[e] ensures text[x] in PUNCTUATION {
        assert piece[x - offsets[b]] in piece;
      }
    }
  }

  lemma BeginNext(words: seq<Word>, starts: seq<nat>, offsets: seq<nat>, jumps: seq<nat>, time: nat -> real, w: Word,
      b: nat)
    requires BeginAt(words, starts, offsets, jumps, time) && b < |offsets| && b < |jumps|
    requires w.textStart == offsets[b] && w.start == time(jumps[b])
    ensures BeginAt(words + [w], starts + [b], offsets, jumps, time)
    ensures words != [] ==> var last := words[|words| - 1];
      BeginAt(words[|words| - 1 := last.(textEnd := w.textEnd, end := w.end)], starts, offsets, jumps, time)
  {
  }

  /** One more word, or more of the last. */
  lemma DividesNext(text: Bytes, offsets: seq<nat>, tokenStart: nat, b: nat, tokenEnd: nat, starts: seq<nat>)
    requires tokenStart <= b < tokenEnd < |offsets| && Ordered(offsets, text)
    requires Divides(text, offsets, tokenStart, b, tokenEnd, starts) && (b == tokenStart ==> starts == [])
    requires b > tokenStart ==> Breaks(text, offsets, b)
    ensures var e := NextBreak(text, offsets, b + 1, tokenEnd);
      Divides(text, offsets, tokenStart, e, tokenEnd,
        if b > tokenStart && Trails(text, offsets, b, tokenEnd) then starts else starts + [b])
  {
    hide Trails, Breaks;
    var e := NextBreak(text, offsets, b + 1, tokenEnd);
    var more := starts + [b];
    assert more[|starts|] == b;
    forall t | tokenStart < t < e ensures t in more <==> t in starts || t == b {
    }
  }

  /** The words of the tokens [tokenStart, tokenEnd): a word ends where a token that begins
      with a space or punctuation follows, and trailing punctuation joins the word before. */
  method TileSegment(text: Bytes, offsets: seq<nat>, jumps: seq<nat>, time: nat -> real, tokenStart: nat, tokenEnd: nat)
    returns (words: seq<Word>, ghost starts: seq<nat>)
    requires tokenStart <= tokenEnd < |offsets| && tokenEnd < |jumps|
    requires Ordered(offsets, text)
    requires forall a, b :: 0 <= a <= b < |jumps| ==> jumps[a] <= jumps[b]
    requires forall a, b :: a <= b ==> time(a) <= time(b)
    ensures tokenStart == tokenEnd ==> words == []
    ensures tokenStart < tokenEnd ==>
      Tiles(words, offsets[tokenStart], offsets[tokenEnd], time(jumps[tokenStart]), time(jumps[tokenEnd]))
    ensures Divides(text, offsets, tokenStart, tokenEnd, tokenEnd, starts)
    ensures BeginAt(words, starts, offsets, jumps, time)
  {
    hide Tiles, TrailingPunctuation, WordBreak, Divides, Breaks, Trails, BeginAt, NextBreak;
    words, starts := [], [];
    DividesNone(text, offsets, tokenStart, tokenEnd);
    BeginNone(offsets, jumps, time);
    var begin := tokenStart;
    while begin < tokenEnd
      invariant tokenStart <= begin <= tokenEnd
      invariant begin == tokenStart ==> words == [] && starts == []
      invariant begin > tokenStart ==> words != []
      invariant begin > tokenStart ==>
        Tiles(words, offsets[tokenStart], offsets[begin], time(jumps[tokenStart]), time(jumps[begin]))
      invariant tokenStart < begin < tokenEnd ==> Breaks(text, offsets, begin)
      invariant Divides(text, offsets, tokenStart, begin, tokenEnd, starts)
      invariant BeginAt(words, starts, offsets, jumps, time)
    {
      var end := FindBreak(text, offsets, begin + 1, tokenEnd);
      var startTime, endTime := time(jumps[begin]), time(jumps[end]);
      if endTime < startTime {
        endTime := startTime;
      }
      var word := Word(startTime, endTime, offsets[begin], offsets[end]);
      var merge := words != [] && TrailingPunctuation(text[word.textStart..word.textEnd]);
      TrailsIs(text, offsets, begin, tokenEnd);
      DividesNext(text, offsets, tokenStart, begin, tokenEnd, starts);
      BeginNext(words, starts, offsets, jumps, time, word, begin);
      TilesExtend(words, word, offsets[tokenStart], offsets[end], time(jumps[tokenStart]), time(jumps[end]), merge);
      if merge {
        var previous := words[|words| - 1];
        words := words[|words| - 1 := previous.(textEnd := word.textEnd, end := word.end)];
      } else {
        words := words + [word];
        starts := starts + [begin];
      }
      begin := end;
    }
  }

  lemma BeginNone(offsets: seq<nat>, jumps: seq<nat>, time: nat -> real)
    ensures BeginAt([], [], offsets, jumps, time)
  {
  }

  lemma DividesNone(text: Bytes, offsets: seq<nat>, tokenStart: nat, tokenEnd: nat)
    requires tokenStart <= tokenEnd < |offsets| && Ordered(offsets, text)
    ensures Divides(text, offsets, tokenStart, tokenStart, tokenEnd, [])
  {
  }

  /** The token where the word goes no further. */
  method FindBreak(text: Bytes, offsets: seq<nat>, from: nat, tokenEnd: nat) returns (end: nat)
    requires from <= tokenEnd < |offsets| && Ordered(offsets, text)
    ensures end == NextBreak(text, offsets, from, tokenEnd)
  {
    hide WordBreak, Breaks;
    end := from;
    while end < tokenEnd && !WordBreak(text[offsets[end]..offsets[end + 1]])
      invariant from <= end <= tokenEnd
      invariant NextBreak(text, offsets, end, tokenEnd) == NextBreak(text, offsets, from, tokenEnd)
    {
      BreakIs(text, offsets, end);
      end := end + 1;
    }
    if end < tokenEnd {
      BreakIs(text, offsets, end);
    }
  }
}
