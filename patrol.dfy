/** The guard patrol: a board of empty cells and obstacles, a guard that walks straight
    ahead and turns right in front of an obstacle, a per-cell record of the facings the guard
    had there, and the search for the cells where one extra obstacle makes the guard loop. */
module Patrol {
  import opened Wrappers
  import Text

  /** The guard's facing. */
  datatype Guard = Up | Down | Left | Right

  /** A cell of the board. A visited cell carries the mask of the facings the guard had when
      it stepped from there, one bit per facing. */
  datatype Cell = Empty | Obstacle | Visited(mask: bv8)

  const VISIT_UP: bv8 := 0x1
  const VISIT_DOWN: bv8 := 0x2
  const VISIT_LEFT: bv8 := 0x4
  const VISIT_RIGHT: bv8 := 0x8

  function Bit(d: Guard): (b: bv8)
    ensures b != 0
  {
    match d
    case Up => VISIT_UP
    case Down => VISIT_DOWN
    case Left => VISIT_LEFT
    case Right => VISIT_RIGHT
  }

  /** The facing after a turn to the right in front of an obstacle. */
  function Turn(d: Guard): Guard
  {
    match d
    case Up => Right
    case Right => Down
    case Down => Left
    case Left => Up
  }

  /** What one round reports. */
  datatype BoardStatus = Unresolved | Exit(visited: nat) | Loop

  type Pos = (nat, nat)

  /** The whole board: the cells, the dimensions (rows, columns), the guard's cell and facing. */
  datatype BoardState = BoardState(grid: seq<seq<Cell>>, dims: (nat, nat), guard: Pos, dir: Guard)

  /** A rectangular, non-empty board with the guard on it. */
  predicate WellFormed(s: BoardState)
  {
    && |s.grid| == s.dims.0 >= 1
    && s.dims.1 >= 1
    && (forall i :: 0 <= i < |s.grid| ==> |s.grid[i]| == s.dims.1)
    && s.guard.0 < s.dims.0 && s.guard.1 < s.dims.1
  }

  predicate InBounds(dims: (nat, nat), p: Pos)
  {
    p.0 < dims.0 && p.1 < dims.1
  }

  /** The guard stands on the edge of the board and faces out of it. */
  predicate AtEdge(dims: (nat, nat), p: Pos, d: Guard)
  {
    match d
    case Up => p.0 == 0
    case Down => p.0 + 1 == dims.0
    case Left => p.1 == 0
    case Right => p.1 + 1 == dims.1
  }

  /** The cell in front of the guard. */
  function Ahead(dims: (nat, nat), p: Pos, d: Guard): (a: Pos)
    requires InBounds(dims, p) && !AtEdge(dims, p, d)
    ensures InBounds(dims, a) && a != p
  {
    match d
    case Up => (p.0 - 1, p.1)
    case Down => (p.0 + 1, p.1)
    case Left => (p.0, p.1 - 1)
    case Right => (p.0, p.1 + 1)
  }

  /** The cell after the guard has stepped from it facing `d`. */
  function Mark(c: Cell, d: Guard): Cell
  {
    if c.Visited? then Visited(c.mask | Bit(d)) else Visited(Bit(d))
  }

  function SetCell(grid: seq<seq<Cell>>, p: Pos, c: Cell): seq<seq<Cell>>
    requires p.0 < |grid| && p.1 < |grid[p.0]|
  {
    grid[p.0 := grid[p.0][p.1 := c]]
  }

  /** Number of visited cells in one row and in the whole board. */
  function RowVisited(row: seq<Cell>): nat
  {
    if row == [] then 0 else RowVisited(row[..|row| - 1]) + (if row[|row| - 1].Visited? then 1 else 0)
  }

  function CountVisited(grid: seq<seq<Cell>>): nat
  {
    if grid == [] then 0 else CountVisited(grid[..|grid| - 1]) + RowVisited(grid[|grid| - 1])
  }

  /** The grid after the guard marks its own cell with its facing. */
  function MarkGuard(s: BoardState): (g: seq<seq<Cell>>)
    requires WellFormed(s)
    ensures WellFormed(s.(grid := g))
  {
    SetCell(s.grid, s.guard, Mark(s.grid[s.guard.0][s.guard.1], s.dir))
  }

  /** The second half of a round, on the marked grid: a loop if the cell ahead already carries
      the facing's bit, a turn in front of an obstacle, a step forward otherwise. */
  function Advance(s: BoardState, a: Pos): (r: (BoardStatus, BoardState))
    requires WellFormed(s) && InBounds(s.dims, a)
    ensures WellFormed(r.1) && r.1.dims == s.dims
  {
    match s.grid[a.0][a.1]
    case Visited(mask) =>
      if mask & Bit(s.dir) != 0 then (Loop, s)
      else (Unresolved, s.(guard := a))
    case Empty => (Unresolved, s.(guard := a))
    case Obstacle => (Unresolved, s.(dir := Turn(s.dir)))
  }

  /** One round of the patrol, as a function of the board. */
  function Step(s: BoardState): (r: (BoardStatus, BoardState))
    requires WellFormed(s)
    ensures WellFormed(r.1) && r.1.dims == s.dims
  {
    if AtEdge(s.dims, s.guard, s.dir) then (Exit(CountVisited(s.grid) + 1), s)
    else Advance(s.(grid := MarkGuard(s)), Ahead(s.dims, s.guard, s.dir))
  }

  /** The cell records that the guard stepped from it facing `d`. */
  predicate HasBit(c: Cell, d: Guard)
  {
    c.Visited? && c.mask & Bit(d) != 0
  }

  /** Marking ORs in exactly the facing's bit: the other facings' bits are kept, and marking
      the same facing twice changes nothing. */
  lemma MarkBits(c: Cell, d: Guard)
    ensures Mark(c, d).Visited?
    ensures forall e :: HasBit(Mark(c, d), e) <==> HasBit(c, e) || e == d
    ensures Mark(Mark(c, d), d) == Mark(c, d)
  {
    var m: bv8 := if c.Visited? then c.mask else 0;
    assert Mark(c, d) == Visited(m | Bit(d));
    forall e
      ensures HasBit(Mark(c, d), e) <==> HasBit(c, e) || e == d
    {
      OrBit(m, d, e);
    }
    assert (m | Bit(d)) | Bit(d) == m | Bit(d);
  }

  /** The facing's bit after OR-ing in the bit of `d`. */
  lemma OrBit(m: bv8, d: Guard, e: Guard)
    ensures (m | Bit(d)) & Bit(e) != 0 <==> m & Bit(e) != 0 || e == d
  {
    match d {
      case Up =>
      case Down =>
      case Left =>
      case Right =>
    }
  }

  /** What a round does to the board: at the edge facing out it reports Exit with the count of
      visited cells plus one and changes nothing; otherwise it writes only the guard's own cell,
      ORing in the facing's bit; it reports Loop exactly when the cell ahead already carries
      that bit; it never moves the guard onto an obstacle, and it either moves the guard one
      cell ahead keeping the facing or turns it right on the spot. */
  lemma RoundEffect(s: BoardState)
    requires WellFormed(s)
    ensures AtEdge(s.dims, s.guard, s.dir) ==> Step(s) == (Exit(CountVisited(s.grid) + 1), s)
    ensures !AtEdge(s.dims, s.guard, s.dir) ==>
      var (status, t) := Step(s);
      var (g, a) := (s.guard, Ahead(s.dims, s.guard, s.dir));
      && (forall i, j :: 0 <= i < s.dims.0 && 0 <= j < s.dims.1 && (i, j) != g ==> t.grid[i][j] == s.grid[i][j])
      && (forall e :: HasBit(t.grid[g.0][g.1], e) <==> HasBit(s.grid[g.0][g.1], e) || e == s.dir)
      && t.grid[g.0][g.1].Visited?
      && (status == Loop <==> HasBit(s.grid[a.0][a.1], s.dir))
      && (status != Loop ==> status == Unresolved && !t.grid[t.guard.0][t.guard.1].Obstacle?)
      && ((t.guard == a && t.dir == s.dir && !s.grid[a.0][a.1].Obstacle?)
          || (t.guard == g && t.dir == Turn(s.dir) && s.grid[a.0][a.1].Obstacle?)
          || status == Loop)
  {
    if !AtEdge(s.dims, s.guard, s.dir) {
      MarkBits(s.grid[s.guard.0][s.guard.1], s.dir);
    }
  }

  /** After a Loop report nothing has moved, so the next round reports Loop again on the same
      board: a caller that ignores Loop, as the first loop of `main` does, never stops. */
  lemma LoopRepeats(s: BoardState)
    requires WellFormed(s) && Step(s).0 == Loop
    ensures Step(Step(s).1) == Step(s)
  {
    var t := Step(s).1;
    var (g, c) := (s.guard, s.grid[s.guard.0][s.guard.1]);
    MarkBits(c, s.dir);
    assert t.grid == MarkGuard(s);
    assert t.grid[g.0][g.1] == Mark(c, s.dir);
    assert t.grid[g.0][g.1 := Mark(c, s.dir)] == t.grid[g.0];
    assert MarkGuard(t) == t.grid;
  }

  /** How a run of rounds ends: the guard looped, left the board, or the round budget ran out. */
  datatype Outcome = Looped | Exited(visited: nat) | OutOfFuel

  /** Rounds until Loop or Exit, at most `fuel` of them. */
  function Run(s: BoardState, fuel: nat): (r: (Outcome, BoardState))
    requires WellFormed(s)
    ensures WellFormed(r.1) && r.1.dims == s.dims
    decreases fuel
  {
    if fuel == 0 then (OutOfFuel, s)
    else
      var (status, next) := Step(s);
      match status
      case Loop => (Looped, next)
      case Exit(n) => (Exited(n), next)
      case Unresolved => Run(next, fuel - 1)
  }

  /** `Run` with budget left takes one round and stops on Loop or Exit. */
  lemma RunStep(s: BoardState, fuel: nat)
    requires WellFormed(s) && fuel > 0
    ensures Step(s).0 == Loop ==> Run(s, fuel) == (Looped, Step(s).1)
    ensures Step(s).0.Exit? ==> Run(s, fuel) == (Exited(Step(s).0.visited), Step(s).1)
    ensures Step(s).0 == Unresolved ==> Run(s, fuel) == Run(Step(s).1, fuel - 1)
  {
  }

  predicate IsEmptyCell(c: Cell)
  {
    c.Empty? || c.Visited?
  }

  /** The board with an obstacle at (x, y). */
  function Place(s: BoardState, x: nat, y: nat): (t: BoardState)
    requires WellFormed(s) && x < s.dims.0 && y < s.dims.1
    ensures WellFormed(t) && t.dims == s.dims
  {
    s.(grid := SetCell(s.grid, (x, y), Obstacle))
  }

  /** Whether an obstacle at (x, y) makes the guard loop; None when the budget ran out. */
  function LoopAt(s: BoardState, x: nat, y: nat, fuel: nat): Option<bool>
    requires WellFormed(s) && x < s.dims.0 && y < s.dims.1
  {
    if !IsEmptyCell(s.grid[x][y]) then Some(false)
    else
      match Run(Place(s, x, y), fuel).0
      case Looped => Some(true)
      case Exited(_) => Some(false)
      case OutOfFuel => None
  }

  /** The board that `LoopAt` leaves behind. */
  function AfterLoopAt(s: BoardState, x: nat, y: nat, fuel: nat): (t: BoardState)
    requires WellFormed(s) && x < s.dims.0 && y < s.dims.1
    ensures WellFormed(t)
  {
    if !IsEmptyCell(s.grid[x][y]) then s else Run(Place(s, x, y), fuel).1
  }

  /** Overwriting a cell that is not visited with an obstacle leaves the count unchanged. */
  lemma {:induction false} CountVisitedObstacle(grid: seq<seq<Cell>>, p: Pos)
    requires p.0 < |grid| && p.1 < |grid[p.0]| && !grid[p.0][p.1].Visited?
    ensures CountVisited(SetCell(grid, p, Obstacle)) == CountVisited(grid)
    decreases |grid|
  {
    var n := |grid| - 1;
    var g' := SetCell(grid, p, Obstacle);
    assert g'[..n] == if p.0 == n then grid[..n] else SetCell(grid[..n], p, Obstacle);
    if p.0 == n {
      RowVisitedObstacle(grid[n], p.1);
    } else {
      CountVisitedObstacle(grid[..n], p);
    }
  }

  lemma {:induction false} RowVisitedObstacle(row: seq<Cell>, y: nat)
    requires y < |row| && !row[y].Visited?
    ensures RowVisited(row[y := Obstacle]) == RowVisited(row)
    decreases |row|
  {
    var n := |row| - 1;
    if y < n {
      assert row[y := Obstacle][..n] == row[..n][y := Obstacle];
      RowVisitedObstacle(row[..n], y);
    } else {
      assert row[y := Obstacle][..n] == row[..n];
    }
  }

  /** The obstacle search does not skip the guard's own cell. An obstacle placed there is
      overwritten by the first round's mark, so that cell counts exactly when the board
      without it makes the guard loop. */
  lemma StartCellObstacle(s: BoardState, fuel: nat)
    requires WellFormed(s) && s.grid[s.guard.0][s.guard.1].Empty?
    ensures LoopAt(s, s.guard.0, s.guard.1, fuel) ==
      match Run(s, fuel).0
      case Looped => Some(true)
      case Exited(_) => Some(false)
      case OutOfFuel => None
  {
    var g := s.guard;
    var p := Place(s, g.0, g.1);
    if fuel > 0 {
      if AtEdge(s.dims, g, s.dir) {
        CountVisitedObstacle(s.grid, g);
      } else {
        assert Mark(p.grid[g.0][g.1], s.dir) == Mark(s.grid[g.0][g.1], s.dir);
        assert p.grid[g.0][g.1 := Mark(s.grid[g.0][g.1], s.dir)] == s.grid[g.0][g.1 := Mark(s.grid[g.0][g.1], s.dir)];
        assert MarkGuard(p) == MarkGuard(s);
        assert Step(p) == Step(s);
      }
    }
  }

  /** The number of loop-inducing cells among those before (i, j) in row-major order, or
      None once some cell's run ran out of budget. */
  function Tally(s: BoardState, fuel: nat, i: nat, j: nat): Option<nat>
    requires WellFormed(s) && i <= s.dims.0 && j <= s.dims.1 && (i == s.dims.0 ==> j == 0)
    decreases i, j
  {
    if j == 0 then (if i == 0 then Some(0) else Tally(s, fuel, i - 1, s.dims.1))
    else
      match Tally(s, fuel, i, j - 1)
      case None => None
      case Some(n) =>
        match LoopAt(s, i, j - 1, fuel)
        case None => None
        case Some(b) => Some(if b then n + 1 else n)
  }

  /** Once a cell's run has run out of budget, the tally stays undefined. */
  lemma {:induction false} TallyStaysNone(s: BoardState, fuel: nat, i: nat, j: nat, i': nat, j': nat)
    requires WellFormed(s) && i <= s.dims.0 && j <= s.dims.1 && (i == s.dims.0 ==> j == 0)
    requires i' <= s.dims.0 && j' <= s.dims.1 && (i' == s.dims.0 ==> j' == 0)
    requires i < i' || (i == i' && j <= j')
    requires Tally(s, fuel, i, j).None?
    ensures Tally(s, fuel, i', j').None?
    decreases i', j'
  {
    if i == i' && j == j' {
    } else if j' == 0 {
      TallyStaysNone(s, fuel, i, j, i' - 1, s.dims.1);
    } else {
      TallyStaysNone(s, fuel, i, j, i', j' - 1);
    }
  }

  /** The number of distinct cells the guard has stood on when it leaves the board: the
      visited cells and the cell it leaves from, counted once. */
  function Covered(s: BoardState): nat
    requires WellFormed(s)
  {
    CountVisited(s.grid) + (if s.grid[s.guard.0][s.guard.1].Visited? then 0 else 1)
  }

  /** The first simulation of `main`: rounds until Exit, with Loop ignored; the answer is the
      number of distinct cells covered. None when the budget ran out. */
  function Patrolled(s: BoardState, fuel: nat): (r: (Option<nat>, BoardState))
    requires WellFormed(s)
    ensures WellFormed(r.1)
    decreases fuel
  {
    if fuel == 0 then (None, s)
    else
      var (status, next) := Step(s);
      match status
      case Exit(_) => (Some(Covered(s)), s)
      case _ => Patrolled(next, fuel - 1)
  }

  /** `Patrolled` with budget left takes one round and stops only on Exit. */
  lemma PatrolledStep(s: BoardState, fuel: nat)
    requires WellFormed(s) && fuel > 0
    ensures Patrolled(s, fuel) ==
      if Step(s).0.Exit? then (Some(Covered(s)), s) else Patrolled(Step(s).1, fuel - 1)
  {
  }

  /** From a board on which the next round reports Loop, the first loop of `main` runs out of
      any budget. */
  lemma PatrolledAfterLoop(s: BoardState, fuel: nat)
    requires WellFormed(s) && Step(s).0 == Loop
    ensures Patrolled(s, fuel).0 == None
  {
    LoopRepeats(s);
    if fuel > 0 {
      PatrolledSpins(Step(s).1, fuel - 1);
    }
  }

  lemma {:induction false} PatrolledSpins(t: BoardState, fuel: nat)
    requires WellFormed(t) && Step(t) == (Loop, t)
    ensures Patrolled(t, fuel).0 == None
    decreases fuel
  {
    if fuel > 0 {
      PatrolledSpins(t, fuel - 1);
    }
  }

  class Board {
    var board: seq<seq<Cell>>
    var dimensions: (nat, nat)
    var guard: Pos
    var guardDirection: Guard

    function State(): BoardState
      reads this
    {
      BoardState(board, dimensions, guard, guardDirection)
    }

    ghost predicate Valid()
      reads this
    {
      WellFormed(State())
    }

    constructor (s: BoardState)
      requires WellFormed(s)
      ensures Valid() && State() == s
    {
      board, dimensions, guard, guardDirection := s.grid, s.dims, s.guard, s.dir;
    }

    /** A deep copy: the cells are values, so the copy shares nothing mutable. */
    method Clone() returns (copy: Board)
      requires Valid()
      ensures fresh(copy) && copy.Valid() && copy.State() == State()
    {
      copy := new Board(State());
    }

    function Dimensions(): (nat, nat)
      reads this
    {
      dimensions
    }

    /** The number of visited cells plus one, as the source counts them. */
    method Visited() returns (count: nat)
      ensures count == CountVisited(board) + 1
    {
      count := 0;
      for i := 0 to |board|
        invariant count == CountVisited(board[..i])
      {
        var row := board[i];
        for j := 0 to |row|
          invariant count == CountVisited(board[..i]) + RowVisited(row[..j])
        {
          if row[j].Visited? {
            count := count + 1;
          }
          assert row[..j + 1][..j] == row[..j];
        }
        assert row[..|row|] == row;
        assert board[..i + 1][..i] == board[..i];
      }
      assert board[..|board|] == board;
      count := count + 1;
    }

    /** The corrected count: the cell the guard leaves from is added only when it is not
        already among the visited cells. */
    method CoveredCells() returns (count: nat)
      requires Valid()
      ensures count == Covered(State())
    {
      count := Visited();
      if board[guard.0][guard.1].Visited? {
        count := count - 1;
      }
    }

    /** One round: leave the board when the guard is on the edge facing out, otherwise mark
        the current cell and look at the cell ahead. */
    method Round() returns (status: BoardStatus)
      requires Valid()
      modifies this
      ensures Valid()
      ensures (status, State()) == Step(old(State()))
    {
      var (x, y) := guard;
      match guardDirection {
        case Up =>
          if x == 0 {
            var n := Visited();
            return Exit(n);
          }
          status := StepFrom((x - 1, y));
        case Down =>
          if x == dimensions.0 - 1 {
            var n := Visited();
            return Exit(n);
          }
          status := StepFrom((x + 1, y));
        case Left =>
          if y == 0 {
            var n := Visited();
            return Exit(n);
          }
          status := StepFrom((x, y - 1));
        case Right =>
          if y == dimensions.1 - 1 {
            var n := Visited();
            return Exit(n);
          }
          status := StepFrom((x, y + 1));
      }
    }

    /** The part of a round after the edge test, the same for the four facings: OR the facing's
        bit into the current cell's mask, then report a loop if the cell ahead already carries
        that bit, turn right if it is an obstacle, and step onto it otherwise. */
    method StepFrom(ahead: Pos) returns (status: BoardStatus)
      requires Valid() && !AtEdge(dimensions, guard, guardDirection)
      requires ahead == Ahead(dimensions, guard, guardDirection)
      modifies this
      ensures Valid()
      ensures (status, State()) == Step(old(State()))
    {
      var (x, y) := guard;
      var bit := Bit(guardDirection);
      var marked: seq<seq<Cell>> := board;
      if marked[x][y].Visited? {
        marked := marked[x := marked[x][y := Cell.Visited(marked[x][y].mask | bit)]];
      } else {
        marked := marked[x := marked[x][y := Cell.Visited(bit)]];
      }
      assert marked == MarkGuard(State());
      var next, facing := guard, guardDirection;
      status := Unresolved;
      match marked[ahead.0][ahead.1] {
        case Visited(mask) =>
          if mask & bit != 0 {
            status := Loop;
          } else {
            next := ahead;
          }
        case Empty =>
          next := ahead;
        case Obstacle =>
          facing := Turn(guardDirection);
      }
      board, guard, guardDirection := marked, next, facing;
    }

    function IsEmpty(x: nat, y: nat): (r: bool)
      reads this
      requires x < |board| && y < |board[x]|
      ensures r <==> board[x][y] != Obstacle
    {
      board[x][y].Empty? || board[x][y].Visited?
    }

    /** Put an obstacle at (x, y) and run rounds until Loop (true) or Exit (false); a cell that
        is already an obstacle answers false without a run. None when the budget ran out. */
    method IsLoop(x: nat, y: nat, fuel: nat) returns (looped: Option<bool>)
      requires Valid() && x < dimensions.0 && y < dimensions.1
      modifies this
      ensures Valid()
      ensures looped == LoopAt(old(State()), x, y, fuel)
      ensures State() == AfterLoopAt(old(State()), x, y, fuel)
    {
      if !IsEmpty(x, y) {
        return Some(false);
      }
      board := board[x := board[x][y := Obstacle]];
      assert State() == Place(old(State()), x, y);
      var outcome := Rounds(fuel);
      match outcome {
        case Looped => looped := Some(true);
        case Exited(_) => looped := Some(false);
        case OutOfFuel => looped := None;
      }
    }

    /** The loop of `is_loop`: rounds until Loop or Exit, at most `fuel` of them. */
    method Rounds(fuel: nat) returns (outcome: Outcome)
      requires Valid()
      modifies this
      ensures Valid()
      ensures (outcome, State()) == Run(old(State()), fuel)
    {
      var steps := 0;
      while true
        invariant Valid() && steps <= fuel
        invariant Run(State(), fuel - steps) == Run(old(State()), fuel)
        decreases fuel - steps
      {
        if steps == fuel {
          return OutOfFuel;
        }
        ghost var before := State();
        var status := Round();
        RunStep(before, fuel - steps);
        steps := steps + 1;
        match status {
          case Loop => return Looped;
          case Exit(n) => return Exited(n);
          case Unresolved =>
        }
      }
    }

    /** The first loop of `main`: rounds until the guard leaves, going on after a Loop report
        as the source does; returns the corrected count of covered cells. */
    method Patrol(fuel: nat) returns (visited: Option<nat>)
      requires Valid()
      modifies this
      ensures Valid()
      ensures (visited, State()) == Patrolled(old(State()), fuel)
    {
      var steps := 0;
      while true
        invariant Valid() && steps <= fuel
        invariant Patrolled(State(), fuel - steps) == Patrolled(old(State()), fuel)
        decreases fuel - steps
      {
        if steps == fuel {
          return None;
        }
        ghost var before := State();
        var status := Round();
        PatrolledStep(before, fuel - steps);
        steps := steps + 1;
        if status.Exit? {
          assert State() == before;
          var n := CoveredCells();
          return Some(n);
        }
      }
    }
  }

  /** The obstacle search of `main`: `IsLoop` on a fresh copy of `loopBase` for every cell in
      row-major order, counting the true answers. `loopBase` itself is not modified. */
  method CountLoops(loopBase: Board, fuel: nat) returns (loops: Option<nat>)
    requires loopBase.Valid()
    ensures loops == Tally(loopBase.State(), fuel, loopBase.dimensions.0, 0)
  {
    ghost var s := loopBase.State();
    var (rows, cols) := loopBase.Dimensions();
    var count := 0;
    for i := 0 to rows
      invariant loopBase.State() == s
      invariant Tally(s, fuel, i, 0) == Some(count)
    {
      for j := 0 to cols
        invariant loopBase.State() == s
        invariant Tally(s, fuel, i, j) == Some(count)
      {
        var copy := loopBase.Clone();
        var r := copy.IsLoop(i, j, fuel);
        if r.None? {
          TallyStaysNone(s, fuel, i, j + 1, rows, 0);
          return None;
        }
        if r.value {
          count := count + 1;
        }
      }
    }
    return Some(count);
  }

  // ---------------------------------------------------------------------------------------
  // Board::new

  datatype ParseError =
    | UnknownCell(row: nat)  // the source panics, naming the row
    | NoRows                 // the source panics indexing the first row
    | NotRectangular         // rows of different lengths, or of length zero

  predicate IsCellChar(c: char)
  {
    c == '.' || c == '#' || IsGuardChar(c)
  }

  predicate IsGuardChar(c: char)
  {
    c == '^' || c == 'v' || c == '>' || c == '<'
  }

  function CellOf(c: char): Cell
  {
    if c == '#' then Obstacle else Empty
  }

  function FacingOf(c: char): Guard
    requires IsGuardChar(c)
  {
    match c
    case '^' => Up
    case 'v' => Down
    case '>' => Right
    case '<' => Left
  }

  predicate AllCellChars(line: string)
  {
    forall k :: 0 <= k < |line| ==> IsCellChar(line[k])
  }

  predicate Rectangular(lines: seq<string>)
  {
    |lines| >= 1 && |lines[0]| >= 1 && forall i :: 0 <= i < |lines| ==> |lines[i]| == |lines[0]|
  }

  /** (i, j) comes after p in row-major order. */
  predicate After(i: nat, j: nat, p: Pos)
  {
    i > p.0 || (i == p.0 && j > p.1)
  }

  /** No guard character at any cell after `p` and before row `x`, column `y`. */
  predicate NoGuardBetween(lines: seq<string>, p: Pos, x: nat, y: nat)
  {
    forall i, j :: 0 <= i < |lines| && 0 <= j < |lines[i]| && After(i, j, p) && (i < x || (i == x && j < y))
      ==> !IsGuardChar(lines[i][j])
  }

  /** No guard character before row `x`, column `y`. */
  predicate NoGuardBefore(lines: seq<string>, x: nat, y: nat)
  {
    forall i, j :: 0 <= i < |lines| && 0 <= j < |lines[i]| && (i < x || (i == x && j < y))
      ==> !IsGuardChar(lines[i][j])
  }

  /** The guard's cell and facing after scanning up to row `x`, column `y`: the last guard
      character seen, or (0, 0) facing up when there was none. */
  predicate GuardScanned(lines: seq<string>, x: nat, y: nat, guard: Pos, dir: Guard)
  {
    || (NoGuardBefore(lines, x, y) && guard == (0, 0) && dir == Up)
    || (&& guard.0 < |lines| && guard.1 < |lines[guard.0]|
        && (guard.0 < x || (guard.0 == x && guard.1 < y))
        && IsGuardChar(lines[guard.0][guard.1]) && dir == FacingOf(lines[guard.0][guard.1])
        && NoGuardBetween(lines, guard, x, y))
  }

  /** `Board::new` succeeds on these lines: some rows, only cell characters, and a rectangle. */
  predicate Parseable(lines: seq<string>)
  {
    lines != [] && (forall x :: 0 <= x < |lines| ==> AllCellChars(lines[x])) && Rectangular(lines)
  }

  /** `e` is why `Board::new` gives up on these lines: the first row holding an unknown
      character, no rows at all, or rows that do not form a rectangle. */
  predicate ParseFailure(lines: seq<string>, e: ParseError)
  {
    match e
    case UnknownCell(row) =>
      && row < |lines| && !AllCellChars(lines[row])
      && forall x :: 0 <= x < row ==> AllCellChars(lines[x])
    case NoRows => lines == []
    case NotRectangular =>
      lines != [] && (forall x :: 0 <= x < |lines| ==> AllCellChars(lines[x])) && !Rectangular(lines)
  }

  /** `s` is the board `Board::new` builds from these lines: their dimensions, their cells,
      and the last guard character seen (or the corner facing up when there is none). */
  predicate BoardOf(lines: seq<string>, s: BoardState)
  {
    && Rectangular(lines)
    && WellFormed(s)
    && s.dims == (|lines|, |lines[0]|)
    && (forall i, j :: 0 <= i < |lines| && 0 <= j < |lines[i]| ==> s.grid[i][j] == CellOf(lines[i][j]))
    && GuardScanned(lines, |lines|, 0, s.guard, s.dir)
  }

  /** `Board::new` over the lines of the input: '.' an empty cell, '#' an obstacle, and one of
      "^v><" the guard's start and facing on an empty cell (the last one wins). */
  method ParseBoard(lines: seq<string>) returns (r: Result<BoardState, ParseError>)
    ensures r.Ok? <==> Parseable(lines)
    ensures r.Err? ==> ParseFailure(lines, r.error)
    ensures r.Ok? ==> BoardOf(lines, r.value)
  {
    var board: seq<seq<Cell>> := [];
    var guard: Pos := (0, 0);
    var dir := Up;
    for x := 0 to |lines|
      invariant |board| == x
      invariant forall i :: 0 <= i < x ==> AllCellChars(lines[i])
      invariant forall i :: 0 <= i < x ==> |board[i]| == |lines[i]|
      invariant forall i, j :: 0 <= i < x && 0 <= j < |lines[i]| ==> board[i][j] == CellOf(lines[i][j])
      invariant GuardScanned(lines, x, 0, guard, dir)
    {
      var line := lines[x];
      var row: seq<Cell> := [];
      for y := 0 to |line|
        invariant |row| == y
        invariant forall j :: 0 <= j < y ==> IsCellChar(line[j]) && row[j] == CellOf(line[j])
        invariant GuardScanned(lines, x, y, guard, dir)
      {
        var c := line[y];
        if !IsCellChar(c) {
          r := Err(UnknownCell(x));
          assert !AllCellChars(lines[x]);
          assert lines != [];
          return;
        }
        if IsGuardChar(c) {
          guard, dir := (x, y), FacingOf(c);
        }
        row := row + [CellOf(c)];
      }
      GuardScannedNextRow(lines, x, guard, dir);
      board := board + [row];
    }
    if |lines| == 0 {
      return Err(NoRows);
    }
    if |lines[0]| == 0 || exists i :: 0 <= i < |lines| && |lines[i]| != |lines[0]| {
      return Err(NotRectangular);
    }
    r := Ok(BoardState(board, (|lines|, |lines[0]|), guard, dir));
    GuardInBounds(lines, guard, dir);
  }

  lemma GuardScannedNextRow(lines: seq<string>, x: nat, guard: Pos, dir: Guard)
    requires x < |lines|
    requires GuardScanned(lines, x, |lines[x]|, guard, dir)
    ensures GuardScanned(lines, x + 1, 0, guard, dir)
  {
  }

  lemma GuardInBounds(lines: seq<string>, guard: Pos, dir: Guard)
    requires Rectangular(lines)
    requires GuardScanned(lines, |lines|, 0, guard, dir)
    ensures guard.0 < |lines| && guard.1 < |lines[0]|
  {
  }

  /** The failure of a parse is determined by the lines. */
  lemma ParseFailureUnique(lines: seq<string>, e: ParseError, f: ParseError)
    requires ParseFailure(lines, e) && ParseFailure(lines, f)
    ensures e == f
  {

  }

  /** No lines both parse and fail to parse. */
  lemma ParseExclusive(lines: seq<string>, e: ParseError)
    requires ParseFailure(lines, e)
    ensures !Parseable(lines)
  {

  }

  /** The board of a parse is determined by the lines. */
  lemma BoardOfUnique(lines: seq<string>, s: BoardState, t: BoardState)
    requires BoardOf(lines, s) && BoardOf(lines, t)
    ensures s == t
  {
    GuardScannedUnique(lines, s.guard, s.dir, t.guard, t.dir);
    forall i | 0 <= i < |lines| ensures s.grid[i] == t.grid[i] {
      assert |s.grid[i]| == |t.grid[i]| == |lines[i]|;
      forall j | 0 <= j < |lines[i]| ensures s.grid[i][j] == t.grid[i][j] {
        assert s.grid[i][j] == CellOf(lines[i][j]);
      }
    }
  }

  lemma GuardScannedUnique(lines: seq<string>, g: Pos, d: Guard, h: Pos, e: Guard)
    requires GuardScanned(lines, |lines|, 0, g, d) && GuardScanned(lines, |lines|, 0, h, e)
    ensures g == h && d == e
  {

  }

  // ---------------------------------------------------------------------------------------
  // main

  datatype Report = Report(visited: nat, loops: nat)

  datatype Failure = Malformed(error: ParseError) | OutOfBudget

  /** `main` after the input is read: parse, keep a clone as the base of the search, patrol
      once, then count loop-inducing cells on fresh clones of the base. */
  method Solve(text: string, fuel: nat) returns (r: Result<Report, Failure>)
    ensures !Parseable(Text.Lines(text)) ==>
      r.Err? && r.error.Malformed? && ParseFailure(Text.Lines(text), r.error.error)
    ensures Parseable(Text.Lines(text)) ==> exists s :: SolvedFrom(Text.Lines(text), s, fuel, r)
  {
    var parsed := ParseBoard(Text.Lines(text));
    if parsed.Err? {
      return Err(Malformed(parsed.error));
    }
    ghost var s := parsed.value;
    var board := new Board(parsed.value);
    var loopBase := board.Clone();
    var visited := board.Patrol(fuel);
    if visited.None? {
      r := Err(OutOfBudget);
      assert SolvedFrom(Text.Lines(text), s, fuel, r);
      return;
    }
    var loops := CountLoops(loopBase, fuel);
    if loops.None? {
      r := Err(OutOfBudget);
      assert SolvedFrom(Text.Lines(text), s, fuel, r);
      return;
    }
    r := Ok(Report(visited.value, loops.value));
    assert SolvedFrom(Text.Lines(text), s, fuel, r);
  }

  /** `r` is what `main` reports for the board `s` of these lines: both answers once both
      searches settle within the budget, and otherwise that the budget ran out. */
  predicate SolvedFrom(lines: seq<string>, s: BoardState, fuel: nat, r: Result<Report, Failure>)
  {
    && BoardOf(lines, s)
    && (r.Ok? <==> Patrolled(s, fuel).0.Some? && Tally(s, fuel, s.dims.0, 0).Some?)
    && (r.Ok? ==> r.value == Report(Patrolled(s, fuel).0.value, Tally(s, fuel, s.dims.0, 0).value))
    && (r.Err? ==> r.error == OutOfBudget)
  }
}
