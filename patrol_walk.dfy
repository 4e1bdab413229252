/** What the patrol's answers mean. The guard's walk is defined here without any marks: from a
    (cell, facing) pose the guard turns right in front of an obstacle, steps ahead otherwise,
    and leaves the board from the edge. The lemmas tie the marked board of `Patrol` to that
    walk: a Loop report means the walk never leaves the board, an Exit report means it does,
    and the corrected count is the number of distinct cells the walk covers. */
module PatrolWalk {
  import opened Wrappers
  import opened Patrol

  datatype Pose = Pose(pos: Pos, dir: Guard)

  /** One move of the guard on the obstacles of `s0`; None when it leaves the board. */
  function Move(s0: BoardState, p: Pose): (r: Option<Pose>)
    ensures r.Some? ==> InBounds(s0.dims, r.value.pos)
  {
    if !InBounds(s0.dims, p.pos) || AtEdge(s0.dims, p.pos, p.dir) then None
    else
      var a := Ahead(s0.dims, p.pos, p.dir);
      if Blocked(s0, a) then Some(Pose(p.pos, Turn(p.dir))) else Some(Pose(a, p.dir))
  }

  /** There is an obstacle of `s0` at `a`. */
  predicate Blocked(s0: BoardState, a: Pos)
  {
    a.0 < |s0.grid| && a.1 < |s0.grid[a.0]| && s0.grid[a.0][a.1].Obstacle?
  }

  /** The guard's pose after `n` moves from its start on `s0`; None once it has left. */
  function Walk(s0: BoardState, n: nat): Option<Pose>
  {
    if n == 0 then Some(Pose(s0.guard, s0.dir)) else Next(s0, Walk(s0, n - 1))
  }

  /** One move from a pose, if the guard is still on the board. */
  function Next(s0: BoardState, o: Option<Pose>): Option<Pose>
  {
    match o
    case None => None
    case Some(p) => Move(s0, p)
  }

  /** The guard never leaves the board. */
  ghost predicate Stays(s0: BoardState)
  {
    forall n :: Walk(s0, n).Some?
  }

  /** The guard leaves the board after some number of moves. */
  ghost predicate Leaves(s0: BoardState)
  {
    exists n :: Walk(s0, n).None?
  }

  /** The poses of the first `k` moves' starting points. */
  function Poses(s0: BoardState, k: nat): set<Pose>
  {
    if k == 0 then {}
    else Poses(s0, k - 1) + (match Walk(s0, k - 1) case None => {} case Some(p) => {p})
  }

  /** The cells the guard stands on during its first `k` moves. */
  function Footprint(s0: BoardState, k: nat): set<Pos>
  {
    set p | p in Poses(s0, k) :: p.pos
  }

  /** A board as `Board::new` leaves it: nothing visited, the guard not on an obstacle. */
  predicate Clean(s: BoardState)
  {
    && WellFormed(s)
    && !s.grid[s.guard.0][s.guard.1].Obstacle?
    && forall i, j :: 0 <= i < s.dims.0 && 0 <= j < s.dims.1 ==> !s.grid[i][j].Visited?
  }

  /** `s` is the board after `k` Unresolved rounds from the clean board `s0`: the obstacles are
      those of `s0`, the guard stands at the walk's pose `k`, a facing's bit is set exactly when
      the walk moved from that cell with that facing, and a visited cell has some bit set. */
  predicate Tracks(s0: BoardState, s: BoardState, k: nat)
  {
    && SameLayout(s0, s)
    && Walk(s0, k) == Some(Pose(s.guard, s.dir))
    && BitsRecord(s0, s, k)
  }

  /** Both boards are well formed with the same dimensions and obstacles, the guard of `s` is
      not on an obstacle, and every visited cell of `s` has some bit set. */
  predicate SameLayout(s0: BoardState, s: BoardState)
  {
    && WellFormed(s0) && WellFormed(s) && s.dims == s0.dims
    && !s.grid[s.guard.0][s.guard.1].Obstacle?
    && (forall i, j {:trigger s.grid[i][j]} :: 0 <= i < s.dims.0 && 0 <= j < s.dims.1 ==>
          (s.grid[i][j].Obstacle? <==> s0.grid[i][j].Obstacle?))
    && (forall i, j {:trigger s.grid[i][j]} :: 0 <= i < s.dims.0 && 0 <= j < s.dims.1 ==>
          (s.grid[i][j].Visited? ==> Marked(s.grid[i][j])))
  }

  /** A facing's bit is set in a cell of `s` exactly when one of the first `k` poses of the walk
      from `s0` stood there with that facing. */
  predicate BitsRecord(s0: BoardState, s: BoardState, k: nat)
    requires WellFormed(s0) && WellFormed(s) && s.dims == s0.dims
  {
    forall i, j, d {:trigger HasBit(s.grid[i][j], d)} :: 0 <= i < s.dims.0 && 0 <= j < s.dims.1 ==>
      (HasBit(s.grid[i][j], d) <==> Pose((i, j), d) in Poses(s0, k))
  }

  /** The cell carries the bit of some facing. */
  predicate Marked(c: Cell)
  {
    HasBit(c, Up) || HasBit(c, Down) || HasBit(c, Left) || HasBit(c, Right)
  }

  lemma TracksStart(s0: BoardState)
    requires Clean(s0)
    ensures Tracks(s0, s0, 0)
  {
  }

  lemma {:induction false} PosesWitness(s0: BoardState, k: nat, p: Pose)
    requires p in Poses(s0, k)
    ensures exists t :: 0 <= t < k && Walk(s0, t) == Some(p)
  {
    if Walk(s0, k - 1) != Some(p) {
      PosesWitness(s0, k - 1, p);
    }
  }

  lemma {:induction false} FootprintInBounds(s0: BoardState, k: nat)
    requires WellFormed(s0)
    ensures forall c :: c in Footprint(s0, k) ==> InBounds(s0.dims, c)
  {
    forall c | c in Footprint(s0, k)
      ensures InBounds(s0.dims, c)
    {
      var p :| p in Poses(s0, k) && p.pos == c;
      PosesWitness(s0, k, p);
      var t :| 0 <= t < k && Walk(s0, t) == Some(p);
      WalkInBounds(s0, t);
    }
  }

  lemma WalkInBounds(s0: BoardState, n: nat)
    requires WellFormed(s0)
    ensures Walk(s0, n).Some? ==> InBounds(s0.dims, Walk(s0, n).value.pos)
  {
  }

  /** One Unresolved round keeps the correspondence, one move further along the walk. */
  lemma StepTracks(s0: BoardState, s: BoardState, k: nat)
    requires Tracks(s0, s, k) && Step(s).0 == Unresolved
    ensures Tracks(s0, Step(s).1, k + 1)
  {
    var (g, d) := (s.guard, s.dir);
    var t := Step(s).1;
    RoundEffect(s);
    assert !AtEdge(s.dims, g, d);
    var a := Ahead(s.dims, g, d);
    assert Poses(s0, k + 1) == Poses(s0, k) + {Pose(g, d)};
    assert t.grid[a.0][a.1] == s.grid[a.0][a.1];
    assert Walk(s0, k + 1) == Move(s0, Pose(g, d));
    forall i, j | 0 <= i < s.dims.0 && 0 <= j < s.dims.1
      ensures t.grid[i][j].Obstacle? <==> s0.grid[i][j].Obstacle?
      ensures t.grid[i][j].Visited? ==> Marked(t.grid[i][j])
    {
    }
    forall i, j, e | 0 <= i < s.dims.0 && 0 <= j < s.dims.1
      ensures HasBit(t.grid[i][j], e) <==> Pose((i, j), e) in Poses(s0, k + 1)
    {
    }
  }

  /** A Loop report: the walk's next pose is one it already had. */
  lemma LoopTracks(s0: BoardState, s: BoardState, k: nat)
    requires Tracks(s0, s, k) && Step(s).0 == Loop
    ensures Walk(s0, k + 1).Some?
    ensures exists t :: 0 <= t < k && Walk(s0, t) == Walk(s0, k + 1)
  {
    var (g, d) := (s.guard, s.dir);
    RoundEffect(s);
    var a := Ahead(s.dims, g, d);
    assert HasBit(s.grid[a.0][a.1], d);
    assert Walk(s0, k + 1) == Some(Pose(a, d));
    PosesWitness(s0, k, Pose(a, d));
  }

  lemma {:induction false} WalkLeft(s0: BoardState, n: nat, m: nat)
    requires n <= m && Walk(s0, n).None?
    ensures Walk(s0, m).None?
    decreases m
  {
    if n == m {
      assert Walk(s0, m) == Walk(s0, n);
    } else {
      WalkLeft(s0, n, m - 1);
      WalkUnfold(s0, m - 1);
    }
  }

  /** The walk is determined by its pose: one more move keeps equal poses equal. */
  lemma WalkUnfold(s0: BoardState, n: nat)
    ensures Walk(s0, n + 1) == Next(s0, Walk(s0, n))
  {
  }

  lemma WalkStep(s0: BoardState, n: nat, m: nat, x: nat, y: nat)
    requires Walk(s0, n) == Walk(s0, m) && x == n + 1 && y == m + 1
    ensures Walk(s0, x) == Walk(s0, y)
  {
    WalkUnfold(s0, n);
    WalkUnfold(s0, m);
  }

  /** Equal poses stay equal for any number `j` of further moves. */
  lemma {:induction false} WalkShift(s0: BoardState, n: nat, m: nat, j: nat, x: nat, y: nat)
    requires Walk(s0, n) == Walk(s0, m) && x == n + j && y == m + j
    ensures Walk(s0, x) == Walk(s0, y)
    decreases j
  {
    if j == 0 {
      assert x == n && y == m;
    } else {
      WalkStep(s0, n, m, n + 1, m + 1);
      WalkShift(s0, n + 1, m + 1, j - 1, x, y);
    }
  }

  /** A walk that returns to an earlier pose never leaves the board. */
  lemma {:induction false} WalkForever(s0: BoardState, t: nat, k: nat, n: nat)
    requires t < k && Walk(s0, k).Some? && Walk(s0, t) == Walk(s0, k)
    ensures Walk(s0, n).Some?
    decreases n
  {
    if n <= k {
      if Walk(s0, n).None? {
        WalkLeft(s0, n, k);
      }
    } else {
      var n' := n - (k - t);
      WalkShift(s0, t, k, n - k, n', n);
      WalkForever(s0, t, k, n');
    }
  }

  /** `e` is the board after `d` rounds from `s` that all reported Unresolved. */
  predicate Reach(s: BoardState, e: BoardState, d: nat)
    requires WellFormed(s)
    decreases d
  {
    if d == 0 then e == s
    else Step(s).0 == Unresolved && Reach(Step(s).1, e, d - 1)
  }

  lemma TracksSame(s0: BoardState, s: BoardState, k: nat, e: BoardState, n: nat)
    requires Tracks(s0, s, k) && e == s && n == k
    ensures Tracks(s0, e, n)
  {
  }

  /** Every board reached from a board that tracks the walk tracks it too. */
  lemma {:induction false} ReachTracks(s0: BoardState, s: BoardState, k: nat, e: BoardState, d: nat, n: nat)
    requires Tracks(s0, s, k) && Reach(s, e, d) && n == k + d
    ensures Tracks(s0, e, n)
    decreases d, 1
  {
    if d == 0 {
      TracksSame(s0, s, k, e, n);
    } else {
      ReachTracksStep(s0, s, k, e, d, n);
    }
  }

  lemma {:induction false} ReachTracksStep(s0: BoardState, s: BoardState, k: nat, e: BoardState, d: nat, n: nat)
    requires Tracks(s0, s, k) && Reach(s, e, d) && n == k + d && d > 0
    ensures Tracks(s0, e, n)
    decreases d, 0
  {
    var t := Step(s).1;
    StepTracks(s0, s, k);
    assert Reach(t, e, d - 1);
    ReachTracks(s0, t, k + 1, e, d - 1, n);
  }

  /** A `Run` that reports Looped ends at a reached board `e` whose round reports Loop. */
  lemma {:induction false} RunLoopEnds(s: BoardState, fuel: nat) returns (e: BoardState, d: nat)
    requires WellFormed(s) && Run(s, fuel).0 == Looped
    ensures Reach(s, e, d) && WellFormed(e) && Step(e).0 == Loop
    decreases fuel
  {
    RunStep(s, fuel);
    var (status, t) := Step(s);
    if status == Unresolved {
      var e', d' := RunLoopEnds(t, fuel - 1);
      assert Reach(s, e', d' + 1);
      e, d := e', d' + 1;
    } else {
      e, d := s, 0;
    }
  }

  /** A `Run` that reports Exited ends at a reached board `e` whose round reports Exit. */
  lemma {:induction false} RunExitEnds(s: BoardState, fuel: nat) returns (e: BoardState, d: nat)
    requires WellFormed(s) && Run(s, fuel).0.Exited?
    ensures Reach(s, e, d) && WellFormed(e) && Step(e).0.Exit?
    decreases fuel
  {
    RunStep(s, fuel);
    var (status, t) := Step(s);
    if status == Unresolved {
      var e', d' := RunExitEnds(t, fuel - 1);
      assert Reach(s, e', d' + 1);
      e, d := e', d' + 1;
    } else {
      e, d := s, 0;
    }
  }

  /** What `Run` reports, read on the walk: Looped only if the walk never leaves the board,
      Exited only if it does. */
  lemma RunSound(s0: BoardState, fuel: nat)
    requires Clean(s0)
    ensures Run(s0, fuel).0 == Looped ==> Stays(s0)
    ensures Run(s0, fuel).0.Exited? ==> Leaves(s0)
  {
    if Run(s0, fuel).0 == Looped {
      var e, d := RunLoopEnds(s0, fuel);
      TracksStart(s0);
      ReachTracks(s0, s0, 0, e, d, d);
      LoopStays(s0, e, d);
    } else if Run(s0, fuel).0.Exited? {
      var e, d := RunExitEnds(s0, fuel);
      TracksStart(s0);
      ReachTracks(s0, s0, 0, e, d, d);
      ExitLeaves(s0, e, d);
    }
  }

  /** A Loop report from a board that tracks the walk: the walk never leaves the board. */
  lemma LoopStays(s0: BoardState, s: BoardState, k: nat)
    requires Tracks(s0, s, k) && Step(s).0 == Loop
    ensures Stays(s0)
  {
    LoopTracks(s0, s, k);
    var t :| 0 <= t < k && Walk(s0, t) == Walk(s0, k + 1);
    forall n
      ensures Walk(s0, n).Some?
    {
      WalkForever(s0, t, k + 1, n);
    }
  }

  /** An Exit report from a board that tracks the walk: the walk leaves right after it. */
  lemma ExitLeaves(s0: BoardState, s: BoardState, k: nat)
    requires Tracks(s0, s, k) && Step(s).0.Exit?
    ensures Walk(s0, k).Some? && Walk(s0, k + 1).None? && Leaves(s0)
  {
    RoundEffect(s);
  }

  /** The obstacle search is right whenever it answers: for an empty cell other than the
      guard's start, `is_loop` says true exactly when the obstacle there makes the guard walk
      forever. */
  lemma LoopAtSound(s: BoardState, x: nat, y: nat, fuel: nat, b: bool)
    requires Clean(s) && x < s.dims.0 && y < s.dims.1 && (x, y) != s.guard
    requires LoopAt(s, x, y, fuel) == Some(b)
    ensures b <==> !s.grid[x][y].Obstacle? && Stays(Place(s, x, y))
  {
    if !s.grid[x][y].Obstacle? {
      var p := Place(s, x, y);
      assert Clean(p);
      RunSound(p, fuel);
    }
  }

  // ---------------------------------------------------------------------------------------
  // Counting the covered cells

  function RowSet(i: nat, row: seq<Cell>): set<Pos>
  {
    set j | 0 <= j < |row| && row[j].Visited? :: (i, j)
  }

  function VisitedSet(grid: seq<seq<Cell>>): set<Pos>
  {
    set i, j | 0 <= i < |grid| && 0 <= j < |grid[i]| && grid[i][j].Visited? :: (i, j)
  }

  lemma {:induction false} RowSetCard(i: nat, row: seq<Cell>)
    ensures |RowSet(i, row)| == RowVisited(row)
    decreases |row|
  {
    if row != [] {
      var n := |row| - 1;
      RowSetCard(i, row[..n]);
      assert RowSet(i, row) == RowSet(i, row[..n]) + (if row[n].Visited? then {(i, n)} else {});
    }
  }

  /** The counting loop of `visited` counts the set of visited cells. */
  lemma {:induction false} CountVisitedCard(grid: seq<seq<Cell>>)
    ensures |VisitedSet(grid)| == CountVisited(grid)
    decreases |grid|
  {
    if grid != [] {
      var n := |grid| - 1;
      var init := grid[..n];
      CountVisitedCard(init);
      RowSetCard(n, grid[n]);
      var (a, b) := (VisitedSet(init), RowSet(n, grid[n]));
      forall c | c in VisitedSet(grid)
        ensures c in a + b
      {
        if c.0 < n {
          assert init[c.0] == grid[c.0];
        }
      }
      forall c | c in a + b
        ensures c in VisitedSet(grid)
      {
        if c in a {
          assert init[c.0] == grid[c.0];
        }
      }
      assert VisitedSet(grid) == a + b;
      forall c | c in a
        ensures c !in b
      {
      }
      assert a * b == {};
    }
  }

  lemma VisitedFootprint(s0: BoardState, s: BoardState, k: nat)
    requires Tracks(s0, s, k)
    ensures VisitedSet(s.grid) == Footprint(s0, k)
  {
    FootprintInBounds(s0, k);
    forall c | c in Footprint(s0, k)
      ensures c in VisitedSet(s.grid)
    {
      var p :| p in Poses(s0, k) && p.pos == c;
      assert HasBit(s.grid[c.0][c.1], p.dir);
    }
    forall c | c in VisitedSet(s.grid)
      ensures c in Footprint(s0, k)
    {
      var cell := s.grid[c.0][c.1];
      var d :| d in {Up, Down, Left, Right} && HasBit(cell, d);
      assert Pose(c, d) in Poses(s0, k);
    }
  }

  /** On a board that tracks the walk, the visited cells are the cells the walk stood on, and
      the guard's cell is visited exactly when the walk stood there before. */
  lemma CountFootprint(s0: BoardState, s: BoardState, k: nat)
    requires Tracks(s0, s, k)
    ensures CountVisited(s.grid) == |Footprint(s0, k)|
    ensures s.grid[s.guard.0][s.guard.1].Visited? <==> s.guard in Footprint(s0, k)
  {
    VisitedFootprint(s0, s, k);
    CountVisitedCard(s.grid);
    assert s.guard in VisitedSet(s.grid) <==> s.grid[s.guard.0][s.guard.1].Visited?;
  }

  /** One more move adds the cell of the pose it starts from. */
  lemma FootprintGrows(s0: BoardState, k: nat, p: Pose)
    requires Walk(s0, k) == Some(p)
    ensures Footprint(s0, k + 1) == Footprint(s0, k) + {p.pos}
  {
    assert Poses(s0, k + 1) == Poses(s0, k) + {p};
  }

  /** At the exit, the corrected count is the number of distinct cells the walk stood on. */
  lemma CoveredFootprint(s0: BoardState, s: BoardState, k: nat)
    requires Tracks(s0, s, k)
    ensures Covered(s) == |Footprint(s0, k + 1)|
  {
    CountFootprint(s0, s, k);
    FootprintGrows(s0, k, Pose(s.guard, s.dir));
    var f := Footprint(s0, k);
    if s.guard in f {
      assert f + {s.guard} == f;
    } else {
      assert |f + {s.guard}| == |f| + 1;
    }
  }

  /** The count `visited` reports at the exit, read on the walk: one more than the cells stood
      on before the last one, which is the number of cells of the whole walk exactly when the
      last one is new. */
  lemma ExitCountFootprint(s0: BoardState, s: BoardState, k: nat)
    requires Tracks(s0, s, k)
    ensures CountVisited(s.grid) + 1 == |Footprint(s0, k)| + 1
    ensures CountVisited(s.grid) + 1 == |Footprint(s0, k + 1)| <==> s.guard !in Footprint(s0, k)
  {
    CountFootprint(s0, s, k);
    FootprintGrows(s0, k, Pose(s.guard, s.dir));
    var f := Footprint(s0, k);
    if s.guard in f {
      assert f + {s.guard} == f;
    } else {
      assert |f + {s.guard}| == |f| + 1;
    }
  }

  /** The first loop of `main` ends at the Exit round of a reached board `e`, answering the
      corrected count of that board; a Loop report on the way would have left it running out
      of budget. */
  lemma {:induction false} PatrolledEnds(s: BoardState, fuel: nat) returns (e: BoardState, d: nat)
    requires WellFormed(s) && Patrolled(s, fuel).0.Some?
    ensures Reach(s, e, d) && WellFormed(e) && Step(e).0.Exit?
    ensures Patrolled(s, fuel).0 == Some(Covered(e))
    decreases fuel
  {
    PatrolledStep(s, fuel);
    if Step(s).0 == Loop {
      PatrolledAfterLoop(s, fuel);
      assert false;
    } else if Step(s).0.Exit? {
      e, d := s, 0;
    } else {
      e, d := PatrolledEnds(Step(s).1, fuel - 1);
      d := d + 1;
    }
  }

  /** `main`'s first answer, read on the walk: when the loop ends, the walk has left the board
      after `m` poses, and the answer is the number of distinct cells among them. */
  lemma PatrolCountsCells(s: BoardState, fuel: nat)
    requires Clean(s) && Patrolled(s, fuel).0.Some?
    ensures exists m :: m > 0 && Walk(s, m).None? && Walk(s, m - 1).Some?
                        && Patrolled(s, fuel).0.value == |Footprint(s, m)|
  {
    var e, d := PatrolledEnds(s, fuel);
    TracksStart(s);
    ReachTracks(s, s, 0, e, d, d);
    ExitLeaves(s, e, d);
    CoveredFootprint(s, e, d);
  }

  /** The one-row board "#<": an obstacle, then the guard facing it. */
  const Corner := BoardState([[Obstacle, Empty]], (1, 2), (0, 1), Left)

  /** The corner board after its first round: the guard marked its cell and turned up. */
  const CornerTurned := BoardState([[Obstacle, Visited(VISIT_LEFT)]], (1, 2), (0, 1), Up)

  lemma CornerFirstRound()
    ensures Clean(Corner) && Step(Corner) == (Unresolved, CornerTurned)
  {
    var s := Corner;
    assert Mark(Empty, Left) == Visited(VISIT_LEFT);
    assert s.grid[0][1 := Visited(VISIT_LEFT)] == CornerTurned.grid[0];
    assert MarkGuard(s) == SetCell(s.grid, (0, 1), Visited(VISIT_LEFT)) == CornerTurned.grid;
  }

  lemma CornerSecondRound()
    ensures WellFormed(CornerTurned) && CountVisited(CornerTurned.grid) == 1
    ensures Step(CornerTurned) == (Exit(2), CornerTurned) && Covered(CornerTurned) == 1
  {
    var row := CornerTurned.grid[0];
    assert RowVisited([Obstacle]) == 0 by {
      assert [Obstacle][..0] == [];
    }
    assert RowVisited(row) == 1 by {
      assert row[..1] == [Obstacle];
    }
    assert CountVisited(CornerTurned.grid) == 1 by {
      assert CornerTurned.grid[..0] == [];
    }
  }

  lemma CornerWalk()
    ensures Walk(Corner, 2).None? && |Footprint(Corner, 2)| == 1
  {
    assert Walk(Corner, 1) == Some(Pose((0, 1), Up));
    assert Poses(Corner, 2) == {Pose((0, 1), Left), Pose((0, 1), Up)};
    assert Footprint(Corner, 2) == {(0, 1)};
  }

  /** The count as `visited` reports it overshoots: on the one-row board "#<" the guard turns
      in front of the obstacle and leaves from the cell it already marked, and `round` reports
      Exit(2) although the guard stood on one cell only. */
  lemma ExitOvercounts()
    ensures Clean(Corner) && Run(Corner, 2).0 == Exited(2)
    ensures Walk(Corner, 2).None? && |Footprint(Corner, 2)| == 1
    ensures Patrolled(Corner, 2).0 == Some(1)
  {
    CornerFirstRound();
    CornerSecondRound();
    CornerWalk();
    RunStep(Corner, 2);
    RunStep(CornerTurned, 1);
    PatrolledStep(Corner, 2);
    PatrolledStep(CornerTurned, 1);
  }
}
