/** The lab guard of aoc_2024/src/bin/day6.rs.

    A guard walks a grid of tiles. Each step either moves one cell in the
    current direction or, when that cell is obstructed, turns right in place;
    the walk ends when the next cell would lie outside the grid. The solver
    traces the cells the guard walks into, decides whether the walk loops
    forever, and counts the cells on the traced path whose obstruction makes
    the walk loop.

    The walk is specified here by `Step`, one iteration of the solver's two
    simulation loops, and by `Walk`, its n-fold iteration; the loop detector,
    the path tracer and the obstruction search are methods proved against it. */
module GuardPatrol {
  import opened Wrappers
  import Text

  // ---------------------------------------------------------------------------
  // Data model
  // ---------------------------------------------------------------------------

  /** A cell of the grid: row index, then column index. */
  datatype Position = Position(row: nat, col: nat)

  datatype GuardDirection = Up | Down | Left | Right

  datatype MapTile = Obstructed | Empty | Guard

  type Grid = seq<seq<MapTile>>

  /** The guard's pose: where it stands and where it faces. */
  datatype Pose = Pose(pos: Position, dir: GuardDirection)

  /** Every row as long as the first, and at least one row: what the solver's
      indexing needs (it takes the column count from row 0). */
  predicate IsRectangular(grid: Grid)
  {
    |grid| > 0 && forall r :: 0 <= r < |grid| ==> |grid[r]| == |grid[0]|
  }

  predicate InBounds(grid: Grid, p: Position)
    requires IsRectangular(grid)
  {
    p.row < |grid| && p.col < |grid[0]|
  }

  function TileAt(grid: Grid, p: Position): MapTile
    requires IsRectangular(grid) && InBounds(grid, p)
  {
    grid[p.row][p.col]
  }

  // ---------------------------------------------------------------------------
  // Directions
  // ---------------------------------------------------------------------------

  /** The (row, column) unit vector of a direction. */
  function Offset(d: GuardDirection): (off: (int, int))
    ensures (off.0 == 0) != (off.1 == 0)
    ensures -1 <= off.0 <= 1 && -1 <= off.1 <= 1
  {
    match d
    case Up => (-1, 0)
    case Down => (1, 0)
    case Left => (0, -1)
    case Right => (0, 1)
  }

  /** Turning right rotates the unit vector a quarter turn clockwise. */
  function TurnRight(d: GuardDirection): (r: GuardDirection)
    ensures Offset(r) == (Offset(d).1, -Offset(d).0)
  {
    match d
    case Up => Right
    case Down => Left
    case Left => Up
    case Right => Down
  }

  /** Distinct directions have distinct unit vectors, so a direction is
      determined by its offset. */
  lemma {:induction false} OffsetInjective(d: GuardDirection, e: GuardDirection)
    requires Offset(d) == Offset(e)
    ensures d == e
  {
  }

  /** The four right turns form one cycle: four turns are the identity and no
      fewer return to the starting direction. */
  lemma {:induction false} TurnRightCycle(d: GuardDirection)
    ensures TurnRight(TurnRight(TurnRight(TurnRight(d)))) == d
    ensures TurnRight(d) != d && TurnRight(TurnRight(d)) != d
    ensures TurnRight(TurnRight(TurnRight(d))) != d
  {
    var (r, c) := Offset(d);
    assert Offset(TurnRight(TurnRight(TurnRight(TurnRight(d))))) == (r, c);
    OffsetInjective(TurnRight(TurnRight(TurnRight(TurnRight(d)))), d);
  }

  // ---------------------------------------------------------------------------
  // Moving one cell
  // ---------------------------------------------------------------------------

  /** `Position::apply_offset`: the shifted position when both shifted
      coordinates are non-negative and below their limits. */
  function ApplyOffset(p: Position, off: (int, int), rowLimit: nat, colLimit: nat): (r: Option<Position>)
    ensures r.Some? <==> 0 <= p.row + off.0 < rowLimit && 0 <= p.col + off.1 < colLimit
    ensures r.Some? ==> r.value.row == p.row + off.0 && r.value.col == p.col + off.1
  {
    var row := p.row + off.0;
    var col := p.col + off.1;
    if row < 0 || col < 0 then None
    else if row < rowLimit && col < colLimit then Some(Position(row, col))
    else None
  }

  /** `next_move`: the cell one step ahead, with the direction unchanged, or
      `None` when that cell is off the grid. The column limit is the length
      of row 0, so the grid must have a row. */
  function NextMove(p: Position, d: GuardDirection, grid: Grid): (r: Option<(Position, GuardDirection)>)
    requires |grid| > 0
    ensures r.Some? ==> r.value.1 == d
    ensures r.None? <==>
              !(0 <= p.row + Offset(d).0 < |grid| && 0 <= p.col + Offset(d).1 < |grid[0]|)
    ensures r.Some? ==>
              r.value.0.row == p.row + Offset(d).0 && r.value.0.col == p.col + Offset(d).1
  {
    match ApplyOffset(p, Offset(d), |grid|, |grid[0]|)
    case None => None
    case Some(q) => Some((q, d))
  }

  /** The guard faces an obstructed cell inside the grid. */
  predicate FacesObstruction(grid: Grid, s: Pose)
    requires IsRectangular(grid)
  {
    match NextMove(s.pos, s.dir, grid)
    case None => false
    case Some((q, _)) => TileAt(grid, q) == Obstructed
  }

  /** One iteration of the simulation loops of the loop detector and the path
      tracer: `None` when the guard leaves the grid; otherwise a right turn in
      place when the cell ahead is obstructed, and a move into it when not. */
  function Step(grid: Grid, s: Pose): (r: Option<Pose>)
    requires IsRectangular(grid)
    ensures r.None? <==> NextMove(s.pos, s.dir, grid).None?
    ensures r.Some? && FacesObstruction(grid, s) ==> r.value == Pose(s.pos, TurnRight(s.dir))
    ensures r.Some? && !FacesObstruction(grid, s) ==>
              && r.value.dir == s.dir && InBounds(grid, r.value.pos)
              && TileAt(grid, r.value.pos) != Obstructed
              && r.value.pos.row == s.pos.row + Offset(s.dir).0
              && r.value.pos.col == s.pos.col + Offset(s.dir).1
  {
    match NextMove(s.pos, s.dir, grid)
    case None => None
    case Some((q, d)) =>
      if TileAt(grid, q) == Obstructed then Some(Pose(s.pos, TurnRight(d)))
      else Some(Pose(q, d))
  }

  /** A step that keeps its direction changes the cell, and one that turns
      keeps the cell: a step is a move or a turn, never both. */
  lemma {:induction false} StepMovesOrTurns(grid: Grid, s: Pose)
    requires IsRectangular(grid) && Step(grid, s).Some?
    ensures (Step(grid, s).value.pos == s.pos) <==> (Step(grid, s).value.dir != s.dir)
  {
    TurnRightCycle(s.dir);
  }

  // ---------------------------------------------------------------------------
  // The walk
  // ---------------------------------------------------------------------------

  /** The pose after `n` steps from `s`, or `None` when the guard has left
      the grid by then. */
  function Walk(grid: Grid, s: Pose, n: nat): Option<Pose>
    requires IsRectangular(grid)
    decreases n
  {
    if n == 0 then Some(s)
    else
      match Step(grid, s)
      case None => None
      case Some(t) => Walk(grid, t, n - 1)
  }

  /** Continues a walk that may already have ended. */
  function Then(grid: Grid, o: Option<Pose>, n: nat): Option<Pose>
    requires IsRectangular(grid)
  {
    match o
    case None => None
    case Some(t) => Walk(grid, t, n)
  }

  /** The guard leaves the grid after finitely many steps. */
  ghost predicate Exits(grid: Grid, s: Pose)
    requires IsRectangular(grid)
  {
    exists n: nat :: Walk(grid, s, n).None?
  }

  /** Walking i steps and then j more is walking i + j steps. */
  lemma {:induction false} WalkAdd(grid: Grid, s: Pose, i: nat, j: nat)
    requires IsRectangular(grid)
    ensures Walk(grid, s, i + j) == Then(grid, Walk(grid, s, i), j)
    decreases i
  {
    if i > 0 {
      match Step(grid, s)
      case None =>
      case Some(t) => WalkAdd(grid, t, i - 1, j);
    }
  }

  /** The walk is extended one step at a time at its far end. */
  lemma {:induction false} WalkSnoc(grid: Grid, s: Pose, n: nat)
    requires IsRectangular(grid)
    ensures Walk(grid, s, n + 1) == (match Walk(grid, s, n) case None => None case Some(c) => Step(grid, c))
  {
    WalkAdd(grid, s, n, 1);
    match Walk(grid, s, n)
    case None =>
    case Some(c) =>
      match Step(grid, c)
      case None =>
      case Some(t) => assert Walk(grid, t, 0) == Some(t);
  }

  /** Once the guard has left, it stays gone. */
  lemma {:induction false} WalkEnded(grid: Grid, s: Pose, n: nat, m: nat)
    requires IsRectangular(grid)
    requires Walk(grid, s, n).None? && n <= m
    ensures Walk(grid, s, m).None?
  {
    WalkAdd(grid, s, n, m - n);
  }

  /** A pose that recurs recurs forever: if the walk is at the same pose after
      a and after b > a steps, it never leaves the grid. */
  lemma {:induction false} RepeatedPoseLoops(grid: Grid, s: Pose, a: nat, b: nat, n: nat)
    requires IsRectangular(grid)
    requires a < b && Walk(grid, s, a) == Walk(grid, s, b) && Walk(grid, s, b).Some?
    ensures Walk(grid, s, n).Some?
    decreases n
  {
    if n <= b {
      if Walk(grid, s, n).None? {
        WalkEnded(grid, s, n, b);
      }
    } else {
      WalkAdd(grid, s, b, n - b);
      WalkAdd(grid, s, a, n - b);
      RepeatedPoseLoops(grid, s, a, b, a + (n - b));
    }
  }

  // ---------------------------------------------------------------------------
  // What the walk visits
  // ---------------------------------------------------------------------------

  /** The cells the guard moves into during the first `n` steps from `s`.
      A turn enters no cell, and the starting cell counts only when the guard
      walks back into it. */
  function Entered(grid: Grid, s: Pose, n: nat): set<Position>
    requires IsRectangular(grid)
    decreases n
  {
    if n == 0 then {}
    else
      match Step(grid, s)
      case None => {}
      case Some(t) => (if t.dir == s.dir then {t.pos} else {}) + Entered(grid, t, n - 1)
  }

  /** The cell that one step from `c` enters, if any. */
  function EnteredByStep(grid: Grid, c: Pose): set<Position>
    requires IsRectangular(grid)
  {
    match Step(grid, c)
    case None => {}
    case Some(t) => if t.dir == c.dir then {t.pos} else {}
  }

  lemma {:induction false} EnteredSnoc(grid: Grid, s: Pose, n: nat, c: Pose)
    requires IsRectangular(grid)
    requires Walk(grid, s, n) == Some(c)
    ensures Entered(grid, s, n + 1) == Entered(grid, s, n) + EnteredByStep(grid, c)
    decreases n
  {
    if n > 0 {
      match Step(grid, s)
      case Some(t) => EnteredSnoc(grid, t, n - 1, c);
    }
  }

  /** After the guard has left, the set of entered cells no longer grows. */
  lemma {:induction false} EnteredAfterExit(grid: Grid, s: Pose, k: nat, c: Pose, n: nat)
    requires IsRectangular(grid)
    requires Walk(grid, s, k) == Some(c) && Step(grid, c).None? && k <= n
    ensures Entered(grid, s, n) == Entered(grid, s, k)
    decreases k
  {
    if k == 0 {
      assert s == c;
    } else {
      match Step(grid, s)
      case Some(t) => EnteredAfterExit(grid, t, k - 1, c, n - 1);
    }
  }

  /** Every entered cell lies inside the grid and is not obstructed. */
  lemma {:induction false} EnteredCellsAreOpen(grid: Grid, s: Pose, n: nat)
    requires IsRectangular(grid)
    ensures forall p :: p in Entered(grid, s, n) ==> InBounds(grid, p) && TileAt(grid, p) != Obstructed
    decreases n
  {
    if n > 0 {
      match Step(grid, s)
      case None =>
      case Some(t) =>
        EnteredCellsAreOpen(grid, t, n - 1);
        if t.dir == s.dir {
          StepMovesOrTurns(grid, s);
        }
    }
  }

  /** On a single-cell grid the guard leaves at once, and its own cell is not
      among the entered cells: the start is not recorded up front. */
  lemma {:induction false} LoneGuardEntersNothing(n: nat)
    ensures Walk([[Guard]], Pose(Position(0, 0), Up), 1).None?
    ensures Entered([[Guard]], Pose(Position(0, 0), Up), n) == {}
  {
  }

  // ---------------------------------------------------------------------------
  // Parsing
  // ---------------------------------------------------------------------------

  /** `MapTile::try_from`: the fixed tile table. */
  function TileFromChar(c: char): (r: Result<MapTile>)
    ensures r.Ok? <==> c == '.' || c == '#' || c == '^'
  {
    match c
    case '.' => Ok(Empty)
    case '#' => Ok(Obstructed)
    case '^' => Ok(Guard)
    case _ => Err
  }

  /** The character that stands for a tile in the input. */
  function TileChar(t: MapTile): char
  {
    match t
    case Empty => '.'
    case Obstructed => '#'
    case Guard => '^'
  }

  /** The tile table is a bijection between the three characters and the
      three tiles. */
  lemma {:induction false} TileTableRoundTrip(t: MapTile, c: char)
    ensures TileFromChar(TileChar(t)) == Ok(t)
    ensures TileFromChar(c).Ok? ==> TileChar(TileFromChar(c).value) == c
  {
  }

  /** One line of tiles; the first bad character fails the whole line. */
  function ParseRow(line: string): (r: Result<seq<MapTile>>)
    ensures r.Ok? <==> forall k :: 0 <= k < |line| ==> TileFromChar(line[k]).Ok?
    ensures r.Ok? ==> (|r.value| == |line|
              && forall k :: 0 <= k < |line| ==> r.value[k] == TileFromChar(line[k]).value)
  {
    if line == [] then Ok([])
    else
      match TileFromChar(line[0])
      case Err => Err
      case Ok(t) =>
        match ParseRow(line[1..])
        case Err => Err
        case Ok(rest) => Ok([t] + rest)
  }

  /** The rows of the grid, one per line; the first bad line fails all. */
  function ParseRows(lines: seq<string>): (r: Result<Grid>)
    ensures r.Ok? <==> forall i :: 0 <= i < |lines| ==> ParseRow(lines[i]).Ok?
    ensures r.Ok? ==> (|r.value| == |lines|
              && forall i :: 0 <= i < |lines| ==> r.value[i] == ParseRow(lines[i]).value)
  {
    if lines == [] then Ok([])
    else
      match ParseRow(lines[0])
      case Err => Err
      case Ok(row) =>
        match ParseRows(lines[1..])
        case Err => Err
        case Ok(rest) => Ok([row] + rest)
  }

  /** The first guard tile of a row, if any. */
  function FindGuardInRow(row: seq<MapTile>): (r: Option<nat>)
    ensures r.Some? ==> r.value < |row| && row[r.value] == Guard
    ensures forall j :: 0 <= j < |row| && (r.None? || j < r.value) ==> row[j] != Guard
  {
    if row == [] then None
    else if row[0] == Guard then Some(0)
    else
      match FindGuardInRow(row[1..])
      case None => None
      case Some(j) => Some(j + 1)
  }

  /** Position `a` comes before position `b` in row-major order. */
  predicate RowMajorBefore(a: Position, b: Position)
  {
    a.row < b.row || (a.row == b.row && a.col < b.col)
  }

  /** The first guard tile of the grid in row-major order, if any. */
  function FindGuard(grid: Grid): (r: Option<Position>)
    ensures r.Some? ==> (r.value.row < |grid| && r.value.col < |grid[r.value.row]|
              && grid[r.value.row][r.value.col] == Guard)
    ensures forall i, j ::
              (0 <= i < |grid| && 0 <= j < |grid[i]| && (r.None? || RowMajorBefore(Position(i, j), r.value)))
              ==> grid[i][j] != Guard
  {
    if grid == [] then None
    else
      match FindGuardInRow(grid[0])
      case Some(j) => Some(Position(0, j))
      case None =>
        match FindGuard(grid[1..])
        case None => None
        case Some(p) => Some(Position(p.row + 1, p.col))
  }

  /** `LabInput::from_str`: the grid, one row per line, and the position of
      the first guard tile; the guard always starts facing up. Fails on any
      character outside the tile table and when there is no guard tile. Rows
      are not required to have equal length. */
  function ParseLab(s: string): (r: Result<(Grid, Position)>)
    ensures r.Ok? <==>
              && (forall i, k :: 0 <= i < |Text.Lines(s)| && 0 <= k < |Text.Lines(s)[i]|
                   ==> TileFromChar(Text.Lines(s)[i][k]).Ok?)
              && (exists i, k :: 0 <= i < |Text.Lines(s)| && 0 <= k < |Text.Lines(s)[i]|
                   && Text.Lines(s)[i][k] == '^')
    ensures r.Ok? ==> ParseRows(Text.Lines(s)) == Ok(r.value.0) && FindGuard(r.value.0) == Some(r.value.1)
  {
    var lines := Text.Lines(s);
    match ParseRows(lines)
    case Err =>
      assert exists i :: 0 <= i < |lines| && ParseRow(lines[i]).Err?;
      Err
    case Ok(grid) =>
      match FindGuard(grid)
      case None =>
        assert forall i, k :: 0 <= i < |lines| && 0 <= k < |lines[i]| ==> grid[i][k] != Guard;
        Err
      case Some(p) =>
        assert lines[p.row][p.col] == '^';
        Ok((grid, p))
  }

  /** The text of a grid: every row's characters followed by a newline. */
  function Render(grid: Grid): string
  {
    Text.Join(RowTexts(grid) + [[]], '\n')
  }

  function RowTexts(grid: Grid): (texts: seq<string>)
    ensures |texts| == |grid|
    ensures forall i :: 0 <= i < |grid| ==> (|texts[i]| == |grid[i]|
              && forall k :: 0 <= k < |grid[i]| ==> texts[i][k] == TileChar(grid[i][k]))
  {
    seq(|grid|, i requires 0 <= i < |grid| => seq(|grid[i]|, k requires 0 <= k < |grid[i]| => TileChar(grid[i][k])))
  }

  /** Parsing reads back every rendered grid: the rows of the text are the
      rows of the grid. */
  lemma {:induction false} ParseRendered(grid: Grid)
    ensures Text.Lines(Render(grid)) == RowTexts(grid)
    ensures ParseRows(Text.Lines(Render(grid))) == Ok(grid)
  {
    var texts := RowTexts(grid);
    var pieces := texts + [[]];
    forall k | 0 <= k < |pieces|
      ensures '\n' !in pieces[k]
    {
      if k < |texts| {
        assert forall m :: 0 <= m < |texts[k]| ==> texts[k][m] != '\n';
      }
    }
    Text.JoinSplit(pieces, '\n');
    var lines := Text.Lines(Render(grid));
    assert |lines| == |texts|;
    forall i | 0 <= i < |texts|
      ensures lines[i] == texts[i]
    {
      assert Text.StripCarriageReturn(pieces[i]) == texts[i];
    }
    forall i | 0 <= i < |grid|
      ensures ParseRow(texts[i]) == Ok(grid[i])
    {
      TileRowRoundTrip(grid[i], texts[i]);
    }
    assert ParseRows(lines).value == grid;
  }

  lemma {:induction false} TileRowRoundTrip(row: seq<MapTile>, text: string)
    requires |text| == |row| && forall k :: 0 <= k < |row| ==> text[k] == TileChar(row[k])
    ensures ParseRow(text) == Ok(row)
  {
    forall k | 0 <= k < |row|
      ensures TileFromChar(text[k]) == Ok(row[k])
    {
      TileTableRoundTrip(row[k], text[k]);
    }
    assert ParseRow(text).value == row;
  }

  // ---------------------------------------------------------------------------
  // The lab, its simulations and the obstruction search
  // ---------------------------------------------------------------------------

  /** The cells of `candidates` other than the guard's start whose obstruction
      makes the walk from `start` loop forever. */
  ghost function LoopInducing(grid: Grid, start: Pose, candidates: set<Position>): set<Position>
    requires IsRectangular(grid)
  {
    set p | p in candidates && p != start.pos && InBounds(grid, p)
              && !Exits(WithObstruction(grid, p), start)
  }

  /** The grid with one more obstruction. */
  function WithObstruction(grid: Grid, p: Position): (g: Grid)
    requires IsRectangular(grid) && InBounds(grid, p)
    ensures IsRectangular(g) && |g| == |grid| && |g[0]| == |grid[0]|
  {
    grid[p.row := grid[p.row][p.col := Obstructed]]
  }

  /** All poses inside the grid: the witnesses the loop detector can record. */
  ghost function AllPoses(grid: Grid): set<Pose>
    requires IsRectangular(grid)
  {
    set r: nat, c: nat, d: GuardDirection
      | r < |grid| && c < |grid[0]| && d in {Up, Down, Left, Right}
      :: Pose(Position(r, c), d)
  }

  /** How many cells the guard can still move before it reaches the edge in
      the direction it faces. */
  function DistanceToEdge(grid: Grid, s: Pose): nat
    requires IsRectangular(grid) && InBounds(grid, s.pos)
  {
    match s.dir
    case Up => s.pos.row
    case Down => |grid| - 1 - s.pos.row
    case Left => s.pos.col
    case Right => |grid[0]| - 1 - s.pos.col
  }

  /** Loop-detector bookkeeping: corner `w` was recorded after `seenAt[w]`
      steps, before the current step count, in a pose facing an obstruction. */
  ghost predicate RecordedAt(grid: Grid, start: Pose, w: Pose, seenAt: map<Pose, nat>, steps: nat)
    requires IsRectangular(grid)
  {
    w in seenAt && seenAt[w] < steps && Walk(grid, start, seenAt[w]) == Some(w) && FacesObstruction(grid, w)
  }

  lemma {:induction false} PoseInside(grid: Grid, s: Pose)
    requires IsRectangular(grid) && InBounds(grid, s.pos)
    ensures s in AllPoses(grid)
  {
    match s.dir
    case Up => assert s == Pose(Position(s.pos.row, s.pos.col), Up);
    case Down => assert s == Pose(Position(s.pos.row, s.pos.col), Down);
    case Left => assert s == Pose(Position(s.pos.row, s.pos.col), Left);
    case Right => assert s == Pose(Position(s.pos.row, s.pos.col), Right);
  }

  /** Recording a new corner leaves fewer unrecorded ones. */
  lemma {:induction false} NewCornerShrinks(all: set<Pose>, corners: set<Pose>, c: Pose)
    requires c in all && c !in corners
    ensures |all - (corners + {c})| < |all - corners|
  {
    assert all - (corners + {c}) == (all - corners) - {c};
  }

  /** A move keeps the guard inside and brings it one cell closer to the edge
      it faces. */
  lemma {:induction false} MoveApproachesEdge(grid: Grid, s: Pose)
    requires IsRectangular(grid) && InBounds(grid, s.pos)
    requires Step(grid, s).Some? && !FacesObstruction(grid, s)
    ensures InBounds(grid, Step(grid, s).value.pos)
    ensures DistanceToEdge(grid, Step(grid, s).value) < DistanceToEdge(grid, s)
  {
  }

  class LabInput {
    var grid: Grid
    var guardPosition: Position
    var guardDirection: GuardDirection

    /** The grid is rectangular and the guard stands inside it. */
    predicate Valid()
      reads this
    {
      IsRectangular(grid) && InBounds(grid, guardPosition)
    }

    function Start(): Pose
      reads this
    {
      Pose(guardPosition, guardDirection)
    }

    constructor (grid: Grid, guardPosition: Position, guardDirection: GuardDirection)
      ensures this.grid == grid && this.guardPosition == guardPosition
      ensures this.guardDirection == guardDirection
    {
      this.grid := grid;
      this.guardPosition := guardPosition;
      this.guardDirection := guardDirection;
    }

    /** `LabInput::from_str`: parse the text and place the guard, facing up. */
    static method FromStr(s: string) returns (r: Result<LabInput>)
      ensures r.Ok? <==> ParseLab(s).Ok?
      ensures r.Ok? ==> (fresh(r.value) && r.value.grid == ParseLab(s).value.0
                && r.value.guardPosition == ParseLab(s).value.1 && r.value.guardDirection == Up)
    {
      match ParseLab(s)
      case Err =>
        r := Err;
      case Ok((grid, p)) =>
        var lab := new LabInput(grid, p, Up);
        r := Ok(lab);
    }

    /** `is_guard_stuck_in_loop`: walks from the start and records the pose in
        which the guard faces an obstruction each time it turns; meeting a
        recorded pose again means the walk repeats forever. The answer is
        exactly whether the walk never leaves the grid. */
    method IsGuardStuckInLoop() returns (stuck: bool)
      requires Valid()
      ensures stuck <==> !Exits(grid, Start())
      ensures stuck ==> exists a: nat, b: nat :: a < b && Walk(grid, Start(), a) == Walk(grid, Start(), b)
                          && Walk(grid, Start(), a).Some? && FacesObstruction(grid, Walk(grid, Start(), a).value)
    {
      var pos := guardPosition;
      var guardDir := guardDirection;
      var corners: set<Pose> := {};
      ghost var steps: nat := 0;
      ghost var seenAt: map<Pose, nat> := map[];
      ghost var all := AllPoses(grid);
      while true
        invariant InBounds(grid, pos)
        invariant Walk(grid, Start(), steps) == Some(Pose(pos, guardDir))
        invariant corners <= all
        invariant forall w :: w in corners ==> RecordedAt(grid, Start(), w, seenAt, steps)
        decreases |all - corners|, DistanceToEdge(grid, Pose(pos, guardDir))
      {
        var here := Pose(pos, guardDir);
        WalkSnoc(grid, Start(), steps);
        var next := NextMove(pos, guardDir, grid);
        if next.None? {
          assert Walk(grid, Start(), steps + 1).None?;
          stuck := false;
          return;
        }
        var (newPos, newDir) := next.value;
        if grid[newPos.row][newPos.col] == Obstructed {
          assert FacesObstruction(grid, here);
          if here in corners {
            ghost var a := seenAt[here];
            forall n: nat
              ensures Walk(grid, Start(), n).Some?
            {
              RepeatedPoseLoops(grid, Start(), a, steps, n);
            }
            assert Walk(grid, Start(), a) == Walk(grid, Start(), steps);
            stuck := true;
            return;
          }
          PoseInside(grid, here);
          NewCornerShrinks(all, corners, here);
          corners := corners + {here};
          seenAt := seenAt[here := steps];
          guardDir := TurnRight(newDir);
          assert Walk(grid, Start(), steps + 1) == Some(Pose(pos, guardDir));
        } else {
          MoveApproachesEdge(grid, here);
          pos := newPos;
          guardDir := newDir;
          assert Walk(grid, Start(), steps + 1) == Some(Pose(pos, guardDir));
        }
        steps := steps + 1;
      }
    }

    /** `patrol_position_path`: the cells the guard moves into until it leaves
        the grid. The source loops forever on a walk that never leaves, so the
        walk must leave. */
    method PatrolPositionPath() returns (visited: set<Position>)
      requires Valid()
      requires Exits(grid, Start())
      ensures forall n: nat :: Walk(grid, Start(), n).None? ==> visited == Entered(grid, Start(), n)
      ensures forall p :: p in visited ==> InBounds(grid, p) && TileAt(grid, p) != Obstructed
    {
      visited := {};
      var pos := guardPosition;
      var guardDir := guardDirection;
      ghost var steps: nat := 0;
      ghost var exitAt: nat :| Walk(grid, Start(), exitAt).None?;
      while true
        invariant Walk(grid, Start(), steps) == Some(Pose(pos, guardDir))
        invariant visited == Entered(grid, Start(), steps)
        invariant steps < exitAt
        decreases exitAt - steps
      {
        WalkSnoc(grid, Start(), steps);
        EnteredSnoc(grid, Start(), steps, Pose(pos, guardDir));
        var next := NextMove(pos, guardDir, grid);
        if next.None? {
          forall n: nat | Walk(grid, Start(), n).None?
            ensures visited == Entered(grid, Start(), n)
          {
            if n <= steps {
              WalkEnded(grid, Start(), n, steps);
            }
            EnteredAfterExit(grid, Start(), steps, Pose(pos, guardDir), n);
          }
          EnteredCellsAreOpen(grid, Start(), steps);
          return;
        }
        var (newPos, newDir) := next.value;
        if grid[newPos.row][newPos.col] == Obstructed {
          guardDir := TurnRight(newDir);
        } else {
          visited := visited + {newPos};
          pos := newPos;
          guardDir := newDir;
        }
        steps := steps + 1;
        if steps == exitAt {
          assert false;
        }
      }
    }
  }

  /** `obstruction_position_count`: for every candidate other than the
      guard's start, obstruct that cell, ask the loop detector, and put the
      cell's tile back. The grid ends as it began, and the count is the number
      of candidates whose obstruction traps the guard. */
  method ObstructionPositionCount(lab: LabInput, guardPathPositions: set<Position>) returns (count: nat)
    requires lab.Valid()
    requires forall p :: p in guardPathPositions ==> InBounds(lab.grid, p)
    modifies lab`grid
    ensures lab.grid == old(lab.grid)
    ensures count == |LoopInducing(lab.grid, lab.Start(), guardPathPositions)|
    ensures count <= |guardPathPositions - {lab.guardPosition}|
  {
    count := 0;
    var remaining := guardPathPositions;
    ghost var grid0 := lab.grid;
    ghost var start := lab.Start();
    ghost var done: set<Position> := {};
    assert IsRectangular(grid0) && InBounds(grid0, start.pos);
    while remaining != {}
      invariant lab.grid == grid0 && lab.guardPosition == start.pos && lab.guardDirection == start.dir
      invariant remaining + done == guardPathPositions && remaining !! done
      invariant count == |LoopInducing(grid0, start, done)|
      decreases |remaining|
    {
      var pos :| pos in remaining;
      MoveCandidate(guardPathPositions, remaining, done, pos);
      remaining := remaining - {pos};
      LoopInducingAdd(grid0, start, done, pos);
      assert lab.guardPosition == start.pos;
      if pos != lab.guardPosition {
        var stuck := TrialObstruction(lab, pos);
        if stuck {
          count := count + 1;
        }
      }
      done := done + {pos};
    }
    assert done == guardPathPositions;
    LoopInducingExcludesStart(grid0, start, guardPathPositions);
  }

  /** One trial of the search: save the tile, obstruct the cell, run the
      loop detector, and restore the saved tile. */
  method TrialObstruction(lab: LabInput, pos: Position) returns (stuck: bool)
    requires lab.Valid() && InBounds(lab.grid, pos)
    modifies lab`grid
    ensures lab.grid == old(lab.grid)
    ensures stuck <==> !Exits(WithObstruction(lab.grid, pos), lab.Start())
  {
    var originalTile := lab.grid[pos.row][pos.col];
    lab.grid := lab.grid[pos.row := lab.grid[pos.row][pos.col := Obstructed]];
    stuck := lab.IsGuardStuckInLoop();
    lab.grid := lab.grid[pos.row := lab.grid[pos.row][pos.col := originalTile]];
    RestoreTile(old(lab.grid), pos, originalTile);
  }

  /** Moving one candidate from the remaining ones to the tried ones keeps
      the two apart and together equal to all candidates. */
  lemma {:induction false} MoveCandidate(all: set<Position>, remaining: set<Position>, done: set<Position>, p: Position)
    requires remaining + done == all && remaining !! done && p in remaining
    ensures (remaining - {p}) + (done + {p}) == all && (remaining - {p}) !! (done + {p}) && p !in done
  {
  }

  /** Putting the saved tile back undoes the obstruction. */
  lemma {:induction false} RestoreTile(grid: Grid, p: Position, t: MapTile)
    requires IsRectangular(grid) && InBounds(grid, p) && t == TileAt(grid, p)
    ensures WithObstruction(grid, p)[p.row := WithObstruction(grid, p)[p.row][p.col := t]] == grid
  {
    var g := WithObstruction(grid, p);
    assert g[p.row][p.col := t] == grid[p.row];
  }

  /** Adding one candidate adds it to the loop-inducing set exactly when its
      obstruction traps the guard. */
  lemma {:induction false} LoopInducingAdd(grid: Grid, start: Pose, done: set<Position>, p: Position)
    requires IsRectangular(grid) && InBounds(grid, p) && p !in done
    ensures LoopInducing(grid, start, done + {p}) ==
              LoopInducing(grid, start, done)
              + (if p != start.pos && !Exits(WithObstruction(grid, p), start) then {p} else {})
    ensures p !in LoopInducing(grid, start, done)
    ensures |LoopInducing(grid, start, done + {p})|
            == |LoopInducing(grid, start, done)| + (if p != start.pos && !Exits(WithObstruction(grid, p), start) then 1 else 0)
  {
    var before := LoopInducing(grid, start, done);
    var after := LoopInducing(grid, start, done + {p});
    if p != start.pos && !Exits(WithObstruction(grid, p), start) {
      assert after == before + {p};
    } else {
      assert after == before;
    }
  }

  /** The guard's start is never counted, so the count is at most the number
      of other candidates. */
  lemma {:induction false} LoopInducingExcludesStart(grid: Grid, start: Pose, candidates: set<Position>)
    requires IsRectangular(grid)
    ensures start.pos !in LoopInducing(grid, start, candidates)
    ensures |LoopInducing(grid, start, candidates)| <= |candidates - {start.pos}|
  {
    assert LoopInducing(grid, start, candidates) <= candidates - {start.pos};
    SubsetCard(LoopInducing(grid, start, candidates), candidates - {start.pos});
  }

  lemma {:induction false} SubsetCard<T>(a: set<T>, b: set<T>)
    requires a <= b
    ensures |a| <= |b|
  {
    assert b == a + (b - a);
  }
}
