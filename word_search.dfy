/** The word search of aoc_2024/src/bin/day4.rs: count the places and
    directions (the eight straight lines through a cell) along which a needle
    is spelled in a grid of characters. */
module WordSearch {
  import opened Wrappers
  import Text

  const Xmas: string := "XMAS"

  /** The rows of the puzzle text, one character per cell. */
  datatype Grid = Grid(data: seq<seq<char>>)

  /** `Grid::from_str`: the text split at every '\n', each piece a row. Empty
      pieces are kept, so a text ending in '\n' has an empty last row. */
  function FromStr(s: string): (g: Grid)
    ensures |g.data| >= 1
    ensures forall r :: 0 <= r < |g.data| ==> '\n' !in g.data[r]
    ensures Text.Join(g.data, '\n') == s
  {
    Text.SplitPieces(s, '\n');
    Text.SplitJoin(s, '\n');
    Grid(Text.Split(s, '\n'))
  }

  /** The other direction of the round trip: rows without '\n' come back. */
  lemma {:induction false} FromStrJoin(rows: seq<seq<char>>)
    requires |rows| >= 1 && forall r :: 0 <= r < |rows| ==> '\n' !in rows[r]
    ensures FromStr(Text.Join(rows, '\n')) == Grid(rows)
  {
    Text.JoinSplit(rows, '\n');
  }

  /** Every row as long as the first. `count_for` bounds its steps by the
      length of the first row, which only protects the cell reads when the
      grid is rectangular. */
  predicate Rectangular(g: Grid)
  {
    |g.data| > 0 && forall r :: 0 <= r < |g.data| ==> |g.data[r]| == |g.data[0]|
  }

  function Width(g: Grid): nat
    requires |g.data| > 0
  {
    |g.data[0]|
  }

  // ---------------------------------------------------------------------------
  // What it means for a needle to be spelled
  // ---------------------------------------------------------------------------

  /** The cell at row i, column j, if there is one. */
  function CellAt(g: Grid, i: int, j: int): Option<char>
  {
    if 0 <= i < |g.data| && 0 <= j < |g.data[i]| then Some(g.data[i][j]) else None
  }

  /** The coordinate s steps of size d away from x. */
  function Along(x: int, d: int, s: nat): int
  {
    x + s * d
  }

  /** w is spelled from (x, y) with steps (dx, dy): its s-th character sits
      in the grid s steps away. */
  predicate Spelled(g: Grid, x: int, y: int, dx: int, dy: int, w: seq<char>)
  {
    forall s: nat :: s < |w| ==> CellAt(g, Along(x, dx, s), Along(y, dy, s)) == Some(w[s])
  }

  lemma {:induction false} SpelledStep(g: Grid, x: int, y: int, dx: int, dy: int, w: seq<char>)
    requires |w| > 0
    ensures Spelled(g, x, y, dx, dy, w)
            <==> CellAt(g, x, y) == Some(w[0]) && Spelled(g, x + dx, y + dy, dx, dy, w[1..])
  {
    assert Along(x, dx, 0) == x && Along(y, dy, 0) == y;
    if Spelled(g, x + dx, y + dy, dx, dy, w[1..]) && CellAt(g, x, y) == Some(w[0]) {
      forall s: nat | s < |w|
        ensures CellAt(g, Along(x, dx, s), Along(y, dy, s)) == Some(w[s])
      {
        if s > 0 {
          AlongShift(x, dx, s - 1);
          AlongShift(y, dy, s - 1);
          assert CellAt(g, Along(x + dx, dx, s - 1), Along(y + dy, dy, s - 1)) == Some(w[1..][s - 1]);
        }
      }
    }
    if Spelled(g, x, y, dx, dy, w) {
      forall s: nat | s < |w| - 1
        ensures CellAt(g, Along(x + dx, dx, s), Along(y + dy, dy, s)) == Some(w[1..][s])
      {
        AlongShift(x, dx, s);
        AlongShift(y, dy, s);
        assert CellAt(g, Along(x, dx, s + 1), Along(y, dy, s + 1)) == Some(w[s + 1]);
      }
    }
  }

  lemma {:induction false} AlongShift(x: int, d: int, s: nat)
    ensures Along(x, d, s + 1) == Along(x + d, d, s)
  {
    assert (s + 1) * d == s * d + d;
  }

  /** The s-th character of a spelled needle sits s steps away. */
  lemma {:induction false} SpelledAt(g: Grid, x: int, y: int, dx: int, dy: int, w: seq<char>, s: nat)
    requires Spelled(g, x, y, dx, dy, w) && s < |w|
    ensures CellAt(g, Along(x, dx, s), Along(y, dy, s)) == Some(w[s])
  {
  }

  // ---------------------------------------------------------------------------
  // count_for
  // ---------------------------------------------------------------------------

  /** `usize::checked_add_signed` below the upper end of `usize`: None when
      the sum would be negative. */
  function CheckedAddSigned(x: nat, d: int): Option<nat>
  {
    if x + d < 0 then None else Some(x + d)
  }

  /** `count_for` on a rectangular grid: the character is compared first,
      then the end of the needle is tested, then the step is bounds-checked
      against the number of rows and the length of the first row. */
  function CountFor(g: Grid, x: nat, y: nat, dx: int, dy: int, needle: seq<char>, k: nat): (r: nat)
    requires Rectangular(g) && x < |g.data| && y < Width(g) && k < |needle|
    ensures r <= 1
    decreases |needle| - k
  {
    if g.data[x][y] != needle[k] then 0
    else if k == |needle| - 1 then 1
    else
      match (CheckedAddSigned(x, dx), CheckedAddSigned(y, dy))
      case (Some(nx), Some(ny)) =>
        if nx < |g.data| && ny < Width(g) then CountFor(g, nx, ny, dx, dy, needle, k + 1) else 0
      case _ => 0
  }

  /** `count_for` finds exactly the spellings of the rest of the needle. */
  lemma {:induction false} CountForMeans(g: Grid, x: nat, y: nat, dx: int, dy: int, needle: seq<char>, k: nat)
    requires Rectangular(g) && x < |g.data| && y < Width(g) && k < |needle|
    ensures CountFor(g, x, y, dx, dy, needle, k) == 1 <==> Spelled(g, x, y, dx, dy, needle[k..])
  {
    CountForSpelledFrom(g, x, y, dx, dy, needle, k);
    SpelledFromMeans(g, x, y, dx, dy, needle[k..]);
  }

  /** Spelling, one character and one step at a time. */
  predicate SpelledFrom(g: Grid, x: int, y: int, dx: int, dy: int, w: seq<char>)
    decreases |w|
  {
    |w| == 0 || (CellAt(g, x, y) == Some(w[0]) && SpelledFrom(g, x + dx, y + dy, dx, dy, w[1..]))
  }

  lemma {:induction false} SpelledFromMeans(g: Grid, x: int, y: int, dx: int, dy: int, w: seq<char>)
    ensures SpelledFrom(g, x, y, dx, dy, w) <==> Spelled(g, x, y, dx, dy, w)
    decreases |w|
  {
    if |w| > 0 {
      SpelledStep(g, x, y, dx, dy, w);
      SpelledFromMeans(g, x + dx, y + dy, dx, dy, w[1..]);
    }
  }

  lemma {:induction false} CountForSpelledFrom(g: Grid, x: nat, y: nat, dx: int, dy: int, needle: seq<char>, k: nat)
    requires Rectangular(g) && x < |g.data| && y < Width(g) && k < |needle|
    ensures CountFor(g, x, y, dx, dy, needle, k) == 1 <==> SpelledFrom(g, x, y, dx, dy, needle[k..])
    decreases |needle| - k
  {
    var w := needle[k..];
    assert CellAt(g, x, y) == Some(g.data[x][y]);
    assert w[0] == needle[k];
    if g.data[x][y] != needle[k] {
      assert CountFor(g, x, y, dx, dy, needle, k) == 0;
    } else if k == |needle| - 1 {
      assert CountFor(g, x, y, dx, dy, needle, k) == 1;
      assert |w[1..]| == 0;
    } else {
      assert w[1..] == needle[k + 1..];
      var nx, ny := x + dx, y + dy;
      if 0 <= nx < |g.data| && 0 <= ny < Width(g) {
        assert CountFor(g, x, y, dx, dy, needle, k) == CountFor(g, nx, ny, dx, dy, needle, k + 1);
        CountForSpelledFrom(g, nx, ny, dx, dy, needle, k + 1);
      } else {
        assert CountFor(g, x, y, dx, dy, needle, k) == 0;
        OutsideCell(g, nx, ny);
        assert !SpelledFrom(g, nx, ny, dx, dy, w[1..]);
      }
    }
  }

  /** Outside the rows, or past the first row's length, a rectangular grid
      has no cell. */
  lemma {:induction false} OutsideCell(g: Grid, i: int, j: int)
    requires Rectangular(g) && !(0 <= i < |g.data| && 0 <= j < Width(g))
    ensures CellAt(g, i, j) == None
  {
    if 0 <= i < |g.data| {
      assert |g.data[i]| == Width(g);
    }
  }

  // ---------------------------------------------------------------------------
  // find_xmas_count
  // ---------------------------------------------------------------------------

  /** One (cell, direction) pair of the double loop over i, j in -1..=1: the
      pair (0, 0) is skipped, every other one counts when the needle is
      spelled that way. */
  function Hit(g: Grid, x: nat, y: nat, needle: seq<char>, i: int, j: int): nat
  {
    if i == 0 && j == 0 then 0 else if Spelled(g, x, y, i, j, needle) then 1 else 0
  }

  lemma {:induction false} HitIsCountFor(g: Grid, x: nat, y: nat, needle: seq<char>, i: int, j: int)
    requires Rectangular(g) && x < |g.data| && y < Width(g) && |needle| > 0 && !(i == 0 && j == 0)
    ensures Hit(g, x, y, needle, i, j) == CountFor(g, x, y, i, j, needle, 0)
  {
    CountForMeans(g, x, y, i, j, needle, 0);
    assert needle[0..] == needle;
  }

  /** Hits for direction rows i and columns -1 <= j' < j. */
  function DirSum(g: Grid, x: nat, y: nat, needle: seq<char>, i: int, j: int): nat
    requires -1 <= j <= 2
    decreases j + 1
  {
    if j == -1 then 0 else DirSum(g, x, y, needle, i, j - 1) + Hit(g, x, y, needle, i, j - 1)
  }

  /** Hits for all directions with row offset -1 <= i' < i. */
  function CellSum(g: Grid, x: nat, y: nat, needle: seq<char>, i: int): nat
    requires -1 <= i <= 2
    decreases i + 1
  {
    if i == -1 then 0 else CellSum(g, x, y, needle, i - 1) + DirSum(g, x, y, needle, i - 1, 2)
  }

  /** Hits from the first y cells of row x. */
  function RowSum(g: Grid, x: nat, needle: seq<char>, y: nat): nat
  {
    if y == 0 then 0 else RowSum(g, x, needle, y - 1) + CellSum(g, x, y - 1, needle, 2)
  }

  /** Hits from the first x rows. */
  function GridSum(g: Grid, needle: seq<char>, x: nat): nat
    requires |g.data| > 0
  {
    if x == 0 then 0 else GridSum(g, needle, x - 1) + RowSum(g, x - 1, needle, Width(g))
  }

  /** The number of (cell, direction) pairs along which the needle is
      spelled. */
  function XmasTotal(g: Grid, needle: seq<char>): nat
    requires |g.data| > 0
  {
    GridSum(g, needle, |g.data|)
  }

  /** A cell holding something other than the needle's first character
      starts no spelling, so the loop may skip it. */
  lemma {:induction false} NoHitsOffNeedle(g: Grid, x: nat, y: nat, needle: seq<char>)
    requires x < |g.data| && y < |g.data[x]| && |needle| > 0 && g.data[x][y] != needle[0]
    ensures CellSum(g, x, y, needle, 2) == 0
  {
    forall i: int, j: int
      ensures !Spelled(g, x, y, i, j, needle)
    {
      SpelledStep(g, x, y, i, j, needle);
      assert CellAt(g, x, y) == Some(g.data[x][y]);
    }
    forall i: int | -1 <= i <= 1
      ensures DirSum(g, x, y, needle, i, 2) == 0
    {
      assert DirSum(g, x, y, needle, i, 0) == 0;
      assert DirSum(g, x, y, needle, i, 1) == 0;
    }
    assert CellSum(g, x, y, needle, 0) == 0;
    assert CellSum(g, x, y, needle, 1) == 0;
  }

  /** One cell adds at most the eight directions. */
  lemma {:induction false} CellAtMostEight(g: Grid, x: nat, y: nat, needle: seq<char>)
    ensures CellSum(g, x, y, needle, 2) <= 8
  {
    forall i: int | -1 <= i <= 1
      ensures DirSum(g, x, y, needle, i, 2) <= if i == 0 then 2 else 3
    {
      assert DirSum(g, x, y, needle, i, 0) <= 1;
      assert DirSum(g, x, y, needle, i, 1) <= if i == 0 then 1 else 2;
    }
    assert CellSum(g, x, y, needle, 0) <= 3;
    assert CellSum(g, x, y, needle, 1) <= 5;
  }

  lemma {:induction false} RowAtMost(g: Grid, x: nat, needle: seq<char>, y: nat)
    ensures RowSum(g, x, needle, y) <= 8 * y
  {
    if y > 0 {
      RowAtMost(g, x, needle, y - 1);
      CellAtMostEight(g, x, y - 1, needle);
    }
  }

  lemma {:induction false} GridAtMost(g: Grid, needle: seq<char>, x: nat)
    requires |g.data| > 0
    ensures GridSum(g, needle, x) <= 8 * Width(g) * x
  {
    if x > 0 {
      GridAtMost(g, needle, x - 1);
      RowAtMost(g, x - 1, needle, Width(g));
      assert 8 * Width(g) * x == 8 * Width(g) * (x - 1) + 8 * Width(g);
    }
  }

  /** At most eight spellings start in each cell. */
  lemma {:induction false} XmasTotalBound(g: Grid, needle: seq<char>)
    requires |g.data| > 0
    ensures XmasTotal(g, needle) <= 8 * Width(g) * |g.data|
  {
    GridAtMost(g, needle, |g.data|);
  }

  /** `find_xmas_count`: every cell equal to the needle's first character,
      every direction but (0, 0), summing `count_for`. */
  method FindXmasCount(g: Grid, needle: seq<char>) returns (count: nat)
    requires Rectangular(g) && |needle| > 0
    ensures count == XmasTotal(g, needle)
  {
    count := 0;
    var x := 0;
    while x < |g.data|
      invariant x <= |g.data|
      invariant count == GridSum(g, needle, x)
    {
      var found := CountLine(g, x, needle);
      GridSumStep(g, needle, x);
      count := count + found;
      x := x + 1;
    }
  }

  lemma {:induction false} GridSumStep(g: Grid, needle: seq<char>, x: nat)
    requires |g.data| > 0
    ensures GridSum(g, needle, x + 1) == GridSum(g, needle, x) + RowSum(g, x, needle, Width(g))
  {
  }

  /** The loop over the cells of line x. */
  method CountLine(g: Grid, x: nat, needle: seq<char>) returns (count: nat)
    requires Rectangular(g) && x < |g.data| && |needle| > 0
    ensures count == RowSum(g, x, needle, Width(g))
  {
    count := 0;
    var y := 0;
    while y < |g.data[x]|
      invariant y <= |g.data[x]|
      invariant count == RowSum(g, x, needle, y)
    {
      if g.data[x][y] != needle[0] {
        NoHitsOffNeedle(g, x, y, needle);
      } else {
        var found := CountAround(g, x, y, needle);
        count := count + found;
      }
      y := y + 1;
    }
  }

  /** The loops over the row offsets i and column offsets j of -1..=1. */
  method CountAround(g: Grid, x: nat, y: nat, needle: seq<char>) returns (count: nat)
    requires Rectangular(g) && x < |g.data| && y < Width(g) && |needle| > 0
    ensures count == CellSum(g, x, y, needle, 2)
  {
    count := 0;
    var i := -1;
    while i <= 1
      invariant -1 <= i <= 2
      invariant count == CellSum(g, x, y, needle, i)
    {
      var found := CountDirections(g, x, y, needle, i);
      CellSumStep(g, x, y, needle, i);
      count := count + found;
      i := i + 1;
    }
  }

  lemma {:induction false} CellSumStep(g: Grid, x: nat, y: nat, needle: seq<char>, i: int)
    requires -1 <= i <= 1
    ensures CellSum(g, x, y, needle, i + 1) == CellSum(g, x, y, needle, i) + DirSum(g, x, y, needle, i, 2)
  {
  }

  /** The loop over the column offsets j for row offset i, skipping (0, 0). */
  method CountDirections(g: Grid, x: nat, y: nat, needle: seq<char>, i: int) returns (count: nat)
    requires Rectangular(g) && x < |g.data| && y < Width(g) && |needle| > 0
    ensures count == DirSum(g, x, y, needle, i, 2)
  {
    count := 0;
    var j := -1;
    while j <= 1
      invariant -1 <= j <= 2
      invariant count == DirSum(g, x, y, needle, i, j)
    {
      if !(i == 0 && j == 0) {
        var found := CountFor(g, x, y, i, j, needle, 0);
        HitIsCountFor(g, x, y, needle, i, j);
        count := count + found;
      }
      j := j + 1;
    }
  }

  /** `find_x_mas_count`: the second part is not implemented and always
      answers 0. */
  function FindXMasCount(g: Grid): (r: nat)
    ensures r == 0
  {
    0
  }

  // ---------------------------------------------------------------------------
  // Ragged grids
  // ---------------------------------------------------------------------------

  datatype Outcome = Completed(count: nat) | IndexOutOfBounds

  /** `count_for` on any grid: the cell read `data[x][y]` panics when row x
      is shorter than the first row. */
  function CountForAsWritten(g: Grid, x: nat, y: nat, dx: int, dy: int, needle: seq<char>, k: nat): (r: Outcome)
    requires x < |g.data| && k < |needle|
    ensures r.Completed? ==> r.count <= 1
    decreases |needle| - k
  {
    if y >= |g.data[x]| then IndexOutOfBounds
    else if g.data[x][y] != needle[k] then Completed(0)
    else if k == |needle| - 1 then Completed(1)
    else
      match (CheckedAddSigned(x, dx), CheckedAddSigned(y, dy))
      case (Some(nx), Some(ny)) =>
        if nx < |g.data| && ny < |g.data[0]| then CountForAsWritten(g, nx, ny, dx, dy, needle, k + 1)
        else Completed(0)
      case _ => Completed(0)
  }

  /** On a rectangular grid the cell reads never fail. */
  lemma {:induction false} CountForAsWrittenRectangular(g: Grid, x: nat, y: nat, dx: int, dy: int, needle: seq<char>, k: nat)
    requires Rectangular(g) && x < |g.data| && y < Width(g) && k < |needle|
    ensures CountForAsWritten(g, x, y, dx, dy, needle, k) == Completed(CountFor(g, x, y, dx, dy, needle, k))
    decreases |needle| - k
  {
    if g.data[x][y] == needle[k] && k < |needle| - 1 && 0 <= x + dx < |g.data| && 0 <= y + dy < Width(g) {
      CountForAsWrittenRectangular(g, x + dx, y + dy, dx, dy, needle, k + 1);
    }
  }

  /** Text ending in '\n' parses to a grid with an empty last row. The
      search down from the 'X' of "X\nM\nA\n" reads X, M and A, passes the
      bounds check for row 3 (three rows above it, first row one cell long)
      and then reads a cell of the empty row. */
  lemma {:induction false} TrailingLineFeedPanics()
    ensures FromStr("X\nM\nA\n").data == ["X", "M", "A", ""]
    ensures !Rectangular(FromStr("X\nM\nA\n"))
    ensures CountForAsWritten(FromStr("X\nM\nA\n"), 0, 0, 1, 0, Xmas, 0) == IndexOutOfBounds
  {
    var rows := ["X", "M", "A", ""];
    assert Text.Join(rows, '\n') == "X\nM\nA\n";
    FromStrJoin(rows);
    SearchDownRagged();
  }

  lemma {:induction false} SearchDownRagged()
    ensures CountForAsWritten(Grid(["X", "M", "A", ""]), 0, 0, 1, 0, Xmas, 0) == IndexOutOfBounds
  {
    var g := Grid(["X", "M", "A", ""]);
    assert CountForAsWritten(g, 3, 0, 1, 0, Xmas, 3) == IndexOutOfBounds;
    assert CountForAsWritten(g, 2, 0, 1, 0, Xmas, 2) == IndexOutOfBounds;
    assert CountForAsWritten(g, 1, 0, 1, 0, Xmas, 1) == IndexOutOfBounds;
  }

  /** The parse the other solvers of the repository use, `str::lines`: a
      final empty piece is not a row. */
  function GridFromLines(s: string): (g: Grid)
    ensures forall r :: 0 <= r < |g.data| ==> '\n' !in g.data[r]
  {
    Grid(Text.Lines(s))
  }

  lemma {:induction false} JoinHolds(pieces: seq<string>, k: nat, c: char)
    requires |pieces| >= 1 && k < |pieces| && c in pieces[k]
    ensures c in Text.Join(pieces, '\n')
    decreases |pieces|
  {
    if k > 0 {
      JoinHolds(pieces[1..], k - 1, c);
    }
  }

  /** With `lines`, a trailing '\n' adds no row: the text with it parses to
      the rows `from_str` finds in the text without it. */
  lemma {:induction false} GridFromLinesTrailingLineFeed(s: string)
    requires '\r' !in s
    ensures GridFromLines(s + "\n").data == FromStr(s).data
  {
    var pieces := Text.Split(s, '\n');
    Text.SplitTrailingSeparator(s, '\n');
    assert s + "\n" == s + ['\n'];
    Text.SplitJoin(s, '\n');
    forall k | 0 <= k < |pieces|
      ensures Text.StripCarriageReturn(pieces[k]) == pieces[k]
    {
      if |pieces[k]| > 0 && pieces[k][|pieces[k]| - 1] == '\r' {
        JoinHolds(pieces, k, '\r');
      }
    }
  }

  /** The example again with a trailing '\n', parsed with `lines`: the grid
      is rectangular and the search down from the 'X' ends at the bounds
      check. */
  lemma {:induction false} TrailingLineFeedWithLines()
    ensures GridFromLines("X\nM\nA\n").data == ["X", "M", "A"]
    ensures Rectangular(GridFromLines("X\nM\nA\n"))
    ensures CountForAsWritten(GridFromLines("X\nM\nA\n"), 0, 0, 1, 0, Xmas, 0) == Completed(0)
  {
    var s := "X\nM\nA";
    SampleRows();
    GridFromLinesTrailingLineFeed(s);
    FromStrJoin(["X", "M", "A"]);
    assert s + "\n" == "X\nM\nA\n";
    SearchDownRows();
  }

  /** The three rows of the example and their text. */
  lemma {:induction false} SampleRows()
    ensures Text.Join(["X", "M", "A"], '\n') == "X\nM\nA"
    ensures '\r' !in "X\nM\nA"
    ensures Rectangular(Grid(["X", "M", "A"]))
  {
    var rows := ["X", "M", "A"];
    assert rows[1..] == ["M", "A"] && rows[1..][1..] == ["A"];
  }

  lemma {:induction false} SearchDownRows()
    ensures CountForAsWritten(Grid(["X", "M", "A"]), 0, 0, 1, 0, Xmas, 0) == Completed(0)
  {
    var g := Grid(["X", "M", "A"]);
    assert CountForAsWritten(g, 2, 0, 1, 0, Xmas, 2) == Completed(0);
    assert CountForAsWritten(g, 1, 0, 1, 0, Xmas, 1) == Completed(0);
  }
}
