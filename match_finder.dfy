/**
 * The match finder of eldergame.py (`find_valid_swap` and its inner `is_match`).
 * A board is a grid of tile values; a swap exchanges a cell with its right or
 * lower neighbour on a throwaway copy of the board, and it is valid when the copy
 * holds three equal values in a row or in a column anywhere, not only next to the
 * swapped cells. The finder scans cells in row-major order, trying the right swap
 * before the down swap, and returns the first valid one.
 */
module MatchFinder {
  import opened Wrappers

  type Board<T> = seq<seq<T>>

  /** `(r1, c1, r2, c2)` as `find_valid_swap` returns it. */
  datatype Move = Move(r1: int, c1: int, r2: int, c2: int)

  datatype Dir = Right | Down

  /** `len(board[0]) if rows > 0 else 0`. */
  function Cols<T>(g: Board<T>): nat {
    if |g| > 0 then |g[0]| else 0
  }

  /** Every row as long as the first. */
  predicate IsGrid<T>(g: Board<T>) {
    forall i :: 0 <= i < |g| ==> |g[i]| == Cols(g)
  }

  /** The swap of cell `(r, c)` with its neighbour in direction `d` stays on the board. */
  predicate Candidate<T>(g: Board<T>, r: int, c: int, d: Dir) {
    && 0 <= r < |g| && 0 <= c < Cols(g)
    && (d == Right ==> c + 1 < Cols(g))
    && (d == Down ==> r + 1 < |g|)
  }

  function MoveOf(r: int, c: int, d: Dir): Move {
    if d == Right then Move(r, c, r, c + 1) else Move(r, c, r + 1, c)
  }

  function DirOf(m: Move): Dir {
    if m.r2 == m.r1 then Right else Down
  }

  /** A copy of the board with the two cells exchanged. */
  function Swapped<T>(g: Board<T>, r: int, c: int, d: Dir): (bd: Board<T>)
    requires IsGrid(g) && Candidate(g, r, c, d)
    ensures IsGrid(bd) && |bd| == |g| && Cols(bd) == Cols(g)
  {
    if d == Right then g[r := g[r][c := g[r][c + 1]][c + 1 := g[r][c]]]
    else g[r := g[r][c := g[r + 1][c]]][r + 1 := g[r + 1][c := g[r][c]]]
  }

  /** Three equal cells from `(r, c)` rightwards. */
  predicate HRun<T(==)>(bd: Board<T>, r: int, c: int)
    requires IsGrid(bd) && 0 <= r < |bd| && 0 <= c && c + 2 < Cols(bd)
  {
    bd[r][c] == bd[r][c + 1] && bd[r][c + 1] == bd[r][c + 2]
  }

  /** Three equal cells from `(r, c)` downwards. */
  predicate VRun<T(==)>(bd: Board<T>, r: int, c: int)
    requires IsGrid(bd) && 0 <= r && r + 2 < |bd| && 0 <= c < Cols(bd)
  {
    bd[r][c] == bd[r + 1][c] && bd[r + 1][c] == bd[r + 2][c]
  }

  /** What `is_match` decides: a run of three anywhere on the board. */
  predicate HasRun<T(==)>(bd: Board<T>)
    requires IsGrid(bd)
  {
    || (exists r, c | 0 <= r < |bd| && 0 <= c < Cols(bd) - 2 :: HRun(bd, r, c))
    || (exists r, c | 0 <= r < |bd| - 2 && 0 <= c < Cols(bd) :: VRun(bd, r, c))
  }

  /** The swap produces a run somewhere on the swapped copy. */
  predicate Makes<T(==)>(g: Board<T>, r: int, c: int, d: Dir)
    requires IsGrid(g) && Candidate(g, r, c, d)
  {
    HasRun(Swapped(g, r, c, d))
  }

  /** Scan order: row-major over cells, right before down at each cell. */
  predicate Before(r': int, c': int, d': Dir, r: int, c: int, d: Dir) {
    r' < r || (r' == r && c' < c) || (r' == r && c' == c && d' == Right && d == Down)
  }

  ghost predicate NoSwap<T>(g: Board<T>)
    requires IsGrid(g)
  {
    forall r, c, d :: Candidate(g, r, c, d) ==> !Makes(g, r, c, d)
  }

  /** `m` is a valid swap and no valid swap comes before it in scan order. */
  ghost predicate IsFirstSwap<T>(g: Board<T>, m: Move)
    requires IsGrid(g)
  {
    var d := DirOf(m);
    && m == MoveOf(m.r1, m.c1, d)
    && Candidate(g, m.r1, m.c1, d)
    && Makes(g, m.r1, m.c1, d)
    && forall r, c, d' :: Candidate(g, r, c, d') && Before(r, c, d', m.r1, m.c1, d) ==> !Makes(g, r, c, d')
  }

  /** Both cells on the board, the second the right or the lower neighbour of the first. */
  predicate AdjacentInBounds<T>(g: Board<T>, m: Move) {
    && 0 <= m.r1 < |g| && 0 <= m.c1 < Cols(g)
    && 0 <= m.r2 < |g| && 0 <= m.c2 < Cols(g)
    && ((m.r2 == m.r1 && m.c2 == m.c1 + 1) || (m.r2 == m.r1 + 1 && m.c2 == m.c1))
  }

  lemma FirstSwapIsAdjacent<T>(g: Board<T>, m: Move)
    requires IsGrid(g) && IsFirstSwap(g, m)
    ensures AdjacentInBounds(g, m)
  {
  }

  /** The values held by a 2-D array, row by row. */
  function Contents<T>(a: array2<T>): (s: Board<T>)
    reads a
    ensures |s| == a.Length0 && IsGrid(s) && (|s| > 0 ==> Cols(s) == a.Length1)
    ensures forall i, j :: 0 <= i < a.Length0 && 0 <= j < a.Length1 ==> s[i][j] == a[i, j]
  {
    seq(a.Length0, i requires 0 <= i < a.Length0 reads a =>
      seq(a.Length1, j requires 0 <= j < a.Length1 reads a => a[i, j]))
  }

  /** `[row[:] for row in board]`: a fresh array holding the board. */
  method CopyBoard<T>(g: Board<T>) returns (a: array2<T>)
    requires IsGrid(g)
    ensures fresh(a) && Contents(a) == g
  {
    a := new T[|g|, Cols(g)]((i, j) requires 0 <= i < |g| && 0 <= j < Cols(g) => g[i][j]);
    assert forall i | 0 <= i < |g| :: Contents(a)[i] == g[i];
  }

  /** `is_match`: horizontal runs first, then vertical, stopping at the first found. */
  method IsMatch<T(==)>(bd: array2<T>) returns (found: bool)
    ensures found == HasRun(Contents(bd))
  {
    ghost var s := Contents(bd);
    var rows: int, cols: int := bd.Length0, bd.Length1;
    assert rows > 0 ==> Cols(s) == cols;
    var r := 0;
    while r < rows
      invariant 0 <= r <= rows
      invariant forall r', c' :: 0 <= r' < r && 0 <= c' < cols - 2 ==> !HRun(s, r', c')
    {
      var c := 0;
      while c < cols - 2
        invariant 0 <= c <= if cols >= 2 then cols - 2 else 0
        invariant forall r', c' :: 0 <= r' < r && 0 <= c' < cols - 2 ==> !HRun(s, r', c')
        invariant forall c' :: 0 <= c' < c ==> !HRun(s, r, c')
      {
        if bd[r, c] == bd[r, c + 1] && bd[r, c + 1] == bd[r, c + 2] {
          assert HRun(s, r, c);
          return true;
        }
        c := c + 1;
      }
      r := r + 1;
    }
    r := 0;
    while r < rows - 2
      invariant 0 <= r <= if rows >= 2 then rows - 2 else 0
      invariant forall r', c' :: 0 <= r' < r && 0 <= c' < cols ==> !VRun(s, r', c')
    {
      var c := 0;
      while c < cols
        invariant 0 <= c <= cols
        invariant forall r', c' :: 0 <= r' < r && 0 <= c' < cols ==> !VRun(s, r', c')
        invariant forall c' :: 0 <= c' < c ==> !VRun(s, r, c')
      {
        if bd[r, c] == bd[r + 1, c] && bd[r + 1, c] == bd[r + 2, c] {
          assert VRun(s, r, c);
          return true;
        }
        c := c + 1;
      }
      r := r + 1;
    }
    return false;
  }

  /** One candidate of `find_valid_swap`: copy the board, exchange the two cells
      on the copy, and ask `is_match` about the copy. */
  method TrySwap<T(==)>(g: Board<T>, r: int, c: int, d: Dir) returns (matched: bool)
    requires IsGrid(g) && Candidate(g, r, c, d)
    ensures matched == Makes(g, r, c, d)
  {
    var bd := CopyBoard(g);
    if d == Right {
      bd[r, c], bd[r, c + 1] := bd[r, c + 1], bd[r, c];
    } else {
      bd[r, c], bd[r + 1, c] := bd[r + 1, c], bd[r, c];
    }
    SwappedContents(g, bd, r, c, d);
    matched := IsMatch(bd);
  }

  /** `find_valid_swap`: the first valid swap in scan order, or `None` exactly when
      there is none (in particular on an empty board or one whose first row is empty).
      Each candidate is tried on a fresh copy, so the board itself is never changed. */
  method FindSwap<T(==)>(g: Board<T>) returns (res: Option<Move>)
    requires IsGrid(g)
    ensures res.None? <==> NoSwap(g)
    ensures res.Some? ==> IsFirstSwap(g, res.value) && AdjacentInBounds(g, res.value)
  {
    var rows := |g|;
    var cols := if rows > 0 then |g[0]| else 0;
    var r := 0;
    while r < rows
      invariant 0 <= r <= rows
      invariant forall r', c', d' :: Candidate(g, r', c', d') && r' < r ==> !Makes(g, r', c', d')
    {
      var c := 0;
      while c < cols
        invariant 0 <= c <= cols
        invariant forall r', c', d' :: Candidate(g, r', c', d') && (r' < r || (r' == r && c' < c)) ==> !Makes(g, r', c', d')
      {
        if c + 1 < cols {
          var matched := TrySwap(g, r, c, Right);
          if matched {
            assert Candidate(g, r, c, Right) && Makes(g, r, c, Right);
            return Some(Move(r, c, r, c + 1));
          }
        }
        if r + 1 < rows {
          var matched := TrySwap(g, r, c, Down);
          if matched {
            assert Candidate(g, r, c, Down) && Makes(g, r, c, Down);
            return Some(Move(r, c, r + 1, c));
          }
        }
        c := c + 1;
      }
      r := r + 1;
    }
    return None;
  }

  /** An array that holds the board with the two cells exchanged holds `Swapped`. */
  lemma SwappedContents<T>(g: Board<T>, a: array2<T>, r: int, c: int, d: Dir)
    requires IsGrid(g) && Candidate(g, r, c, d)
    requires a.Length0 == |g| && a.Length1 == Cols(g)
    requires forall i, j :: 0 <= i < |g| && 0 <= j < Cols(g) ==> a[i, j] == Swapped(g, r, c, d)[i][j]
    ensures Contents(a) == Swapped(g, r, c, d)
  {
    var s, t := Contents(a), Swapped(g, r, c, d);
    assert forall i | 0 <= i < |g| :: s[i] == t[i];
  }

  // ---- a functional reference scan, for specifications that cannot call a method ----

  function FirstFrom<T(==)>(g: Board<T>, r: nat, c: nat): Option<Move>
    requires IsGrid(g)
    decreases |g| - r, Cols(g) - c
  {
    if r >= |g| then None
    else if c >= Cols(g) then FirstFrom(g, r + 1, 0)
    else if Candidate(g, r, c, Right) && Makes(g, r, c, Right) then Some(MoveOf(r, c, Right))
    else if Candidate(g, r, c, Down) && Makes(g, r, c, Down) then Some(MoveOf(r, c, Down))
    else FirstFrom(g, r, c + 1)
  }

  function FirstSwap<T(==)>(g: Board<T>): Option<Move>
    requires IsGrid(g)
  {
    FirstFrom(g, 0, 0)
  }

  predicate AtOrAfter(r': int, c': int, r: int, c: int) {
    r' > r || (r' == r && c' >= c)
  }

  lemma {:induction false} FirstFromNone<T>(g: Board<T>, r: nat, c: nat)
    requires IsGrid(g) && FirstFrom(g, r, c).None?
    ensures forall r', c', d' :: Candidate(g, r', c', d') && AtOrAfter(r', c', r, c) ==> !Makes(g, r', c', d')
    decreases |g| - r, Cols(g) - c
  {
    if r >= |g| {
    } else if c >= Cols(g) {
      FirstFromNone(g, r + 1, 0);
    } else {
      FirstFromNone(g, r, c + 1);
    }
  }

  /** The scan's answer, as a move found at or after `(r, c)` with no valid swap between. */
  ghost predicate FirstAfter<T>(g: Board<T>, r: nat, c: nat, m: Move)
    requires IsGrid(g)
  {
    var d := DirOf(m);
    && m == MoveOf(m.r1, m.c1, d) && AtOrAfter(m.r1, m.c1, r, c)
    && Candidate(g, m.r1, m.c1, d) && Makes(g, m.r1, m.c1, d)
    && forall r', c', d' :: Candidate(g, r', c', d') && AtOrAfter(r', c', r, c) && Before(r', c', d', m.r1, m.c1, d)
         ==> !Makes(g, r', c', d')
  }

  lemma {:induction false} FirstFromSome<T>(g: Board<T>, r: nat, c: nat)
    requires IsGrid(g) && FirstFrom(g, r, c).Some?
    ensures FirstAfter(g, r, c, FirstFrom(g, r, c).value)
    decreases |g| - r, Cols(g) - c
  {
    if c >= Cols(g) {
      FirstFromSome(g, r + 1, 0);
    } else if Candidate(g, r, c, Right) && Makes(g, r, c, Right) {
    } else if Candidate(g, r, c, Down) && Makes(g, r, c, Down) {
    } else {
      FirstFromSome(g, r, c + 1);
    }
  }

  /** The reference scan finds the first valid swap, and `None` exactly when there is none. */
  lemma FirstSwapSpec<T>(g: Board<T>)
    requires IsGrid(g)
    ensures FirstSwap(g).None? <==> NoSwap(g)
    ensures FirstSwap(g).Some? ==> IsFirstSwap(g, FirstSwap(g).value)
  {
    if FirstSwap(g).None? {
      FirstFromNone(g, 0, 0);
    } else {
      FirstFromSome(g, 0, 0);
    }
  }

  /** At most one swap is the first: the scan order is total, so the finder is deterministic. */
  lemma FirstSwapUnique<T>(g: Board<T>, m1: Move, m2: Move)
    requires IsGrid(g) && IsFirstSwap(g, m1) && IsFirstSwap(g, m2)
    ensures m1 == m2
  {
  }

  /** What the method returns is what the reference scan returns. */
  lemma FindSwapIsFirstSwap<T>(g: Board<T>, res: Option<Move>)
    requires IsGrid(g)
    requires res.None? <==> NoSwap(g)
    requires res.Some? ==> IsFirstSwap(g, res.value)
    ensures res == FirstSwap(g)
  {
    FirstSwapSpec(g);
    if res.Some? {
      FirstSwapUnique(g, res.value, FirstSwap(g).value);
    }
  }

  /** On a board of one repeated value with at least three columns a run already exists,
      so the very first candidate, the right swap at (0, 0), is returned. */
  lemma UniformBoardFirstSwap<T>(g: Board<T>, v: T)
    requires IsGrid(g) && |g| >= 1 && Cols(g) >= 3
    requires forall i, j :: 0 <= i < |g| && 0 <= j < Cols(g) ==> g[i][j] == v
    ensures IsFirstSwap(g, Move(0, 0, 0, 1))
    ensures FirstSwap(g) == Some(Move(0, 0, 0, 1))
  {
    var bd := Swapped(g, 0, 0, Right);
    assert bd[0][0] == v && bd[0][1] == v && bd[0][2] == v;
    assert HRun(bd, 0, 0);
    assert Makes(g, 0, 0, Right);
    FindSwapIsFirstSwap(g, Some(Move(0, 0, 0, 1)));
  }
}
