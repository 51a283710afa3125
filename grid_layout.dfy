/** The order in which new video tiles are placed on the grid.

    The window keeps one current cell (x, y), starting at (0, 0). A new tile
    goes to the current cell, and then the cell advances by `Next`. Cells are
    handed out ring by ring: ring m is the set of cells whose larger
    coordinate is m, visited as (0,m), (1,m), ..., (m-1,m), (m,0), (m,1),
    ..., (m,m). So after k*k tiles the occupied cells form the k-by-k
    square exactly. */
module GridLayout {

  /** A cell of the video grid: the two coordinates handed to the layout. */
  datatype Pos = Pos(x: nat, y: nat)

  function Max(a: nat, b: nat): nat {
    if a < b then b else a
  }

  /** The ring a cell lies on: its larger coordinate. */
  function Shell(p: Pos): nat {
    Max(p.x, p.y)
  }

  /** The step rule of the coordinate update, applied to the current cell.
      The ring never shrinks and grows by at most one per step. */
  function Next(p: Pos): (q: Pos)
    ensures Shell(p) <= Shell(q) <= Shell(p) + 1
    ensures Shell(q) == Shell(p) + 1 <==> p.x == p.y
  {
    if p.y == p.x then Pos(0, p.y + 1)
    else if p.y == p.x + 1 then Pos(p.y, 0)
    else if p.x < p.y then Pos(p.x + 1, p.y)
    else Pos(p.x, p.y + 1)
  }

  /** The cell held after n steps from (0, 0). */
  function Position(n: nat): Pos {
    if n == 0 then Pos(0, 0) else Next(Position(n - 1))
  }

  /** The place of a cell in the allocation order: the m*m cells of the
      smaller rings come first, then the cells of ring m in the order
      (0,m), ..., (m-1,m), (m,0), ..., (m,m). */
  function Rank(p: Pos): nat {
    var m := Shell(p);
    m * m + (if p.x < m then p.x else m + p.y)
  }

  /** The k-by-k square of cells with both coordinates below k. */
  function Square(k: nat): set<Pos> {
    set x: nat, y: nat | x < k && y < k :: Pos(x, y)
  }

  lemma SquareMono(a: nat, b: nat)
    ensures a <= b ==> a * a <= b * b
  {
    if a <= b {
      assert a * a <= a * b;
      assert a * b <= b * b;
    }
  }

  /** The ranks of ring m fill [m*m, (m+1)*(m+1)). */
  lemma RankInShell(p: Pos)
    ensures Shell(p) * Shell(p) <= Rank(p) < (Shell(p) + 1) * (Shell(p) + 1)
  {
    var m := Shell(p);
    assert (m + 1) * (m + 1) == m * m + 2 * m + 1;
  }

  /** A rank lies in exactly one ring. */
  lemma ShellUnique(a: nat, b: nat, r: nat)
    requires a * a <= r < (a + 1) * (a + 1)
    requires b * b <= r < (b + 1) * (b + 1)
    ensures a == b
  {
    SquareMono(a + 1, b);
    SquareMono(b + 1, a);
  }

  /** Each step moves exactly one place forward in the allocation order. */
  lemma NextRank(p: Pos)
    ensures Rank(Next(p)) == Rank(p) + 1
  {
    var m := Shell(p);
    if p.y == p.x {
      assert Next(p) == Pos(0, m + 1);
      assert (m + 1) * (m + 1) == m * m + 2 * m + 1;
    }
  }

  /** Two cells with the same rank are the same cell. */
  lemma RankInjective(p: Pos, q: Pos)
    requires Rank(p) == Rank(q)
    ensures p == q
  {
    RankInShell(p);
    RankInShell(q);
    ShellUnique(Shell(p), Shell(q), Rank(p));
  }

  /** The cell held after n steps has rank n. */
  lemma {:induction false} RankOfPosition(n: nat)
    ensures Rank(Position(n)) == n
  {
    if n > 0 {
      RankOfPosition(n - 1);
      NextRank(Position(n - 1));
    }
  }

  /** Every cell is reached, after exactly Rank(p) steps. */
  lemma PositionOfRank(p: Pos)
    ensures Position(Rank(p)) == p
  {
    RankOfPosition(Rank(p));
    RankInjective(Position(Rank(p)), p);
  }

  /** No cell is handed out twice. */
  lemma PositionsDistinct(i: nat, j: nat)
    requires i != j
    ensures Position(i) != Position(j)
  {
    RankOfPosition(i);
    RankOfPosition(j);
  }

  /** A cell lies in the k-by-k square exactly when its rank is below k*k. */
  lemma InSquare(p: Pos, k: nat)
    ensures p in Square(k) <==> Rank(p) < k * k
  {
    var m := Shell(p);
    RankInShell(p);
    SquareMono(m + 1, k);
    SquareMono(k, m);
    assert p.x < k && p.y < k ==> Pos(p.x, p.y) in Square(k);
  }

  /** The first ten cells, as the step rule produces them from (0, 0). */
  lemma FirstPositions()
    ensures Position(0) == Pos(0, 0) && Position(1) == Pos(0, 1)
    ensures Position(2) == Pos(1, 0) && Position(3) == Pos(1, 1)
    ensures Position(4) == Pos(0, 2) && Position(5) == Pos(1, 2)
    ensures Position(6) == Pos(2, 0) && Position(7) == Pos(2, 1)
    ensures Position(8) == Pos(2, 2) && Position(9) == Pos(0, 3)
  {
  }

  /** Cells handed out in allocation order, from (0, 0), are pairwise
      distinct, and once there are k*k of them they are exactly the
      k-by-k square. */
  lemma FillsSquare(cells: seq<Pos>, k: nat)
    requires |cells| == k * k
    requires forall i :: 0 <= i < |cells| ==> cells[i] == Position(i)
    ensures forall i, j :: 0 <= i < j < |cells| ==> cells[i] != cells[j]
    ensures (set p | p in cells) == Square(k)
  {
    forall i, j | 0 <= i < j < |cells|
      ensures cells[i] != cells[j]
    {
      PositionsDistinct(i, j);
    }
    forall p | p in Square(k)
      ensures p in cells
    {
      InSquare(p, k);
      PositionOfRank(p);
      assert cells[Rank(p)] == p;
    }
    forall p | p in cells
      ensures p in Square(k)
    {
      var i :| 0 <= i < |cells| && cells[i] == p;
      RankOfPosition(i);
      InSquare(p, k);
    }
  }
}
