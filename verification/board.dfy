/**
 * The fixed playing field: a 30 x 20 grid of integer cells, the four
 * directions a snake can face, the two player slots, and the list of free
 * cells from which food is drawn (main.py:51-52, 70, 98, 137-148).
 */
module Board {
  import opened Wrappers
  import Seqs

  const Width: int := 30
  const Height: int := 20
  const CellCount: int := Width * Height

  /** A cell may lie off the grid: a snake's head can move onto the wall. */
  datatype Cell = Cell(x: int, y: int)

  datatype Dir = Up | Down | Left | Right

  predicate InGrid(c: Cell) {
    0 <= c.x < Width && 0 <= c.y < Height
  }

  /** The `opposites` table. */
  function Opposite(d: Dir): Dir {
    match d
    case Up => Down
    case Down => Up
    case Left => Right
    case Right => Left
  }

  /** The `moves` table: y grows downwards. */
  function Step(c: Cell, d: Dir): Cell {
    match d
    case Up => Cell(c.x, c.y - 1)
    case Down => Cell(c.x, c.y + 1)
    case Left => Cell(c.x - 1, c.y)
    case Right => Cell(c.x + 1, c.y)
  }

  lemma OppositeIsInvolution(d: Dir)
    ensures Opposite(d) != d
    ensures Opposite(Opposite(d)) == d
    ensures Step(Step(Cell(0, 0), d), Opposite(d)) == Cell(0, 0)
  {
  }

  /** Stepping from one cell in two different directions reaches two different cells. */
  lemma StepInjective(c: Cell, d: Dir, e: Dir)
    ensures Step(c, d) == Step(c, e) <==> d == e
  {
  }

  /** The wire names of the directions. */
  function DirName(d: Dir): string {
    match d
    case Up => "up"
    case Down => "down"
    case Left => "left"
    case Right => "right"
  }

  /** Accepts exactly the four names that `handle_message` lets through (main.py:292). */
  function ParseDir(s: string): (r: Option<Dir>)
    ensures r.Some? ==> DirName(r.value) == s
  {
    if s == "up" then Some(Up)
    else if s == "down" then Some(Down)
    else if s == "left" then Some(Left)
    else if s == "right" then Some(Right)
    else None
  }

  lemma ParseDirName(d: Dir)
    ensures ParseDir(DirName(d)) == Some(d)
  {
  }

  /** A player slot: the key of a snake, a connection, a name and a win counter. */
  type Slot = i: int | i == 1 || i == 2 witness 1

  /** The opponent's slot. */
  function Other(s: Slot): (t: Slot)
    ensures t != s
  {
    3 - s
  }

  /** One value per slot, standing in for the source's `{1: .., 2: ..}` dictionaries. */
  datatype Pair<T> = Pair(one: T, two: T) {

    function Get(s: Slot): T {
      if s == 1 then one else two
    }

    function Set(s: Slot, v: T): (p: Pair<T>)
      ensures p.Get(s) == v
      ensures forall t: Slot :: t != s ==> p.Get(t) == Get(t)
    {
      if s == 1 then Pair(v, two) else Pair(one, v)
    }
  }

  /** Any set of slots with two members holds both of them. */
  lemma SlotSetSize(s: set<Slot>)
    ensures |s| <= 2
    ensures |s| >= 2 <==> s == {1, 2}
  {
    assert s <= {1, 2};
    if s == {1, 2} {
    } else if 1 in s {
      assert s == {1};
    } else if 2 in s {
      assert s == {2};
    } else {
      assert s == {};
    }
  }

  /** The cells visited by a body, as a set. */
  function Cells(body: seq<Cell>): (r: set<Cell>)
    ensures forall c :: c in r <==> c in body
    ensures |r| <= |body|
  {
    if |body| == 0 then {}
    else
      assert body == [body[0]] + body[1..];
      {body[0]} + Cells(body[1..])
  }

  /** The cell at row-major position `i` of the Python comprehension `for x ... for y ...`. */
  function CellAt(i: int): (c: Cell)
    requires 0 <= i < CellCount
    ensures InGrid(c) && c.x * Height + c.y == i
  {
    Cell(i / Height, i % Height)
  }

  lemma CellAtIndex(c: Cell)
    requires InGrid(c)
    ensures 0 <= c.x * Height + c.y < CellCount
    ensures CellAt(c.x * Height + c.y) == c
  {
    var i := c.x * Height + c.y;
    assert i / Height == c.x;
  }

  /** All cells in the order of the Python comprehension `for x in ... for y in ...`. */
  function AllCells(): (r: seq<Cell>)
    ensures |r| == CellCount
    ensures forall i :: 0 <= i < CellCount ==> r[i] == CellAt(i)
  {
    seq(CellCount, i requires 0 <= i < CellCount => CellAt(i))
  }

  lemma AllCellsMembers(c: Cell)
    ensures c in AllCells() <==> InGrid(c)
  {
    if InGrid(c) {
      CellAtIndex(c);
      assert AllCells()[c.x * Height + c.y] == c;
    }
  }

  /** The `available` list of `spawn_food`: every in-grid cell not occupied, in row-major order. */
  function FreeCells(occupied: set<Cell>): (r: seq<Cell>)
    ensures forall c :: c in r <==> InGrid(c) && c !in occupied
  {
    forall c ensures c in AllCells() <==> InGrid(c) {
      AllCellsMembers(c);
    }
    Seqs.Without(AllCells(), occupied)
  }

  /** The first `n` cells in row-major order. */
  function GridPrefix(n: int): set<Cell>
    requires 0 <= n <= CellCount
  {
    set i | 0 <= i < n :: CellAt(i)
  }

  lemma {:induction false} GridPrefixSize(n: int)
    requires 0 <= n <= CellCount
    ensures |GridPrefix(n)| == n
  {
    if n > 0 {
      GridPrefixSize(n - 1);
      assert GridPrefix(n) == GridPrefix(n - 1) + {CellAt(n - 1)};
      assert forall j :: 0 <= j < n - 1 ==> CellAt(j) != CellAt(n - 1);
      assert CellAt(n - 1) !in GridPrefix(n - 1);
    }
  }

  /** While fewer than 600 cells are occupied, `spawn_food` has somewhere to put the food. */
  lemma FreeCellExists(occupied: set<Cell>)
    requires |occupied| < CellCount
    ensures |FreeCells(occupied)| > 0
  {
    if |FreeCells(occupied)| == 0 {
      forall c | c in GridPrefix(CellCount)
        ensures c in occupied
      {
        assert c !in FreeCells(occupied);
      }
      GridPrefixSize(CellCount);
      SubsetSize(GridPrefix(CellCount), occupied);
      assert false;
    }
  }

  lemma SubsetSize<T>(a: set<T>, b: set<T>)
    requires a <= b
    ensures |a| <= |b|
  {
    assert b == a + (b - a);
  }
}
