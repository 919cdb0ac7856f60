/** Grid geometry of the rope simulation: an immutable integer point, its
    unit moves, its orthogonal and diagonal neighbourhoods, and the two
    adjacency tests the tail rule is built from. */
module Points {

  function Abs(n: int): nat {
    if n < 0 then -n else n
  }

  /** Number of king moves between two cells. */
  function Chebyshev(p: Point, q: Point): nat {
    var dx := Abs(p.x - q.x);
    var dy := Abs(p.y - q.y);
    if dx < dy then dy else dx
  }

  /** Number of rook unit moves between two cells. */
  function Manhattan(p: Point, q: Point): nat {
    Abs(p.x - q.x) + Abs(p.y - q.y)
  }

  /** Squared Euclidean distance. It orders candidates exactly as the
      Euclidean distance does, since the square root is strictly monotone
      on non-negative numbers. */
  function SqDistance(p: Point, q: Point): nat {
    (p.x - q.x) * (p.x - q.x) + (p.y - q.y) * (p.y - q.y)
  }

  /** All elements of a sequence are pairwise different, as in a set. */
  predicate Distinct(s: seq<Point>) {
    forall i, j :: 0 <= i < j < |s| ==> s[i] != s[j]
  }

  datatype Point = Point(x: int, y: int) {

    function Left(): Point { Point(x - 1, y) }

    function Right(): Point { Point(x + 1, y) }

    function Up(): Point { Point(x, y + 1) }

    function Down(): Point { Point(x, y - 1) }

    function UpRight(): Point { Right().Up() }

    function UpLeft(): Point { Left().Up() }

    function DownRight(): Point { Right().Down() }

    function DownLeft(): Point { Left().Down() }

    /** The four orthogonal neighbours, in the order the source's set
        literal lists (and so iterates) them. */
    function Crosswalk(): (r: seq<Point>)
      ensures |r| == 4 && Distinct(r)
      ensures forall q {:trigger q in r} :: q in r <==> Manhattan(this, q) == 1
    {
      [Left(), Right(), Down(), Up()]
    }

    /** The four diagonal neighbours, in the order the source's set
        literal lists (and so iterates) them. */
    function Diagonals(): (r: seq<Point>)
      ensures |r| == 4 && Distinct(r)
      ensures forall q {:trigger q in r} :: q in r <==> Abs(x - q.x) == 1 && Abs(y - q.y) == 1
    {
      [UpRight(), UpLeft(), DownRight(), DownLeft()]
    }

    /** The other point is aligned with this one on a single axis, either
        adjacent or with exactly one empty cell in between. */
    predicate OnSameVerticalOrHorizontal(other: Point)
      ensures OnSameVerticalOrHorizontal(other) <==>
                || (x == other.x && 1 <= Abs(y - other.y) <= 2)
                || (y == other.y && 1 <= Abs(x - other.x) <= 2)
    {
      other in Crosswalk()
      || other in [Right().Right(), Left().Left(), Up().Up(), Down().Down()]
    }

    /** The same cell or one of its eight surrounding cells. */
    predicate IsTouching(other: Point)
      ensures IsTouching(other) <==> Chebyshev(this, other) <= 1
    {
      this == other || other in Crosswalk() || other in Diagonals()
    }
  }

  /** Each unit move goes one cell along one axis, and opposite moves
      undo each other. */
  lemma UnitMoves(p: Point)
    ensures Manhattan(p, p.Left()) == 1 && p.Left().y == p.y && p.Left().x < p.x
    ensures Manhattan(p, p.Right()) == 1 && p.Right().y == p.y && p.Right().x > p.x
    ensures Manhattan(p, p.Up()) == 1 && p.Up().x == p.x && p.Up().y > p.y
    ensures Manhattan(p, p.Down()) == 1 && p.Down().x == p.x && p.Down().y < p.y
    ensures p.Left().Right() == p && p.Right().Left() == p
    ensures p.Up().Down() == p && p.Down().Up() == p
  {
  }

  /** Touching is reflexive and symmetric. */
  lemma TouchingReflexiveSymmetric(p: Point, q: Point)
    ensures p.IsTouching(p)
    ensures p.IsTouching(q) <==> q.IsTouching(p)
  {
  }

  /** A cell's touching neighbourhood splits into the cell itself, its
      crosswalk and its diagonals, with no overlap. */
  lemma NeighbourhoodPartition(p: Point, q: Point)
    ensures !(q in p.Crosswalk() && q in p.Diagonals())
    ensures p !in p.Crosswalk() && p !in p.Diagonals()
    ensures p.IsTouching(q) <==> (q == p || q in p.Crosswalk() || q in p.Diagonals())
  {
  }
}
