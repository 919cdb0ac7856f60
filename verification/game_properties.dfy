/** Properties of the two-knot rope: within two cells of the head, which
    covers every state a run reaches, the tail rule agrees with the
    textbook rule; the knots keep touching, and the visited set only grows. */
module GameProperties {
  import opened Points
  import opened Nearest
  import opened Game

  /** A head two cells away on one axis: the crosswalk cell towards it is
      strictly nearer than the other three. */
  lemma AlignedNearest(t: Point, h: Point)
    requires (t.x == h.x && Abs(t.y - h.y) == 2) || (t.y == h.y && Abs(t.x - h.x) == 2)
    ensures Follow(h, t) in t.Crosswalk()
    ensures forall c | c in t.Crosswalk() && c != Follow(h, t) ::
              SqDistance(Follow(h, t), h) < SqDistance(c, h)
  {
  }

  /** A head off both axes and two cells away: the reference rule steps to
      the diagonal cell on the head's side. */
  lemma FollowIsDiagonal(t: Point, h: Point)
    requires t.x != h.x && t.y != h.y && 2 == Chebyshev(t, h)
    ensures Follow(h, t) in t.Diagonals()
  {
    if h.x > t.x {
      if h.y > t.y {
        assert Follow(h, t) == t.UpRight();
      } else {
        assert Follow(h, t) == t.DownRight();
      }
    } else if h.y > t.y {
      assert Follow(h, t) == t.UpLeft();
    } else {
      assert Follow(h, t) == t.DownLeft();
    }
  }

  /** A head off both axes and exactly two cells away: the diagonal cell
      towards it is strictly nearer than the other three. */
  lemma DiagonalNearest(t: Point, h: Point)
    requires t.x != h.x && t.y != h.y && 2 == Chebyshev(t, h)
    ensures Follow(h, t) in t.Diagonals()
    ensures forall c | c in t.Diagonals() && c != Follow(h, t) ::
              SqDistance(Follow(h, t), h) < SqDistance(c, h)
  {
    FollowIsDiagonal(t, h);
  }

  /** A moving tail goes one orthogonal cell when aligned with the head
      with at most one cell between them, and one diagonal cell otherwise; either way a single king move. */
  lemma TailStepMovesOneCell(g: State)
    ensures !g.tail.IsTouching(g.head) && g.tail.OnSameVerticalOrHorizontal(g.head) ==>
              Manhattan(g.tail, TailStep(g).tail) == 1
    ensures !g.tail.IsTouching(g.head) && !g.tail.OnSameVerticalOrHorizontal(g.head) ==>
              Abs(g.tail.x - TailStep(g).tail.x) == 1 && Abs(g.tail.y - TailStep(g).tail.y) == 1
    ensures Chebyshev(g.tail, TailStep(g).tail) <= 1
  {
  }

  /** The reference rule brings a tail within two cells back next to the
      head. */
  lemma FollowTouches(h: Point, t: Point)
    requires Chebyshev(t, h) <= 2
    ensures Follow(h, t).IsTouching(h)
  {
  }

  /** Within two cells of the head, the tail rule picks exactly the cell the
      reference rule steps to, and that cell touches the head again. */
  lemma TailStepFollowsReference(g: State)
    requires Chebyshev(g.tail, g.head) <= 2
    ensures TailStep(g).tail == Follow(g.head, g.tail)
    ensures TailStep(g).tail.IsTouching(g.head)
  {
    var t, h := g.tail, g.head;
    FollowTouches(h, t);
    if !t.IsTouching(h) {
      if t.OnSameVerticalOrHorizontal(h) {
        AlignedNearest(t, h);
        NearestIsStrictMinimum(t.Crosswalk(), h, Follow(h, t));
      } else {
        DiagonalNearest(t, h);
        NearestIsStrictMinimum(t.Diagonals(), h, Follow(h, t));
      }
    }
  }

  /** Moving one cell towards a coordinate (or off it, when already on it)
      changes the square of the gap by one minus twice its size. */
  lemma SquareAfterUnitMove(a: int, s: int)
    requires s == if a > 0 then -1 else 1
    ensures (a + s) * (a + s) == a * a - 2 * Abs(a) + 1
  {
  }

  /** A diagonal neighbour of the tail, found by stepping towards the head
      on both axes, is strictly nearer the head than the tail itself. */
  lemma DiagonalApproaches(t: Point, h: Point) returns (w: Point)
    requires !t.IsTouching(h)
    ensures w in t.Diagonals()
    ensures SqDistance(w, h) < SqDistance(t, h)
  {
    var a, b := t.x - h.x, t.y - h.y;
    var sa, sb := if a > 0 then -1 else 1, if b > 0 then -1 else 1;
    w := Point(t.x + sa, t.y + sb);
    SquareAfterUnitMove(a, sa);
    SquareAfterUnitMove(b, sb);
    assert SqDistance(w, h) == (a + sa) * (a + sa) + (b + sb) * (b + sb);
  }

  /** A crosswalk neighbour of the tail, found by stepping towards an
      aligned head, is strictly nearer the head than the tail itself. */
  lemma AlignedApproaches(t: Point, h: Point) returns (f: Point)
    requires !t.IsTouching(h) && t.OnSameVerticalOrHorizontal(h)
    ensures f in t.Crosswalk()
    ensures SqDistance(f, h) < SqDistance(t, h)
  {
    f := Follow(h, t);
    if t.x == h.x {
      if t.y < h.y {
        assert h == t.Up().Up();
      } else {
        assert h == t.Down().Down();
      }
    } else if t.x < h.x {
      assert h == t.Right().Right();
    } else {
      assert h == t.Left().Left();
    }
  }

  /** Whenever the tail moves, it lands strictly nearer the head, at any
      distance and not only right after a unit head move. */
  lemma TailStepApproaches(g: State)
    requires !g.tail.IsTouching(g.head)
    ensures SqDistance(TailStep(g).tail, g.head) < SqDistance(g.tail, g.head)
  {
    var t, h := g.tail, g.head;
    if t.OnSameVerticalOrHorizontal(h) {
      var f := AlignedApproaches(t, h);
      NearestNoFartherThan(t.Crosswalk(), h, f);
      assert TailStep(g).tail == NearestTo(t.Crosswalk(), h);
    } else {
      var w := DiagonalApproaches(t, h);
      NearestNoFartherThan(t.Diagonals(), h, w);
      assert TailStep(g).tail == NearestTo(t.Diagonals(), h);
    }
  }

  /** Once the tail has caught up, stepping it again changes nothing. */
  lemma TailStepIdempotent(g: State)
    requires Chebyshev(g.tail, g.head) <= 2
    ensures TailStep(TailStep(g)) == TailStep(g)
  {
    TailStepFollowsReference(g);
  }

  /** The start state satisfies the rope invariant. */
  lemma StartIsValid()
    ensures Valid(Start)
    ensures Start.head == Origin && Start.tail == Origin
    ensures Start.visited == {Origin} && Solution(Start) == 1
  {
  }

  /** From a valid state a unit step is exactly the reference rule: the
      head moves one cell, the tail follows by the reference rule, and the
      cell it then occupies is added to the visited set. */
  lemma StepMatchesReference(g: State, direction: string)
    requires Valid(g)
    requires IsDirection(direction)
    ensures var h := Shifted(g.head, direction, 1);
            var t := Follow(h, g.tail);
            Step(g, direction) == Ok(State(h, t, g.visited + {t}))
  {
    var moved := HeadStep(g, direction).value;
    TailStepFollowsReference(moved);
    assert g.visited + {g.tail} == g.visited;
  }

  /** A unit step keeps the knots touching and the tail recorded: the head
      ends at most two cells from the old tail, and the tail rule brings
      the tail back next to it. */
  lemma StepPreservesValid(g: State, direction: string)
    requires Valid(g)
    ensures Step(g, direction).Ok? ==> Valid(Step(g, direction).value)
  {
    var moved := HeadStep(g, direction);
    if moved.Ok? {
      TailStepFollowsReference(moved.value);
    }
  }

  /** With a known direction, repeating a command is one unit step
      followed by the remaining repetitions. */
  lemma ProcessUnfold(g: State, direction: string, count: int)
    requires count > 0 && IsDirection(direction)
    ensures Process(g, direction, count) == Process(Step(g, direction).value, direction, count - 1)
  {
  }

  /** Every repetition of a command keeps the invariant. */
  lemma {:induction false} ProcessPreservesValid(g: State, direction: string, count: int)
    requires Valid(g)
    ensures Process(g, direction, count).Ok? ==> Valid(Process(g, direction, count).value)
    decreases count
  {
    if count <= 0 {
      assert Process(g, direction, count) == Ok(g);
    } else if IsDirection(direction) {
      var next := Step(g, direction).value;
      assert Valid(next) by {
        StepPreservesValid(g, direction);
      }
      var rest := Process(next, direction, count - 1);
      assert rest.Ok? ==> Valid(rest.value) by {
        ProcessPreservesValid(next, direction, count - 1);
      }
      assert Process(g, direction, count) == rest by {
        ProcessUnfold(g, direction, count);
      }
    } else {
      assert Process(g, direction, count).Err?;
    }
  }

  /** Every command of a run keeps the invariant. */
  lemma {:induction false} RunPreservesValid(g: State, commands: seq<Command>)
    requires Valid(g)
    ensures Run(g, commands).Ok? ==> Valid(Run(g, commands).value)
    decreases |commands|
  {
    if |commands| > 0 {
      ProcessPreservesValid(g, commands[0].direction, commands[0].count);
      var next := Process(g, commands[0].direction, commands[0].count);
      if next.Ok? {
        assert Run(g, commands) == Run(next.value, commands[1..]);
        RunPreservesValid(next.value, commands[1..]);
      }
    }
  }

  /** Every state a successful run reaches from the start is valid, so its
      tail touches its head and the answer counts at least the start cell. */
  lemma ReachableStatesAreValid(commands: seq<Command>)
    ensures Run(Start, commands).Ok? ==> Valid(Run(Start, commands).value)
    ensures Run(Start, commands).Ok? ==> Solution(Run(Start, commands).value) >= 1
  {
    StartIsValid();
    RunPreservesValid(Start, commands);
    var r := Run(Start, commands);
    if r.Ok? {
      SubsetSize({Origin}, r.value.visited);
    }
  }

  /** A unit step adds at most one cell to the answer: the cell the tail
      moved to. */
  lemma StepAddsAtMostOneCell(g: State, direction: string)
    ensures Step(g, direction).Ok? ==> Solution(Step(g, direction).value) <= Solution(g) + 1
  {
    var r := Step(g, direction);
    if r.Ok? {
      assert r.value.visited <= g.visited + {r.value.tail};
      SubsetSize(r.value.visited, g.visited + {r.value.tail});
    }
  }

  /** The answer never goes down while the rope moves. */
  lemma SolutionNeverDecreases(g: State, commands: seq<Command>)
    ensures Run(g, commands).Ok? ==> Solution(g) <= Solution(Run(g, commands).value)
  {
    var r := Run(g, commands);
    if r.Ok? {
      SubsetSize(g.visited, r.value.visited);
    }
  }

  lemma SubsetSize(a: set<Point>, b: set<Point>)
    requires a <= b
    ensures |a| <= |b|
  {
    assert b == a + (b - a);
  }
}
