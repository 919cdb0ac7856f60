/** The two-knot rope: a head driven one cell per step, a tail that follows
    it, and the set of cells the tail has occupied. The source keeps this
    state in a process-wide singleton; here it is an explicit value that
    every operation takes and returns. */
module Game {
  import opened Points
  import opened Nearest

  /** Outcome of an operation that can fail with a message. */
  datatype Result<T> = Ok(value: T) | Err(message: string)

  const Origin: Point := Point(0, 0)

  /** Head position, tail position and every cell the tail was assigned. */
  datatype State = State(head: Point, tail: Point, visited: set<Point>)

  /** Both knots start on the origin, which is already recorded as visited. */
  const Start: State := State(Origin, Origin, {Origin})

  /** A command line, already split into its direction and repeat count.
      The count is a signed number: a negative count repeats nothing. */
  datatype Command = Command(direction: string, count: int)

  /** What every reachable state satisfies: the knots touch, and the
      visited set holds the start cell and the current tail. */
  ghost predicate Valid(g: State) {
    && Chebyshev(g.tail, g.head) <= 1
    && g.tail in g.visited
    && Origin in g.visited
  }

  predicate IsDirection(direction: string) {
    direction == "L" || direction == "R" || direction == "U" || direction == "D"
  }

  /** Reference meaning of a direction: `p` moved `n` cells along it, with
      R and U the increasing x and y axes. */
  function Shifted(p: Point, direction: string, n: int): Point
    requires IsDirection(direction)
  {
    match direction[0]
    case 'L' => Point(p.x - n, p.y)
    case 'R' => Point(p.x + n, p.y)
    case 'U' => Point(p.x, p.y + n)
    case _ => Point(p.x, p.y - n)
  }

  function UnknownDirection(direction: string): string {
    "Unknown direction " + direction
  }

  /** Assigning the tail always records the new cell as visited. */
  function SetTail(g: State, p: Point): State {
    g.(tail := p, visited := g.visited + {p})
  }

  /** Moves the head one cell in the named direction; any name other than
      L, R, U or D is an error and nothing moves. */
  function HeadStep(g: State, direction: string): (r: Result<State>)
    ensures r.Ok? <==> IsDirection(direction)
    ensures r.Ok? ==> r.value == g.(head := Shifted(g.head, direction, 1))
    ensures r.Err? ==> r.message == UnknownDirection(direction)
  {
    if direction == "L" then Ok(g.(head := g.head.Left()))
    else if direction == "R" then Ok(g.(head := g.head.Right()))
    else if direction == "U" then Ok(g.(head := g.head.Up()))
    else if direction == "D" then Ok(g.(head := g.head.Down()))
    else Err(UnknownDirection(direction))
  }

  /** Brings the tail after the head: no move while they touch, an
      orthogonal step when they are aligned on one axis with at most one
      cell between them, a diagonal step otherwise; in both moving cases the step goes to the neighbour
      nearest the head. */
  function TailStep(g: State): (r: State)
    ensures r.head == g.head
    ensures g.tail.IsTouching(g.head) ==> r == g
    ensures !g.tail.IsTouching(g.head) ==> r.visited == g.visited + {r.tail}
  {
    if g.tail.IsTouching(g.head) then
      g
    else if g.tail.OnSameVerticalOrHorizontal(g.head) then
      SetTail(g, NearestTo(g.tail.Crosswalk(), g.head))
    else
      SetTail(g, NearestTo(g.tail.Diagonals(), g.head))
  }

  function Sign(n: int): int {
    if n < 0 then -1 else if n == 0 then 0 else 1
  }

  /** Reference rope rule: a tail that no longer touches steps one cell
      towards the head on each axis where they differ. */
  function Follow(head: Point, tail: Point): Point {
    if Chebyshev(head, tail) <= 1 then tail
    else Point(tail.x + Sign(head.x - tail.x), tail.y + Sign(head.y - tail.y))
  }

  /** One unit step of the rope: the head moves, then the tail follows. */
  function Step(g: State, direction: string): (r: Result<State>)
    ensures r.Ok? <==> IsDirection(direction)
    ensures r.Ok? ==> r.value.head == Shifted(g.head, direction, 1)
    ensures r.Ok? ==> g.visited <= r.value.visited
    ensures r.Err? ==> r.message == UnknownDirection(direction)
  {
    match HeadStep(g, direction)
    case Err(message) => Err(message)
    case Ok(moved) => Ok(TailStep(moved))
  }

  /** Repeats the unit step `count` times; with a count of zero or less
      nothing runs, so even an unknown direction is not reported. */
  function Process(g: State, direction: string, count: int): (r: Result<State>)
    decreases count
    ensures r.Ok? <==> count <= 0 || IsDirection(direction)
    ensures count <= 0 ==> r == Ok(g)
    ensures r.Ok? && IsDirection(direction) && count >= 0 ==>
              r.value.head == Shifted(g.head, direction, count)
    ensures r.Ok? ==> g.visited <= r.value.visited
    ensures r.Err? ==> r.message == UnknownDirection(direction)
  {
    if count <= 0 then
      Ok(g)
    else
      match Step(g, direction)
      case Err(message) => Err(message)
      case Ok(next) => Process(next, direction, count - 1)
  }

  /** A command line that fails: it repeats at least once, with an unknown
      direction. */
  predicate Fails(c: Command) {
    c.count > 0 && !IsDirection(c.direction)
  }

  /** Feeds the commands in order; the first failing command ends the run. */
  function Run(g: State, commands: seq<Command>): (r: Result<State>)
    decreases |commands|
    ensures r.Ok? <==> forall i :: 0 <= i < |commands| ==> !Fails(commands[i])
    ensures r.Ok? ==> g.visited <= r.value.visited
    ensures r.Err? ==>
              exists i ::
                && 0 <= i < |commands|
                && Fails(commands[i])
                && (forall j :: 0 <= j < i ==> !Fails(commands[j]))
                && r.message == UnknownDirection(commands[i].direction)
  {
    if |commands| == 0 then
      Ok(g)
    else
      match Process(g, commands[0].direction, commands[0].count)
      case Err(message) => Err(message)
      case Ok(next) =>
        var r := Run(next, commands[1..]);
        if r.Err? then
          ghost var i :|
            && 0 <= i < |commands| - 1
            && Fails(commands[1..][i])
            && (forall j :: 0 <= j < i ==> !Fails(commands[1..][j]))
            && r.message == UnknownDirection(commands[1..][i].direction);
          assert Fails(commands[i + 1]);
          r
        else
          r
  }

  /** The answer: how many distinct cells the tail has occupied. */
  function Solution(g: State): (n: nat)
    ensures n == 0 <==> g.visited == {}
    // A consequence of the previous clause, spelled out for callers.
    ensures forall p :: p in g.visited ==> n >= 1
  {
    |g.visited|
  }
}
