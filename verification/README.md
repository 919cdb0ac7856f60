# Two-knot rope on a grid

A model of the rope simulation in `src/main/kotlin/com/adventofcode/Day.kt`.
A head knot moves one grid cell per unit step in one of the directions
`L`, `R`, `U` or `D`. A tail knot follows it. The program counts how many
distinct cells the tail has occupied. The tail does not move while it
touches the head, which means the same cell or one of the eight
surrounding cells. Otherwise it moves to one of its four orthogonal
neighbours when it is aligned with the head on one axis with at most one
cell between them, and to one of its four diagonal neighbours in every
other case (an aligned head three or more cells away included). In both cases it picks the
candidate nearest to the head.

Modules:

- `Points` (`points.dfy`): the immutable `Point`, its unit moves, its
  crosswalk and diagonal neighbourhoods, and the two adjacency tests.
- `Nearest` (`nearest.dfy`): choosing the candidate nearest to a target.
  Like Kotlin's `minBy`, it computes one key per candidate and keeps the
  earliest candidate on a tie.
- `Game` (`game.dfy`): the rope state (head, tail, visited set), head step,
  tail step, unit step, a repeated command, a run of command lines and the
  answer. The source keeps this state in a singleton object. Here it is an
  explicit `State` value that each operation takes and returns.
- `GameProperties` (`game_properties.dfy`): within two cells of the head,
  which covers every state a run reaches, the tail rule agrees with an
  independent reference rule (`Game.Follow`, a sign step towards the head).
  Farther away they differ: an aligned head three cells off moves the tail
  diagonally, where the reference rule would move it straight.
  The knots keep touching after every step. The visited set and the
  answer never shrink.

Kotlin's `setOf(...)` keeps insertion order, and `minBy` returns the first
minimum. So the neighbourhoods are sequences in the order the source
lists them, and ties between equal squared distances go to the earliest
candidate, as in the program. When the knots start at most two cells
apart, as they always do in a run, the reference cell is one of the
candidates and strictly nearer than the other three
(`AlignedNearest`, `DiagonalNearest`), so no tie arises there.

Descriptions of this puzzle often use a chain of knots. The file has
exactly two knots, and the model follows the file.

## Model

| member | source | states |
|---|---|---|
| Points.Point.Crosswalk | src/main/kotlin/com/adventofcode/Day.kt:25-30 | four distinct cells, exactly the cells one rook step away |
| Points.Point.Diagonals | src/main/kotlin/com/adventofcode/Day.kt:32-37 | four distinct cells, exactly the cells one step away on both axes |
| Points.Point.OnSameVerticalOrHorizontal | src/main/kotlin/com/adventofcode/Day.kt:39-44 | true exactly when the other cell shares one coordinate and is one or two cells away on the other axis |
| Points.Point.IsTouching | src/main/kotlin/com/adventofcode/Day.kt:54-56 | true exactly when the Chebyshev distance is at most one |
| Points.UnitMoves | src/main/kotlin/com/adventofcode/Day.kt:9-15 | each unit move changes one coordinate by one in its direction, and opposite moves cancel |
| Points.TouchingReflexiveSymmetric | src/main/kotlin/com/adventofcode/Day.kt:54-56 | touching is reflexive and symmetric |
| Points.NeighbourhoodPartition | src/main/kotlin/com/adventofcode/Day.kt:54-56 | a cell's touching neighbourhood is itself, its crosswalk and its diagonals, and these three do not overlap |
| Nearest.FirstMinIndex | src/main/kotlin/com/adventofcode/Day.kt:60-62 | the chosen position holds a key no larger than any other, and every earlier key is strictly larger (the first minimum wins a tie) |
| Nearest.NearestTo | src/main/kotlin/com/adventofcode/Day.kt:59-63 | the result is one of the candidates and no candidate is nearer the target |
| Nearest.NearestIsStrictMinimum | src/main/kotlin/com/adventofcode/Day.kt:59-63 | a candidate strictly nearer than all the others is the one returned |
| Game.HeadStep | src/main/kotlin/com/adventofcode/Day.kt:88-96 | succeeds exactly for L, R, U or D and then moves only the head, one cell in that direction; any other name fails with "Unknown direction" and the name |
| Game.TailStep | src/main/kotlin/com/adventofcode/Day.kt:77-86 | the head is kept; a touching tail leaves the whole state unchanged; a moved tail is added to the visited set and nothing else is added |
| Game.Step | src/main/kotlin/com/adventofcode/Day.kt:98-101 | succeeds exactly for a known direction, moves the head one cell that way, never removes a visited cell, and reports the head step's error otherwise |
| Game.Process | src/main/kotlin/com/adventofcode/Day.kt:109-114 | a count of zero or less changes nothing and cannot fail; otherwise succeeds exactly for a known direction and moves the head `count` cells; visited cells are kept |
| Game.Run | src/main/kotlin/com/adventofcode/Day.kt:124 | succeeds exactly when every line has a non-positive count or a known direction; visited cells are kept; a failure carries the "Unknown direction" message of the first failing line |
| Game.Solution | src/main/kotlin/com/adventofcode/Day.kt:103-105 | the number of distinct cells in the visited set, zero exactly when nothing is recorded, and so at least one once any cell is |
| GameProperties.AlignedNearest | src/main/kotlin/com/adventofcode/Day.kt:81-83 | for a head two cells away on one axis, the reference cell is in the crosswalk and strictly nearer than the other three |
| GameProperties.DiagonalNearest | src/main/kotlin/com/adventofcode/Day.kt:85 | for a head off both axes and two cells away, the reference cell is a diagonal and strictly nearer than the other three |
| GameProperties.TailStepMovesOneCell | src/main/kotlin/com/adventofcode/Day.kt:81-85 | a moving tail takes one orthogonal step when aligned with at most one cell between, and one diagonal step otherwise |
| GameProperties.TailStepFollowsReference | src/main/kotlin/com/adventofcode/Day.kt:77-86 | within two cells of the head, the tail lands where the reference rule puts it, touching the head |
| GameProperties.TailStepApproaches | src/main/kotlin/com/adventofcode/Day.kt:81-85 | at any distance, a moving tail ends strictly nearer the head |
| GameProperties.TailStepIdempotent | src/main/kotlin/com/adventofcode/Day.kt:77-80 | within two cells of the head (every state the program reaches), a second tail step after the first changes nothing |
| GameProperties.StartIsValid | src/main/kotlin/com/adventofcode/Day.kt:67-71 | both knots start on the origin, the visited set is exactly the origin, and the answer starts at one |
| GameProperties.StepMatchesReference | src/main/kotlin/com/adventofcode/Day.kt:98-101 | from a valid state a unit step equals moving the head, moving the tail by the reference rule and recording the new tail |
| GameProperties.StepPreservesValid | src/main/kotlin/com/adventofcode/Day.kt:98-101 | a successful unit step keeps the knots touching and both the origin and the tail in the visited set |
| GameProperties.ProcessPreservesValid | src/main/kotlin/com/adventofcode/Day.kt:109-114 | every repetition of a command keeps that invariant |
| GameProperties.RunPreservesValid | src/main/kotlin/com/adventofcode/Day.kt:124 | processing the lines in order keeps that invariant |
| GameProperties.ReachableStatesAreValid | src/main/kotlin/com/adventofcode/Day.kt:116-118 | every state reached from the start is valid and its answer is at least one |
| GameProperties.StepAddsAtMostOneCell | src/main/kotlin/com/adventofcode/Day.kt:98-101 | a successful unit step raises the answer by at most one |
| GameProperties.SolutionNeverDecreases | src/main/kotlin/com/adventofcode/Day.kt:103-105 | the count of visited cells never goes down over a run |

## Left out

- Reading the input resource and printing the answer in `main` (lines 120-126) are I/O. `Game.Run` takes the lines as an already parsed sequence of commands.
- Splitting a line on a space and converting the count with `toInt` (lines 110-111) is not modelled. A line with fewer than two space-separated fields, or with a count that is not a number, throws before any step runs; fields after the second are ignored. `Game.Command` holds the direction and count after that parse.
- `Point.distanceTo` (lines 46-52) uses floating-point Euclidean distance. The model compares exact squared integer distances instead. For the distances a run produces (at most two cells) the squared sums are exact small integers, and the correctly rounded square roots of them (some, such as the square root of 2, are not exact doubles) keep their order and their ties, so the same candidate wins. About 2^26 cells apart, two different squared distances can round to the same double; `minBy` then keeps the earlier candidate, and the model, which still sees them as different, does not reproduce that. `tailStep` never runs on such a state, because a run keeps the knots within two cells.
- Kotlin `Int` coordinates wrap around at 32 bits. The model uses unbounded integers, so a head driven past 2^31 cells is not modelled.
- `Nearest.NearestTo` requires a non-empty candidate sequence. Kotlin's `minBy` throws on an empty set, and the only callers pass four cells.
- The `Game` singleton object is replaced by an explicit `Game.State` value that is passed in and returned, and `solution()` (lines 116-118) is `Game.Solution`.
- An `error(...)` call throws an exception that ends the program. The model returns `Err` with the same message, and `Game.Run` stops at the first failing line.
