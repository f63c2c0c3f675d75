/**
 * One tick of `updateVariables` (main.js:96-133) as a function from game
 * state to game state, the invariant it keeps while the round is on, and
 * what follows from it: the snake never grows past six segments, so the
 * win exit at main.js:108-111 is never taken.
 */
module Engine {
  import opened Grid
  import opened Body
  import opened Food

  /** What `stop()` ends the round with; `Playing` while the interval still runs. */
  datatype Outcome = Playing | Won | Lost

  /** The globals `snake`, `food` and `direction`, plus the outcome `stop()` stands for. */
  datatype GameState = GameState(snake: seq<Segment>, food: seq<int>, direction: Direction, outcome: Outcome)

  /** The length at which growth ends the round with a win (main.js:108). */
  const WinLength: int := 100
  /** The head's cell when the round starts (main.js:16-19). */
  const StartCell: int := 55
  /** One head plus one segment per food cell: the longest the snake can get. */
  const MaxLength: int := 1 + FoodCount

  /**
   * The direction gate (main.js:97-99): the selected heading is taken when
   * the snake is a single segment or the heading is not a reversal; a
   * reversal of a longer snake is dropped silently.
   */
  function Gate(current: Direction, selected: Direction, length: int): (d: Direction)
    ensures (length == 1 || !IsOpposite(current, selected)) ==> d == selected
    ensures !(length == 1 || !IsOpposite(current, selected)) ==> d == current
    ensures length != 1 ==> !IsOpposite(current, d)
  {
    if length == 1 || !IsOpposite(current, selected) then selected else current
  }

  /**
   * One call of `updateVariables` with `selected` as the latest key press:
   * gate the direction, grow, win at WinLength, shift the body, then lose on
   * an edge or on a bite into the shifted body `snake[1..]` (head left where
   * it was), else move the head and eat.
   */
  function Step(st: GameState, selected: Direction): (r: GameState)
    requires |st.snake| >= 1
    ensures |r.snake| >= |st.snake|
  {
    var direction := Gate(st.direction, selected, |st.snake|);
    var head := st.snake[0].position;
    var grown := Grow(st.snake);
    if Tail(st.snake).isDigesting && |grown| == WinLength then
      GameState(grown, st.food, direction, Won)
    else
      var body := Shifted(grown);
      if IsTouchingEdges(direction, head) then
        GameState(body, st.food, direction, Lost)
      else
        var next := NextPosition(direction, head);
        if IsBitingItself(body, next) then
          GameState(body, st.food, direction, Lost)
        else if next in st.food then
          GameState(body[0 := Segment(next, true)], RemoveFromArray(st.food, next), direction, Playing)
        else
          GameState(body[0 := Segment(next, false)], st.food, direction, Playing)
  }

  /** The game after a run of ticks, one selected heading per tick, until `stop()`. */
  function Run(st: GameState, selections: seq<Direction>): (r: GameState)
    requires |st.snake| >= 1
    ensures |r.snake| >= |st.snake|
    ensures st.outcome != Playing ==> r == st
    decreases |selections|
  {
    if selections == [] || st.outcome != Playing then st
    else Run(Step(st, selections[0]), selections[1..])
  }

  /** Length plus food left plus food in transit: what a tick conserves. */
  function Budget(st: GameState): int
  {
    |st.snake| + |st.food| + DigestCount(st.snake)
  }

  ghost predicate FoodOffSnake(st: GameState)
  {
    forall i :: 0 <= i < |st.snake| ==> st.snake[i].position !in st.food
  }

  /**
   * What holds of every state a round passes through: a non-empty snake on
   * the board and duplicate-free food on the board; while the round is on,
   * also no two segments on one cell, no food under the snake, and at most
   * MaxLength for the budget.
   */
  ghost predicate Inv(st: GameState)
  {
    |st.snake| >= 1 && AllOnGrid(st.snake) &&
    NoDuplicates(st.food) && (forall x :: x in st.food ==> OnGrid(x)) &&
    (st.outcome == Playing ==>
      DistinctPositions(st.snake) && FoodOffSnake(st) && Budget(st) <= MaxLength)
  }

  /** The state `initialize` builds from the food list `generateFood` produced. */
  function Initial(food: seq<int>): GameState
  {
    GameState([Segment(StartCell, false)], food, Left, Playing)
  }

  // ---------------------------------------------------------------------
  // The body behind the new head

  /** What follows the head after a tick that moves it: the grown body without its last segment. */
  function Trail(s: seq<Segment>): seq<Segment>
    requires |s| >= 1
  {
    var g := Grow(s);
    g[..|g| - 1]
  }

  lemma TrailFacts(s: seq<Segment>)
    requires |s| >= 1
    ensures |Trail(s)| == |Grow(s)| - 1
    ensures forall i :: 0 <= i < |Trail(s)| ==> Trail(s)[i].position == s[i].position
    ensures DigestCount(Trail(s)) == DigestCount(Grow(s))
    ensures Shifted(Grow(s))[1..] == Trail(s)
  {
  }

  /** The snake after a tick that moves the head onto `next`. */
  lemma MovedSnake(s: seq<Segment>, next: int, eats: bool)
    requires |s| >= 1
    ensures Shifted(Grow(s))[0 := Segment(next, eats)] == [Segment(next, eats)] + Trail(s)
    ensures DigestCount([Segment(next, eats)] + Trail(s))
      == DigestCount(Trail(s)) + (if eats then 1 else 0)
  {
    TrailFacts(s);
    var h := Segment(next, eats);
    DigestCountAppend([h], Trail(s));
    assert DigestCount([h]) == DigestCount([h][..0]) + (if eats then 1 else 0);
  }

  /**
   * The bite check seen from the state before the tick: the head may enter
   * the cell the tail is leaving, except on a tick where the snake grows.
   */
  lemma BiteAgainstOldBody(s: seq<Segment>, q: int)
    requires |s| >= 1
    ensures IsBitingItself(Shifted(Grow(s)), q) <==>
      (exists i :: 0 <= i < |s| - 1 && s[i].position == q) ||
      (Tail(s).isDigesting && Tail(s).position == q)
  {
  }

  // ---------------------------------------------------------------------
  // What one tick does

  /** The three exits of a tick that does not win, with the shifted body, heading and next cell named. */
  lemma StepAfterShift(st: GameState, selected: Direction, body: seq<Segment>, d: Direction, next: int)
    requires |st.snake| >= 1 && !(Tail(st.snake).isDigesting && |Grow(st.snake)| == WinLength)
    requires body == Shifted(Grow(st.snake)) && d == Gate(st.direction, selected, |st.snake|)
    requires next == NextPosition(d, st.snake[0].position)
    ensures IsTouchingEdges(d, st.snake[0].position) ==> Step(st, selected) == GameState(body, st.food, d, Lost)
    ensures !IsTouchingEdges(d, st.snake[0].position) && IsBitingItself(body, next) ==>
      Step(st, selected) == GameState(body, st.food, d, Lost)
    ensures !IsTouchingEdges(d, st.snake[0].position) && !IsBitingItself(body, next) && next in st.food ==>
      Step(st, selected) == GameState(body[0 := Segment(next, true)], RemoveFromArray(st.food, next), d, Playing)
    ensures !IsTouchingEdges(d, st.snake[0].position) && !IsBitingItself(body, next) && next !in st.food ==>
      Step(st, selected) == GameState(body[0 := Segment(next, false)], st.food, d, Playing)
  {
  }

  /** The gate decides the heading on every tick, whatever the outcome. */
  lemma StepDirection(st: GameState, selected: Direction)
    requires |st.snake| >= 1
    ensures Step(st, selected).direction == Gate(st.direction, selected, |st.snake|)
  {
  }

  /**
   * Growth: the snake gets exactly one segment longer on a tick that starts
   * with a digesting tail, and keeps its length otherwise.
   */
  lemma StepLength(st: GameState, selected: Direction)
    requires |st.snake| >= 1
    ensures |Step(st, selected).snake| == |st.snake| + (if Tail(st.snake).isDigesting then 1 else 0)
  {
  }

  /** The round is won exactly when growth brings the snake to WinLength; nothing then shifts or moves. */
  lemma StepWin(st: GameState, selected: Direction)
    requires |st.snake| >= 1
    ensures Step(st, selected).outcome == Won <==>
      Tail(st.snake).isDigesting && |st.snake| + 1 == WinLength
    ensures Step(st, selected).outcome == Won ==> Step(st, selected).snake == Grow(st.snake)
  {
  }

  /**
   * The two losing exits: the head is on the edge it faces, or the cell
   * ahead is taken by the shifted body. Either way the body has shifted,
   * the head keeps its cell and the food is untouched. Otherwise the head
   * moves to the cell ahead and every other segment holds what its
   * predecessor held before the tick (after growth).
   */
  lemma StepMoveOrLose(st: GameState, selected: Direction)
    requires |st.snake| >= 1
    requires Step(st, selected).outcome != Won
    ensures var d := Step(st, selected).direction;
      var head := st.snake[0].position;
      var r := Step(st, selected);
      (r.outcome == Lost <==>
        IsTouchingEdges(d, head) || IsBitingItself(Shifted(Grow(st.snake)), NextPosition(d, head))) &&
      (r.outcome == Lost ==>
        r.snake == Shifted(Grow(st.snake)) && r.snake[0].position == head && r.food == st.food) &&
      (r.outcome == Playing ==> r.snake[0].position == NextPosition(d, head)) &&
      (forall i :: 1 <= i < |r.snake| ==> r.snake[i] == Grow(st.snake)[i - 1])
  {
  }

  /** Shift correctness on a tick without growth: segment i takes what segment i - 1 held. */
  lemma StepShiftsBody(st: GameState, selected: Direction)
    requires |st.snake| >= 1 && !Tail(st.snake).isDigesting
    ensures var r := Step(st, selected);
      |r.snake| == |st.snake| &&
      forall i :: 1 <= i < |r.snake| ==> r.snake[i] == st.snake[i - 1]
  {
  }

  /**
   * Eating: a head that lands on food becomes digesting and that cell
   * leaves the food list, the other cells keeping their order; a head that
   * lands elsewhere stops digesting and the food stays as it was.
   */
  lemma StepEats(st: GameState, selected: Direction)
    requires |st.snake| >= 1
    requires Step(st, selected).outcome == Playing
    ensures var r := Step(st, selected);
      var q := r.snake[0].position;
      (q in st.food ==> r.snake[0].isDigesting && r.food == RemoveFromArray(st.food, q)) &&
      (q in st.food && NoDuplicates(st.food) ==>
        |r.food| == |st.food| - 1 &&
        exists k :: 0 <= k < |st.food| && st.food[k] == q && r.food == st.food[..k] + st.food[k + 1..]) &&
      (q !in st.food ==> !r.snake[0].isDigesting && r.food == st.food)
  {
    var r := Step(st, selected);
    var q := r.snake[0].position;
    if q in st.food && NoDuplicates(st.food) {
      var k :| 0 <= k < |st.food| && st.food[k] == q;
      RemoveKeepsOrder(st.food, k);
    }
  }

  // ---------------------------------------------------------------------
  // The invariant

  /** The state after a tick that moves the head onto `next`. */
  function Moved(st: GameState, d: Direction, next: int): GameState
    requires |st.snake| >= 1
  {
    var eats := next in st.food;
    GameState([Segment(next, eats)] + Trail(st.snake),
      if eats then RemoveFromArray(st.food, next) else st.food, d, Playing)
  }

  lemma MovedKeepsCellsApart(st: GameState, d: Direction, next: int)
    requires Inv(st) && st.outcome == Playing
    requires !IsBitingItself(Shifted(Grow(st.snake)), next)
    ensures DistinctPositions(Moved(st, d, next).snake)
  {
  }

  lemma MovedKeepsFood(st: GameState, d: Direction, next: int)
    requires Inv(st) && st.outcome == Playing
    ensures var r := Moved(st, d, next);
      FoodOffSnake(r) && NoDuplicates(r.food) && (forall x :: x in r.food ==> OnGrid(x)) &&
      |r.food| + (if next in st.food then 1 else 0) == |st.food|
  {
    var s := st.snake;
    var t := Trail(s);
    var r := Moved(st, d, next);
    TrailFacts(s);
    if next in st.food {
      var k :| 0 <= k < |st.food| && st.food[k] == next;
      RemoveKeepsOrder(st.food, k);
    }
    forall i | 0 <= i < |r.snake| ensures r.snake[i].position !in r.food {
      if i > 0 {
        assert r.snake[i] == t[i - 1];
        assert s[i - 1].position !in st.food;
      }
    }
  }

  lemma MovedKeepsBudget(st: GameState, d: Direction, next: int)
    requires Inv(st) && st.outcome == Playing
    ensures Budget(Moved(st, d, next)) == Budget(st)
  {
    var eats := next in st.food;
    TrailFacts(st.snake);
    MovedSnake(st.snake, next, eats);
    MovedKeepsFood(st, d, next);
  }

  lemma GrownOnGrid(s: seq<Segment>)
    requires |s| >= 1 && AllOnGrid(s)
    ensures AllOnGrid(Grow(s)) && AllOnGrid(Shifted(Grow(s)))
  {
  }

  /** A tick conserves the budget and keeps the invariant. */
  lemma StepPreservesInv(st: GameState, selected: Direction)
    requires Inv(st) && st.outcome == Playing
    ensures Inv(Step(st, selected))
    ensures Step(st, selected).outcome == Playing ==> Budget(Step(st, selected)) == Budget(st)
  {
    var s := st.snake;
    var r := Step(st, selected);
    GrownOnGrid(s);
    if r.outcome == Playing {
      var d := r.direction;
      var head := s[0].position;
      var next := NextPosition(d, head);
      NextPositionStaysOnGrid(d, head);
      MovedSnake(s, next, next in st.food);
      assert r == Moved(st, d, next);
      TrailFacts(s);
      assert AllOnGrid(r.snake) by {
        forall i | 0 <= i < |r.snake| ensures OnGrid(r.snake[i].position) {
          if i > 0 {
            assert r.snake[i] == Trail(s)[i - 1];
          }
        }
      }
      MovedKeepsCellsApart(st, d, next);
      MovedKeepsFood(st, d, next);
      MovedKeepsBudget(st, d, next);
    }
  }

  /** While the round is on the snake is at most MaxLength long. */
  lemma LengthBounded(st: GameState)
    requires Inv(st) && st.outcome == Playing
    ensures |st.snake| <= MaxLength
    ensures Tail(st.snake).isDigesting ==> |st.snake| < MaxLength
  {
  }

  /** From any state satisfying the invariant, one tick never wins. */
  lemma StepNeverWins(st: GameState, selected: Direction)
    requires Inv(st) && st.outcome == Playing
    ensures Step(st, selected).outcome != Won
  {
  }

  /**
   * Five food cells are never refilled, so however the player steers, a
   * round that starts in the invariant ends lost or goes on: never won.
   */
  lemma {:induction false} RunNeverWins(st: GameState, selections: seq<Direction>)
    requires Inv(st) && st.outcome == Playing
    ensures Inv(Run(st, selections))
    ensures Run(st, selections).outcome != Won
    decreases |selections|
  {
    if selections != [] {
      var next := Step(st, selections[0]);
      StepPreservesInv(st, selections[0]);
      StepNeverWins(st, selections[0]);
      if next.outcome == Playing {
        RunNeverWins(next, selections[1..]);
      }
    }
  }

  /** The starting state satisfies the invariant when the food avoids the start cell. */
  lemma InitialInv(food: seq<int>)
    requires NoDuplicates(food) && |food| <= FoodCount
    requires forall x :: x in food ==> OnGrid(x) && x != StartCell
    ensures Inv(Initial(food))
  {
  }

  /**
   * The first tick from a start whose food may lie under the head (as the
   * unguarded draw allows): the head leaves the start cell, so the state
   * after it satisfies the invariant, and that tick does not win either.
   */
  lemma StartStepKeepsInv(food: seq<int>, selected: Direction)
    requires NoDuplicates(food) && |food| <= FoodCount
    requires forall x :: x in food ==> OnGrid(x)
    ensures Step(Initial(food), selected).outcome != Won
    ensures Inv(Step(Initial(food), selected))
  {
    var r := Step(Initial(food), selected);
    if r.outcome == Playing {
      var next := NextPosition(r.direction, StartCell);
      NextPositionStaysOnGrid(r.direction, StartCell);
      assert r.snake == [Segment(next, next in food)];
      assert r.snake[..0] == [];
      if next in food {
        var k :| 0 <= k < |food| && food[k] == next;
        RemoveKeepsOrder(food, k);
      }
    }
  }

  /**
   * The round as main.js plays it, food drawn without excluding the head's
   * cell, is never won either, whatever the draws and however the player steers.
   */
  lemma AsWrittenStartNeverWins(candidates: seq<int>, selections: seq<Direction>)
    requires forall x :: x in candidates ==> OnGrid(x)
    ensures Run(Initial(Filled([], candidates, {})), selections).outcome != Won
  {
    var food := Filled([], candidates, {});
    FilledProperties([], candidates, {});
    if selections != [] {
      var r := Step(Initial(food), selections[0]);
      StartStepKeepsInv(food, selections[0]);
      if r.outcome == Playing {
        RunNeverWins(r, selections[1..]);
      }
    }
  }

  // ---------------------------------------------------------------------
  // Worked examples

  /**
   * Head at 12 with body 11, 1, 2 heading left: the shift puts a segment on
   * 11, so the move onto 11 is a bite and the round is lost.
   */
  lemma BiteExample()
    ensures var s := [Segment(12, false), Segment(11, false), Segment(1, false), Segment(2, false)];
      var r := Step(GameState(s, [], Left, Playing), Left);
      r.outcome == Lost && r.snake[0].position == 12
  {
  }

  /**
   * Head at 11 with body 1, 2, 12 heading right onto 12, the tail's cell:
   * the bite check reads the shifted body, where the tail has moved to 2,
   * so the head follows its tail instead of biting it.
   */
  lemma TailChaseExample()
    ensures var s := [Segment(11, false), Segment(1, false), Segment(2, false), Segment(12, false)];
      var r := Step(GameState(s, [], Right, Playing), Right);
      r.outcome == Playing && r.snake[0].position == 12 && r.snake[3].position == 2
  {
  }

  /** A reversal is dropped for a three-segment snake and taken for a single head. */
  lemma GateExamples()
    ensures Gate(Right, Left, 3) == Right && Gate(Right, Left, 1) == Left
  {
  }
}
