/**
 * The mutable globals of main.js (`snake`, `food`, `direction`) as one
 * object, with `generateFood` and `updateVariables` as methods that change
 * them in place, each proved against the functions of module Engine.
 */
module SnakeGame {
  import opened Grid
  import opened Body
  import opened Food
  import opened Engine

  class Game {
    var snake: seq<Segment>
    var food: seq<int>
    var direction: Direction
    /** Stands for `stop()`: once it is not Playing the interval is cleared and no tick follows. */
    var outcome: Outcome

    function State(): GameState
      reads this
    {
      GameState(snake, food, direction, outcome)
    }

    ghost predicate Valid()
      reads this
    {
      Inv(State())
    }

    /**
     * The starting globals and `initialize`'s food draw, `candidates`
     * standing for the values of `Math.floor(Math.random() * 100)`; the draw
     * here leaves out the head's cell (see GenerateFood).
     */
    constructor (candidates: seq<int>)
      requires forall c :: c in candidates ==> OnGrid(c)
      ensures Valid()
      ensures State() == Initial(Filled([], candidates, {StartCell}))
    {
      snake := [Segment(StartCell, false)];
      food := [];
      direction := Left;
      outcome := Playing;
      new;
      GenerateFoodAvoidingHead(candidates);
      FilledProperties([], candidates, {StartCell});
      InitialInv(food);
    }

    /**
     * `generateFood` as written: its guard `snake[0] !== random` compares a
     * segment object with a number, is always true, and so excludes no cell.
     */
    method GenerateFood(candidates: seq<int>)
      requires |food| <= FoodCount
      modifies this`food
      ensures food == Filled(old(food), candidates, {})
    {
      var i := 0;
      while |food| != FoodCount && i < |candidates|
        invariant 0 <= i <= |candidates|
        invariant |food| <= FoodCount
        invariant Filled(food, candidates[i..], {}) == Filled(old(food), candidates, {})
      {
        var random := candidates[i];
        assert candidates[i..][1..] == candidates[i + 1..];
        i := i + 1;
        if random !in food {
          food := food + [random];
        }
      }
      assert i == |candidates| ==> candidates[i..] == [];
    }

    /** `generateFood` with the guard it evidently means, `snake[0].position !== random`. */
    method GenerateFoodAvoidingHead(candidates: seq<int>)
      requires |food| <= FoodCount && |snake| >= 1
      modifies this`food
      ensures food == Filled(old(food), candidates, {snake[0].position})
    {
      var i := 0;
      while |food| != FoodCount && i < |candidates|
        invariant 0 <= i <= |candidates|
        invariant |food| <= FoodCount
        invariant Filled(food, candidates[i..], {snake[0].position})
          == Filled(old(food), candidates, {snake[0].position})
      {
        var random := candidates[i];
        assert candidates[i..][1..] == candidates[i + 1..];
        i := i + 1;
        if random !in food && snake[0].position != random {
          food := food + [random];
        }
      }
      assert i == |candidates| ==> candidates[i..] == [];
    }

    /**
     * The growth step of `updateVariables` (main.js:100-107): a digesting
     * tail gets a non-digesting copy appended behind it and loses its flag.
     */
    method GrowIfDigesting() returns (grew: bool)
      requires |snake| >= 1
      modifies this`snake
      ensures grew == Tail(old(snake)).isDigesting
      ensures snake == Grow(old(snake))
    {
      var tail := snake[|snake| - 1];
      grew := tail.isDigesting;
      if tail.isDigesting {
        snake := snake + [Segment(tail.position, false)];
        snake := snake[|snake| - 2 := snake[|snake| - 2].(isDigesting := false)];
        assert snake == old(snake)[..|old(snake)| - 1] + [Segment(tail.position, false)] + [Segment(tail.position, false)];
      }
    }

    /**
     * The shift loop of `updateVariables` (main.js:113-116): from the tail
     * down to index 1, each segment copies its predecessor's position and
     * flag, so each reads what its predecessor held before the loop.
     */
    method ShiftBody()
      requires |snake| >= 1
      modifies this`snake
      ensures snake == Shifted(old(snake))
    {
      var i := |snake| - 1;
      while i > 0
        invariant 0 <= i < |snake| && |snake| == |old(snake)|
        invariant forall k :: 0 <= k <= i ==> snake[k] == old(snake)[k]
        invariant forall k :: i < k < |snake| ==> snake[k] == old(snake)[k - 1]
      {
        snake := snake[i := snake[i].(position := snake[i - 1].position)];
        snake := snake[i := snake[i].(isDigesting := snake[i - 1].isDigesting)];
        i := i - 1;
      }
    }

    /**
     * The last lines of `updateVariables` (main.js:126-132): the head takes
     * the new cell and digests exactly when that cell was food, which is
     * then removed from the food list.
     */
    method MoveHead(position: int)
      requires |snake| >= 1
      modifies this`snake, this`food
      ensures snake == old(snake)[0 := Segment(position, position in old(food))]
      ensures food == if position in old(food) then RemoveFromArray(old(food), position) else old(food)
    {
      snake := snake[0 := snake[0].(position := position)];
      if snake[0].position in food {
        snake := snake[0 := snake[0].(isDigesting := true)];
        food := RemoveFromArray(food, snake[0].position);
      } else {
        snake := snake[0 := snake[0].(isDigesting := false)];
      }
    }

    /**
     * `updateVariables` (main.js:96-133), with `selected` the value the key
     * handler last stored in `selectedDirection`: gate, growth and win exit,
     * shift, the two losing exits, the head's move and eating.
     */
    method UpdateVariables(selected: Direction)
      requires |snake| >= 1 && outcome == Playing
      modifies this
      ensures State() == Step(old(State()), selected)
    {
      ghost var before := State();
      ghost var s := snake;
      if |snake| == 1 || !IsOpposite(direction, selected) {
        direction := selected;
      }
      var grew := GrowIfDigesting();
      if grew && |snake| == WinLength {
        outcome := Won;
        return;
      }
      ShiftBody();
      ghost var body := snake;
      assert food == before.food && direction == Gate(before.direction, selected, |s|);
      StepAfterShift(before, selected, body, direction, NextPosition(direction, s[0].position));
      // `head` is the object at index 0: neither growth nor the shift moves it
      assert snake[0].position == s[0].position;
      if IsTouchingEdges(direction, snake[0].position) {
        outcome := Lost;
        return;
      }
      var position := NextPosition(direction, snake[0].position);
      if IsBitingItself(snake, position) {
        outcome := Lost;
        return;
      }
      MoveHead(position);
    }

    /**
     * One firing of the interval set up in `start` (main.js:36-39): only
     * while the round is on, and keeping the invariant.
     */
    method Tick(selected: Direction)
      requires Valid() && outcome == Playing
      modifies this
      ensures State() == Step(old(State()), selected)
      ensures Valid()
    {
      StepPreservesInv(State(), selected);
      UpdateVariables(selected);
    }
  }

  /**
   * The guard of `generateFood` as written lets the first draw land on the
   * head's start cell, which then lies under the snake and breaks the
   * invariant; the intended guard skips it.
   */
  lemma HeadCellMayBecomeFood()
    ensures StartCell in Filled([], [StartCell, 1, 2, 3, 4], {})
    ensures !Inv(Initial(Filled([], [StartCell, 1, 2, 3, 4], {})))
    ensures StartCell !in Filled([], [StartCell, 1, 2, 3, 4], {StartCell})
  {
    var draws := [StartCell, 1, 2, 3, 4];
    assert draws[1..] == [1, 2, 3, 4];
    assert draws[0] == StartCell && [] + [StartCell] == [StartCell];
    assert Filled([], draws, {}) == Filled([StartCell], draws[1..], {});
    FilledProperties([StartCell], draws[1..], {});
    assert [StartCell] == Filled([], draws, {})[..1];
    FilledProperties([], draws, {StartCell});
    assert Initial(Filled([], draws, {})).snake[0].position == StartCell;
  }
}
