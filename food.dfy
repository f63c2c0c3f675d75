/**
 * The food list of main.js: at most five distinct cells, chosen once by
 * `generateFood` and consumed one by one with `removeFromArray`.
 */
module Food {
  /** The number of food cells `generateFood` collects before it stops. */
  const FoodCount: int := 5

  ghost predicate NoDuplicates(xs: seq<int>)
  {
    forall i, j :: 0 <= i < j < |xs| ==> xs[i] != xs[j]
  }

  /**
   * removeFromArray: `array.filter(item => item !== element)`. Every
   * occurrence of `x` goes, everything else stays with its multiplicity.
   */
  function RemoveFromArray(xs: seq<int>, x: int): (r: seq<int>)
    ensures forall y :: y in r <==> y in xs && y != x
  {
    if xs == [] then []
    else
      assert xs == [xs[0]] + xs[1..];
      if xs[0] != x then [xs[0]] + RemoveFromArray(xs[1..], x)
      else RemoveFromArray(xs[1..], x)
  }

  /** Every cell other than `x` keeps its multiplicity; `x` keeps none. */
  lemma {:induction false} RemoveCounts(xs: seq<int>, x: int)
    ensures multiset(RemoveFromArray(xs, x)) == multiset(xs)[x := 0]
    decreases |xs|
  {
    if xs != [] {
      assert xs == [xs[0]] + xs[1..];
      RemoveCounts(xs[1..], x);
    }
  }

  /** Removing a cell that is not in the list leaves the list as it was. */
  lemma {:induction false} RemoveAbsent(xs: seq<int>, x: int)
    requires x !in xs
    ensures RemoveFromArray(xs, x) == xs
    decreases |xs|
  {
    if xs != [] {
      RemoveAbsent(xs[1..], x);
      assert xs == [xs[0]] + xs[1..];
    }
  }

  /**
   * In a list without duplicates, removing the cell at index `k` closes the
   * gap: the other cells keep their order, and the list stays duplicate-free.
   */
  lemma {:induction false} RemoveKeepsOrder(xs: seq<int>, k: int)
    requires NoDuplicates(xs) && 0 <= k < |xs|
    ensures RemoveFromArray(xs, xs[k]) == xs[..k] + xs[k + 1..]
    ensures |RemoveFromArray(xs, xs[k])| == |xs| - 1
    ensures NoDuplicates(RemoveFromArray(xs, xs[k]))
    decreases |xs|
  {
    RemoveClosesGap(xs, k);
    var r := xs[..k] + xs[k + 1..];
    forall i, j | 0 <= i < j < |r| ensures r[i] != r[j] {
      var i' := if i < k then i else i + 1;
      var j' := if j < k then j else j + 1;
      assert r[i] == xs[i'] && r[j] == xs[j'];
    }
  }

  lemma {:induction false} RemoveClosesGap(xs: seq<int>, k: int)
    requires NoDuplicates(xs) && 0 <= k < |xs|
    ensures RemoveFromArray(xs, xs[k]) == xs[..k] + xs[k + 1..]
    decreases |xs|
  {
    var x := xs[k];
    var tl := xs[1..];
    if k == 0 {
      assert x !in tl by {
        forall j | 0 <= j < |tl| ensures tl[j] != x {
          assert tl[j] == xs[j + 1];
        }
      }
      RemoveAbsent(tl, x);
      assert xs[k + 1..] == tl;
    } else {
      assert xs[0] != x;
      assert tl[k - 1] == x;
      assert NoDuplicates(tl) by {
        forall i, j | 0 <= i < j < |tl| ensures tl[i] != tl[j] {
          assert tl[i] == xs[i + 1] && tl[j] == xs[j + 1];
        }
      }
      RemoveClosesGap(tl, k - 1);
      calc {
        RemoveFromArray(xs, x);
        [xs[0]] + RemoveFromArray(tl, x);
        [xs[0]] + (tl[..k - 1] + tl[k..]);
        { assert [xs[0]] + tl[..k - 1] == xs[..k]; assert tl[k..] == xs[k + 1..]; }
        xs[..k] + xs[k + 1..];
      }
    }
  }

  /**
   * The cells `generateFood` (main.js:63-69) collects when its random draws
   * are `candidates`: a draw is kept when it is not already food and not in
   * `avoid`, and drawing stops once there are FoodCount cells or the draws
   * run out.
   */
  function Filled(food: seq<int>, candidates: seq<int>, avoid: set<int>): seq<int>
    requires |food| <= FoodCount
    decreases |candidates|
  {
    if |food| == FoodCount || candidates == [] then food
    else
      var c := candidates[0];
      if c !in food && c !in avoid then Filled(food + [c], candidates[1..], avoid)
      else Filled(food, candidates[1..], avoid)
  }

  /**
   * What `generateFood` guarantees: the old food is kept as a prefix, the
   * list holds at most FoodCount distinct cells, each an old cell or a draw
   * outside `avoid`, and it is full unless every usable draw was taken.
   */
  lemma {:induction false} FilledProperties(food: seq<int>, candidates: seq<int>, avoid: set<int>)
    requires |food| <= FoodCount && NoDuplicates(food)
    requires forall x :: x in food ==> x !in avoid
    ensures var r := Filled(food, candidates, avoid);
      |food| <= |r| <= FoodCount && r[..|food|] == food && NoDuplicates(r) &&
      (forall x :: x in r ==> x !in avoid && (x in food || x in candidates)) &&
      (|r| == FoodCount || forall c :: c in candidates ==> c in avoid || c in r)
    decreases |candidates|
  {
    if |food| == FoodCount || candidates == [] {
    } else {
      var c := candidates[0];
      var rest := candidates[1..];
      assert candidates == [c] + rest;
      if c !in food && c !in avoid {
        var food' := food + [c];
        assert food'[..|food|] == food;
        FilledProperties(food', rest, avoid);
      } else {
        FilledProperties(food, rest, avoid);
      }
    }
  }
}
