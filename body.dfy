/**
 * The snake's body in main.js: an ordered list of segments, head at index
 * 0 and tail at the last index, with the growth step, the tail-to-head
 * shift and the self-bite query of `updateVariables`.
 */
module Body {
  import opened Grid

  /** One unit of the snake: its cell and whether food is passing through it. */
  datatype Segment = Segment(position: int, isDigesting: bool)

  function Tail(s: seq<Segment>): Segment
    requires |s| >= 1
  {
    s[|s| - 1]
  }

  /** Number of segments carrying food; each will add one segment once it reaches the tail. */
  function DigestCount(s: seq<Segment>): (n: nat)
    ensures n <= |s|
  {
    if s == [] then 0
    else DigestCount(s[..|s| - 1]) + (if Tail(s).isDigesting then 1 else 0)
  }

  /** Some segment of `s` occupies cell `q`. */
  function Occupies(s: seq<Segment>, q: int): (r: bool)
    ensures r <==> exists i :: 0 <= i < |s| && s[i].position == q
  {
    if s == [] then false else s[0].position == q || Occupies(s[1..], q)
  }

  ghost predicate AllOnGrid(s: seq<Segment>)
  {
    forall i :: 0 <= i < |s| ==> OnGrid(s[i].position)
  }

  ghost predicate DistinctPositions(s: seq<Segment>)
  {
    forall i, j :: 0 <= i < j < |s| ==> s[i].position != s[j].position
  }

  /**
   * Growth (main.js:100-107): when the tail is digesting, a non-digesting
   * segment is appended on the tail's cell and the tail's flag is cleared.
   * One unit of digestion becomes one unit of length, no new cell is
   * occupied, and the snake never gets shorter.
   */
  function Grow(s: seq<Segment>): (r: seq<Segment>)
    requires |s| >= 1
    ensures |r| >= |s| && |r| <= |s| + 1
    ensures |r| + DigestCount(r) == |s| + DigestCount(s)
    ensures r[..|s| - 1] == s[..|s| - 1]
    ensures r[|s| - 1].position == Tail(s).position && Tail(r).position == Tail(s).position
    ensures !Tail(r).isDigesting
    ensures Tail(s).isDigesting ==> |r| == |s| + 1 && !r[|s| - 1].isDigesting
    ensures !Tail(s).isDigesting ==> r == s
    ensures forall q :: Occupies(r, q) <==> Occupies(s, q)
  {
    var tail := Tail(s);
    if tail.isDigesting then
      var r := s[..|s| - 1] + [Segment(tail.position, false)] + [Segment(tail.position, false)];
      assert r[..|r| - 1][..|s| - 1] == s[..|s| - 1];
      assert s == s[..|s| - 1] + [tail];
      r
    else
      s
  }

  /**
   * The shift loop (main.js:113-116) as a value: every segment after the
   * head takes what its predecessor held, the head stays as it was and the
   * old tail's content drops off the end.
   */
  function Shifted(s: seq<Segment>): (r: seq<Segment>)
    requires |s| >= 1
    ensures |r| == |s| && r[0] == s[0]
    ensures forall i :: 0 < i < |s| ==> r[i] == s[i - 1]
  {
    [s[0]] + s[..|s| - 1]
  }

  /** isBitingItself: some segment other than the one at index 0 sits on cell `q`. */
  function IsBitingItself(body: seq<Segment>, q: int): (r: bool)
    ensures r <==> exists i :: 1 <= i < |body| && body[i].position == q
  {
    if body == [] then false
    else
      var rest := body[1..];
      assert forall i :: 1 <= i < |body| ==> body[i] == rest[i - 1];
      Occupies(rest, q)
  }

  lemma {:induction false} DigestCountAppend(a: seq<Segment>, b: seq<Segment>)
    ensures DigestCount(a + b) == DigestCount(a) + DigestCount(b)
    decreases |b|
  {
    if b == [] {
      assert a + b == a;
    } else {
      var b' := b[..|b| - 1];
      assert (a + b)[..|a + b| - 1] == a + b';
      DigestCountAppend(a, b');
    }
  }
}
