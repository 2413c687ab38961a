/** The shared score counter (class `Score`). */
module Scoring {

  class Score {
    var score: int

    /** A new counter starts at zero. */
    constructor ()
      ensures score == 0
    {
      score := 0;
    }

    /** `add(points)`: the score moves by exactly `points`. */
    method Add(points: int)
      modifies this
      ensures score == old(score) + points
    {
      score := score + points;
    }

    /** `reduce(points)`: called by BarrierBox but NOT defined by the Score class
        of the modelled sources, where the call would throw a TypeError. Modelled
        as the call evidently means it, the counterpart of `Add`. */
    method Reduce(points: int)
      modifies this
      ensures score == old(score) - points
    {
      score := score - points;
    }
  }

  /** Two successive `add` calls have the effect of one `add` of their sum. */
  method AddTwiceIsAddOfSum(s: Score, t: Score, a: int, b: int)
    requires s != t && s.score == t.score
    modifies s, t
    ensures s.score == t.score == old(s.score) + (a + b)
  {
    s.Add(a);
    s.Add(b);
    t.Add(a + b);
  }

  /** `add(0)` leaves the score as it was. */
  method AddZeroIsNoOp(s: Score)
    modifies s
    ensures s.score == old(s.score)
  {
    s.Add(0);
  }
}
