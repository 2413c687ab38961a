/** The static barrier that costs the player a point on contact (class `BarrierBox`). */
module Barrier {
  import opened Collision
  import opened Scoring

  /** No penalty until this many milliseconds after the barrier was built. */
  const StartGraceMs: int := 2000
  /** A penalty needs strictly more than this many milliseconds since the previous one. */
  const CooldownMs: int := 1000
  /** Points taken per penalty. */
  const PenaltyPoints: int := 1

  /** Whether a collision with `other` at time `now` (milliseconds) costs a point. */
  function Penalizes(gameStartTime: int, lastCollisionTime: int, other: BodyTag, now: int): (r: bool)
    ensures r ==> IsCar(other)
    ensures r ==> now >= gameStartTime + StartGraceMs && now > lastCollisionTime + CooldownMs
    ensures IsCar(other) && now >= gameStartTime + StartGraceMs && now > lastCollisionTime + CooldownMs ==> r
  {
    if !IsCar(other) then false
    else if now - gameStartTime < StartGraceMs then false
    else now - lastCollisionTime > CooldownMs
  }

  /** Successive entries of the penalty log lie more than the cooldown apart. */
  ghost predicate Spaced(log: seq<int>) {
    forall k :: 0 < k < |log| ==> log[k] - log[k - 1] > CooldownMs
  }

  lemma {:induction false} SpacedPair(log: seq<int>, i: nat, j: nat)
    requires Spaced(log) && i < j < |log|
    ensures log[j] - log[i] > CooldownMs
    decreases j - i
  {
    assert log[j] - log[j - 1] > CooldownMs;
    if i < j - 1 {
      SpacedPair(log, i, j - 1);
    }
  }

  /** Any two penalties, not only successive ones, are more than the cooldown apart. */
  lemma PenaltiesPairwiseApart(log: seq<int>)
    requires Spaced(log)
    ensures forall i, j :: 0 <= i < j < |log| ==> log[j] - log[i] > CooldownMs
  {
    forall i, j | 0 <= i < j < |log| ensures log[j] - log[i] > CooldownMs {
      SpacedPair(log, i, j);
    }
  }

  class BarrierBox {
    const score: Score
    const gameStartTime: int
    const tag: BodyTag
    var lastCollisionTime: int
    /** The times at which this barrier took a point, oldest first. */
    ghost var penalties: seq<int>

    /** Penalties are spaced by the cooldown, none falls in the start grace,
        and `lastCollisionTime` is the latest one (0 before any). */
    ghost predicate Valid()
      reads this
    {
      && Spaced(penalties)
      && (forall k :: 0 <= k < |penalties| ==> penalties[k] >= gameStartTime + StartGraceMs)
      && lastCollisionTime == (if penalties == [] then 0 else penalties[|penalties| - 1])
    }

    /** `now` is `Date.now()` at construction; the physics body and hit marker are not modelled. */
    constructor (score: Score, now: int)
      ensures Valid()
      ensures this.score == score && gameStartTime == now && tag == Tagged("BarrierBox")
      ensures lastCollisionTime == 0 && penalties == []
    {
      this.score := score;
      gameStartTime := now;
      tag := Tagged("BarrierBox");
      lastCollisionTime := 0;
      penalties := [];
    }

    /** `onCollision` with `other` at time `now`: at most one point, under both debounces. */
    method OnCollision(other: BodyTag, now: int)
      requires Valid()
      modifies this, score
      ensures Valid()
      ensures Penalizes(gameStartTime, old(lastCollisionTime), other, now) ==>
        && score.score == old(score.score) - PenaltyPoints
        && lastCollisionTime == now
        && penalties == old(penalties) + [now]
      ensures !Penalizes(gameStartTime, old(lastCollisionTime), other, now) ==>
        && score.score == old(score.score)
        && lastCollisionTime == old(lastCollisionTime)
        && penalties == old(penalties)
    {
      if IsCar(other) {
        var currentTime := now;
        if currentTime - gameStartTime < StartGraceMs {
          return;
        }
        if currentTime - lastCollisionTime > CooldownMs {
          score.Reduce(PenaltyPoints);
          lastCollisionTime := currentTime;
          penalties := penalties + [currentTime];
        }
      }
    }
  }
}
