/** Evolution policy and difficulty: the two pure helpers of the game,
    level -> evolution stage and level -> speed multiplier. */
module Evolution {
  import opened GameConfig

  /** The stage the alien has at `level`: one more for every five levels,
      capped at the last stage. */
  function EvolutionStage(level: nat): (stage: nat)
    ensures 1 <= stage <= MaxEvolutionStage
    ensures stage == MaxEvolutionStage <==> level >= (MaxEvolutionStage - 1) * EvolutionLevelInterval
    ensures stage < MaxEvolutionStage ==>
      (stage - 1) * EvolutionLevelInterval <= level < stage * EvolutionLevelInterval
  {
    var s := level / EvolutionLevelInterval + 1;
    if s < MaxEvolutionStage then s else MaxEvolutionStage
  }

  /** The factor applied to the base meteorite speed at `level`. */
  function SpeedMultiplier(level: nat): (m: real)
    ensures m >= 1.0
    ensures m == 1.0 <==> level == 0
  {
    1.0 + level as real * SpeedIncrement
  }

  /** The speed a meteorite is given when it is spawned at `level`. */
  function SpawnSpeed(level: nat): (v: real)
    ensures v >= BaseMeteoriteSpeed
  {
    BaseMeteoriteSpeed * SpeedMultiplier(level)
  }

  /** The stage never decreases as the level grows. */
  lemma EvolutionStageMonotone(l1: nat, l2: nat)
    requires l1 <= l2
    ensures EvolutionStage(l1) <= EvolutionStage(l2)
  {
  }

  /** One more level raises the stage by at most one, and it raises it
      exactly when the new level is a positive multiple of five no larger than
      the level at which the last stage is reached. */
  lemma EvolutionStep(level: nat)
    ensures EvolutionStage(level + 1) == EvolutionStage(level)
         || EvolutionStage(level + 1) == EvolutionStage(level) + 1
    ensures EvolutionStage(level + 1) > EvolutionStage(level) <==>
      ((level + 1) % EvolutionLevelInterval == 0 &&
       level + 1 <= (MaxEvolutionStage - 1) * EvolutionLevelInterval)
  {
  }

  /** Level 5 is the first level of stage 2; every level below it is stage 1. */
  lemma FirstEvolution()
    ensures EvolutionStage(5) == 2
    ensures forall l: nat :: l < 5 ==> EvolutionStage(l) == 1
  {
  }

  /** The multiplier grows by exactly one increment per level, so it is
      strictly increasing. */
  lemma SpeedMultiplierIncreasing(l1: nat, l2: nat)
    requires l1 < l2
    ensures SpeedMultiplier(l1) < SpeedMultiplier(l2)
    ensures SpeedMultiplier(l2) - SpeedMultiplier(l1) == (l2 - l1) as real * SpeedIncrement
  {
  }
}
