/** The random level of a new skip-list node (`_generate_level`).

    The source flips a biased coin by drawing an `f64` from the thread RNG and
    comparing it with 0.5.  Here the RNG is a parameter: `draws[i]` holds when the
    i-th value drawn exceeds 0.5.  A draw past the end of `draws` reads as one that
    does not exceed 0.5, so every finite sequence determines a level. */
module Levels {

  /** Highest level index a node may reach; the loop guard stops climbing here. */
  const MaxLevel: nat := 20

  /** The level the coin-flip loop settles on once it stands at `level`, where the
      draw being looked at is `draws[level]`. */
  function LevelFrom(draws: seq<bool>, level: nat): (r: nat)
    requires level <= MaxLevel
    ensures level <= r <= MaxLevel
    decreases MaxLevel - level
  {
    if level < |draws| && draws[level] && level < MaxLevel then LevelFrom(draws, level + 1) else level
  }

  /** The level `_generate_level` returns for the draws `draws`. */
  function DrawnLevel(draws: seq<bool>): (r: nat)
    ensures r <= MaxLevel
  {
    LevelFrom(draws, 0)
  }

  /** Climbing from `level`, every level passed over was a winning draw, and the loop
      stops either at the cap or at the first losing draw. */
  lemma {:induction false} LevelFromStops(draws: seq<bool>, level: nat)
    requires level <= MaxLevel
    requires level <= |draws| && forall j :: 0 <= j < level ==> draws[j]
    ensures LevelFrom(draws, level) <= |draws|
    ensures forall j :: 0 <= j < LevelFrom(draws, level) ==> draws[j]
    ensures LevelFrom(draws, level) < MaxLevel ==>
              LevelFrom(draws, level) >= |draws| || !draws[LevelFrom(draws, level)]
    decreases MaxLevel - level
  {
    if level < |draws| && draws[level] && level < MaxLevel {
      LevelFromStops(draws, level + 1);
      assert LevelFrom(draws, level) == LevelFrom(draws, level + 1);
    } else {
      assert LevelFrom(draws, level) == level;
    }
  }

  /** The drawn level is the number of leading draws above 0.5, capped at MaxLevel:
      a new node's height `level + 1` never exceeds MaxLevel + 1 == 21. */
  lemma DrawnLevelCountsLeadingWins(draws: seq<bool>)
    ensures DrawnLevel(draws) <= MaxLevel
    ensures DrawnLevel(draws) <= |draws|
    ensures forall j :: 0 <= j < DrawnLevel(draws) ==> draws[j]
    ensures DrawnLevel(draws) == MaxLevel || DrawnLevel(draws) >= |draws| || !draws[DrawnLevel(draws)]
  {
    LevelFromStops(draws, 0);
  }

  /** `_generate_level`: start at 0 and climb while the current draw exceeds 0.5 and
      the level is below MaxLevel. */
  method GenerateLevel(draws: seq<bool>) returns (level: nat)
    ensures level <= MaxLevel
    ensures level == DrawnLevel(draws)
  {
    level := 0;
    var r := 0 < |draws| && draws[0];
    while r && level < MaxLevel
      invariant level <= MaxLevel
      invariant LevelFrom(draws, level) == DrawnLevel(draws)
      invariant r == (level < |draws| && draws[level])
      decreases MaxLevel - level
    {
      level := level + 1;
      r := level < |draws| && draws[level];
    }
  }
}
