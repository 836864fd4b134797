/**
 * Recipe level normalisation: the star-indexed adjustment table, the abort on
 * an unsupported star count and the hard-coded corrections for known
 * anomalies, plus the level-range listing categories derived from the
 * maximum level.
 */
module Levels {
  import opened Wrappers
  import opened Text

  /** Recipe base level -> [0-star adjustment, 1-star adjustment, ...]. */
  const LevelDiff: map<int, seq<nat>> := map[
    50 := [0, 5, 20, 40, 60],
    51 := [69], 52 := [73], 53 := [77], 54 := [79], 55 := [81],
    56 := [83], 57 := [85], 58 := [87], 59 := [89],
    60 := [90, 100, 120, 150, 190],
    61 := [199], 62 := [203], 63 := [207], 64 := [209], 65 := [211],
    66 := [213], 67 := [215], 68 := [217], 69 := [219],
    70 := [220, 230, 250, 280, 310],
    71 := [319], 72 := [323], 73 := [327], 74 := [329], 75 := [331],
    76 := [333], 77 := [335], 78 := [337], 79 := [339],
    80 := [350, 360, 370, 400, 430]
  ]

  /**
   * The effective levels the table's authors wrote beside each row, kept as
   * an independent reference: `LevelDiff` must reproduce them.
   */
  const DocumentedLevels: map<int, seq<int>> := map[
    50 := [50, 55, 70, 90, 110],
    51 := [120], 52 := [125], 53 := [130], 54 := [133], 55 := [136],
    56 := [139], 57 := [142], 58 := [145], 59 := [148],
    60 := [150, 160, 180, 210, 250],
    61 := [260], 62 := [265], 63 := [270], 64 := [273], 65 := [276],
    66 := [279], 67 := [282], 68 := [285], 69 := [288],
    70 := [290, 300, 320, 350, 380],
    71 := [390], 72 := [395], 73 := [400], 74 := [403], 75 := [406],
    76 := [409], 77 := [412], 78 := [415], 79 := [418],
    80 := [430, 440, 450, 480, 510]
  ]

  /** `level` and `stars` as computed for a recipe; `stars` is None where the page's stars are not read. */
  datatype RecipeLevel = RecipeLevel(level: int, stars: Option<nat>)

  /** The fatal condition raised (as SystemExit) when the table has no entry for the star count. */
  datatype LevelError = UnsupportedStars(baseLevel: int, stars: nat)

  /** A (base level, difficulty) pair whose level is 5 below what the table gives. */
  predicate LoweredByFive(baseLevel: int, difficulty: int) {
    || (baseLevel == 51 && (difficulty == 169 || difficulty == 339))
    || (baseLevel == 61 && (difficulty == 1116 || difficulty == 558))
  }

  /** The one (base level, stars, difficulty) triple whose level is 10 above what the table gives. */
  predicate RaisedByTen(baseLevel: int, stars: Option<nat>, difficulty: int) {
    baseLevel == 60 && stars == Some(3) && difficulty == 1764
  }

  /**
   * The level logic of fetch_recipe. `starCount` is the number of star
   * markers on the page; it is only looked at when the base level is a key
   * of the table.
   */
  function ComputeLevel(baseLevel: int, starCount: nat, difficulty: int): (r: Result<RecipeLevel, LevelError>)
    ensures r.Err? <==> baseLevel in LevelDiff && starCount >= |LevelDiff[baseLevel]|
    ensures r.Err? ==> r.error == UnsupportedStars(baseLevel, starCount)
    ensures r.Ok? ==> r.value.stars == (if baseLevel in LevelDiff then Some(starCount) else None)
    ensures baseLevel !in LevelDiff ==> r == Ok(RecipeLevel(baseLevel, None))
  {
    var looked :=
      if baseLevel !in LevelDiff then Ok(RecipeLevel(baseLevel, None))
      else if starCount < |LevelDiff[baseLevel]| then
        Ok(RecipeLevel(baseLevel + LevelDiff[baseLevel][starCount], Some(starCount)))
      else Err(UnsupportedStars(baseLevel, starCount));
    match looked
    case Err(e) => Err(e)
    case Ok(t) =>
      var level := if LoweredByFive(baseLevel, difficulty) then t.level - 5 else t.level;
      var level' := if RaisedByTen(baseLevel, t.stars, difficulty) then level + 10 else level;
      Ok(RecipeLevel(level', t.stars))
  }

  /**
   * The level logic as fetch_recipe spreads it out: the table lookup, then,
   * once the difficulty is known, the two corrections.
   */
  lemma ComputeLevelSteps(baseLevel: int, starCount: nat, difficulty: int, looked: int)
    requires !(baseLevel in LevelDiff && starCount >= |LevelDiff[baseLevel]|)
    requires looked == baseLevel + if baseLevel in LevelDiff then LevelDiff[baseLevel][starCount] else 0
    ensures var stars := if baseLevel in LevelDiff then Some(starCount) else None;
      var lowered := if LoweredByFive(baseLevel, difficulty) then looked - 5 else looked;
      ComputeLevel(baseLevel, starCount, difficulty)
      == Ok(RecipeLevel(if RaisedByTen(baseLevel, stars, difficulty) then lowered + 10 else lowered, stars))
  {
  }

  /** Every non-aborting computation yields a level no lower than the base level. */
  lemma LevelNotBelowBase(baseLevel: int, starCount: nat, difficulty: int)
    requires ComputeLevel(baseLevel, starCount, difficulty).Ok?
    ensures ComputeLevel(baseLevel, starCount, difficulty).value.level >= baseLevel
  {
    if LoweredByFive(baseLevel, difficulty) {
      assert LevelDiff[51] == [69] && LevelDiff[61] == [199];
    }
  }

  /**
   * Away from the corrected cases the level is exactly the documented one,
   * and the corrected cases differ from it by -5 or +10.
   */
  lemma ComputeLevelMatchesDocumented(baseLevel: int, starCount: nat, difficulty: int)
    requires baseLevel in LevelDiff && starCount < |LevelDiff[baseLevel]|
    ensures baseLevel in DocumentedLevels && starCount < |DocumentedLevels[baseLevel]|
    ensures ComputeLevel(baseLevel, starCount, difficulty).value.level
         == DocumentedLevels[baseLevel][starCount]
          - (if LoweredByFive(baseLevel, difficulty) then 5 else 0)
          + (if RaisedByTen(baseLevel, Some(starCount), difficulty) then 10 else 0)
  {
    TableMatchesDocumented();
  }

  /** The table reproduces, row by row, the levels written beside it. */
  lemma TableMatchesDocumented()
    ensures LevelDiff.Keys == DocumentedLevels.Keys
    ensures forall b :: b in LevelDiff ==> |LevelDiff[b]| == |DocumentedLevels[b]|
    ensures forall b, i :: b in LevelDiff && 0 <= i < |LevelDiff[b]| ==> b + LevelDiff[b][i] == DocumentedLevels[b][i]
  {
  }

  /** Within a row with several entries, more stars always mean a higher level. */
  lemma StarsRaiseLevel(baseLevel: int, s1: nat, s2: nat)
    requires baseLevel in LevelDiff && s1 < s2 < |LevelDiff[baseLevel]|
    ensures LevelDiff[baseLevel][s1] < LevelDiff[baseLevel][s2]
  {
  }

  /** The worked cases stated in the source's comments. */
  lemma WorkedExamples()
    ensures ComputeLevel(50, 2, 0) == Ok(RecipeLevel(70, Some(2)))
    ensures ComputeLevel(80, 4, 0) == Ok(RecipeLevel(510, Some(4)))
    ensures ComputeLevel(51, 0, 169) == Ok(RecipeLevel(115, Some(0)))
    ensures ComputeLevel(51, 0, 100) == Ok(RecipeLevel(120, Some(0)))
    ensures ComputeLevel(60, 3, 1764) == Ok(RecipeLevel(220, Some(3)))
    ensures ComputeLevel(50, 5, 0) == Err(UnsupportedStars(50, 5))
    ensures ComputeLevel(51, 1, 169) == Err(UnsupportedStars(51, 1))
    ensures ComputeLevel(49, 7, 0) == Ok(RecipeLevel(49, None))
  {
  }

  const MaxLevel := 80
  const NumAdditionalRecipeCategories := 7

  /**
   * Python's `range(start, stop, step)` for a positive step: the numbers
   * `start + step * i` below `stop`, and the next one would reach it.
   */
  function Range(start: nat, stop: int, step: nat): (r: seq<nat>)
    requires step > 0
    ensures forall i :: 0 <= i < |r| ==> r[i] == start + step * i && r[i] < stop
    ensures start + step * |r| >= stop
    decreases stop - start
  {
    if start >= stop then []
    else
      var rest := Range(start + step, stop, step);
      var r := [start] + rest;
      forall i | 1 <= i < |r| ensures r[i] == start + step * i {
        MulStep(step, i);
      }
      MulStep(step, |r|);
      r
  }

  lemma MulStep(step: nat, i: nat)
    requires i >= 1
    ensures step + step * (i - 1) == step * i
  {
  }

  /** The first level of each five-level listing bracket: `range(1, MAX_LEVEL, 5)`. */
  function RangeStarts(): seq<nat> {
    Range(1, MaxLevel, 5)
  }

  /** `LEVEL_RANGES`: "1-5", "6-10", ..., "76-80". */
  function LevelRanges(): (r: seq<string>)
    ensures |r| == |RangeStarts()|
  {
    var starts := RangeStarts();
    seq(|starts|, i requires 0 <= i < |starts| => Render(starts[i]) + "-" + Render(starts[i] + 4))
  }

  /** There are sixteen brackets, from "1-5" to "76-80". */
  lemma LevelRangesShape()
    ensures |RangeStarts()| == 16
    ensures |LevelRanges()| == 16 && LevelRanges()[0] == "1-5" && LevelRanges()[15] == "76-80"
  {
    var r := RangeStarts();
    assert 1 + 5 * |r| >= 80;
    assert 1 + 5 * (|r| - 1) == r[|r| - 1] < 80;
    assert r[0] == 1 && r[15] == 76;
    assert Render(1) == "1" && Render(5) == "5" && Render(76) == "76" && Render(80) == "80";
  }

  /** The brackets of `LEVEL_RANGES` tile 1..MAX_LEVEL with no gap and no overlap. */
  lemma RangeStartsTileLevels(level: int)
    requires 1 <= level <= MaxLevel
    ensures exists i :: 0 <= i < |RangeStarts()| && RangeStarts()[i] <= level <= RangeStarts()[i] + 4
    ensures forall i, j :: 0 <= i < j < |RangeStarts()| ==> RangeStarts()[i] + 4 < RangeStarts()[j]
  {
    LevelRangesShape();
    var i := (level - 1) / 5;
    assert RangeStarts()[i] <= level <= RangeStarts()[i] + 4;
  }

  /** `RECIPE_LINK_CATEGORIES`: "0" .. "15" for the level brackets, then "c1" .. "c7". */
  function RecipeLinkCategories(): (r: seq<string>)
    ensures |r| == |LevelRanges()| + NumAdditionalRecipeCategories
  {
    var n := |LevelRanges()|;
    seq(n, i requires 0 <= i => Render(i))
      + seq(NumAdditionalRecipeCategories, c requires 0 <= c => "c" + Render(c + 1))
  }

  /** Twenty-three categories: "0" to "15", then "c1" to "c7". */
  lemma RecipeLinkCategoriesShape()
    ensures var r := RecipeLinkCategories();
      && |r| == 23
      && r[0] == "0" && r[15] == "15" && r[16] == "c1" && r[22] == "c7"
  {
    LevelRangesShape();
    assert Render(0) == "0" && Render(15) == "15" && Render(1) == "1" && Render(7) == "7";
  }

  lemma RenderDistinct(a: nat, b: nat)
    requires a != b
    ensures Render(a) != Render(b)
  {
  }

  /** No listing category is paginated twice. */
  lemma RecipeLinkCategoriesDistinct()
    ensures forall i, j :: 0 <= i < j < |RecipeLinkCategories()| ==> RecipeLinkCategories()[i] != RecipeLinkCategories()[j]
  {
    var r := RecipeLinkCategories();
    var n := |LevelRanges()|;
    forall i, j | 0 <= i < j < |r|
      ensures r[i] != r[j]
    {
      if j < n {
        assert r[i] == Render(i) && r[j] == Render(j);
        RenderDistinct(i, j);
      } else if i < n {
        assert r[i] == Render(i) && r[j] == "c" + Render(j - n + 1);
        assert IsDigit(r[i][0]) && !IsDigit(r[j][0]);
      } else {
        var a, b := Render(i - n + 1), Render(j - n + 1);
        assert r[i] == "c" + a && r[j] == "c" + b;
        assert a == r[i][1..] && b == r[j][1..];
        RenderDistinct(i - n + 1, j - n + 1);
      }
    }
  }
}
