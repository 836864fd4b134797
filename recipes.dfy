/**
 * fetch_recipe: one recipe record assembled from its database page in each
 * language. The English page gives the id, the level data, the craft data
 * and the characteristics; every page gives the name in its language.
 *
 * A page is the text the XPath queries select from it; the star count is
 * the number of star markers found.
 */
module Recipes {
  import opened Wrappers
  import opened Text
  import opened Seqs
  import opened Levels
  import opened Locales

  /** What fetch_recipe reads from one language's page. */
  datatype RecipePage = RecipePage(
    embedCode: string,
    baseLevelText: string,
    starCount: nat,
    difficultyText: string,
    durabilityText: string,
    maxQualityText: string,
    characteristics: seq<string>,
    heading: string)

  /**
   * The recipe dict. An optional key that the dict does not carry is None;
   * `name` maps each language to the recipe's name in it.
   */
  datatype Recipe = Recipe(
    id: string,
    name: map<string, string>,
    baseLevel: int,
    level: int,
    difficulty: int,
    durability: int,
    maxQuality: int,
    stars: Option<nat>,
    aspect: Option<string>,
    suggestedCraftsmanship: Option<nat>,
    suggestedControl: Option<nat>)

  /** Why fetch_recipe raised: no embed id, a field `int()` rejects, or the fatal star-count abort. */
  datatype RecipeError = EmbedIdNotFound | NotANumber(field: string) | Level(error: LevelError)

  predicate NotNewline(c: char) {
    c != '\n'
  }

  const AspectPrefix: string := "Aspect: "

  /** `ASPECT_RE.match(line).group(1)` for `Aspect: (.+)`: the rest of the first line, if any. */
  function MatchAspect(line: string): (r: Option<string>)
    ensures r.Some? ==> |r.value| > 0 && forall i :: 0 <= i < |r.value| ==> r.value[i] != '\n'
  {
    if !StartsWith(line, AspectPrefix) then None
    else
      var rest := line[|AspectPrefix|..];
      var n := Span(rest, NotNewline);
      if n == 0 then None else Some(rest[..n])
  }

  /**
   * `int(RE.match(line).group(1))` for `<stat> (?:Required|Recommended): ([0-9]+)`:
   * the value after either label.
   */
  function MatchSuggested(stat: string, line: string): Option<nat> {
    var required := stat + " Required: ";
    var recommended := stat + " Recommended: ";
    var rest :=
      if StartsWith(line, required) then Some(line[|required|..])
      else if StartsWith(line, recommended) then Some(line[|recommended|..])
      else None;
    match rest
    case None => None
    case Some(r) =>
      var n := DigitRun(r);
      if n == 0 then None else Some(DecimalValue(r[..n]))
  }

  /** An aspect line gives back the text written after the label, up to the end of its line. */
  lemma MatchAspectRoundTrip(aspect: string, tail: string)
    requires |aspect| > 0 && forall i :: 0 <= i < |aspect| ==> aspect[i] != '\n'
    requires tail == [] || tail[0] == '\n'
    ensures MatchAspect(AspectPrefix + aspect + tail) == Some(aspect)
  {
    var line := AspectPrefix + aspect + tail;
    assert StartsWith(line, AspectPrefix);
    var rest := line[|AspectPrefix|..];
    assert rest == aspect + tail;
    assert forall i :: 0 <= i < |aspect| ==> NotNewline(rest[i]);
    if tail == [] {
      assert rest == aspect;
    } else {
      assert !NotNewline(rest[|aspect|]);
    }
    assert rest[..|aspect|] == aspect;
  }

  function SuggestedLabel(stat: string, recommended: bool): string {
    stat + (if recommended then " Recommended: " else " Required: ")
  }

  /** A suggested-stat line gives back the number written after either label. */
  lemma MatchSuggestedRoundTrip(stat: string, recommended: bool, v: nat, tail: string)
    requires tail == [] || !IsDigit(tail[0])
    ensures MatchSuggested(stat, SuggestedLabel(stat, recommended) + Render(v) + tail) == Some(v)
  {
    var prefix := SuggestedLabel(stat, recommended);
    var digits := Render(v);
    var line := prefix + digits + tail;
    assert StartsWith(line, prefix);
    if recommended {
      var required := stat + " Required: ";
      assert line[|stat| + 3] == 'c' != required[|stat| + 3];
    }
    var rest := line[|prefix|..];
    assert rest == digits + tail;
    DigitRunOf(digits, tail);
    assert rest[..|digits|] == digits;
  }

  function AspectLine(line: string): Option<string> {
    MatchAspect(Strip(line))
  }

  function CraftsmanshipLine(line: string): Option<nat> {
    MatchSuggested("Craftsmanship", Strip(line))
  }

  function ControlLine(line: string): Option<nat> {
    MatchSuggested("Control", Strip(line))
  }

  /**
   * The loop over the characteristic lines: each stripped line is tried
   * against the three patterns, and a match overwrites what an earlier
   * line set.
   */
  method ScanCharacteristics(lines: seq<string>)
      returns (aspect: Option<string>, craftsmanship: Option<nat>, control: Option<nat>)
    ensures aspect == LastMatch(lines, AspectLine)
    ensures craftsmanship == LastMatch(lines, CraftsmanshipLine)
    ensures control == LastMatch(lines, ControlLine)
  {
    aspect, craftsmanship, control := None, None, None;
    for i := 0 to |lines|
      invariant aspect == LastMatch(lines[..i], AspectLine)
      invariant craftsmanship == LastMatch(lines[..i], CraftsmanshipLine)
      invariant control == LastMatch(lines[..i], ControlLine)
    {
      var line := Strip(lines[i]);
      LastMatchPrefix(lines, i, AspectLine);
      LastMatchPrefix(lines, i, CraftsmanshipLine);
      LastMatchPrefix(lines, i, ControlLine);
      var m := MatchAspect(line);
      if m.Some? {
        aspect := m;
      }
      var c := MatchSuggested("Craftsmanship", line);
      if c.Some? {
        craftsmanship := c;
      }
      var k := MatchSuggested("Control", line);
      if k.Some? {
        control := k;
      }
    }
    assert lines[..|lines|] == lines;
  }

  /** `if x:` on an optional count: present and non-zero. */
  function NonZero(x: Option<nat>): (r: Option<nat>)
    ensures r.Some? <==> x.Some? && x.value != 0
    ensures r.Some? ==> r == x
  {
    if x.Some? && x.value != 0 then x else None
  }

  /** `if x:` on an optional string: present and non-empty. */
  function NonEmpty(x: Option<string>): (r: Option<string>)
    ensures r.Some? <==> x.Some? && x.value != ""
    ensures r.Some? ==> r == x
  {
    if x.Some? && x.value != "" then x else None
  }

  /**
   * What fetch_recipe reads off the English page, each field as parsed:
   * None where the embed-id match fails or `int()` raises, and the last
   * match of each characteristic pattern.
   */
  datatype Readings = Readings(
    id: Option<string>,
    baseLevel: Option<int>,
    starCount: nat,
    difficulty: Option<int>,
    durability: Option<int>,
    maxQuality: Option<int>,
    aspect: Option<string>,
    craftsmanship: Option<nat>,
    control: Option<nat>)

  function ReadEnglish(en: RecipePage): Readings {
    var lines := en.characteristics;
    Readings(MatchDbId(en.embedCode), ParseInt(en.baseLevelText), en.starCount,
      ParseInt(en.difficultyText), ParseInt(en.durabilityText), ParseInt(en.maxQualityText),
      LastMatch(lines, AspectLine), LastMatch(lines, CraftsmanshipLine), LastMatch(lines, ControlLine))
  }

  /** The base level has a row in LEVEL_DIFF too short for the star count: the fatal abort. */
  predicate StarsUnsupported(baseLevel: int, starCount: nat) {
    baseLevel in LevelDiff && starCount >= |LevelDiff[baseLevel]|
  }

  /**
   * A record written from the readings `rd`: the id, base level and craft
   * data as read; the names given; the level as LEVEL_DIFF and its
   * corrections make it; each optional key present exactly when its value
   * is truthy.
   */
  predicate RecordAsRead(rd: Readings, names: map<string, string>, r: Recipe) {
    && rd.id == Some(r.id)
    && rd.baseLevel == Some(r.baseLevel)
    && rd.difficulty == Some(r.difficulty)
    && rd.durability == Some(r.durability)
    && rd.maxQuality == Some(r.maxQuality)
    && r.name == names
    && ComputeLevel(r.baseLevel, rd.starCount, r.difficulty)
       == Ok(RecipeLevel(r.level, if r.baseLevel in LevelDiff then Some(rd.starCount) else None))
    && (r.stars.Some? <==> r.baseLevel in LevelDiff && rd.starCount > 0)
    && (r.stars.Some? ==> r.stars.value == rd.starCount)
    && (r.aspect.Some? <==> rd.aspect.Some? && rd.aspect.value != "")
    && (r.aspect.Some? ==> r.aspect == rd.aspect)
    && (r.suggestedCraftsmanship.Some? <==> rd.craftsmanship.Some? && rd.craftsmanship.value > 0)
    && (r.suggestedCraftsmanship.Some? ==> r.suggestedCraftsmanship == rd.craftsmanship)
    && (r.suggestedControl.Some? <==> rd.control.Some? && rd.control.value > 0)
    && (r.suggestedControl.Some? ==> r.suggestedControl == rd.control)
  }

  /**
   * The record fetch_recipe returns, or the error it raises, in the order
   * the source checks: embed id, base level, star count, then the three
   * craft-data numbers. Parsing is pure, so reading every field first
   * changes nothing but the order of evaluation. A record has the fields
   * as read, the level from LEVEL_DIFF and its corrections, and each
   * optional key present exactly when its value is truthy, so zero stars
   * and a suggested value of 0 are left out.
   */
  function Assemble(rd: Readings, names: map<string, string>): (res: Result<Recipe, RecipeError>)
    ensures res.Ok? ==> RecordAsRead(rd, names, res.value)
  {
    match rd.id
    case None => Err(EmbedIdNotFound)
    case Some(id) =>
      match rd.baseLevel
      case None => Err(NotANumber("level"))
      case Some(base) =>
        if StarsUnsupported(base, rd.starCount) then
          Err(Level(UnsupportedStars(base, rd.starCount)))
        else
          match rd.difficulty
          case None => Err(NotANumber("Difficulty"))
          case Some(difficulty) =>
            match rd.durability
            case None => Err(NotANumber("Durability"))
            case Some(durability) =>
              match rd.maxQuality
              case None => Err(NotANumber("Maximum Quality"))
              case Some(maxQuality) =>
                var lv := ComputeLevel(base, rd.starCount, difficulty).value;
                Ok(Recipe(id, names, base, lv.level, difficulty, durability, maxQuality,
                  NonZero(lv.stars), NonEmpty(rd.aspect), NonZero(rd.craftsmanship), NonZero(rd.control)))
  }

  /** fetch_recipe's result on the pages of one recipe, one per language. */
  function RecipeOf(pages: map<string, RecipePage>): Result<Recipe, RecipeError>
    requires forall l :: l in Langs ==> l in pages
  {
    Assemble(ReadEnglish(pages["en"]), NamesOf(Headings(pages, (p: RecipePage) => p.heading), Langs))
  }

  /** fetch_recipe on the pages of one recipe in every language. */
  method FetchRecipe(pages: map<string, RecipePage>) returns (r: Result<Recipe, RecipeError>)
    requires forall l :: l in Langs ==> l in pages
    ensures r == RecipeOf(pages)
  {
    var tree := pages["en"];
    var recipeId := MatchDbId(tree.embedCode);
    if recipeId.None? {
      return Err(EmbedIdNotFound);
    }
    var baseLevel := ParseInt(tree.baseLevelText);
    if baseLevel.None? {
      return Err(NotANumber("level"));
    }
    var base := baseLevel.value;
    var stars: Option<nat> := None;
    var levelAdjustment := 0;
    if base in LevelDiff {
      stars := Some(tree.starCount);
      if tree.starCount >= |LevelDiff[base]| {
        return Err(Level(UnsupportedStars(base, tree.starCount)));
      }
      levelAdjustment := LevelDiff[base][tree.starCount];
    }
    var level := base + levelAdjustment;
    ghost var looked := level;
    var difficulty := ParseInt(tree.difficultyText);
    if difficulty.None? {
      return Err(NotANumber("Difficulty"));
    }
    var durability := ParseInt(tree.durabilityText);
    if durability.None? {
      return Err(NotANumber("Durability"));
    }
    var maxQuality := ParseInt(tree.maxQualityText);
    if maxQuality.None? {
      return Err(NotANumber("Maximum Quality"));
    }
    if LoweredByFive(base, difficulty.value) {
      level := level - 5;
    }
    if RaisedByTen(base, stars, difficulty.value) {
      level := level + 10;
    }
    ComputeLevelSteps(base, tree.starCount, difficulty.value, looked);
    var aspect, craftsmanship, control := ScanCharacteristics(tree.characteristics);
    var names := CollectNames(Headings(pages, (p: RecipePage) => p.heading));
    ghost var rd := ReadEnglish(tree);
    assert rd == Readings(recipeId, baseLevel, tree.starCount, difficulty, durability, maxQuality,
      aspect, craftsmanship, control);
    r := Ok(Recipe(recipeId.value, names, base, level, difficulty.value, durability.value, maxQuality.value,
      NonZero(stars), NonEmpty(aspect), NonZero(craftsmanship), NonZero(control)));
  }

  /** The id and base level were read, and the star count is supported. */
  predicate ReadThroughStars(rd: Readings) {
    rd.id.Some? && rd.baseLevel.Some? && !StarsUnsupported(rd.baseLevel.value, rd.starCount)
  }

  /**
   * fetch_recipe raises exactly when a field fails to read or the star
   * count is unsupported, and the error names the first failure in the
   * source's order.
   */
  lemma AssembleErrors(rd: Readings, names: map<string, string>)
    ensures var r := Assemble(rd, names);
      && (r.Ok? <==> rd.id.Some? && rd.baseLevel.Some? && !StarsUnsupported(rd.baseLevel.value, rd.starCount)
                     && rd.difficulty.Some? && rd.durability.Some? && rd.maxQuality.Some?)
      && (rd.id.None? ==> r == Err(EmbedIdNotFound))
      && (rd.id.Some? && rd.baseLevel.None? ==> r == Err(NotANumber("level")))
      && (rd.id.Some? && rd.baseLevel.Some? && StarsUnsupported(rd.baseLevel.value, rd.starCount)
          ==> r == Err(Level(UnsupportedStars(rd.baseLevel.value, rd.starCount))))
      && (ReadThroughStars(rd) && rd.difficulty.None? ==> r == Err(NotANumber("Difficulty")))
      && (ReadThroughStars(rd) && rd.difficulty.Some? && rd.durability.None?
          ==> r == Err(NotANumber("Durability")))
      && (ReadThroughStars(rd) && rd.difficulty.Some? && rd.durability.Some? && rd.maxQuality.None?
          ==> r == Err(NotANumber("Maximum Quality")))
  {
  }

  /** A recipe's level never falls below its base level. */
  lemma RecipeLevelNotBelowBase(rd: Readings, names: map<string, string>)
    requires Assemble(rd, names).Ok?
    ensures Assemble(rd, names).value.level >= Assemble(rd, names).value.baseLevel
  {
    var r := Assemble(rd, names).value;
    LevelNotBelowBase(r.baseLevel, rd.starCount, r.difficulty);
  }

  /** A 50-base recipe with five stars aborts before its craft data is read, whatever that says. */
  lemma UnsupportedStarsAborts(rd: Readings, names: map<string, string>)
    requires rd.id.Some? && rd.baseLevel == Some(50) && rd.starCount == 5
    ensures Assemble(rd, names) == Err(Level(UnsupportedStars(50, 5)))
  {
    assert 50 in LevelDiff && |LevelDiff[50]| == 5;
  }

  /** The characteristics set the aspect exactly when one of the lines matches. */
  lemma ReadAspect(en: RecipePage)
    ensures ReadEnglish(en).aspect.Some? <==>
      exists i :: 0 <= i < |en.characteristics| && AspectLine(en.characteristics[i]).Some?
  {
    LastMatchNone(en.characteristics, AspectLine);
  }
}
