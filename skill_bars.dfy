/** The progress-bar width `animateSkillBars` gives each skill level. */
module SkillBars {
  import opened JsText

  /** The width in percent for a level text: the `switch` on `level.toLowerCase()`.
      Each of the four named levels gets its width in any ASCII case; every other text
      falls to the default 60. */
  function LevelPercentage(level: string): (p: nat)
    ensures p in {50, 60, 70, 90}
    ensures p == 90 <==> ToLower(level) == "advanced"
    ensures p == 70 <==> ToLower(level) == "intermediate"
    ensures p == 50 <==> ToLower(level) == "basic" || ToLower(level) == "learning"
  {
    match ToLower(level)
    case "advanced" => 90
    case "intermediate" => 70
    case "basic" => 50
    case "learning" => 50
    case _ => 60
  }

  /** The mapping does not depend on letter case. */
  lemma LevelPercentageIgnoresCase(level: string)
    ensures LevelPercentage(ToLower(level)) == LevelPercentage(level)
  {
    ToLowerIdempotent(level);
  }

  /** A capitalised level name is recognised. */
  lemma CapitalisedLevelIsRecognised()
    ensures LevelPercentage("Advanced") == 90
  {
    var word := "Advanced";
    var lowered := ToLower(word);
    assert lowered[0] == LowerChar(word[0]) == 'a';
    assert forall i | 1 <= i < |word| :: lowered[i] == word[i];
    assert lowered == "advanced";
  }

  /** The text is not trimmed: a level with a leading or trailing space, such as
      " Advanced ", gets the default. */
  lemma UntrimmedLevelIsDefault(level: string)
    requires level != [] && (IsJsSpace(level[0]) || IsJsSpace(level[|level| - 1]))
    ensures LevelPercentage(level) == 60
  {
    var lowered := ToLower(level);
    LowerCharKeepsSpace(level[0]);
    LowerCharKeepsSpace(level[|level| - 1]);
    assert IsJsSpace(lowered[0]) || IsJsSpace(lowered[|lowered| - 1]);
  }
}
