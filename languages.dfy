/**
 * The translation page's choice of target language: the human-readable name
 * picked in the select box is turned into the code the translator expects.
 */
module Languages {

  /** The options of the "Target Language" select box, in display order. */
  const TargetLanguages: seq<string> :=
    ["Korean", "Chinese", "Japanese", "English", "German", "Spanish", "French", "Italian"]

  /** The name-to-code table that the chain of comparisons spells out. */
  const CodeTable: map<string, string> := map[
    "Korean" := "ko",
    "Chinese" := "zh-CN",
    "Japanese" := "ja",
    "English" := "en",
    "German" := "de",
    "Spanish" := "es",
    "French" := "fr",
    "Italian" := "it"
  ]

  /**
   * The `if`/`elif` chain over `target_lang`. It has no `else`, so a name
   * that matches no branch is passed on unchanged.
   */
  function TargetCode(name: string): (code: string)
    ensures name in CodeTable ==> code == CodeTable[name]
    ensures name !in CodeTable ==> code == name
  {
    if name == "Korean" then "ko"
    else if name == "Chinese" then "zh-CN"
    else if name == "Japanese" then "ja"
    else if name == "English" then "en"
    else if name == "German" then "de"
    else if name == "Spanish" then "es"
    else if name == "French" then "fr"
    else if name == "Italian" then "it"
    else name
  }

  /**
   * The select box offers exactly the names of the table, each once, and no
   * two of them share a code.
   */
  lemma OptionsMatchTable()
    ensures forall name :: name in TargetLanguages <==> name in CodeTable
    ensures forall i, j :: 0 <= i < j < |TargetLanguages| ==> TargetLanguages[i] != TargetLanguages[j]
    ensures forall a, b :: a in CodeTable && b in CodeTable && a != b ==> CodeTable[a] != CodeTable[b]
  {
  }

  /**
   * Every offered option is translated to a code different from its name, and
   * distinct options go to distinct codes.
   */
  lemma OptionsGetDistinctCodes()
    ensures forall name :: name in TargetLanguages ==> TargetCode(name) != name
    ensures forall i, j :: 0 <= i < j < |TargetLanguages| ==>
      TargetCode(TargetLanguages[i]) != TargetCode(TargetLanguages[j])
  {
    OptionsMatchTable();
  }
}
