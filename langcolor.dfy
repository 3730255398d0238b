/** The language colour table shared by the home page and the repositories page. */
module LangColors {
  import opened Wrappers
  import opened Text

  /** The colour of every language outside the table, and of a missing one. */
  const DefaultColor := "#9ca3af"

  /** The languages the table knows, lower-cased. */
  const Known: seq<string> := ["typescript", "javascript", "python", "java", "go", "rust",
    "c++", "c", "php", "kotlin", "swift", "ruby"]

  /** The `switch` on the lower-cased name. */
  function ColorOf(name: string): (r: string)
    ensures r == DefaultColor <==> name !in Known
  {
    if name == "typescript" then "#3178c6"
    else if name == "javascript" then "#f1e05a"
    else if name == "python" then "#3572A5"
    else if name == "java" then "#b07219"
    else if name == "go" then "#00ADD8"
    else if name == "rust" then "#dea584"
    else if name == "c++" then "#f34b7d"
    else if name == "c" then "#555555"
    else if name == "php" then "#4F5D95"
    else if name == "kotlin" then "#A97BFF"
    else if name == "swift" then "#F05138"
    else if name == "ruby" then "#701516"
    else DefaultColor
  }

  /** `langColor(lang)`: `(lang || '').toLowerCase()` looked up in the table. */
  function LangColor(lang: Option<string>): (r: string)
    ensures lang.None? ==> r == DefaultColor
    ensures lang.Some? ==> (r == DefaultColor <==> ToLower(lang.value) !in Known)
  {
    ColorOf(ToLower(lang.GetOr("")))
  }

  /** The lookup ignores case: a name and its lower-cased spelling get the same
      colour. */
  lemma LangColorIgnoresCase(name: string)
    ensures LangColor(Some(name)) == LangColor(Some(ToLower(name)))
  {
    ToLowerIdempotent(name);
  }
}
