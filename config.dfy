/**
 * The session description that is shared, edited and run: `PlaygroundConfig`
 * and its `MatchingUnit`s, the built-in example session, and the fixed
 * matcher bounds.
 */
module Config {

  /** The closed set of subject languages (`lexer_search_lib::io::Language`). */
  datatype Language = C | Cpp | CSharp | Go | Java | Js | Kotlin | Py | Rust | Ts

  /** One named, grouped set of alternative patterns with its output and transform maps. */
  datatype MatchingUnit = MatchingUnit(
    patterns: seq<string>,
    name: string,
    group: string,
    out: map<string, string>,
    transform: map<string, string>)

  /** A whole session: the text to scan, its language, and the ordered rules. */
  datatype PlaygroundConfig = PlaygroundConfig(
    subject: string,
    language: Language,
    lhs: seq<MatchingUnit>)

  /** `default_max_concurrent_matches()`. */
  const MaxConcurrentMatches: nat := 5000

  /** `default_max_token_length()` (a `NonZeroUsize`). */
  const MaxTokenLength: nat := 5000

  /** `default_group_cap()` (a `NonZeroUsize`). */
  const GroupCap: nat := 10

  /** The three bounds, the last two non-zero as `NonZeroUsize` requires. */
  lemma Bounds()
    ensures MaxConcurrentMatches == 5000
    ensures MaxTokenLength == 5000 && MaxTokenLength > 0
    ensures GroupCap == 10 && GroupCap > 0
  {
  }

  const DefaultSubject: string := "let x = \"hi\";\nprintln!(\"{x}\");"
  const DefaultPattern: string := "&_VAR = $_STR;\n...\nprintln!($_FMT)"
  const DefaultTransform: string := "^\\{(?<_VAR>[^}]+)}$"

  /** `PlaygroundConfig::default()`: the example session shown on first load and after a broken link. */
  function DefaultConfig(): (c: PlaygroundConfig)
    ensures c.subject != [] && c.language == Rust
    ensures |c.lhs| == 1 && |c.lhs[0].patterns| == 1
  {
    PlaygroundConfig(
      DefaultSubject,
      Rust,
      [MatchingUnit([DefaultPattern], "hello_world", "", map[], map["_FMT" := DefaultTransform])])
  }

  /** The total number of patterns over all units. */
  function TotalPatterns(units: seq<MatchingUnit>): nat
  {
    if units == [] then 0 else |units[0].patterns| + TotalPatterns(units[1..])
  }

  /**
   * The default session is a runnable example: a non-empty Rust subject and
   * one unit holding one pattern and one transform entry.
   */
  lemma DefaultIsExample()
    ensures DefaultConfig().subject != []
    ensures DefaultConfig().language == Rust
    ensures |DefaultConfig().lhs| == 1
    ensures |DefaultConfig().lhs[0].patterns| == 1 && DefaultConfig().lhs[0].patterns[0] != []
    ensures |DefaultConfig().lhs[0].transform| == 1 && "_FMT" in DefaultConfig().lhs[0].transform
    ensures DefaultConfig().lhs[0].out == map[]
    ensures TotalPatterns(DefaultConfig().lhs) == 1
  {
    var u := DefaultConfig().lhs;
    assert u[1..] == [];
  }
}
