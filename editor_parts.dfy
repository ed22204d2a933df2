/**
 * Translation between a session and the three editor panes: the rules as
 * YAML text (left pane), the subject text (right pane) and the right pane's
 * Monaco language name.
 *
 * serde_yml is a foreign library; it enters as the three functions of a
 * `Yaml` value, and `YamlLawful` states the laws the editor round trip relies on.
 */
module EditorParts {
  import opened Wrappers
  import opened Config

  /** serde_yml as used here: parse the rules, parse a language name, print the rules. */
  datatype Yaml = Yaml(
    parseUnits: string -> Result<seq<MatchingUnit>, string>,
    parseLanguage: string -> Result<Language, string>,
    emitUnits: seq<MatchingUnit> -> string)

  /**
   * Parsing the printed rules gives the rules back, and the language parser
   * reads every Monaco name back as its language.
   */
  ghost predicate YamlLawful(y: Yaml)
  {
    && (forall u: seq<MatchingUnit> :: y.parseUnits(y.emitUnits(u)) == Ok(u))
    && (forall l: Language :: y.parseLanguage(MonacoLanguage(l)) == Ok(l))
  }

  /** `monaco_language`: the editor's name for each of the ten languages. */
  function MonacoLanguage(l: Language): (name: string)
    ensures name != []
  {
    match l
    case C => "c"
    case Cpp => "cpp"
    case CSharp => "csharp"
    case Go => "go"
    case Java => "java"
    case Js => "javascript"
    case Kotlin => "kotlin"
    case Py => "python"
    case Rust => "rust"
    case Ts => "typescript"
  }

  /** The inverse table: the language, if any, that a Monaco name stands for. */
  function LanguageOfMonaco(name: string): (l: Option<Language>)
    ensures l.Some? ==> MonacoLanguage(l.value) == name
  {
    if name == "c" then Some(C)
    else if name == "cpp" then Some(Cpp)
    else if name == "csharp" then Some(CSharp)
    else if name == "go" then Some(Go)
    else if name == "java" then Some(Java)
    else if name == "javascript" then Some(Js)
    else if name == "kotlin" then Some(Kotlin)
    else if name == "python" then Some(Py)
    else if name == "rust" then Some(Rust)
    else if name == "typescript" then Some(Ts)
    else None
  }

  /** The inverse table is a left inverse of `monaco_language`. */
  lemma LanguageOfMonacoInverse(l: Language)
    ensures LanguageOfMonaco(MonacoLanguage(l)) == Some(l)
  {
  }

  /** No two languages share a Monaco name. */
  lemma MonacoLanguageInjective(a: Language, b: Language)
    requires MonacoLanguage(a) == MonacoLanguage(b)
    ensures a == b
  {
    LanguageOfMonacoInverse(a);
    LanguageOfMonacoInverse(b);
  }

  /** `editor_lhs`: the rules printed as YAML. */
  function EditorLhs(y: Yaml, c: PlaygroundConfig): (text: string)
    ensures YamlLawful(y) ==> y.parseUnits(text) == Ok(c.lhs)
  {
    y.emitUnits(c.lhs)
  }

  /** `to_editor_parts`: (rules as YAML, subject unchanged, Monaco name of the language). */
  function ToEditorParts(y: Yaml, c: PlaygroundConfig): (parts: (string, string, string))
    ensures parts.0 == EditorLhs(y, c)
    ensures YamlLawful(y) ==> y.parseUnits(parts.0) == Ok(c.lhs)
    ensures parts.1 == c.subject
    ensures LanguageOfMonaco(parts.2) == Some(c.language)
  {
    LanguageOfMonacoInverse(c.language);
    (EditorLhs(y, c), c.subject, MonacoLanguage(c.language))
  }

  /**
   * `from_editor_parts`: parse the rules, then the language, each failure
   * reported as its message; the subject is copied verbatim.
   */
  function FromEditorParts(y: Yaml, subject: string, language: string, editorLhs: string)
    : (r: Result<PlaygroundConfig, string>)
    ensures r.Ok? <==> y.parseUnits(editorLhs).Ok? && y.parseLanguage(language).Ok?
    ensures r.Ok? ==> r.value == PlaygroundConfig(subject, y.parseLanguage(language).value, y.parseUnits(editorLhs).value)
    ensures y.parseUnits(editorLhs).Err? ==> r == Err(y.parseUnits(editorLhs).error)
    ensures y.parseUnits(editorLhs).Ok? && y.parseLanguage(language).Err? ==> r == Err(y.parseLanguage(language).error)
  {
    match y.parseUnits(editorLhs)
    case Err(e) => Err(e)
    case Ok(lhs) =>
      match y.parseLanguage(language)
      case Err(e) => Err(e)
      case Ok(lang) => Ok(PlaygroundConfig(subject, lang, lhs))
  }

  /** Reading the three panes back gives the session that filled them. */
  lemma EditorRoundTrip(y: Yaml, c: PlaygroundConfig)
    requires YamlLawful(y)
    ensures FromEditorParts(y, ToEditorParts(y, c).1, ToEditorParts(y, c).2, ToEditorParts(y, c).0) == Ok(c)
  {
    assert y.parseUnits(y.emitUnits(c.lhs)) == Ok(c.lhs);
    assert y.parseLanguage(MonacoLanguage(c.language)) == Ok(c.language);
  }
}
