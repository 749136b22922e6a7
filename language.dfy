/** The two small helpers of the static survey: the extension-to-language
    table (`getLanguageFromExt`) and the line count (`countLines`). */
module Language {
  import opened Wrappers
  import opened Text

  /** The fixed table, keyed by lower-case extension: nineteen extensions,
      eighteen labels (`.yml` and `.yaml` share `YAML`). */
  function LabelOf(key: string): Option<string>
  {
    match key
    case ".js" => Some("JavaScript")
    case ".ts" => Some("TypeScript")
    case ".py" => Some("Python")
    case ".sol" => Some("Solidity")
    case ".java" => Some("Java")
    case ".c" => Some("C")
    case ".cpp" => Some("C++")
    case ".cs" => Some("C#")
    case ".rb" => Some("Ruby")
    case ".go" => Some("Go")
    case ".php" => Some("PHP")
    case ".rs" => Some("Rust")
    case ".html" => Some("HTML")
    case ".css" => Some("CSS")
    case ".md" => Some("Markdown")
    case ".json" => Some("JSON")
    case ".sh" => Some("Shell")
    case ".yml" => Some("YAML")
    case ".yaml" => Some("YAML")
    case _ => None
  }

  /** The language label of an extension: the table's label for its
      lower-case form, otherwise the extension itself, case kept. */
  function GetLanguageFromExt(ext: string): string
  {
    match LabelOf(Lower(ext))
    case Some(name) => name
    case None => ext
  }

  /** Extensions that differ only in ASCII case get the same label. */
  lemma LanguageIgnoresCase(e1: string, e2: string)
    requires Lower(e1) == Lower(e2)
    requires LabelOf(Lower(e1)).Some?
    ensures GetLanguageFromExt(e1) == GetLanguageFromExt(e2)
  {
  }

  /** Upper case is accepted. */
  lemma UpperCaseAccepted()
    ensures GetLanguageFromExt(".SOL") == "Solidity"
  {
    assert Lower(".SOL") == ".sol";
  }

  /** Both YAML spellings agree, in either case. */
  lemma YamlSpellingsAgree()
    ensures GetLanguageFromExt(".yml") == "YAML" && GetLanguageFromExt(".YAML") == "YAML"
  {
    assert Lower(".yml") == ".yml";
    assert Lower(".YAML") == ".yaml";
  }

  /** The nineteen extensions of the table. */
  const TableKeys: set<string> := {".js", ".ts", ".py", ".sol", ".java", ".c", ".cpp", ".cs", ".rb", ".go",
                                   ".php", ".rs", ".html", ".css", ".md", ".json", ".sh", ".yml", ".yaml"}

  /** The eighteen labels of the table. */
  const TableLabels: set<string> := {"JavaScript", "TypeScript", "Python", "Solidity", "Java", "C", "C++", "C#",
                                     "Ruby", "Go", "PHP", "Rust", "HTML", "CSS", "Markdown", "JSON", "Shell", "YAML"}

  /** An extension whose lower-case form is not in the table comes back as
      it is, case kept. */
  lemma UnknownExtensionKept(ext: string)
    requires Lower(ext) !in TableKeys
    ensures GetLanguageFromExt(ext) == ext
  {
    assert LabelOf(Lower(ext)).None?;
  }

  /** An extension whose lower-case form is in the table gets one of the
      table's labels. */
  lemma KnownExtensionLabelled(ext: string)
    requires Lower(ext) in TableKeys
    ensures GetLanguageFromExt(ext) in TableLabels
  {
  }

  /** An unknown extension comes back with its case kept. */
  lemma UnknownExtensionExamples()
    ensures GetLanguageFromExt(".Txt") == ".Txt"
    ensures GetLanguageFromExt("") == ""
  {
    assert Lower(".Txt") == ".txt";
  }

  /** A label is empty only for an extension-less file. */
  lemma LanguageEmptyOnlyForNoExtension(ext: string)
    ensures GetLanguageFromExt(ext) == "" <==> ext == ""
  {
    if LabelOf(Lower(ext)).Some? {
      assert Lower(ext) != "";
    }
  }

  /** `countLines`: the number of pieces `split(/\r?\n/)` makes of the
      file, which is one more than its number of `\n`; 0 when the read
      throws. */
  function CountLines(contents: Option<string>): (n: nat)
    ensures contents.None? ==> n == 0
    ensures contents.Some? ==> n == 1 + CountChar(contents.value, '\n')
  {
    match contents
    case None => 0
    case Some(text) => |SplitLines(text)|
  }

  /** An empty readable file counts one line; an unreadable one counts none. */
  lemma CountLinesEdges()
    ensures CountLines(Some("")) == 1
    ensures CountLines(None) == 0
    ensures CountLines(Some("a\r\nb\n")) == 3
  {
    assert CountChar("a\r\nb\n", '\n') == 2 by {
      var s := "a\r\nb\n";
      assert s[1..] == "\r\nb\n";
      assert s[1..][1..] == "\nb\n";
      assert s[1..][1..][1..] == "b\n";
      assert s[1..][1..][1..][1..] == "\n";
    }
  }
}
