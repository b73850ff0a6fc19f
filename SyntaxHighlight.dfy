/**
 * The language guess for code previews (`guessLanguage` in
 * `webview/components/SyntaxHighlight.tsx`): the lower-cased text after the
 * last `.` of the path, looked up in a fixed table, `text` otherwise.
 *
 * The table is a plain object literal, so a lookup also sees the members
 * every object inherits. `GuessLanguageAsWritten` models that lookup;
 * `GuessLanguage` is the own-entries lookup the table is evidently meant to
 * give.
 */
module SyntaxHighlight {
  import opened Text

  const LanguageTable: map<string, string> := map[
    "ts" := "typescript", "tsx" := "typescript",
    "js" := "javascript", "jsx" := "javascript",
    "py" := "python", "json" := "json",
    "css" := "css", "scss" := "css",
    "html" := "html", "htm" := "html", "xml" := "html",
    "md" := "markdown", "yaml" := "yaml", "yml" := "yaml",
    "sh" := "bash", "bash" := "bash",
    "go" := "go", "rs" := "rust", "java" := "java",
    "c" := "c", "cpp" := "cpp", "h" := "c", "hpp" := "cpp"]

  const DefaultLanguage: string := "text"

  /**
   * The names inherited from `Object.prototype` that are all lower case, so
   * that a lower-cased extension can hit them; each holds a truthy value
   * (a function, or the prototype object).
   */
  const InheritedLowerCaseNames: set<string> := {"constructor", "__proto__"}

  /** Where the last piece of `filePath.split('.')` starts: just after the last dot, or 0. */
  function DotStart(s: string): (k: nat)
    ensures k <= |s|
    ensures forall i :: k <= i < |s| ==> s[i] != '.'
    ensures k == 0 || s[k - 1] == '.'
  {
    if s == [] then 0
    else if s[|s| - 1] == '.' then |s|
    else DotStart(s[..|s| - 1])
  }

  /** `filePath.split('.').pop()?.toLowerCase() || ''`: the whole path, lower-cased, when it has no dot. */
  function Extension(filePath: string): (ext: string)
    ensures |ext| <= |filePath|
    ensures forall i :: 0 <= i < |ext| ==> ext[i] != '.' && !('A' <= ext[i] <= 'Z')
  {
    Lower(filePath[DotStart(filePath)..])
  }

  /** What the lookup `langMap[ext] || 'text'` yields: a language name, or an inherited member. */
  datatype Lookup = Language(name: string) | InheritedMember(member: string)

  /** `guessLanguage` as written. */
  function GuessLanguageAsWritten(filePath: string): (r: Lookup) {
    var ext := Extension(filePath);
    if ext in LanguageTable then Language(LanguageTable[ext])
    else if ext in InheritedLowerCaseNames then InheritedMember(ext)
    else Language(DefaultLanguage)
  }

  /** `guessLanguage` over the table's own entries only. */
  function GuessLanguage(filePath: string): (lang: string)
    ensures lang == DefaultLanguage || lang in LanguageTable.Values
    ensures Extension(filePath) in LanguageTable ==> lang == LanguageTable[Extension(filePath)]
    ensures Extension(filePath) !in LanguageTable ==> lang == DefaultLanguage
  {
    var ext := Extension(filePath);
    if ext in LanguageTable then LanguageTable[ext] else DefaultLanguage
  }

  /** The table's own entries hold no inherited name, so the two lookups differ only on those. */
  lemma AsWrittenAgreesElsewhere(filePath: string)
    ensures Extension(filePath) !in InheritedLowerCaseNames ==>
      GuessLanguageAsWritten(filePath) == Language(GuessLanguage(filePath))
    ensures Extension(filePath) in InheritedLowerCaseNames ==>
      GuessLanguageAsWritten(filePath).InheritedMember? && GuessLanguage(filePath) == DefaultLanguage
  {
    assert "constructor" !in LanguageTable && "__proto__" !in LanguageTable;
  }

  /** A file `x.constructor` gets back an inherited function as its "language" from the lookup as written. */
  lemma AsWrittenReturnsInheritedMember(filePath: string)
    requires filePath == "x.constructor"
    ensures GuessLanguageAsWritten(filePath) == InheritedMember("constructor")
    ensures GuessLanguage(filePath) == "text"
  {
    var tail := filePath[2..];
    assert filePath == "x." + tail;
    DotStartAfterLastDot("x.", tail);
    assert Lower(tail) == tail;
    assert Extension(filePath) == "constructor";
    AsWrittenAgreesElsewhere(filePath);
  }

  /** The extension of `prefix + "." + tail` is `tail`, lower-cased, when `tail` has no dot. */
  lemma {:induction false} DotStartAfterLastDot(prefix: string, tail: string)
    requires prefix != [] && prefix[|prefix| - 1] == '.'
    requires forall i :: 0 <= i < |tail| ==> tail[i] != '.'
    ensures DotStart(prefix + tail) == |prefix|
    decreases |tail|
  {
    var s := prefix + tail;
    if tail == [] {
      assert s == prefix;
    } else {
      var n := |tail| - 1;
      DotStartAfterLastDot(prefix, tail[..n]);
      assert s[|s| - 1] == tail[n];
      assert s[..|s| - 1] == prefix + tail[..n];
    }
  }

  /** The guess depends on nothing but the extension. */
  lemma DependsOnlyOnExtension(p1: string, p2: string)
    requires Extension(p1) == Extension(p2)
    ensures GuessLanguage(p1) == GuessLanguage(p2)
    ensures GuessLanguageAsWritten(p1) == GuessLanguageAsWritten(p2)
  {
  }

  /** The case of the path does not matter. */
  lemma IgnoresCase(filePath: string)
    ensures Extension(Lower(filePath)) == Extension(filePath)
    ensures GuessLanguage(Lower(filePath)) == GuessLanguage(filePath)
  {
    DotStartLower(filePath);
    var k := DotStart(filePath);
    assert Lower(filePath)[k..] == Lower(filePath[k..]);
  }

  lemma {:induction false} DotStartLower(s: string)
    ensures DotStart(Lower(s)) == DotStart(s)
  {
    if s != [] {
      var n := |s| - 1;
      DotStartLower(s[..n]);
      assert Lower(s)[..n] == Lower(s[..n]);
    }
  }

  /** A path with no dot is looked up whole, lower-cased: a file named `GO` is Go. */
  lemma NoDotUsesWholePath(filePath: string)
    requires forall i :: 0 <= i < |filePath| ==> filePath[i] != '.'
    ensures Extension(filePath) == Lower(filePath)
  {
    assert DotStart(filePath) == 0;
  }

  /** An empty extension, as after a trailing dot, is not in the table. */
  lemma EmptyExtensionIsText(filePath: string)
    requires Extension(filePath) == []
    ensures GuessLanguage(filePath) == DefaultLanguage
    ensures GuessLanguageAsWritten(filePath) == Language(DefaultLanguage)
  {
    assert [] !in LanguageTable;
  }

  /** The aliases of the table. */
  lemma TableAliases()
    ensures LanguageTable["ts"] == LanguageTable["tsx"] == "typescript"
    ensures LanguageTable["h"] == "c" && LanguageTable["hpp"] == "cpp"
    ensures LanguageTable["scss"] == "css" && LanguageTable["xml"] == "html" && LanguageTable["yml"] == "yaml"
    ensures LanguageTable["go"] == "go"
  {
  }
}
