/**
 * The prompt template engine (`src/prompts/index.ts`): markdown templates
 * read from the bundled `prompts` directory, kept in a keyed cache, their
 * leading `# ...` header removed, and `{{ name }}` placeholders substituted
 * in one left-to-right pass.
 *
 * The file system is a `Disk` value: whether the prompts directory exists,
 * and the files under it by relative path (`fast/user.md`).
 */
module Prompts {
  import opened Text
  import opened Types

  datatype PromptType = Suggestion | Fast | Smart {
    function Name(): string {
      match this
      case Suggestion => "suggestion"
      case Fast => "fast"
      case Smart => "smart"
    }
  }

  datatype PromptRole = System | User {
    function Name(): string {
      match this
      case System => "system"
      case User => "user"
    }
  }

  datatype PromptError =
    | PromptsDirNotFound
    | TemplateNotFound(path: string)
    | InvalidStage(stage: int)
    | InvalidTraceStage(stage: int)

  datatype Disk = Disk(promptsDirExists: bool, files: map<string, string>)

  // ---------------------------------------------------------------------
  // Header removal: content.replace(/^#[^\n]*\n+/, '')
  // ---------------------------------------------------------------------

  predicate NotNewline(c: char) { c != '\n' }

  predicate IsNewline(c: char) { c == '\n' }

  /**
   * Length of the leading `#` header line and the newlines after it, or 0
   * when the text does not start with `#` or the header line never ends.
   */
  function HeaderLength(s: string): (n: nat)
    ensures n <= |s|
    ensures n > 0 ==> s[0] == '#' && IsNewline(s[n - 1]) && (n == |s| || !IsNewline(s[n]))
    ensures (s != [] && s[0] == '#' && '\n' in s) <==> n > 0
  {
    if s == [] || s[0] != '#' then 0
    else
      var k := 1 + Span(s[1..], NotNewline);
      if k == |s| then
        assert forall i :: 1 <= i < |s| ==> s[i] == s[1..][i - 1];
        0
      else
        k + Span(s[k..], IsNewline)
  }

  /** The header, as the pattern matches it: `#`, the rest of the line, then every newline after it. */
  lemma HeaderShape(s: string)
    requires HeaderLength(s) > 0
    ensures var n := HeaderLength(s);
      exists k :: 0 < k < n && NoNewlineIn(s[1..k]) && AllNewlines(s[k..n])
  {
    var k := 1 + Span(s[1..], NotNewline);
    var n := HeaderLength(s);
    assert s[1..k] == s[1..][..k - 1];
    assert s[k..n] == s[k..][..n - k];
  }

  predicate NoNewlineIn(s: string) { forall i :: 0 <= i < |s| ==> s[i] != '\n' }

  predicate AllNewlines(s: string) { forall i :: 0 <= i < |s| ==> s[i] == '\n' }

  function StripHeader(s: string): (r: string)
    ensures r == s[HeaderLength(s)..]
    ensures s == [] || s[0] != '#' ==> r == s
  {
    s[HeaderLength(s)..]
  }

  /** What `loadCachedFile` stores: the text, header removed if asked, then trimmed. */
  function Prepare(content: string, stripHeader: bool): (r: string)
    ensures !stripHeader ==> r == Trim(content)
    ensures stripHeader ==> r == Trim(content[HeaderLength(content)..])
  {
    if stripHeader then Trim(StripHeader(content)) else Trim(content)
  }

  // ---------------------------------------------------------------------
  // Substitution: template.replace(/\{\{\s*(\w+)\s*\}\}/g, ...)
  // ---------------------------------------------------------------------

  /** `\w`. */
  predicate IsWordChar(c: char) {
    ('a' <= c <= 'z') || ('A' <= c <= 'Z') || ('0' <= c <= '9') || c == '_'
  }

  predicate IsVarName(name: string) {
    name != [] && forall i :: 0 <= i < |name| ==> IsWordChar(name[i])
  }

  datatype PlaceholderMatch = PlaceholderMatch(end: nat, name: string)

  /**
   * A placeholder at the start of `s`: `{{`, blanks, a word, blanks, `}}`.
   * The word is maximal, and blanks are not word characters, so the match
   * is unique. `PlaceholderShape` and `PlaceholderOfParts` state which texts
   * match, with which name.
   */
  function MatchPlaceholder(s: string): (m: Option<PlaceholderMatch>)
    ensures m.Some? ==> 4 < m.value.end <= |s| && IsVarName(m.value.name)
    ensures m.Some? ==> s[0] == '{' && s[1] == '{' && s[m.value.end - 2] == '}' && s[m.value.end - 1] == '}'
  {
    if |s| < 2 || s[0] != '{' || s[1] != '{' then None
    else
      var a := Skip(s, 2, IsWs);
      var b := Skip(s, a, IsWordChar);
      MatchClose(s, a, b, Skip(s, b, IsWs))
  }

  /** The first position at or after `i` whose character fails `p`, or the end. */
  function Skip(s: string, i: nat, p: char -> bool): (j: nat)
    requires i <= |s|
    ensures i <= j <= |s| && (forall k :: i <= k < j ==> p(s[k])) && (j == |s| || !p(s[j]))
    decreases |s| - i
  {
    if i < |s| && p(s[i]) then Skip(s, i + 1, p) else i
  }

  /** A skip over a run that satisfies `p`, up to a character that does not, stops at that character. */
  lemma {:induction false} SkipAll(s: string, i: nat, j: nat, p: char -> bool)
    requires i <= j <= |s| && (forall k :: i <= k < j ==> p(s[k])) && (j == |s| || !p(s[j]))
    ensures Skip(s, i, p) == j
    decreases j - i
  {
    if i < j {
      SkipAll(s, i + 1, j, p);
    }
  }

  /** The rest of a placeholder once its name spans `a..b` and the blanks after it end at `c`. */
  function MatchClose(s: string, a: nat, b: nat, c: nat): (m: Option<PlaceholderMatch>)
    requires a <= b <= c <= |s| && forall i :: a <= i < b ==> IsWordChar(s[i])
    ensures m.Some? ==> m.value.end == c + 2 <= |s| && IsVarName(m.value.name)
    ensures m.Some? ==> s[c] == '}' && s[c + 1] == '}' && a < b && m.value.name == s[a..b]
  {
    if a < b && c + 2 <= |s| && s[c] == '}' && s[c + 1] == '}' then
      Some(PlaceholderMatch(c + 2, s[a..b]))
    else None
  }

  /** The scan of the replace pass: single characters, and placeholders with their text and name. */
  datatype Piece = Char(c: char) | Placeholder(raw: string, name: string)

  function Scan(s: string): (ps: seq<Piece>)
    decreases |s|
  {
    if s == [] then []
    else
      match MatchPlaceholder(s)
      case Some(m) => [Placeholder(s[..m.end], m.name)] + Scan(s[m.end..])
      case None => [Char(s[0])] + Scan(s[1..])
  }

  /** What a piece becomes: a known name its value, anything else its own text. */
  function PieceText(p: Piece, variables: map<string, string>): string {
    match p
    case Char(c) => [c]
    case Placeholder(raw, name) => if name in variables then variables[name] else raw
  }

  function Render(ps: seq<Piece>, variables: map<string, string>): string {
    if ps == [] then [] else PieceText(ps[0], variables) + Render(ps[1..], variables)
  }

  /** `substituteVariables`. */
  function Substitute(template: string, variables: map<string, string>): string {
    Render(Scan(template), variables)
  }

  /** The names the pass meets, in order. */
  function Names(ps: seq<Piece>): seq<string> {
    if ps == [] then []
    else if ps[0].Placeholder? then [ps[0].name] + Names(ps[1..])
    else Names(ps[1..])
  }

  /** The scan loses nothing: its pieces' own texts put back together give the template. */
  lemma {:induction false} ScanCovers(s: string)
    ensures Render(Scan(s), map[]) == s
    decreases |s|
  {
    if s != [] {
      match MatchPlaceholder(s)
      case Some(m) =>
        ScanCovers(s[m.end..]);
        assert s == s[..m.end] + s[m.end..];
      case None =>
        ScanCovers(s[1..]);
        assert s == [s[0]] + s[1..];
    }
  }

  /** Every placeholder piece is a real placeholder whose whole text the pattern matches. */
  lemma ScanPlaceholders(s: string, i: nat)
    requires i < |Scan(s)| && Scan(s)[i].Placeholder?
    ensures var p := Scan(s)[i];
      MatchPlaceholder(p.raw) == Some(PlaceholderMatch(|p.raw|, p.name))
  {
    ScanWhole(s);
    assert WholePiece(Scan(s)[i]);
  }

  /** A placeholder piece whose whole text the pattern matches as one placeholder. */
  predicate WholePiece(p: Piece) {
    p.Placeholder? ==> MatchPlaceholder(p.raw) == Some(PlaceholderMatch(|p.raw|, p.name))
  }

  lemma {:induction false} ScanWhole(s: string)
    ensures Each(Scan(s), WholePiece)
    decreases |s|
  {
    if s != [] {
      var m := MatchPlaceholder(s);
      if m.Some? {
        var head := Placeholder(s[..m.value.end], m.value.name);
        ScanMatched(s);
        PrefixKeepsMatch(s, m.value.end);
        ScanWhole(s[m.value.end..]);
        EachSingleton(head, WholePiece);
        EachConcat([head], Scan(s[m.value.end..]), WholePiece);
      } else {
        ScanUnmatched(s);
        ScanWhole(s[1..]);
        EachSingleton(Char(s[0]), WholePiece);
        EachConcat([Char(s[0])], Scan(s[1..]), WholePiece);
      }
    }
  }

  lemma ScanMatched(s: string)
    requires s != [] && MatchPlaceholder(s).Some?
    ensures var m := MatchPlaceholder(s).value;
      Scan(s) == [Placeholder(s[..m.end], m.name)] + Scan(s[m.end..])
  {
  }

  lemma ScanUnmatched(s: string)
    requires s != [] && MatchPlaceholder(s).None?
    ensures Scan(s) == [Char(s[0])] + Scan(s[1..])
  {
  }

  /** A placeholder found at the start of `s` is found in the prefix it spans. */
  lemma PrefixKeepsMatch(s: string, e: nat)
    requires MatchPlaceholder(s).Some? && MatchPlaceholder(s).value.end == e
    ensures MatchPlaceholder(s[..e]) == Some(PlaceholderMatch(e, MatchPlaceholder(s).value.name))
  {
    var t := s[..e];
    var a := Skip(s, 2, IsWs);
    var b := Skip(s, a, IsWordChar);
    var c := Skip(s, b, IsWs);
    var name := MatchPlaceholder(s).value.name;
    MatchPlaceholderSteps(s, a, b, c);
    assert MatchClose(s, a, b, c) == Some(PlaceholderMatch(e, name));
    assert a < b && name == s[a..b] && s[c] == '}' && s[c + 1] == '}';
    PrefixSkips(s, e, a, b, c);
    assert t[0] == '{' && t[1] == '{' && t[a..b] == name && t[c] == '}' && t[c + 1] == '}';
    MatchPlaceholderSteps(t, a, b, c);
  }

  /** The pattern opens with `{{`, then matches from where the three skips stop. */
  lemma MatchPlaceholderSteps(s: string, a: nat, b: nat, c: nat)
    requires 2 <= |s| && s[0] == '{' && s[1] == '{'
    requires a == Skip(s, 2, IsWs) && b == Skip(s, a, IsWordChar) && c == Skip(s, b, IsWs)
    ensures MatchPlaceholder(s) == MatchClose(s, a, b, c)
  {
  }

  /**
   * What a match spans: `{{`, blanks, the name, blanks and `}}`. Together
   * with `PlaceholderOfParts` this characterises the texts the pattern
   * accepts at the start of a template.
   */
  lemma PlaceholderShape(s: string)
    requires MatchPlaceholder(s).Some?
    ensures var m := MatchPlaceholder(s).value;
      exists a, b :: 2 <= a < b <= m.end - 2 && AllWs(s[2..a])
        && s[a..b] == m.name && AllWs(s[b..m.end - 2])
  {
    var a := Skip(s, 2, IsWs);
    var b := Skip(s, a, IsWordChar);
    var c := Skip(s, b, IsWs);
    MatchPlaceholderSteps(s, a, b, c);
    assert AllWs(s[2..a]) && AllWs(s[b..c]);
  }

  /**
   * The converse: `{{`, any blanks, a word, any blanks and `}}` at the start
   * of a text is matched, with that word as the name and the match ending
   * after the `}}`.
   */
  lemma PlaceholderOfParts(w1: string, name: string, w2: string, rest: string)
    requires AllWs(w1) && IsVarName(name) && AllWs(w2)
    ensures MatchPlaceholder("{{" + w1 + name + w2 + "}}" + rest)
      == Some(PlaceholderMatch(4 + |w1| + |name| + |w2|, name))
  {
    var s := "{{" + w1 + name + w2 + "}}" + rest;
    var a := 2 + |w1|;
    var b := a + |name|;
    var c := b + |w2|;
    PartsSlices(s, w1, name, w2, rest);
    assert !IsWs(s[a]) by {
      assert IsWordChar(name[0]);
    }
    assert !IsWordChar(s[b]) by {
      if b < c {
        assert IsWs(w2[0]);
      }
    }
    SkipBlanks(s, 2, a);
    SkipName(s, a, b);
    SkipBlanks(s, b, c);
    MatchOfSkips(s, a, b, c, name);
  }

  /** Where the pieces of a placeholder built from parts sit. */
  lemma PartsSlices(s: string, w1: string, name: string, w2: string, rest: string)
    requires name != [] && s == "{{" + w1 + name + w2 + "}}" + rest
    ensures var a := 2 + |w1|; var b := a + |name|; var c := b + |w2|;
      c + 2 <= |s| && s[0] == '{' && s[1] == '{' && s[c] == '}' && s[c + 1] == '}'
      && s[2..a] == w1 && s[a..b] == name && s[b..c] == w2
      && s[a] == name[0] && (if b < c then s[b] == w2[0] else s[b] == '}')
  {
    var a := 2 + |w1|;
    var b := a + |name|;
    var c := b + |w2|;
    assert s[2..a] == w1;
    assert s[a..b] == name;
    assert s[b..c] == w2;
  }

  /** A skip over blanks that end at `j`, before a non-blank, stops at `j`. */
  lemma SkipBlanks(s: string, i: nat, j: nat)
    requires i <= j <= |s| && AllWs(s[i..j]) && (j == |s| || !IsWs(s[j]))
    ensures Skip(s, i, IsWs) == j
  {
    assert forall k :: i <= k < j ==> s[k] == s[i..j][k - i];
    SkipAll(s, i, j, IsWs);
  }

  /** A skip over a name that ends at `j`, before a non-word character, stops at `j`. */
  lemma SkipName(s: string, i: nat, j: nat)
    requires i <= j <= |s| && IsVarName(s[i..j]) && (j == |s| || !IsWordChar(s[j]))
    ensures Skip(s, i, IsWordChar) == j
  {
    assert forall k :: i <= k < j ==> s[k] == s[i..j][k - i];
    SkipAll(s, i, j, IsWordChar);
  }

  /** Skips that stop around a name, and `}}` after them: the pattern matches with that name. */
  lemma MatchOfSkips(s: string, a: nat, b: nat, c: nat, name: string)
    requires 2 <= |s| && s[0] == '{' && s[1] == '{'
    requires a == Skip(s, 2, IsWs) && b == Skip(s, a, IsWordChar) && c == Skip(s, b, IsWs)
    requires a < b && c + 2 <= |s| && s[a..b] == name && s[c] == '}' && s[c + 1] == '}'
    ensures MatchPlaceholder(s) == Some(PlaceholderMatch(c + 2, name))
  {
    MatchPlaceholderSteps(s, a, b, c);
  }

  /** The three skips of the pattern stop at the same places in the prefix a placeholder spans. */
  lemma PrefixSkips(s: string, e: nat, a: nat, b: nat, c: nat)
    requires 2 <= |s| && a == Skip(s, 2, IsWs) && b == Skip(s, a, IsWordChar) && c == Skip(s, b, IsWs)
    requires c + 2 == e <= |s|
    ensures Skip(s[..e], 2, IsWs) == a && Skip(s[..e], a, IsWordChar) == b && Skip(s[..e], b, IsWs) == c
  {
    var t := s[..e];
    assert forall k :: 0 <= k < e ==> s[k] == t[k];
    SkipAgree(s, t, 2, e, IsWs);
    SkipAgree(s, t, a, e, IsWordChar);
    SkipAgree(s, t, b, e, IsWs);
  }

  /** Two texts that agree up to past where a skip stops skip to the same place. */
  lemma {:induction false} SkipAgree(s: string, t: string, i: nat, n: nat, p: char -> bool)
    requires i <= |s| && Skip(s, i, p) < n <= |s| && n <= |t|
    requires forall k :: i <= k < n ==> s[k] == t[k]
    ensures Skip(t, i, p) == Skip(s, i, p)
    decreases |s| - i
  {
    if i < |s| && p(s[i]) {
      SkipAgree(s, t, i + 1, n, p);
    }
  }

  lemma {:induction false} RenderAppend(a: seq<Piece>, b: seq<Piece>, variables: map<string, string>)
    ensures Render(a + b, variables) == Render(a, variables) + Render(b, variables)
  {
    if a != [] {
      RenderAppend(a[1..], b, variables);
      assert (a + b)[0] == a[0];
      assert (a + b)[1..] == a[1..] + b;
      calc {
        Render(a + b, variables);
        PieceText(a[0], variables) + Render(a[1..] + b, variables);
        PieceText(a[0], variables) + (Render(a[1..], variables) + Render(b, variables));
        (PieceText(a[0], variables) + Render(a[1..], variables)) + Render(b, variables);
      }
    } else {
      assert a + b == b;
    }
  }

  /**
   * Names the pass does not meet do not matter, and a template none of
   * whose names is known comes back verbatim.
   */
  lemma {:induction false} RenderUnknownNames(ps: seq<Piece>, variables: map<string, string>)
    requires forall n :: n in Names(ps) ==> n !in variables
    ensures Render(ps, variables) == Render(ps, map[])
  {
    if ps != [] {
      if ps[0].Placeholder? {
        assert Names(ps) == [ps[0].name] + Names(ps[1..]);
        assert ps[0].name in Names(ps);
      }
      RenderUnknownNames(ps[1..], variables);
    }
  }

  /** Placeholders whose names are absent are left verbatim; with no variables the template is unchanged. */
  lemma SubstituteUnknownVerbatim(template: string, variables: map<string, string>)
    requires forall n :: n in Names(Scan(template)) ==> n !in variables
    ensures Substitute(template, variables) == template
  {
    RenderUnknownNames(Scan(template), variables);
    ScanCovers(template);
  }

  /**
   * One pass, no re-scan: a known placeholder followed by the rest of the
   * template becomes its value, verbatim, followed by the substituted rest.
   */
  lemma SubstituteStep(s: string, variables: map<string, string>)
    requires MatchPlaceholder(s).Some? && MatchPlaceholder(s).value.name in variables
    ensures var m := MatchPlaceholder(s).value;
      Substitute(s, variables) == variables[m.name] + Substitute(s[m.end..], variables)
  {
  }

  /** `{{ name }}`, blanks allowed inside, with a known name becomes that name's value. */
  lemma SubstituteKnownPlaceholder(w1: string, name: string, w2: string, rest: string, variables: map<string, string>)
    requires AllWs(w1) && IsVarName(name) && AllWs(w2) && name in variables
    ensures Substitute("{{" + w1 + name + w2 + "}}" + rest, variables) == variables[name] + Substitute(rest, variables)
  {
    var s := "{{" + w1 + name + w2 + "}}" + rest;
    PlaceholderOfParts(w1, name, w2, rest);
    SubstituteStep(s, variables);
    assert s[4 + |w1| + |name| + |w2|..] == rest;
  }

  /** `{{ name }}` with a name not in the map is kept as written. */
  lemma SubstituteUnknownPlaceholder(w1: string, name: string, w2: string, rest: string, variables: map<string, string>)
    requires AllWs(w1) && IsVarName(name) && AllWs(w2) && name !in variables
    ensures Substitute("{{" + w1 + name + w2 + "}}" + rest, variables)
      == "{{" + w1 + name + w2 + "}}" + Substitute(rest, variables)
  {
    var raw := "{{" + w1 + name + w2 + "}}";
    var s := raw + rest;
    PlaceholderOfParts(w1, name, w2, rest);
    ScanMatched(s);
    assert s[..|raw|] == raw && s[|raw|..] == rest;
    assert Scan(s) == [Placeholder(raw, name)] + Scan(rest);
  }

  /** Text that never starts a placeholder is copied character by character. */
  lemma SubstituteCharStep(s: string, variables: map<string, string>)
    requires s != [] && MatchPlaceholder(s).None?
    ensures Substitute(s, variables) == [s[0]] + Substitute(s[1..], variables)
  {
  }

  /** A template without `{` is returned unchanged whatever the variables. */
  lemma {:induction false} SubstituteNoBrace(s: string, variables: map<string, string>)
    requires '{' !in s
    ensures Substitute(s, variables) == s
    decreases |s|
  {
    if s != [] {
      assert MatchPlaceholder(s).None?;
      SubstituteNoBrace(s[1..], variables);
      assert s == [s[0]] + s[1..];
    }
  }

  // ---------------------------------------------------------------------
  // Cache keys and file paths (relative to the prompts directory)
  // ---------------------------------------------------------------------

  function TemplateKey(t: PromptType, role: PromptRole): string {
    t.Name() + "/" + role.Name()
  }

  function TemplatePath(t: PromptType, role: PromptRole): string {
    t.Name() + "/" + role.Name() + ".md"
  }

  function StageKey(stage: int): string {
    "smart/stage" + IntToDecimal(stage)
  }

  function StagePath(stage: int): string {
    "smart/stage" + IntToDecimal(stage) + ".md"
  }

  const MermaidKey: string := "smart/mermaid"
  const MermaidPath: string := "smart/mermaid.md"
  const AddonKey: string := "fast/maximize_parallel_tool_calls"
  const AddonPath: string := "fast/maximize_parallel_tool_calls.md"

  /**
   * The loaders never share a cache entry: template keys are one per type
   * and role, and no stage key is a template key, the mermaid key or the
   * add-on key.
   */
  lemma CacheKeysDistinct(t1: PromptType, r1: PromptRole, t2: PromptType, r2: PromptRole, stage: int)
    ensures TemplateKey(t1, r1) == TemplateKey(t2, r2) <==> t1 == t2 && r1 == r2
    ensures StageKey(stage) != TemplateKey(t1, r1) && StageKey(stage) != MermaidKey && StageKey(stage) != AddonKey
    ensures TemplateKey(t1, r1) != MermaidKey && TemplateKey(t1, r1) != AddonKey
  {
    var d := IntToDecimal(stage);
    assert |d| >= 1 && (d[0] == '-' || '0' <= d[0] <= '9');
    assert StageKey(stage)[11] == d[0];
    assert MermaidKey[6] == 'm' && StageKey(stage)[6] == 's';
    assert AddonKey[0] == 'f' && StageKey(stage)[0] == 's';
    if t1 == PromptType.Smart {
      assert TemplateKey(t1, r1)[6] != StageKey(stage)[6] || TemplateKey(t1, r1)[7] != StageKey(stage)[7];
    } else {
      assert TemplateKey(t1, r1)[1] != StageKey(stage)[1];
    }
  }

  /**
   * Every loader reads the file named by its cache key plus `.md`, so
   * distinct keys read distinct files: two template loads share a file
   * exactly when they share type and role, and no stage reads a template's,
   * the mermaid or the add-on file.
   */
  lemma PathsFollowKeys(t1: PromptType, r1: PromptRole, t2: PromptType, r2: PromptRole, stage: int)
    ensures TemplatePath(t1, r1) == TemplateKey(t1, r1) + ".md" && StagePath(stage) == StageKey(stage) + ".md"
    ensures MermaidPath == MermaidKey + ".md" && AddonPath == AddonKey + ".md"
    ensures TemplatePath(t1, r1) == TemplatePath(t2, r2) <==> t1 == t2 && r1 == r2
    ensures StagePath(stage) != TemplatePath(t1, r1) && StagePath(stage) != MermaidPath && StagePath(stage) != AddonPath
  {
    PathIsKeyMd(t1, r1, stage);
    PathIsKeyMd(t2, r2, stage);
    CacheKeysDistinct(t1, r1, t2, r2, stage);
    SuffixCancels(TemplateKey(t1, r1), TemplateKey(t2, r2), ".md");
    SuffixCancels(StageKey(stage), TemplateKey(t1, r1), ".md");
    SuffixCancels(StageKey(stage), MermaidKey, ".md");
    SuffixCancels(StageKey(stage), AddonKey, ".md");
  }

  lemma PathIsKeyMd(t: PromptType, r: PromptRole, stage: int)
    ensures TemplatePath(t, r) == TemplateKey(t, r) + ".md" && StagePath(stage) == StageKey(stage) + ".md"
    ensures MermaidPath == MermaidKey + ".md" && AddonPath == AddonKey + ".md"
  {
  }

  lemma SuffixCancels(a: string, b: string, x: string)
    ensures a + x == b + x <==> a == b
  {
    if a + x == b + x {
      assert |a| == |b|;
      assert a == (a + x)[..|a|] && b == (b + x)[..|b|];
    }
  }

  /**
   * `loadCachedFile` as a function of the cache: the result and the new
   * cache. A hit returns the stored text; a miss reads, prepares and stores.
   */
  function CachedLoad(cache: map<string, string>, key: string, path: string, stripHeader: bool, disk: Disk)
    : (out: (Result<string, PromptError>, map<string, string>))
  {
    if key in cache then (Ok(cache[key]), cache)
    else if path !in disk.files then (Err(TemplateNotFound(path)), cache)
    else
      var content := Prepare(disk.files[path], stripHeader);
      (Ok(content), cache[key := content])
  }

  /**
   * After a successful load the entry is fixed: loading again returns the
   * same text, whatever the disk now holds, and leaves the cache as it is.
   */
  lemma CachedLoadStable(cache: map<string, string>, key: string, path: string, strip: bool, disk: Disk,
                         path2: string, strip2: bool, disk2: Disk)
    requires CachedLoad(cache, key, path, strip, disk).0.Ok?
    ensures var (r, c) := CachedLoad(cache, key, path, strip, disk);
      CachedLoad(c, key, path2, strip2, disk2) == (r, c)
  {
  }

  /** A load changes at most its own entry, and only by adding it. */
  lemma CachedLoadFrame(cache: map<string, string>, key: string, path: string, strip: bool, disk: Disk)
    ensures var (r, c) := CachedLoad(cache, key, path, strip, disk);
      (forall k :: k in cache ==> k in c && c[k] == cache[k]) &&
      (forall k :: k in c && k != key ==> k in cache) &&
      (r.Ok? <==> key in c) &&
      (r.Err? ==> c == cache && r == Err(TemplateNotFound(path)))
  {
  }

  /** The keys `preloadTemplates` fills: the six templates, stages 1 to 5 and the mermaid template. */
  predicate IsPreloadKey(k: string) {
    (exists t, role :: k == TemplateKey(t, role))
    || (exists stage :: 1 <= stage <= 5 && k == StageKey(stage))
    || k == MermaidKey
  }

  /**
   * Every entry of `now` missing from `before` has a preloaded key and holds
   * the file `<key>.md`, prepared with its header stripped.
   */
  predicate OnlyPreloaded(before: map<string, string>, now: map<string, string>, disk: Disk) {
    forall k :: k in now && k !in before ==>
      IsPreloadKey(k) && k + ".md" in disk.files && now[k] == Prepare(disk.files[k + ".md"], true)
  }

  /** Every entry of `before` is in `now`, unchanged. */
  predicate Grows(before: map<string, string>, now: map<string, string>) {
    forall k :: k in before ==> k in now && now[k] == before[k]
  }

  /** Two preloading phases in a row add only preloaded entries. */
  lemma PreloadedTrans(a: map<string, string>, b: map<string, string>, c: map<string, string>, disk: Disk)
    requires Grows(b, c) && OnlyPreloaded(a, b, disk) && OnlyPreloaded(b, c, disk)
    ensures OnlyPreloaded(a, c, disk)
  {
  }

  /** Loading a preloaded key from its own file adds nothing else. */
  lemma PreloadStep(before: map<string, string>, cache: map<string, string>, key: string, path: string, disk: Disk)
    requires OnlyPreloaded(before, cache, disk) && IsPreloadKey(key) && path == key + ".md"
    ensures OnlyPreloaded(before, CachedLoad(cache, key, path, true, disk).1, disk)
  {
  }

  /** The template cache of the module, with the loaders that read and fill it. */
  class TemplateCache {
    var entries: map<string, string>

    constructor()
      ensures entries == map[]
    {
      entries := map[];
    }

    /** `loadCachedFile`. */
    method LoadCachedFile(key: string, path: string, stripHeader: bool, disk: Disk)
      returns (r: Result<string, PromptError>)
      modifies this
      ensures (r, entries) == CachedLoad(old(entries), key, path, stripHeader, disk)
    {
      if key in entries {
        return Ok(entries[key]);
      }
      if path !in disk.files {
        return Err(TemplateNotFound(path));
      }
      var content := Prepare(disk.files[path], stripHeader);
      entries := entries[key := content];
      r := Ok(content);
    }

    /** `loadTemplateFile`: the prompts directory is checked first, even on a cache hit. */
    method LoadTemplateFile(t: PromptType, role: PromptRole, disk: Disk) returns (r: Result<string, PromptError>)
      modifies this
      ensures !disk.promptsDirExists ==> r == Err(PromptsDirNotFound) && entries == old(entries)
      ensures disk.promptsDirExists ==>
        (r, entries) == CachedLoad(old(entries), TemplateKey(t, role), TemplatePath(t, role), true, disk)
    {
      if !disk.promptsDirExists {
        return Err(PromptsDirNotFound);
      }
      r := LoadCachedFile(TemplateKey(t, role), TemplatePath(t, role), true, disk);
    }

    /** `loadStageTemplateFile`. */
    method LoadStageTemplateFile(stage: int, disk: Disk) returns (r: Result<string, PromptError>)
      modifies this
      ensures !disk.promptsDirExists ==> r == Err(PromptsDirNotFound) && entries == old(entries)
      ensures disk.promptsDirExists ==>
        (r, entries) == CachedLoad(old(entries), StageKey(stage), StagePath(stage), true, disk)
    {
      if !disk.promptsDirExists {
        return Err(PromptsDirNotFound);
      }
      r := LoadCachedFile(StageKey(stage), StagePath(stage), true, disk);
    }

    /** `loadMermaidTemplateFile`. */
    method LoadMermaidTemplateFile(disk: Disk) returns (r: Result<string, PromptError>)
      modifies this
      ensures !disk.promptsDirExists ==> r == Err(PromptsDirNotFound) && entries == old(entries)
      ensures disk.promptsDirExists ==>
        (r, entries) == CachedLoad(old(entries), MermaidKey, MermaidPath, true, disk)
    {
      if !disk.promptsDirExists {
        return Err(PromptsDirNotFound);
      }
      r := LoadCachedFile(MermaidKey, MermaidPath, true, disk);
    }

    /** `loadPrompt`. */
    method LoadPrompt(t: PromptType, role: PromptRole, variables: map<string, string>, disk: Disk)
      returns (r: Result<string, PromptError>)
      modifies this
      ensures var (tr, c) := if disk.promptsDirExists
          then CachedLoad(old(entries), TemplateKey(t, role), TemplatePath(t, role), true, disk)
          else (Err(PromptsDirNotFound), old(entries));
        entries == c && (tr.Err? ==> r == tr) && (tr.Ok? ==> r == Ok(Substitute(tr.value, variables)))
    {
      var template := LoadTemplateFile(t, role, disk);
      if template.Err? {
        return template;
      }
      r := Ok(Substitute(template.value, variables));
    }

    /** `loadStagePrompt`: the stage is checked before the cache or the disk is looked at. */
    method LoadStagePrompt(stage: int, variables: map<string, string>, disk: Disk)
      returns (r: Result<string, PromptError>)
      modifies this
      ensures (stage < 1 || stage > 5) ==> r == Err(InvalidStage(stage)) && entries == old(entries)
      ensures 1 <= stage <= 5 ==>
        var (tr, c) := if disk.promptsDirExists
            then CachedLoad(old(entries), StageKey(stage), StagePath(stage), true, disk)
            else (Err(PromptsDirNotFound), old(entries));
        entries == c && (tr.Err? ==> r == tr) && (tr.Ok? ==> r == Ok(Substitute(tr.value, variables)))
    {
      if stage < 1 || stage > 5 {
        return Err(InvalidStage(stage));
      }
      var template := LoadStageTemplateFile(stage, disk);
      if template.Err? {
        return template;
      }
      r := Ok(Substitute(template.value, variables));
    }

    /** `loadMermaidPrompt`. */
    method LoadMermaidPrompt(variables: map<string, string>, disk: Disk) returns (r: Result<string, PromptError>)
      modifies this
      ensures var (tr, c) := if disk.promptsDirExists
          then CachedLoad(old(entries), MermaidKey, MermaidPath, true, disk)
          else (Err(PromptsDirNotFound), old(entries));
        entries == c && (tr.Err? ==> r == tr) && (tr.Ok? ==> r == Ok(Substitute(tr.value, variables)))
    {
      var template := LoadMermaidTemplateFile(disk);
      if template.Err? {
        return template;
      }
      r := Ok(Substitute(template.value, variables));
    }

    /**
     * `loadTraceStagePrompt`: stages 3 to 5 only, sharing the stage cache
     * entry, with `trace_id` bound to the trace id over any caller value.
     */
    method LoadTraceStagePrompt(stage: int, traceId: string, variables: map<string, string>, disk: Disk)
      returns (r: Result<string, PromptError>)
      modifies this
      ensures (stage < 3 || stage > 5) ==> r == Err(InvalidTraceStage(stage)) && entries == old(entries)
      ensures 3 <= stage <= 5 ==>
        var (tr, c) := if disk.promptsDirExists
            then CachedLoad(old(entries), StageKey(stage), StagePath(stage), true, disk)
            else (Err(PromptsDirNotFound), old(entries));
        entries == c && (tr.Err? ==> r == tr) &&
        (tr.Ok? ==> r == Ok(Substitute(tr.value, variables["trace_id" := traceId])))
    {
      if stage < 3 || stage > 5 {
        return Err(InvalidTraceStage(stage));
      }
      var template := LoadStageTemplateFile(stage, disk);
      if template.Err? {
        return template;
      }
      r := Ok(Substitute(template.value, variables["trace_id" := traceId]));
    }

    /** `clearPromptCache`. */
    method Clear()
      modifies this
      ensures entries == map[]
    {
      entries := map[];
    }

    /** `loadMaximizeParallelToolCallsAddon`: no header stripping, only trimming. */
    method LoadMaximizeParallelToolCallsAddon(disk: Disk) returns (r: Result<string, PromptError>)
      modifies this
      ensures !disk.promptsDirExists ==> r == Err(PromptsDirNotFound) && entries == old(entries)
      ensures disk.promptsDirExists ==>
        (r, entries) == CachedLoad(old(entries), AddonKey, AddonPath, false, disk)
    {
      if !disk.promptsDirExists {
        return Err(PromptsDirNotFound);
      }
      r := LoadCachedFile(AddonKey, AddonPath, false, disk);
    }

    /**
     * `preloadTemplates`: every template, stage and the mermaid template is
     * loaded once; failures are swallowed. Afterwards every one whose file
     * exists is cached, no entry that was there has changed, and every new
     * entry is one of these, read from its own file.
     */
    method Preload(disk: Disk)
      modifies this
      ensures Grows(old(entries), entries)
      ensures OnlyPreloaded(old(entries), entries, disk)
      ensures disk.promptsDirExists ==>
        forall t, role :: TemplatePath(t, role) in disk.files ==> TemplateKey(t, role) in entries
      ensures disk.promptsDirExists ==>
        forall stage :: 1 <= stage <= 5 && StagePath(stage) in disk.files ==> StageKey(stage) in entries
      ensures disk.promptsDirExists && MermaidPath in disk.files ==> MermaidKey in entries
    {
      ghost var e0 := entries;
      PreloadTemplates(disk);
      ghost var e1 := entries;
      PreloadStages(disk);
      ghost var e2 := entries;
      var _ := LoadMermaidTemplateFile(disk);
      CachedLoadFrame(e2, MermaidKey, MermaidPath, true, disk);
      if disk.promptsDirExists {
        PreloadStep(e2, e2, MermaidKey, MermaidPath, disk);
      }
      PreloadedTrans(e0, e1, e2, disk);
      PreloadedTrans(e0, e2, entries, disk);
    }

    /** The first loop of `preloadTemplates`: both roles of every prompt type. */
    method PreloadTemplates(disk: Disk)
      modifies this
      ensures Grows(old(entries), entries)
      ensures OnlyPreloaded(old(entries), entries, disk)
      ensures disk.promptsDirExists ==>
        forall t, role :: TemplatePath(t, role) in disk.files ==> TemplateKey(t, role) in entries
    {
      var types := [PromptType.Suggestion, PromptType.Fast, PromptType.Smart];
      var roles := [PromptRole.System, PromptRole.User];
      for ti := 0 to |types|
        invariant Grows(old(entries), entries)
        invariant OnlyPreloaded(old(entries), entries, disk)
        invariant disk.promptsDirExists ==> forall j, role ::
          (0 <= j < ti && TemplatePath(types[j], role) in disk.files) ==> TemplateKey(types[j], role) in entries
      {
        for ri := 0 to |roles|
          invariant Grows(old(entries), entries)
          invariant OnlyPreloaded(old(entries), entries, disk)
          invariant disk.promptsDirExists ==> forall j, role ::
            (0 <= j < ti && TemplatePath(types[j], role) in disk.files) ==> TemplateKey(types[j], role) in entries
          invariant disk.promptsDirExists ==> forall j ::
            (0 <= j < ri && TemplatePath(types[ti], roles[j]) in disk.files) ==> TemplateKey(types[ti], roles[j]) in entries
        {
          ghost var before := entries;
          var _ := LoadTemplateFile(types[ti], roles[ri], disk);
          CachedLoadFrame(before, TemplateKey(types[ti], roles[ri]), TemplatePath(types[ti], roles[ri]), true, disk);
          if disk.promptsDirExists {
            PreloadStep(old(entries), before, TemplateKey(types[ti], roles[ri]), TemplatePath(types[ti], roles[ri]), disk);
          }
        }
        if disk.promptsDirExists {
          forall role | TemplatePath(types[ti], role) in disk.files
            ensures TemplateKey(types[ti], role) in entries
          {
            if role == PromptRole.System { assert role == roles[0]; } else { assert role == roles[1]; }
          }
        }
      }
      if disk.promptsDirExists {
        forall t, role | TemplatePath(t, role) in disk.files
          ensures TemplateKey(t, role) in entries
        {
          if t == PromptType.Suggestion { assert t == types[0]; }
          else if t == PromptType.Fast { assert t == types[1]; }
          else { assert t == types[2]; }
        }
      }
    }

    /** The second loop of `preloadTemplates`: stages 1 to 5. */
    method PreloadStages(disk: Disk)
      modifies this
      ensures Grows(old(entries), entries)
      ensures OnlyPreloaded(old(entries), entries, disk)
      ensures disk.promptsDirExists ==>
        forall stage :: 1 <= stage <= 5 && StagePath(stage) in disk.files ==> StageKey(stage) in entries
    {
      for i := 1 to 6
        invariant Grows(old(entries), entries)
        invariant OnlyPreloaded(old(entries), entries, disk)
        invariant disk.promptsDirExists ==>
          forall stage :: 1 <= stage < i && StagePath(stage) in disk.files ==> StageKey(stage) in entries
      {
        ghost var before := entries;
        var _ := LoadStageTemplateFile(i, disk);
        CachedLoadFrame(before, StageKey(i), StagePath(i), true, disk);
        if disk.promptsDirExists {
          PreloadStep(old(entries), before, StageKey(i), StagePath(i), disk);
        }
      }
    }
  }
}
