# windsurf-codemap core, in Dafny

windsurf-codemap is a VS Code extension. Given a question about a code base, it
generates a *codemap*: a set of traces, each a list of code locations with
descriptions, plus a Mermaid diagram. This project models the deterministic
parts around the generation pipeline and proves properties about them:

- **Mermaid colorizer** (`Colorize`, `SubgraphSyntax`, `DirectiveSyntax`,
  `ColorizeProofs`, `LineEndings`, `ColorizeLines`, `ColorizeIdempotence`).
  It normalises CR LF and collects the subgraph ids in first-seen order. It
  strips `fill:`/`fill-opacity:` from `style` and `classDef` lines and
  appends one placeholder fill per subgraph from an eight-entry palette.
  The three regular expressions are written out as recognisers over one line.
- **Webview placeholder tables** (`Placeholders`): the accent keys, the
  inverse table and the fill cycle, which must match the colorizer's palette.
- **Prompt templates** (`Prompts`): the `{{ name }}` substitution pass, the
  keyed template cache (a class over a `map` field), header stripping, the
  stage range checks and the preloader. The disk is a parameter.
- **Session controller** (`ViewProvider`): the sidebar provider's fields and
  the methods that update them:
  - the recent-files list;
  - the single-flight submit;
  - the transcript and codemap built by the generation callbacks;
  - saving;
  - suggestion refresh.

  A generation run is a sequence of callback events followed by a normal
  return or a throw.
- **Webview helpers**:
  - `App`: the state reducer and submit guard;
  - `CodemapList`: the history search, relative times and previews;
  - `TreeView`: the location index, the synthetic file location and the trace headers;
  - `SyntaxHighlight`: the language guess.
- `Text` and `Types` hold shared string helpers and the `Codemap`/`Trace`/`Location` records.

Whitespace is the ASCII part of JavaScript's `\s` and `String.prototype.trim`:
space, tab, LF, CR, VT and FF. Lower-casing is ASCII.

## Model

| member | source | states |
|---|---|---|
| Colorize.FillColor | src/agent/mermaidColorize.ts:10-20 | the colour of subgraph `i` is a palette entry: `#` and six more characters, with no comma or blank |
| Colorize.FillColorCycles | src/agent/mermaidColorize.ts:139-143 | subgraph `i` gets palette entry `i mod 8`, so the ninth subgraph reuses the first colour |
| Colorize.NormalizeLineEndings | src/agent/mermaidColorize.ts:22-24 | normalising never lengthens the text, introduces no new character, and leaves CR-free text unchanged |
| LineEndings.NormalizeCrLf | src/agent/mermaidColorize.ts:22-24 | a CR LF pair at the front becomes a single LF, and the rest is normalised after it |
| LineEndings.NormalizeOther | src/agent/mermaidColorize.ts:22-24 | any other first character, a lone CR included, is kept and the rest is normalised after it |
| LineEndings.NormalizeCrFreePrefix | src/agent/mermaidColorize.ts:22-24 | a CR-free prefix passes through unchanged |
| LineEndings.NormalizeCrLfJoin | src/agent/mermaidColorize.ts:22-24 | CR-free lines joined with CR LF normalise to the same lines joined with LF |
| LineEndings.NormalizeLineEndingsNotIdempotent | src/agent/mermaidColorize.ts:22-24 | the single replace pass turns CR CR LF into CR LF, which a second pass turns into LF |
| LineEndings.NormalizeFixedIff | src/agent/mermaidColorize.ts:22-24 | normalising leaves a text unchanged if and only if no CR stands directly before an LF |
| LineEndings.NormalizeNoCrLf | src/agent/mermaidColorize.ts:22-24 | a text with no CR directly before an LF, lone CRs included, is left unchanged |
| LineEndings.NormalizeShortens | src/agent/mermaidColorize.ts:22-24 | a text with a CR LF pair anywhere comes back strictly shorter |
| LineEndings.NormalizeNoLf | src/agent/mermaidColorize.ts:22-24 | text without LF has no CR LF pair, so normalisation keeps it as it is, lone CRs included |
| LineEndings.NormalizeLineThenLf | src/agent/mermaidColorize.ts:22-24 | a line followed by LF normalises to the line without its final CR (if any), the LF, then the normalised rest; other CRs stay |
| LineEndings.NormalizeJoin | src/agent/mermaidColorize.ts:22-24 | normalising LF-joined lines removes exactly the CR that ends each line but the last |
| Colorize.SubgraphRawId | src/agent/mermaidColorize.ts:37 | a captured subgraph id is non-empty and holds neither whitespace nor `[` |
| Colorize.SubgraphId | src/agent/mermaidColorize.ts:40-48 | an id taken from a subgraph line, trimmed and unquoted, is non-empty and has no whitespace |
| Colorize.SubgraphIdSteps | src/agent/mermaidColorize.ts:37 | only a line whose trimmed form starts with `subgraph` (in any case) declares an id |
| Colorize.SubgraphIdOfTrim | src/agent/mermaidColorize.ts:37 | recognition depends only on the trimmed line |
| Colorize.StripQuotes | src/agent/mermaidColorize.ts:45 | a capture of three or more characters wrapped in double quotes, with no line terminator between them, loses exactly its two quotes; any other capture is kept as it is |
| SubgraphSyntax.SubgraphRawIdOfParts | src/agent/mermaidColorize.ts:37 | a line of blanks, `subgraph` in any case, at least one blank, an id, blanks, an optional `[label]` or `["label"]`, and blanks captures that id |
| SubgraphSyntax.SubgraphRawIdShape | src/agent/mermaidColorize.ts:37 | every line the pattern accepts is made of exactly those pieces, with the captured id in the middle |
| SubgraphSyntax.CleanIdOfRaw | src/agent/mermaidColorize.ts:40-46 | trimming a capture changes nothing, and removing its quotes leaves a non-empty id |
| SubgraphSyntax.SubgraphIdOfParts | src/agent/mermaidColorize.ts:37-48 | a line of that shape declares its id with the surrounding double quotes removed |
| SubgraphSyntax.SubgraphIdIsUnquotedCapture | src/agent/mermaidColorize.ts:37-48 | a declared id is the capture with its surrounding double quotes removed |
| SubgraphSyntax.SubgraphIdShape | src/agent/mermaidColorize.ts:37-48 | every line that declares an id has that shape, and the id is its unquoted capture |
| Colorize.Dedup | src/agent/mermaidColorize.ts:49-53 | the collected ids are exactly the ids seen, each once |
| Colorize.DedupFirstSeenOrder | src/agent/mermaidColorize.ts:39-54 | an earlier collected id first appears earlier in the diagram |
| Colorize.CollectSubgraphIds | src/agent/mermaidColorize.ts:39-56 | the loop with its `seen` set returns the deduplicated ids of the subgraph lines, in line order |
| Colorize.ExtractSubgraphIds | src/agent/mermaidColorize.ts:26-57 | the ids of the normalised diagram's lines, distinct, in first-seen order |
| Colorize.MatchDirective | src/agent/mermaidColorize.ts:65-69 | a matched `style`/`classDef` line yields a blank-free name and terminator-free attributes; which lines match, and with which groups, is stated in both directions by `DirectiveSyntax.DirectiveOfParts` and `DirectiveSyntax.DirectiveShape` |
| DirectiveSyntax.AttrsOfParts | src/agent/mermaidColorize.ts:66-67 | after the name, blanks, then attributes starting with a non-blank, then blanks that are empty or start with a line terminator: the second group is exactly those attributes |
| DirectiveSyntax.NameOfParts | src/agent/mermaidColorize.ts:66-67 | a blank-free name followed by such blanks and attributes gives that name and those attributes as the two groups |
| DirectiveSyntax.DirectiveOfParts | src/agent/mermaidColorize.ts:65-69 | a line of blanks, the keyword in any case, blanks, a blank-free name, blanks and terminator-free attributes that start with a non-blank (such as `  STYLE  A   fill:#fff,stroke:#000`) is matched, with that name and those attributes as the groups |
| DirectiveSyntax.DirectiveShape | src/agent/mermaidColorize.ts:65-69 | every matched line is made of exactly those pieces around its two groups: blanks, the keyword in any case, at least one blank, the name, at least one blank, the attributes, then blanks that are empty or start with a line terminator |
| DirectiveSyntax.StripFillOfParts | src/agent/mermaidColorize.ts:64-90 | for a user's directive line of that shape, the result is dropped when no attribute survives the comma split and fill filter, and is otherwise `<keyword> <name> <kept attributes joined by ,>` |
| Colorize.MatchDirectiveSteps | src/agent/mermaidColorize.ts:65-69 | a match starts with the keyword (in any case) followed by whitespace, after leading blanks |
| Colorize.LastNonTerminator | src/agent/mermaidColorize.ts:66 | the greedy `(.+)` group ends at the last character that is not a line terminator |
| Colorize.KeepAttrsShape | src/agent/mermaidColorize.ts:77-84 | every kept attribute is trimmed, non-empty and not a fill |
| Colorize.KeepAttrsMembers | src/agent/mermaidColorize.ts:77-84 | an attribute is kept exactly when some comma-separated piece trims to it and it is neither `fill:` nor `fill-opacity:` (any case, blanks before the colon) |
| Colorize.StripFill | src/agent/mermaidColorize.ts:64-90 | a non-matching line comes back as it is; a rewritten line starts with the canonical keyword |
| Colorize.StripFillNoneIsDirective | src/agent/mermaidColorize.ts:86-88 | a line is dropped only if it starts like the directive |
| Colorize.RebuiltMatches | src/agent/mermaidColorize.ts:89 | a rewritten line matches the directive again, with the same name and the comma-joined kept attributes |
| Colorize.StripFillRebuilt | src/agent/mermaidColorize.ts:64-90 | stripping a rewritten line gives it back unchanged |
| Colorize.StripFillIdempotent | src/agent/mermaidColorize.ts:64-90 | stripping fills twice is the same as stripping once |
| Colorize.StartsWithCIsNotStyle | src/agent/mermaidColorize.ts:66 | a rewritten `classDef` line is not a `style` line |
| Colorize.StartsWithSIsNotClassDef | src/agent/mermaidColorize.ts:67 | a rewritten `style` line is not a `classDef` line |
| Colorize.RebuiltStyleIsNotClassDef | src/agent/mermaidColorize.ts:110-130 | after the `style` pass, the `classDef` pass can drop only a line that the `style` pass left untouched |
| Colorize.SanitizeLineIdempotent | src/agent/mermaidColorize.ts:108-132 | a sanitised line is left unchanged by a second sanitising pass |
| Colorize.SanitizeLineDropsOnlyDirectives | src/agent/mermaidColorize.ts:110-130 | only a line that starts like a `style` or `classDef` directive is ever dropped |
| Colorize.SanitizeAll | src/agent/mermaidColorize.ts:107-132 | the loop, with its two `continue`s, returns the kept lines in order; the fall-back to the original line cannot be reached |
| Colorize.FillIsFillAttr | src/agent/mermaidColorize.ts:83 | `fill:<colour>` is recognised as a fill |
| Colorize.StyleLineIsFillOnly | src/agent/mermaidColorize.ts:139-143 | a generated style line matches the `style` pattern with one fill attribute, so sanitising drops it |
| Colorize.Colorize | src/agent/mermaidColorize.ts:99-103 | a diagram that is blank after normalisation gives the empty string |
| Colorize.ColorizeMermaidDiagram | src/agent/mermaidColorize.ts:99-147 | the method computes the colorizer's result: normalise, trim, collect ids, sanitise, then append the style lines |
| ColorizeProofs.SanitizeKeepsLineIds | src/agent/mermaidColorize.ts:108-132 | sanitising a line keeps its subgraph id; a dropped line declared none |
| ColorizeProofs.SanitizeKeepsIds | src/agent/mermaidColorize.ts:105-132 | the sanitised lines declare the same subgraph ids, in the same order, as the original lines |
| ColorizeProofs.SanitizedLinesStable | src/agent/mermaidColorize.ts:108-132 | every sanitised line passes through the sanitiser unchanged |
| ColorizeProofs.SanitizeLinesOfStable | src/agent/mermaidColorize.ts:108-132 | lines that the sanitiser does not change pass through in their original order |
| ColorizeProofs.BlankLineHasNoId | src/agent/mermaidColorize.ts:37 | a blank line declares no subgraph |
| ColorizeLines.LineIdsDropCr | src/agent/mermaidColorize.ts:37-45 | dropping a line's final CR does not change the subgraph id it declares |
| ColorizeLines.DropCrsIds | src/agent/mermaidColorize.ts:26-50 | dropping the final CRs of the lines keeps their subgraph ids, in order |
| ColorizeLines.SubgraphIdsOfLines | src/agent/mermaidColorize.ts:26-50 | the ids of a text are the deduplicated ids of its LF-separated lines as they stand: the second normalisation inside `extractSubgraphIds` changes no id |
| ColorizeLines.SanitizedNoLf | src/agent/mermaidColorize.ts:107-132 | a sanitised line without LF is still without LF |
| ColorizeLines.BodyLinesNoLf | src/agent/mermaidColorize.ts:134 | the body lines of LF-free lines are LF-free and declare the same ids |
| ColorizeLines.BodyLinesOf | src/agent/mermaidColorize.ts:105-134 | the body lines are LF-free, join to the sanitised body, and their deduplicated ids are the diagram's ids |
| ColorizeLines.BodyStart | src/agent/mermaidColorize.ts:134 | a diagram with subgraphs has a non-empty body starting with a non-blank |
| ColorizeLines.SplitAroundBlank | src/agent/mermaidColorize.ts:146 | two runs of LF-free lines joined around an empty line split back into the same lines |
| ColorizeLines.ColorizeText | src/agent/mermaidColorize.ts:139-146 | with subgraphs, the final trim changes nothing: the output is the body, two LFs, then the LF-joined style lines |
| ColorizeLines.LayoutLines | src/agent/mermaidColorize.ts:134-146 | body, blank line and style lines joined that way split back into exactly those lines |
| ColorizeLines.ColorizeLayout | src/agent/mermaidColorize.ts:134-146 | for every diagram with subgraphs (CRs left after normalisation included), the output lines are the sanitised body lines, one blank line, then one style line per id in order |
| ColorizeIdempotence.StyleLinesFormat | src/agent/mermaidColorize.ts:139-143 | style line `i` reads `style <id i> fill:<palette[i mod 8]>` |
| ColorizeIdempotence.ColorizeIdempotent | src/agent/mermaidColorize.ts:99-147 | colorizing a colorized diagram returns it unchanged whenever the trimmed, normalised text has no CR directly before an LF (lone CRs anywhere are fine): old fill lines are stripped and the same lines regenerated |
| Placeholders.PlaceholdersDistinct | webview/mermaidPlaceholders.ts:1-10 | each placeholder is `#` and six characters, and the eight keys have eight distinct placeholders |
| Placeholders.AllKeysComplete | webview/mermaidPlaceholders.ts:1-10 | there are exactly eight accent keys |
| Placeholders.InverseOfPlaceholder | webview/mermaidPlaceholders.ts:16-28 | the inverse table maps each key's placeholder back to that key |
| Placeholders.InverseHoldsOnlyPlaceholders | webview/mermaidPlaceholders.ts:16-28 | every entry of the inverse table is a placeholder mapped to its own key |
| Placeholders.CycleIsPermutation | webview/mermaidPlaceholders.ts:31-40 | the fill cycle has eight distinct entries covering every placeholder |
| Placeholders.CycleMatchesColorizer | webview/mermaidPlaceholders.ts:31-40 | the webview's cycle equals the colorizer's palette entry by entry |
| Prompts.HeaderLength | src/prompts/index.ts:62 | a header is removed exactly when the text starts with `#` and has a newline; the removal ends after the run of newlines |
| Prompts.HeaderShape | src/prompts/index.ts:62 | the removed prefix is `#`, a newline-free rest of line, then only newlines |
| Prompts.StripHeader | src/prompts/index.ts:62 | text not starting with `#` is left as it is |
| Prompts.Prepare | src/prompts/index.ts:61-65 | the stored text is trimmed, after header removal only when stripping is asked for |
| Prompts.MatchPlaceholder | src/prompts/index.ts:108 | a match opens with `{{`, closes with `}}` and carries a non-empty word-character name; which texts match, and with which name, is stated in both directions by `PlaceholderShape` and `PlaceholderOfParts` |
| Prompts.PlaceholderShape | src/prompts/index.ts:108 | every match is `{{`, blanks, the name, blanks and `}}`: the name is exactly the text between the two runs of blanks |
| Prompts.PlaceholderOfParts | src/prompts/index.ts:108 | `{{`, any blanks, a word-character name, any blanks and `}}` at the start of a text are matched, with that name and ending right after the `}}` |
| Prompts.SubstituteKnownPlaceholder | src/prompts/index.ts:107-111 | `{{ name }}` (blanks allowed inside) with a name in the map becomes that name's value, followed by the substituted rest |
| Prompts.SubstituteUnknownPlaceholder | src/prompts/index.ts:107-115 | `{{ name }}` with a name not in the map is kept as written, followed by the substituted rest |
| Prompts.ScanCovers | src/prompts/index.ts:108-115 | the pass loses nothing: the texts of the pieces it scans put back together give the template |
| Prompts.ScanPlaceholders | src/prompts/index.ts:108 | every placeholder the pass meets is matched whole by the pattern |
| Prompts.PrefixKeepsMatch | src/prompts/index.ts:108 | a placeholder match depends only on the text it spans |
| Prompts.RenderUnknownNames | src/prompts/index.ts:109-114 | placeholders whose names are absent are kept as written |
| Prompts.SubstituteUnknownVerbatim | src/prompts/index.ts:107-116 | when no name the pass meets is in the map, the template comes back unchanged |
| Prompts.SubstituteStep | src/prompts/index.ts:108-111 | a known placeholder becomes its value, which is not re-scanned, followed by the substituted rest |
| Prompts.SubstituteCharStep | src/prompts/index.ts:108 | text that does not start a placeholder is copied one character at a time |
| Prompts.SubstituteNoBrace | src/prompts/index.ts:107-116 | a template without `{` is returned unchanged whatever the variables |
| Prompts.CacheKeysDistinct | src/prompts/index.ts:77-97 | template keys differ per type and role, no template key is the mermaid or add-on key, and no stage key equals a template, mermaid or add-on key |
| Prompts.PathsFollowKeys | src/prompts/index.ts:76-101 | each loader reads its cache key plus `.md`; two template loads share a file exactly when they share type and role, and a stage file is never a template, mermaid or add-on file |
| Prompts.CachedLoadStable | src/prompts/index.ts:50-52 | after a successful load, loading again returns the same text whatever the disk now holds, and the cache stays as it is |
| Prompts.CachedLoadFrame | src/prompts/index.ts:44-71 | a load only adds its own entry; a miss on a missing file raises "not found" and leaves the cache unchanged |
| Prompts.TemplateCache.constructor | src/prompts/index.ts:19 | the cache starts empty |
| Prompts.TemplateCache.LoadCachedFile | src/prompts/index.ts:44-71 | the result and the new cache are those of a cached load: a hit, a not-found error, or the prepared file stored under its key |
| Prompts.TemplateCache.LoadTemplateFile | src/prompts/index.ts:76-81 | the prompts directory is checked first, even on a cache hit; then `<type>/<role>.md` is loaded under key `<type>/<role>` |
| Prompts.TemplateCache.LoadStageTemplateFile | src/prompts/index.ts:86-91 | the directory check, then `smart/stage<n>.md` under key `smart/stage<n>` |
| Prompts.TemplateCache.LoadMermaidTemplateFile | src/prompts/index.ts:96-101 | the directory check, then `smart/mermaid.md` under key `smart/mermaid` |
| Prompts.TemplateCache.LoadPrompt | src/prompts/index.ts:124-131 | the loaded template with the variables substituted, or the load's error |
| Prompts.TemplateCache.LoadStagePrompt | src/prompts/index.ts:138-147 | a stage outside 1..5 is rejected before the cache or the disk is consulted; otherwise the stage template, substituted |
| Prompts.TemplateCache.LoadMermaidPrompt | src/prompts/index.ts:159-162 | the mermaid template, substituted |
| Prompts.TemplateCache.LoadTraceStagePrompt | src/prompts/index.ts:170-183 | a stage outside 3..5 is rejected before the cache or the disk is consulted; `trace_id` is overridden by the given trace id; the cache entry is shared with the stage loader |
| Prompts.TemplateCache.Clear | src/prompts/index.ts:188-190 | the cache is empty afterwards |
| Prompts.TemplateCache.LoadMaximizeParallelToolCallsAddon | src/prompts/index.ts:236-242 | the add-on is loaded without header removal, only trimmed |
| Prompts.TemplateCache.Preload | src/prompts/index.ts:195-224 | no failure escapes; no existing entry changes; every template, stage 1..5 and mermaid file present on disk ends up cached; every new entry is one of those keys, holding its own file prepared with the header stripped |
| Prompts.TemplateCache.PreloadTemplates | src/prompts/index.ts:199-207 | both roles of the three prompt types are loaded; only those entries are added, and each present file is cached |
| Prompts.TemplateCache.PreloadStages | src/prompts/index.ts:210-216 | stages 1 to 5 are loaded; only those entries are added, and each present file is cached |
| Prompts.PreloadStep | src/prompts/index.ts:195-224 | loading a preloaded key from its own file adds nothing else to the cache |
| Prompts.PreloadedTrans | src/prompts/index.ts:195-224 | two preloading phases in a row still add only preloaded entries |
| ViewProvider.WithoutMembers | src/views/CodemapViewProvider.ts:41 | the filter keeps exactly the other paths |
| ViewProvider.WithoutAppend | src/views/CodemapViewProvider.ts:41 | the filter keeps the order of the paths |
| ViewProvider.WithoutNoDuplicates | src/views/CodemapViewProvider.ts:41 | filtering a duplicate-free list keeps it duplicate-free |
| ViewProvider.WithoutAbsent | src/views/CodemapViewProvider.ts:41 | filtering out an absent path changes nothing |
| ViewProvider.MoveToFrontProperties | src/views/CodemapViewProvider.ts:39-47 | the new list starts with the path, has no duplicates and at most twenty entries, then holds the other paths in their old order, as many as fit |
| ViewProvider.MoveToFrontMembers | src/views/CodemapViewProvider.ts:39-47 | no path is invented, and while the list holds fewer than twenty none is lost |
| ViewProvider.TranscriptLength | src/views/CodemapViewProvider.ts:184-201 | messages and tool calls add one transcript entry each; the other callbacks add none |
| ViewProvider.ToolCallPreview | src/views/CodemapViewProvider.ts:189-194 | a tool entry carries the result up to 300 characters, else its first 300 followed by `...` |
| ViewProvider.PublishedIsLast | src/views/CodemapViewProvider.ts:197-200 | the codemap after a run is the one from the last update, or the starting one when there is none |
| ViewProvider.SaveIffPublished | src/views/CodemapViewProvider.ts:220-231 | a codemap is saved exactly when the run returned normally after at least one update |
| ViewProvider.LastUpdateExists | src/views/CodemapViewProvider.ts:197-200 | a run with an update publishes a codemap |
| ViewProvider.NoUpdateNone | src/views/CodemapViewProvider.ts:197-200 | a run without an update publishes none |
| ViewProvider.CodemapViewProvider.constructor | src/views/CodemapViewProvider.ts:15-21 | a fresh controller is idle in smart mode, with empty lists and no codemap |
| ViewProvider.CodemapViewProvider.AddRecentFile | src/views/CodemapViewProvider.ts:39-47 | the list becomes the moved-to-front list, keeping the no-duplicates and twenty-entry invariant; nothing else changes. The other methods keep that invariant too |
| ViewProvider.CodemapViewProvider.RefreshSuggestions | src/views/CodemapViewProvider.ts:64-80 | nothing happens when unconfigured or with fewer than 3 recent files; otherwise the 10 most recent paths are sent and each returned text becomes a suggestion, in order |
| ViewProvider.CodemapViewProvider.ShowWithQuery | src/views/CodemapViewProvider.ts:138-147 | the mode is taken only when the view exists; nothing else changes |
| ViewProvider.CodemapViewProvider.LoadCodemap | src/views/CodemapViewProvider.ts:149-155 | the codemap replaces the current one, and the transcript is a single entry naming it |
| ViewProvider.CodemapViewProvider.LoadHistory | src/views/CodemapViewProvider.ts:263-274 | a found codemap is shown as by loading it; a missing one changes nothing |
| ViewProvider.CodemapViewProvider.HandleEvent | src/views/CodemapViewProvider.ts:184-201 | a callback appends its transcript entries, and an update replaces the codemap |
| ViewProvider.CodemapViewProvider.Submit | src/views/CodemapViewProvider.ts:157-246 | a busy controller ignores the request before the configuration is checked, and an unconfigured one ignores it too. An accepted request resets the session and replays the callbacks. It saves, with one message, only on a normal return with a codemap, and always ends not processing |
| App.InitialState | webview/components/App.tsx:42-55 | not processing, no codemap, empty lists; the saved query, mode, view and page where present, else `""`, smart, tree, home |
| App.UpdateFrame | webview/components/App.tsx:81-90 | an update copies codemap, processing, mode, suggestions and history, and keeps the query and the view |
| App.UpdatePage | webview/components/App.tsx:73-91 | an update with a codemap goes to the detail page. The page changes exactly when a codemap arrives on home, or is gone while idle on detail |
| App.UpdateNeverStrandsDetail | webview/components/App.tsx:73-91 | after an update the detail page lacks a codemap only while a run is in progress |
| App.UpdateIdempotent | webview/components/App.tsx:73-91 | the same update delivered twice has the effect of one |
| App.SetQueryAndNavigateFrame | webview/components/App.tsx:94-106 | `setQuery` changes only the query, `navigate` only the page |
| App.HandleSubmit | webview/components/App.tsx:127-135 | a request is posted exactly when the trimmed query is non-empty and nothing runs; it carries the trimmed query and the mode |
| App.SubmitIsClean | webview/components/App.tsx:127-135 | a posted query is non-empty, has no surrounding whitespace, and is never posted while processing |
| App.NoSubmitWhileProcessing | webview/components/App.tsx:127-135 | once an update reports processing, editing the query cannot lead to a submit |
| CodemapList.BlankSearchKeepsAll | webview/components/CodemapList.tsx:28-30 | a whitespace-only search shows the whole history |
| CodemapList.HitsMembers | webview/components/CodemapList.tsx:31-36 | an item is listed exactly when it is in the history and its lower-cased title or description contains the lower-cased, untrimmed search |
| CodemapList.HitsAppend | webview/components/CodemapList.tsx:32-36 | filtering keeps order: it distributes over concatenation |
| CodemapList.HitsSubsequence | webview/components/CodemapList.tsx:32-36 | the filtered list is an order-preserving subsequence of the history |
| CodemapList.SearchIgnoresCase | webview/components/CodemapList.tsx:27-37 | a search typed in another case gives the same list |
| CodemapList.FormatTimeBands | webview/components/CodemapList.tsx:39-52 | each label covers one band (minute, hour, day, week), and its number is the elapsed time rounded down |
| CodemapList.FutureIsJustNow | webview/components/CodemapList.tsx:39-52 | a future timestamp reads "Just now" |
| CodemapList.LabelText | webview/components/CodemapList.tsx:47-50 | "Just now" is shown exactly for the first band; any other band shows the count in decimal, its unit letter (`m`, `h` or `d`), then " ago" |
| CodemapList.DecimalRoundTrip | webview/components/CodemapList.tsx:48-50 | the decimal digits printed for a count read back as that count |
| CodemapList.LabelTextReadsBack | webview/components/CodemapList.tsx:47-50 | the shown text determines the label: reading it back gives the band and the count |
| CodemapList.ShownTimeReadsBack | webview/components/CodemapList.tsx:39-50 | within a week, the text `formatTime` shows reads back as the band and rounded-down count it computed |
| CodemapList.CurrentByTitle | webview/components/CodemapList.tsx:54-56 | being current depends on the title alone; nothing is current without a codemap |
| CodemapList.DescriptionPreview | webview/components/CodemapList.tsx:121-123 | up to 100 characters are shown as they are; a longer text shows its first 100 then `...` |
| CodemapList.EmptyNotice | webview/components/CodemapList.tsx:90-97 | the notice appears exactly when nothing is listed and nothing runs |
| CodemapList.BlankSearchNotice | webview/components/CodemapList.tsx:89-97 | a blank, non-empty search on an empty history says nothing matched |
| TreeView.IndexKeys | webview/components/CodemapTreeView.tsx:81-91 | the index holds exactly the ids of the locations |
| TreeView.IndexLastWins | webview/components/CodemapTreeView.tsx:84-88 | when ids repeat, the entry is the last location carrying it |
| TreeView.AllLocationsOrder | webview/components/CodemapTreeView.tsx:84-88 | locations are visited trace by trace, each trace in order |
| TreeView.BuildLocationIndex | webview/components/CodemapTreeView.tsx:81-91 | no codemap gives an empty index; otherwise the nested loops build the index of all locations in trace-then-location order |
| TreeView.IndexResolves | webview/components/CodemapTreeView.tsx:81-91 | every location id of every trace resolves, and it resolves to the last location with that id |
| TreeView.LastSegment | webview/components/CodemapTreeView.tsx:100 | the title segment is the suffix after the last `/` or `\` |
| TreeView.FileTitle | webview/components/CodemapTreeView.tsx:100 | the title is the last segment, or the whole path when that segment is empty |
| TreeView.FileTitleCases | webview/components/CodemapTreeView.tsx:100 | a separator-free name is its own title, and `dir/name` or `dir\name` has title `name` |
| TreeView.TrailingSeparatorTitle | webview/components/CodemapTreeView.tsx:100 | a path ending in a separator is its own title |
| TreeView.SyntheticLocation | webview/components/CodemapTreeView.tsx:94-104 | the location has the clicked path, a non-zero line, and empty line content and description |
| TreeView.SyntheticLocationLine | webview/components/CodemapTreeView.tsx:96-98 | the line is the given one when present and non-zero, else 1; the id is `file-<path>-<line or 0>` |
| TreeView.TraceHeader | webview/components/CodemapTreeView.tsx:47-53 | an expanded trace with a description shows it, cut to its first 120 characters followed by `...` when longer |
| TreeView.StepBadges | webview/components/CodemapTreeView.tsx:33-53 | trace `i` is badged `i + 1`, so the badges run 1, 2, 3, … without gaps or repeats; each trace has its own open state, and shows a description exactly when it is open and has one |
| SyntaxHighlight.Extension | webview/components/SyntaxHighlight.tsx:123 | the extension is lower case, has no dot, and is no longer than the path |
| SyntaxHighlight.DotStartAfterLastDot | webview/components/SyntaxHighlight.tsx:123 | in `prefix.tail` with a dot-free `tail`, the extension starts right after the last dot, so it is `tail` lower-cased |
| SyntaxHighlight.GuessLanguageAsWritten | webview/components/SyntaxHighlight.tsx:122-150 | the table lookup on a plain object, including the names every object inherits |
| SyntaxHighlight.AsWrittenReturnsInheritedMember | webview/components/SyntaxHighlight.tsx:124-149 | as written, `x.constructor` yields an inherited member rather than `text` |
| SyntaxHighlight.GuessLanguage | webview/components/SyntaxHighlight.tsx:122-150 | a table language for a listed extension, `text` otherwise; always a table value or `text` |
| SyntaxHighlight.AsWrittenAgreesElsewhere | webview/components/SyntaxHighlight.tsx:124-149 | the lookup as written and the corrected one agree on every extension except the inherited names |
| SyntaxHighlight.DependsOnlyOnExtension | webview/components/SyntaxHighlight.tsx:123 | the guess depends on the extension alone |
| SyntaxHighlight.IgnoresCase | webview/components/SyntaxHighlight.tsx:123 | the case of the path does not matter |
| SyntaxHighlight.NoDotUsesWholePath | webview/components/SyntaxHighlight.tsx:123 | a path with no dot is looked up whole, lower-cased |
| SyntaxHighlight.EmptyExtensionIsText | webview/components/SyntaxHighlight.tsx:149 | an empty extension yields `text` |
| SyntaxHighlight.TableAliases | webview/components/SyntaxHighlight.tsx:124-148 | `ts`/`tsx` are typescript, `h` is c, `hpp` is cpp, `scss` is css, `xml` is html, `yml` is yaml, `go` is go |

Functions that define behaviour and carry no contract of their own are
specified by the lemma rows about them:

- `Prompts.Scan`, `Prompts.Render`, `Prompts.Substitute`: `ScanCovers`, `ScanPlaceholders`, `RenderUnknownNames`, `SubstituteUnknownVerbatim`, `SubstituteStep`, `SubstituteKnownPlaceholder`, `SubstituteUnknownPlaceholder`, `SubstituteCharStep`, `SubstituteNoBrace`.
- `App.Reduce`, `App.PageAfterUpdate`: `UpdateFrame`, `UpdatePage`, `UpdateNeverStrandsDetail`, `UpdateIdempotent`, `SetQueryAndNavigateFrame`.
- `CodemapList.FilterHistory`: `BlankSearchKeepsAll`, `HitsMembers`, `HitsAppend`, `HitsSubsequence`, `SearchIgnoresCase`.
- `CodemapList.FormatTime`: `FormatTimeBands`, `FutureIsJustNow`.
- `CodemapList.ReadLabel`, `CodemapList.DecimalValue` (the reader used as the partner of `LabelText`): `DecimalRoundTrip`, `LabelTextReadsBack`, `ShownTimeReadsBack`.
- `CodemapList.IsCurrentCodemap`: `CurrentByTitle`.
- `Colorize.SanitizeLine`, `Colorize.SanitizeLines`: `SanitizeLineIdempotent`, `SanitizeLineDropsOnlyDirectives`, `SanitizeAll`, and in `ColorizeProofs` `SanitizeKeepsLineIds`, `SanitizeKeepsIds`, `SanitizedLinesStable`, `SanitizeLinesOfStable`.
- `Colorize.IsFillAttr`: `FillIsFillAttr`, `KeepAttrsMembers`, `StyleLineIsFillOnly`.
- `Colorize.StyleLines`: `StyleLineIsFillOnly`, `ColorizeIdempotence.StyleLinesFormat`.
- `Colorize.KeepAttrs`, `Colorize.Rebuilt`: `KeepAttrsShape`, `KeepAttrsMembers`, `RebuiltMatches`, `StripFillRebuilt`.
- `Colorize.SubgraphIds`: `ExtractSubgraphIds`, `CollectSubgraphIds`, `Dedup`, `DedupFirstSeenOrder`.
- `LineEndings.DropCr`, `LineEndings.DropCrs`: `NormalizeLineThenLf`, `NormalizeJoin`, `LineIdsDropCr`, `DropCrsIds`.
- `Prompts.CachedLoad`: `CachedLoadStable`, `CachedLoadFrame`, `PreloadStep`, and the `TemplateCache` loaders, whose ensures are stated through it.
- `Prompts.TemplateKey`, `Prompts.TemplatePath`, `Prompts.StageKey`, `Prompts.StagePath`, `Prompts.MermaidKey`, `Prompts.MermaidPath`, `Prompts.AddonKey`, `Prompts.AddonPath`: `CacheKeysDistinct`, `PathsFollowKeys`, and the `TemplateCache` loaders `LoadTemplateFile`, `LoadStageTemplateFile`, `LoadMermaidTemplateFile`, `LoadMaximizeParallelToolCallsAddon`, `Preload`.
- `ViewProvider.MoveToFront`: `MoveToFrontProperties`, `MoveToFrontMembers`.
- `ViewProvider.Transcript`, `ViewProvider.ToolCallContent`: `TranscriptLength`, `ToolCallPreview`.
- `ViewProvider.Published`: `PublishedIsLast`, `LastUpdateExists`, `NoUpdateNone`, `SaveIffPublished`.
- `TreeView.AllLocations`, `TreeView.IndexOf`: `IndexKeys`, `IndexLastWins`, `AllLocationsOrder`, `IndexResolves`, `BuildLocationIndex`.
- `TreeView.TraceHeaders`: `StepBadges`.

## Left out

- The generation orchestrators, the model client and the storage module are not part of this model. A run is a list of callback events and an outcome; configuration is a boolean; the saved path is a parameter.
- The suggestion generator (src/agent/suggestionAgent.ts) is not part of this model; its answer is the `response` parameter of `RefreshSuggestions`.
- Editor and webview plumbing is not modelled, because it only moves data to and from the editor:
  - `postMessage`, `_updateWebview` and the HTML page;
  - opening files, notifications and logging;
  - the `scheduleRefresh` timer.
- Suggestion ids (built from the clock and a random number) are not modelled, and neither is the locale date text of `formatTime`: both depend on the clock, randomness or the locale.
- Async interleaving is not modelled: a submit arriving while a run is awaiting is only covered by the busy check, and each run is sequential.
- Prompt paths are relative to the prompts directory. The directory lookup is a boolean on the disk.
- `getStageCount` and `getTemplateTypes` only return constants. The stage range and the three types appear directly in the loaders and in `Preload`.
- Prompts.Substitute: `varName in variables` in the source also sees names every object inherits (`{{ constructor }}` would be replaced by a function's text); the model only looks up the map's own keys.
- Non-integer stage numbers, line numbers and timestamps are not modelled; they are integers here.
- `saveCodemap` throwing is not modelled; saving always succeeds and `savedPath` is where it went.
- The `|| ''` when restoring the query also replaces a saved empty string by `""`, which gives the same value; `InitialState` treats a missing query only.
- Unicode whitespace, case folding and surrogate pairs: `trim`, `\s` and `toLowerCase` are ASCII here.
- ColorizeIdempotence.ColorizeIdempotent: requires that the trimmed, normalised text has no CR directly before an LF. Lone CRs are allowed anywhere. The excluded texts are those with CR CR LF in the input: the single pass turns it into CR LF and a second run into LF (`NormalizeLineEndingsNotIdempotent`, `NormalizeFixedIff`). The requirement is sufficient; the model does not decide which of the excluded diagrams are still idempotent.
- Prompts.MatchPlaceholder: its own ensures gives only the ends of a match and the name's alphabet. Which texts match, and with which name, is stated by the lemmas `PlaceholderShape` and `PlaceholderOfParts`, because an existential in the function's own ensures makes every proof that unfolds the matcher much costlier.
- Colorize.MatchDirective: its own ensures gives only the shape of the two groups. Which lines match, and with which groups, is stated by `DirectiveSyntax.DirectiveOfParts` and `DirectiveSyntax.DirectiveShape`.
- Colorize.StripFill: its own contract is weak; what it keeps and drops is stated by `KeepAttrsMembers`, `RebuiltMatches` and `StripFillIdempotent`.
- The TreeNode, QueryBar and MermaidDiagram components, the `renderParts` highlighter, the mock data in reference.tsx and esbuild.js are presentation or build code and are not modelled.

## Findings

| source | as written | input that shows it | evidently intended | confidence | as-written member | corrected member |
|---|---|---|---|---|---|---|
| webview/components/SyntaxHighlight.tsx:124-149 | the extension is looked up with `langMap[ext]` in a plain object literal, which also finds the members every object inherits | a file named `x.constructor` (or `a.__proto__`) yields the inherited `Object` constructor, not a language name | unlisted extensions, these included, yield `text` | not executed | SyntaxHighlight.AsWrittenReturnsInheritedMember | SyntaxHighlight.GuessLanguage |
