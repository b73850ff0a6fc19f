/**
 * Mermaid post-processing (src/agent/mermaidColorize.ts): strip every
 * `fill:` / `fill-opacity:` attribute from `style` and `classDef` lines and
 * append one `style <id> fill:<placeholder>` line per subgraph, in the order
 * the subgraphs are first declared, cycling through eight placeholder colours.
 *
 * The three regular expressions of the source are written out as recognisers
 * over one line; whitespace is `Text.IsWs` and the `i` flag is ASCII folding.
 */
module Colorize {
  import opened Text
  import opened Types

  /** The placeholder palette; its order fixes which colour each subgraph gets. */
  const SubgraphFillPlaceholderCycle: seq<string> :=
    ["#a5d8ff", "#ffd8a8", "#d0bfff", "#b2f2bb", "#fcc2d7", "#ffec99", "#99e9f2", "#eebefa"]

  /** Colour of the subgraph at position `i` of the first-seen order. */
  function FillColor(i: nat): (c: string)
    ensures c in SubgraphFillPlaceholderCycle
    ensures |c| == 7 && c[0] == '#'
    ensures Solid(c)
  {
    SubgraphFillPlaceholderCycle[i % |SubgraphFillPlaceholderCycle|]
  }

  /**
   * `input.replace(/\r\n/g, '\n')`: one left-to-right pass that turns each
   * CR LF pair into LF. Text without CR is returned unchanged.
   */
  function NormalizeLineEndings(s: string): (r: string)
    ensures |r| <= |s|
    ensures '\r' !in s ==> r == s
    ensures forall i :: 0 <= i < |r| ==> r[i] in s
  {
    if |s| >= 2 && s[0] == '\r' && s[1] == '\n' then "\n" + NormalizeLineEndings(s[2..])
    else if s == [] then []
    else [s[0]] + NormalizeLineEndings(s[1..])
  }

  // ---------------------------------------------------------------------
  // Subgraph declarations:
  //   /^\s*subgraph\s+([^\s\[]+)\s*(?:\[[^\]]*\]|\["[^"]*"\])?\s*$/i
  // The pattern starts with a letter and ends with the id or a closing
  // bracket, so it matches a line exactly when its core matches the trimmed
  // line; the id is the maximal run of characters other than whitespace and `[`.
  // ---------------------------------------------------------------------

  predicate SubgraphIdChar(c: char) { !IsWs(c) && c != '[' }

  /** `[label]` with no `]` inside. */
  predicate IsLabel(r: string) {
    |r| >= 2 && r[0] == '[' && r[|r| - 1] == ']' && ']' !in r[1..|r| - 1]
  }

  /** `["label"]` with no `"` inside. */
  predicate IsQuotedLabel(r: string) {
    |r| >= 4 && r[0] == '[' && r[1] == '"' && r[|r| - 2] == '"' && r[|r| - 1] == ']'
    && '"' !in r[2..|r| - 2]
  }

  /** A subgraph id or directive name: non-empty and without whitespace. */
  predicate IsName(s: string) {
    s != [] && forall k :: 0 <= k < |s| ==> !IsWs(s[k])
  }

  /** Text that can be a captured subgraph id: non-empty, no whitespace and no `[`. */
  predicate IsRawId(s: string) {
    s != [] && forall k :: 0 <= k < |s| ==> SubgraphIdChar(s[k])
  }

  /** The id and the optional label after `subgraph` and its whitespace. */
  function IdAndLabel(v: string): (r: Option<string>)
    ensures r.Some? ==> IsRawId(r.value)
  {
    var n := Span(v, SubgraphIdChar);
    if n == 0 then None
    else
      var rest := TrimStart(v[n..]);
      if rest == [] || IsLabel(rest) || IsQuotedLabel(rest) then Some(v[..n]) else None
  }

  /** The first capture group of the subgraph pattern, if the line matches. */
  function SubgraphRawId(line: string): (r: Option<string>)
    ensures r.Some? ==> IsRawId(r.value)
  {
    var t := Trim(line);
    if !StartsWithCI(t, "subgraph") then None
    else
      var u := t[8..];
      if |u| == 0 || !IsWs(u[0]) then None
      else IdAndLabel(TrimStart(u))
  }

  /** `raw.replace(/^"(.+)"$/, '$1')`. */
  function StripQuotes(raw: string): (r: string)
    ensures |r| <= |raw|
    ensures forall k :: 0 <= k < |r| ==> r[k] in raw
    ensures |raw| >= 3 && raw[0] == '"' && raw[|raw| - 1] == '"' && NoTerminators(raw[1..|raw| - 1])
      ==> r == raw[1..|raw| - 1]
    ensures !(|raw| >= 3 && raw[0] == '"' && raw[|raw| - 1] == '"') ==> r == raw
    ensures |raw| >= 3 && !NoTerminators(raw[1..|raw| - 1]) ==> r == raw
  {
    if |raw| >= 3 && raw[0] == '"' && raw[|raw| - 1] == '"' && NoTerminators(raw[1..|raw| - 1])
    then raw[1..|raw| - 1]
    else raw
  }

  /** The subgraph id a line declares: the capture, trimmed and unquoted; never empty, never blank inside. */
  function SubgraphId(line: string): (r: Option<string>)
    ensures r.Some? ==> IsName(r.value)
  {
    match SubgraphRawId(line)
    case None => None
    case Some(raw) =>
      var id := CleanId(raw);
      if id == [] then None else Some(id)
  }

  /** `raw.trim()`, unquoted, trimmed again. */
  function CleanId(raw: string): (id: string)
    requires IsRawId(raw)
    ensures id != [] ==> IsName(id)
  {
    TrimKeeps(raw, NotWs);
    var q := StripQuotes(Trim(raw));
    TrimKeeps(q, NotWs);
    Trim(q)
  }

  /** A subgraph line starts, once trimmed, with the keyword `subgraph`. */
  lemma SubgraphIdSteps(line: string)
    requires SubgraphId(line).Some?
    ensures StartsWithCI(Trim(line), "subgraph")
  {
  }

  /** Subgraph recognition looks only at the trimmed line. */
  lemma SubgraphIdOfTrim(a: string, b: string)
    requires Trim(a) == Trim(b)
    ensures SubgraphId(a) == SubgraphId(b)
  {
    assert SubgraphRawId(a) == SubgraphRawId(b);
  }

  /** The ids of the subgraph lines, in line order, repeats included. */
  function RawIds(lines: seq<string>): (ids: seq<string>)
    ensures forall i :: 0 <= i < |ids| ==> IsName(ids[i])
  {
    RawIdsAreNames(lines);
    FlatMap(lines, LineIds)
  }

  lemma {:induction false} RawIdsAreNames(lines: seq<string>)
    ensures forall i :: 0 <= i < |FlatMap(lines, LineIds)| ==> IsName(FlatMap(lines, LineIds)[i])
  {
    if lines != [] {
      RawIdsAreNames(lines[..|lines| - 1]);
    }
  }

  /** Keeps the first occurrence of every element. */
  function Dedup(xs: seq<string>): (d: seq<string>)
    ensures forall x :: x in d <==> x in xs
    ensures forall i, j :: 0 <= i < j < |d| ==> d[i] != d[j]
  {
    if xs == [] then []
    else
      var d := Dedup(xs[..|xs| - 1]);
      assert xs == xs[..|xs| - 1] + [xs[|xs| - 1]];
      if xs[|xs| - 1] in d then d else d + [xs[|xs| - 1]]
  }

  /** The position of the first occurrence of `x` in `xs`. */
  function FirstIndex(xs: seq<string>, x: string): (k: nat)
    requires x in xs
    ensures k < |xs| && xs[k] == x && x !in xs[..k]
  {
    if xs[0] == x then 0 else 1 + FirstIndex(xs[1..], x)
  }

  lemma {:induction false} FirstIndexSnoc(xs: seq<string>, x: string, y: string)
    requires y in xs
    ensures FirstIndex(xs + [x], y) == FirstIndex(xs, y)
  {
    if xs[0] != y {
      assert (xs + [x])[1..] == xs[1..] + [x];
      FirstIndexSnoc(xs[1..], x, y);
    }
  }

  /**
   * The deduplicated list is in order of first appearance: an earlier entry
   * first occurs earlier in the input.
   */
  lemma {:induction false} DedupFirstSeenOrder(xs: seq<string>, i: nat, j: nat)
    requires i < j < |Dedup(xs)|
    ensures FirstIndex(xs, Dedup(xs)[i]) < FirstIndex(xs, Dedup(xs)[j])
  {
    var init := xs[..|xs| - 1];
    var x := xs[|xs| - 1];
    assert xs == init + [x];
    var d := Dedup(init);
    DedupSnoc(init, x);
    assert Dedup(xs)[i] == d[i] && d[i] in init;
    FirstIndexSnoc(init, x, d[i]);
    if j < |d| {
      assert Dedup(xs)[j] == d[j] && d[j] in init;
      DedupFirstSeenOrder(init, i, j);
      FirstIndexSnoc(init, x, d[j]);
    } else {
      assert Dedup(xs)[j] == x && x !in d;
      FirstIndexLast(init, x);
    }
  }

  lemma FirstIndexLast(xs: seq<string>, x: string)
    requires x !in xs
    ensures FirstIndex(xs + [x], x) == |xs|
  {
  }

  /** What `extractSubgraphIds` returns. */
  function SubgraphIds(diagram: string): seq<string> {
    Dedup(RawIds(Split(NormalizeLineEndings(diagram), '\n')))
  }

  /** The ids one line contributes: its id, or nothing. */
  function LineIds(line: string): (ids: seq<string>)
    ensures forall i :: 0 <= i < |ids| ==> IsName(ids[i])
  {
    match SubgraphId(line)
    case Some(id) => [id]
    case None => []
  }

  lemma RawIdsStep(lines: seq<string>, i: nat)
    requires i < |lines|
    ensures RawIds(lines[..i + 1]) == RawIds(lines[..i]) + LineIds(lines[i])
  {
    FlatMapStep(lines, i, LineIds);
  }

  lemma DedupSnoc(xs: seq<string>, x: string)
    ensures Dedup(xs + [x]) == if x in Dedup(xs) then Dedup(xs) else Dedup(xs) + [x]
  {
    assert (xs + [x])[..|xs|] == xs;
  }

  /** The loop of `extractSubgraphIds`: one pass with an `ids` list and a `seen` set. */
  method CollectSubgraphIds(lines: seq<string>) returns (ids: seq<string>)
    ensures ids == Dedup(RawIds(lines))
  {
    ids := [];
    var seen: set<string> := {};
    for i := 0 to |lines|
      invariant ids == Dedup(RawIds(lines[..i]))
      invariant forall x :: x in seen <==> x in ids
    {
      var line := lines[i];
      ghost var before := RawIds(lines[..i]);
      RawIdsStep(lines, i);
      var m := SubgraphRawId(line);
      if m.None? {
        assert before + [] == before;
        assert RawIds(lines[..i + 1]) == before;
        continue;
      }
      var id := CleanId(m.value);
      if id == [] {
        assert before + [] == before;
        assert RawIds(lines[..i + 1]) == before;
        continue;
      }
      assert RawIds(lines[..i + 1]) == before + [id];
      DedupSnoc(before, id);
      if id in seen {
        assert ids == Dedup(RawIds(lines[..i + 1]));
        continue;
      }
      seen := seen + {id};
      ids := ids + [id];
      assert ids == Dedup(RawIds(lines[..i + 1]));
    }
    assert lines[..|lines|] == lines;
  }

  /** `extractSubgraphIds`. */
  method ExtractSubgraphIds(diagram: string) returns (ids: seq<string>)
    ensures ids == SubgraphIds(diagram)
  {
    ids := CollectSubgraphIds(Split(NormalizeLineEndings(diagram), '\n'));
  }

  // ---------------------------------------------------------------------
  // `style` and `classDef` directives:
  //   /^\s*style\s+([^\s]+)\s+(.+)\s*$/i   and the same with classDef
  // ---------------------------------------------------------------------

  datatype Keyword = StyleKw | ClassDefKw {
    /** The spelling the rewritten line uses. */
    function Canonical(): string {
      if StyleKw? then "style" else "classDef"
    }
    /** The keyword folded to lower case, as the `i` flag compares it. */
    function Folded(): string {
      if StyleKw? then "style" else "classdef"
    }
  }

  datatype Directive = Directive(name: string, attrs: string)

  /** The largest index `k >= lo` whose character a `.` can match. */
  function LastNonTerminator(s: string, lo: nat): (k: Option<nat>)
    ensures k.Some? ==> lo <= k.value < |s| && !IsTerminator(s[k.value])
    ensures k.Some? ==> forall j :: k.value < j < |s| ==> IsTerminator(s[j])
    ensures k.None? ==> forall j :: lo <= j < |s| ==> IsTerminator(s[j])
  {
    if |s| <= lo then None
    else if !IsTerminator(s[|s| - 1]) then Some(|s| - 1)
    else LastNonTerminator(s[..|s| - 1], lo)
  }

  /**
   * `\s+(.+)\s*$` matched against what follows the name, with the greedy
   * backtracking of the source's engine: the attributes are the longest
   * run without line terminators after the whitespace, and only whitespace
   * may follow it. When nothing but whitespace follows the name, the group
   * is the last matchable whitespace character (at least two are needed).
   */
  function AttrsGroup(r3: string): (g: Option<string>)
    ensures g.Some? ==> NoTerminators(g.value)
  {
    var w := |r3| - |TrimStart(r3)|;
    if w == 0 then None
    else
      var tail := r3[w..];
      if tail != [] then
        var b := Span(tail, NotTerminator);
        if AllWs(tail[b..]) then Some(tail[..b]) else None
      else
        match LastNonTerminator(r3, 1)
        case None => None
        case Some(k) => Some([r3[k]])
  }

  /** The name and the attributes after the keyword and its whitespace. */
  function NameAndAttrs(v: string): (m: Option<Directive>)
    ensures m.Some? ==> IsName(m.value.name) && NoTerminators(m.value.attrs)
  {
    var n := Span(v, NotWs);
    if n == 0 then None
    else
      match AttrsGroup(v[n..])
      case None => None
      case Some(g) => Some(Directive(v[..n], g))
  }

  /**
   * The two capture groups of the directive pattern for `kw`, if the line
   * matches; `DirectiveSyntax` states which lines match, with which groups.
   */
  function MatchDirective(line: string, kw: Keyword): (m: Option<Directive>)
    ensures m.Some? ==> IsName(m.value.name) && NoTerminators(m.value.attrs)
  {
    var t := TrimStart(line);
    if !StartsWithCI(t, kw.Folded()) then None
    else
      var u := t[|kw.Folded()|..];
      if |u| == 0 || !IsWs(u[0]) then None
      else NameAndAttrs(TrimStart(u))
  }

  /** The steps of a successful directive match. */
  lemma MatchDirectiveSteps(line: string, kw: Keyword)
    requires MatchDirective(line, kw).Some?
    ensures var t := TrimStart(line);
      |t| > |kw.Folded()| && StartsWithCI(t, kw.Folded()) && IsWs(t[|kw.Folded()|])
      && NameAndAttrs(TrimStart(t[|kw.Folded()|..])) == MatchDirective(line, kw)
  {
  }

  /** A line that takes the steps of a match is matched. */
  lemma MatchDirectiveFromSteps(line: string, kw: Keyword)
    requires var t := TrimStart(line);
      |t| > |kw.Folded()| && StartsWithCI(t, kw.Folded()) && IsWs(t[|kw.Folded()|])
      && NameAndAttrs(TrimStart(t[|kw.Folded()|..])).Some?
    ensures MatchDirective(line, kw).Some?
  {
  }

  /** `/^\s*style\s+/i` (or classDef): the keyword followed by whitespace. */
  predicate DirectivePrefix(line: string, kw: Keyword) {
    var t := TrimStart(line);
    StartsWithCI(t, kw.Folded()) && |t| > |kw.Folded()| && IsWs(t[|kw.Folded()|])
  }

  /** `key\s*:` at the start of an attribute, case-insensitively. */
  predicate HasKey(p: string, key: string) {
    StartsWithCI(p, key) && var rest := TrimStart(p[|key|..]); rest != [] && rest[0] == ':'
  }

  /** `/^fill\s*:/i` or `/^fill-opacity\s*:/i`. */
  predicate IsFillAttr(p: string) {
    HasKey(p, FillKey) || HasKey(p, FillOpacityKey)
  }

  const FillKey: string := "fill"
  const FillOpacityKey: string := "fill-opacity"

  /** No whitespace at either end. */
  predicate Trimmed(s: string) {
    s == [] || (!IsWs(s[0]) && !IsWs(s[|s| - 1]))
  }

  /** An attribute that survives: trimmed, non-empty and not a fill. */
  predicate Kept(x: string) {
    x != [] && !IsFillAttr(x)
  }

  /** The pieces of `parts`, trimmed, that `keep` accepts, in their original order. */
  function TrimFilter(parts: seq<string>, keep: string -> bool): (kept: seq<string>)
    ensures |kept| <= |parts|
  {
    if parts == [] then []
    else
      var p := Trim(parts[0]);
      var rest := TrimFilter(parts[1..], keep);
      if keep(p) then [p] + rest else rest
  }

  /**
   * `parts.map(trim).filter(Boolean).filter(not fill)`: the trimmed parts
   * that are neither empty nor fills, in their original order.
   */
  function KeepAttrs(parts: seq<string>): (kept: seq<string>)
    ensures |kept| <= |parts|
  {
    TrimFilter(parts, Kept)
  }

  /** Every kept attribute is trimmed, non-empty and not a fill. */
  lemma KeepAttrsShape(parts: seq<string>)
    ensures Each(KeepAttrs(parts), Kept) && Each(KeepAttrs(parts), Trimmed)
  {
    TrimFilterShape(parts, Kept);
  }

  lemma {:induction false} TrimFilterShape(parts: seq<string>, keep: string -> bool)
    ensures Each(TrimFilter(parts, keep), keep) && Each(TrimFilter(parts, keep), Trimmed)
  {
    if parts != [] {
      var p := Trim(parts[0]);
      var rest := TrimFilter(parts[1..], keep);
      TrimFilterShape(parts[1..], keep);
      if keep(p) {
        EachSingleton(p, keep);
        EachSingleton(p, Trimmed);
        EachConcat([p], rest, keep);
        EachConcat([p], rest, Trimmed);
      }
    }
  }

  /** Part `i` of `parts`, trimmed, is an attribute that survives. */
  predicate KeptAt(parts: seq<string>, i: int, x: string) {
    0 <= i < |parts| && x == Trim(parts[i]) && Kept(x)
  }

  /** The filter keeps a string exactly when some part trims to it and it survives. */
  lemma KeepAttrsMembers(parts: seq<string>, x: string)
    ensures x in KeepAttrs(parts) <==> exists i :: KeptAt(parts, i, x)
  {
    if x in KeepAttrs(parts) {
      TrimFilterSound(parts, x, Kept);
      var i :| AcceptedAt(parts, i, x, Kept);
      assert KeptAt(parts, i, x);
    }
    if exists i :: KeptAt(parts, i, x) {
      var i :| KeptAt(parts, i, x);
      assert AcceptedAt(parts, i, x, Kept);
      TrimFilterComplete(parts, i, x, Kept);
    }
  }

  /** Part `i` of `parts`, trimmed, is `x` and `keep` accepts it. */
  predicate AcceptedAt(parts: seq<string>, i: int, x: string, keep: string -> bool) {
    0 <= i < |parts| && x == Trim(parts[i]) && keep(x)
  }

  lemma {:induction false} TrimFilterSound(parts: seq<string>, x: string, keep: string -> bool)
    requires x in TrimFilter(parts, keep)
    ensures exists i :: AcceptedAt(parts, i, x, keep)
  {
    var p := Trim(parts[0]);
    if keep(p) && x == p {
      assert AcceptedAt(parts, 0, x, keep);
    } else {
      assert x in TrimFilter(parts[1..], keep);
      TrimFilterSound(parts[1..], x, keep);
      var i :| AcceptedAt(parts[1..], i, x, keep);
      assert parts[1..][i] == parts[i + 1];
      assert AcceptedAt(parts, i + 1, x, keep);
    }
  }

  lemma {:induction false} TrimFilterComplete(parts: seq<string>, i: int, x: string, keep: string -> bool)
    requires AcceptedAt(parts, i, x, keep)
    ensures x in TrimFilter(parts, keep)
  {
    var p := Trim(parts[0]);
    var rest := TrimFilter(parts[1..], keep);
    if i == 0 {
      assert TrimFilter(parts, keep) == [p] + rest;
    } else {
      assert parts[1..][i - 1] == parts[i];
      TrimFilterComplete(parts[1..], i - 1, x, keep);
      if keep(p) {
        assert TrimFilter(parts, keep) == [p] + rest;
      }
    }
  }

  /**
   * `stripFillFromLine`: `None` stands for the source's `null` (a directive
   * left without attributes); a line the pattern does not match comes back as it is.
   */
  function StripFill(line: string, kw: Keyword): (r: Option<string>)
    ensures MatchDirective(line, kw).None? ==> r == Some(line)
    ensures MatchDirective(line, kw).Some? && r.Some? ==> r.value != [] && r.value[0] == kw.Canonical()[0]
  {
    match MatchDirective(line, kw)
    case None => Some(line)
    case Some(Directive(name, attrs)) =>
      var kept := KeepAttrs(Split(attrs, ','));
      if kept == [] then None
      else Some(Rebuilt(kw, name, kept))
  }

  /** The line `stripFillFromLine` emits: canonical keyword, name, kept attributes joined by `,`. */
  function Rebuilt(kw: Keyword, name: string, kept: seq<string>): string {
    kw.Canonical() + " " + (name + " " + Join(kept, ','))
  }

  /** A character an attribute produced by splitting on `,` can hold. */
  predicate AttrChar(c: char) { c != ',' && !IsTerminator(c) }

  predicate AttrText(s: string) {
    forall k :: 0 <= k < |s| ==> AttrChar(s[k])
  }

  /** An attribute as `stripFillFromLine` emits it. */
  predicate CleanAttr(x: string) {
    Kept(x) && Trimmed(x) && AttrText(x)
  }

  /** Filtering pieces of an attribute list leaves clean attributes. */
  lemma KeepAttrsClean(parts: seq<string>)
    requires forall i :: 0 <= i < |parts| ==> AttrText(parts[i])
    ensures forall i :: 0 <= i < |KeepAttrs(parts)| ==> CleanAttr(KeepAttrs(parts)[i])
  {
    assert Each(parts, AttrText);
    KeepAttrsCleanEach(parts);
  }

  lemma {:induction false} KeepAttrsCleanEach(parts: seq<string>)
    requires Each(parts, AttrText)
    ensures Each(KeepAttrs(parts), CleanAttr)
  {
    if parts != [] {
      EachTail(parts, AttrText);
      KeepAttrsCleanEach(parts[1..]);
      var p := Trim(parts[0]);
      if Kept(p) {
        TrimKeeps(parts[0], AttrChar);
        EachSingleton(p, CleanAttr);
        EachConcat([p], KeepAttrs(parts[1..]), CleanAttr);
      }
    }
  }

  /** The pieces of a terminator-free attribute list are attribute text. */
  lemma SplitAttrText(attrs: string)
    requires NoTerminators(attrs)
    ensures forall i :: 0 <= i < |Split(attrs, ',')| ==> AttrText(Split(attrs, ',')[i])
  {
    var parts := Split(attrs, ',');
    SplitKeeps(attrs, ',', NotTerminator);
    forall i, k | 0 <= i < |parts| && 0 <= k < |parts[i]| ensures AttrChar(parts[i][k]) {
      assert ',' !in parts[i];
    }
  }

  /** Filtering clean attributes keeps them all. */
  lemma KeepAttrsOfClean(kept: seq<string>)
    requires forall i :: 0 <= i < |kept| ==> CleanAttr(kept[i])
    ensures KeepAttrs(kept) == kept
  {
    assert Each(kept, Kept) && Each(kept, Trimmed);
    TrimFilterAll(kept, Kept);
  }

  /** Filtering pieces that are already trimmed and all accepted keeps them all. */
  lemma {:induction false} TrimFilterAll(kept: seq<string>, keep: string -> bool)
    requires Each(kept, keep) && Each(kept, Trimmed)
    ensures TrimFilter(kept, keep) == kept
  {
    if kept != [] {
      EachTail(kept, keep);
      EachTail(kept, Trimmed);
      TrimFilterAll(kept[1..], keep);
      TrimFilterCons(kept, keep);
    }
  }

  lemma TrimFilterCons(kept: seq<string>, keep: string -> bool)
    requires kept != [] && keep(kept[0]) && Trimmed(kept[0])
    ensures TrimFilter(kept, keep) == [kept[0]] + TrimFilter(kept[1..], keep)
  {
    TrimOfTrimmed(kept[0]);
  }

  /** A joined list of clean attributes starts with a non-blank character. */
  lemma JoinedAttrsStart(kept: seq<string>)
    requires kept != [] && CleanAttr(kept[0])
    ensures Join(kept, ',') != [] && !IsWs(Join(kept, ',')[0])
  {
    JoinCons(kept[0], kept[1..], ',');
    assert kept == [kept[0]] + kept[1..];
    assert Join(kept, ',')[0] == kept[0][0];
  }

  /** A joined list of clean attributes has no line terminator. */
  lemma JoinedAttrsNoTerminators(kept: seq<string>)
    requires Each(kept, CleanAttr)
    ensures NoTerminators(Join(kept, ','))
  {
    CleanAttrsNoTerminators(kept);
    JoinNoTerminators(kept, ',');
  }

  lemma CleanAttrsNoTerminators(kept: seq<string>)
    requires Each(kept, CleanAttr)
    ensures forall i :: 0 <= i < |kept| ==> NoTerminators(kept[i])
  {
    forall i | 0 <= i < |kept| ensures NoTerminators(kept[i]) {
      CleanAttrNoTerminators(kept[i]);
    }
  }

  lemma CleanAttrNoTerminators(x: string)
    requires CleanAttr(x)
    ensures NoTerminators(x)
  {
    assert AttrText(x);
  }

  /** The attribute group of `" " + J` is `J` itself. */
  lemma AttrsGroupOfJoined(j: string)
    requires j != [] && !IsWs(j[0]) && NoTerminators(j)
    ensures AttrsGroup(" " + j) == Some(j)
  {
    var r3 := " " + j;
    TrimStartUnique(" ", j);
    assert |r3| - |TrimStart(r3)| == 1;
    assert r3[1..] == j;
    var b := Span(j, NotTerminator);
    assert b == |j|;
    assert j[b..] == [] && j[..b] == j;
  }

  /** The keyword as `stripFillFromLine` spells it is recognised again. */
  lemma CanonicalStartsWithFolded(kw: Keyword, rest: string)
    ensures StartsWithCI(kw.Canonical() + rest, kw.Folded())
  {
    var line := kw.Canonical() + rest;
    assert line[..|kw.Folded()|] == kw.Canonical();
  }

  /** After the canonical keyword and one space, matching continues with the rest. */
  lemma MatchCanonical(kw: Keyword, v: string)
    requires v != [] && !IsWs(v[0])
    ensures MatchDirective(kw.Canonical() + " " + v, kw) == NameAndAttrs(v)
  {
    var line := kw.Canonical() + " " + v;
    var u := " " + v;
    assert line == kw.Canonical() + u;
    TrimStartUnique([], line);
    assert [] + line == line;
    CanonicalStartsWithFolded(kw, u);
    assert line[|kw.Folded()|..] == u;
    TrimStartUnique(" ", v);
  }

  /** A name, one space and a joined attribute list are split back into the two. */
  lemma NameAndAttrsOfJoined(name: string, j: string)
    requires IsName(name)
    requires j != [] && !IsWs(j[0]) && NoTerminators(j)
    ensures NameAndAttrs(name + " " + j) == Some(Directive(name, j))
  {
    var v := name + (" " + j);
    assert name + " " + j == v;
    SpanOfName(name, " " + j);
    assert v[..|name|] == name && v[|name|..] == " " + j;
    AttrsGroupOfJoined(j);
  }

  /** A name followed by a blank spans exactly the name. */
  lemma SpanOfName(name: string, rest: string)
    requires IsName(name) && rest != [] && IsWs(rest[0])
    ensures Span(name + rest, NotWs) == |name|
  {
    SpanConcat(name, rest, NotWs);
    assert Span(rest, NotWs) == 0;
  }

  /** A rebuilt directive line is matched again, with the same name and the joined attributes. */
  lemma RebuiltMatches(kw: Keyword, name: string, kept: seq<string>)
    requires IsName(name) && kept != []
    requires forall i :: 0 <= i < |kept| ==> CleanAttr(kept[i])
    ensures MatchDirective(Rebuilt(kw, name, kept), kw) == Some(Directive(name, Join(kept, ',')))
  {
    var j := Join(kept, ',');
    JoinedAttrsStart(kept);
    assert Each(kept, CleanAttr);
    JoinedAttrsNoTerminators(kept);
    var v := name + " " + j;
    assert Rebuilt(kw, name, kept) == kw.Canonical() + " " + v;
    MatchCanonical(kw, v);
    NameAndAttrsOfJoined(name, j);
  }

  /** A joined list of clean attributes ends with a non-blank character. */
  lemma {:induction false} JoinedAttrsEnd(kept: seq<string>)
    requires kept != [] && CleanAttr(kept[|kept| - 1])
    ensures Join(kept, ',') != [] && !IsWs(Join(kept, ',')[|Join(kept, ',')| - 1])
  {
    var last := kept[|kept| - 1];
    if |kept| == 1 {
    } else {
      var init := kept[..|kept| - 1];
      assert kept == init + [last];
      JoinAppend(init, [last], ',');
      assert Join(kept, ',') == Join(init, ',') + [','] + last;
    }
  }

  /**
   * A rebuilt directive line has no whitespace at either end and no line
   * terminator, and starts with the keyword's first letter.
   */
  lemma RebuiltShape(kw: Keyword, name: string, kept: seq<string>)
    requires IsName(name) && kept != []
    requires forall i :: 0 <= i < |kept| ==> CleanAttr(kept[i])
    ensures var q := Rebuilt(kw, name, kept);
      q != [] && Trimmed(q) && NoTerminators(q) && q[0] == kw.Canonical()[0]
  {
    var j := Join(kept, ',');
    JoinedAttrsEnd(kept);
    assert Each(kept, CleanAttr);
    JoinedAttrsNoTerminators(kept);
    var tail := name + " " + j;
    var q := kw.Canonical() + " " + tail;
    assert q[|q| - 1] == j[|j| - 1];
    forall k | 0 <= k < |q| ensures !IsTerminator(q[k]) {
      if k >= |kw.Canonical()| + 1 {
        var m := k - |kw.Canonical()| - 1;
        assert q[k] == tail[m];
        if m >= |name| + 1 {
          assert tail[m] == j[m - |name| - 1];
        } else if m < |name| {
          assert !IsWs(name[m]);
        }
      }
    }
  }

  /** What `stripFillFromLine` returns for a directive line it keeps is a rebuilt line. */
  lemma StripFillShape(line: string, kw: Keyword)
    requires MatchDirective(line, kw).Some? && StripFill(line, kw).Some?
    ensures var q := StripFill(line, kw).value;
      q != [] && Trimmed(q) && NoTerminators(q) && q[0] == kw.Canonical()[0]
      && MatchDirective(q, kw).Some?
  {
    var d := MatchDirective(line, kw).value;
    SplitAttrText(d.attrs);
    KeepAttrsClean(Split(d.attrs, ','));
    RebuiltShape(kw, d.name, KeepAttrs(Split(d.attrs, ',')));
    RebuiltMatches(kw, d.name, KeepAttrs(Split(d.attrs, ',')));
  }

  /** Stripping a rebuilt directive line gives it back unchanged. */
  lemma StripFillRebuilt(kw: Keyword, name: string, kept: seq<string>)
    requires IsName(name) && kept != []
    requires forall i :: 0 <= i < |kept| ==> CleanAttr(kept[i])
    ensures StripFill(Rebuilt(kw, name, kept), kw) == Some(Rebuilt(kw, name, kept))
  {
    RebuiltMatches(kw, name, kept);
    forall i | 0 <= i < |kept| ensures ',' !in kept[i] {
      assert AttrText(kept[i]);
    }
    SplitJoin(kept, ',');
    KeepAttrsOfClean(kept);
  }

  /** Stripping fills is idempotent: a line it keeps is kept unchanged by a second pass. */
  lemma StripFillIdempotent(line: string, kw: Keyword)
    requires StripFill(line, kw).Some?
    ensures StripFill(StripFill(line, kw).value, kw) == StripFill(line, kw)
  {
    match MatchDirective(line, kw)
    case None =>
    case Some(Directive(name, attrs)) =>
      SplitAttrText(attrs);
      KeepAttrsClean(Split(attrs, ','));
      StripFillRebuilt(kw, name, KeepAttrs(Split(attrs, ',')));
  }

  /** A line that starts with `c` is not a `style` directive. */
  lemma StartsWithCIsNotStyle(p: string)
    requires p != [] && p[0] == 'c'
    ensures MatchDirective(p, StyleKw).None?
  {
    TrimStartUnique([], p);
    assert [] + p == p;
    assert !StartsWithCI(TrimStart(p), StyleKw.Folded());
  }

  /** A line neither directive pattern matches. */
  predicate IsPlain(line: string) {
    MatchDirective(line, StyleKw).None? && MatchDirective(line, ClassDefKw).None?
  }

  /** What one iteration of the sanitising loop keeps of a line (`None`: the line is dropped). */
  function SanitizeLine(line: string): (r: Option<string>)
    ensures IsPlain(line) ==> r == Some(line)
  {
    match StripFill(line, StyleKw)
    case None => None
    case Some(p) => StripFill(p, ClassDefKw)
  }

  /** The sanitised lines, in order. */
  function SanitizeLines(lines: seq<string>): seq<string> {
    FlatMap(lines, KeptLine)
  }

  /** What one line contributes to the sanitised list: the kept line, or nothing. */
  function KeptLine(line: string): seq<string> {
    match SanitizeLine(line)
    case Some(p) => [p]
    case None => []
  }

  /** The sanitised body: the kept lines joined and trimmed. */
  function Body(normalized: string): string {
    Trim(Join(SanitizeLines(Split(normalized, '\n')), '\n'))
  }

  /** `style <id> fill:<colour>`. */
  function StyleLine(id: string, colour: string): string {
    StyleKw.Canonical() + " " + (id + " " + ("fill:" + colour))
  }

  /** One `style <id> fill:<colour>` line per id, colour by position. */
  function StyleLines(ids: seq<string>): (lines: seq<string>)
    ensures |lines| == |ids|
  {
    seq(|ids|, i requires 0 <= i < |ids| => StyleLine(ids[i], FillColor(i)))
  }

  /** The palette repeats every eight subgraphs: the ninth reuses the first colour. */
  lemma FillColorCycles(i: nat)
    ensures FillColor(i + 8) == FillColor(i)
    ensures FillColor(i) == SubgraphFillPlaceholderCycle[i % 8]
  {
    assert |SubgraphFillPlaceholderCycle| == 8;
    assert (i + 8) % 8 == i % 8;
  }

  /** Text without `,` or whitespace. */
  predicate Solid(c: string) {
    forall k :: 0 <= k < |c| ==> c[k] != ',' && !IsWs(c[k])
  }

  /** `fill:<colour>` is recognised as a fill attribute. */
  lemma FillIsFillAttr(c: string)
    ensures IsFillAttr("fill:" + c)
  {
    var a := "fill:" + c;
    assert a[..4] == "fill";
    assert Lower(a[..4]) == "fill";
    var r := a[4..];
    assert r[0] == ':';
    TrimStartUnique([], r);
    assert [] + r == r;
  }

  /** `fill:<colour>` keeps nothing: it is a single piece, and a fill. */
  lemma FillOnlyIsDropped(c: string)
    requires Solid(c)
    ensures Solid("fill:" + c)
    ensures KeepAttrs(Split("fill:" + c, ',')) == []
  {
    var a := "fill:" + c;
    SolidFill(c);
    SplitNoSep(a, ',');
    TrimOfTrimmed(a);
    FillIsFillAttr(c);
    TrimFilterDropsOne(a, Kept);
  }

  lemma SolidFill(c: string)
    requires Solid(c)
    ensures Solid("fill:" + c)
  {
    var a := "fill:" + c;
    forall k | 0 <= k < |a| ensures a[k] != ',' && !IsWs(a[k]) {
      if k >= 5 {
        assert a[k] == c[k - 5];
      }
    }
  }

  lemma TrimFilterDropsOne(a: string, keep: string -> bool)
    requires !keep(Trim(a))
    ensures TrimFilter([a], keep) == []
  {
    assert [a][1..] == [];
  }

  /** `style <id> fill:<colour>` is matched as a `style` directive with a single fill attribute. */
  lemma StyleLineMatches(id: string, c: string)
    requires IsName(id) && Solid(c)
    ensures MatchDirective(StyleLine(id, c), StyleKw) == Some(Directive(id, "fill:" + c))
  {
    var j := "fill:" + c;
    var v := id + " " + j;
    MatchCanonical(StyleKw, v);
    FillOnlyIsDropped(c);
    assert NoTerminators(j) by {
      assert Solid(j);
    }
    NameAndAttrsOfJoined(id, j);
  }

  /**
   * Generated line `i` is a `style` directive for subgraph `i` whose only
   * attribute is its palette fill, so sanitising drops it.
   */
  lemma StyleLineIsFillOnly(ids: seq<string>, i: nat)
    requires i < |ids| && IsName(ids[i])
    ensures MatchDirective(StyleLines(ids)[i], StyleKw) == Some(Directive(ids[i], "fill:" + FillColor(i)))
    ensures SanitizeLine(StyleLines(ids)[i]).None?
  {
    StyleLineMatches(ids[i], FillColor(i));
    FillOnlyIsDropped(FillColor(i));
  }

  /** `colorizeMermaidDiagram`. */
  function Colorize(diagram: string): (r: string)
    ensures AllWs(NormalizeLineEndings(diagram)) ==> r == []
  {
    var normalized := Trim(NormalizeLineEndings(diagram));
    if normalized == [] then []
    else
      var ids := SubgraphIds(normalized);
      var sanitized := Body(normalized);
      if ids == [] then sanitized
      else Trim(sanitized + "\n\n" + Join(StyleLines(ids), '\n'))
  }

  /** A `null` from `stripFillFromLine` only ever comes from a directive line. */
  lemma StripFillNoneIsDirective(line: string, kw: Keyword)
    requires StripFill(line, kw).None?
    ensures DirectivePrefix(line, kw)
  {
  }

  /** A line that starts with `s` is not a `classDef` directive. */
  lemma StartsWithSIsNotClassDef(p: string)
    requires p != [] && p[0] == 's'
    ensures MatchDirective(p, ClassDefKw).None?
  {
    TrimStartUnique([], p);
    assert [] + p == p;
    assert !StartsWithCI(TrimStart(p), ClassDefKw.Folded());
  }

  /** A line rebuilt by the `style` pass never matches the `classDef` pattern. */
  lemma RebuiltStyleIsNotClassDef(line: string)
    requires StripFill(line, StyleKw).Some?
    ensures StripFill(StripFill(line, StyleKw).value, ClassDefKw).None? ==>
      StripFill(line, StyleKw).value == line
  {
    var p := StripFill(line, StyleKw).value;
    if MatchDirective(line, StyleKw).Some? {
      StartsWithSIsNotClassDef(p);
    }
  }

  /** Sanitising is idempotent line by line. */
  lemma SanitizeLineIdempotent(line: string)
    requires SanitizeLine(line).Some?
    ensures SanitizeLine(SanitizeLine(line).value) == SanitizeLine(line)
  {
    var p := StripFill(line, StyleKw).value;
    var q := SanitizeLine(line).value;
    if MatchDirective(line, StyleKw).Some? {
      // a rebuilt `style` line: the `classDef` pass leaves it alone
      StartsWithSIsNotClassDef(p);
      assert q == p;
      StripFillIdempotent(line, StyleKw);
    } else if MatchDirective(line, ClassDefKw).Some? {
      // a rebuilt `classDef` line: the `style` pass leaves it alone
      assert p == line;
      StartsWithCIsNotStyle(q);
      StripFillIdempotent(line, ClassDefKw);
    }
  }

  /** Only a line that starts like a directive is ever dropped. */
  lemma SanitizeLineDropsOnlyDirectives(line: string)
    requires SanitizeLine(line).None?
    ensures DirectivePrefix(line, StyleKw) || DirectivePrefix(line, ClassDefKw)
  {
    if StripFill(line, StyleKw).None? {
      StripFillNoneIsDirective(line, StyleKw);
    } else {
      RebuiltStyleIsNotClassDef(line);
      StripFillNoneIsDirective(line, ClassDefKw);
    }
  }

  lemma SanitizeLinesStep(lines: seq<string>, i: nat)
    requires i < |lines|
    ensures SanitizeLines(lines[..i + 1]) == SanitizeLines(lines[..i]) + KeptLine(lines[i])
  {
    FlatMapStep(lines, i, KeptLine);
  }

  /** The sanitising loop of `colorizeMermaidDiagram`, with its two `continue`s. */
  method SanitizeAll(lines: seq<string>) returns (sanitizedLines: seq<string>)
    ensures sanitizedLines == SanitizeLines(lines)
  {
    sanitizedLines := [];
    for i := 0 to |lines|
      invariant sanitizedLines == SanitizeLines(lines[..i])
    {
      var line := lines[i];
      ghost var before := SanitizeLines(lines[..i]);
      SanitizeLinesStep(lines, i);
      var processed := StripFill(line, StyleKw);
      if processed.None? {
        // the source's fallback to the original line is unreachable
        StripFillNoneIsDirective(line, StyleKw);
        assert DirectivePrefix(line, StyleKw);
        assert before + [] == before;
        continue;
      }
      var processed2 := StripFill(processed.value, ClassDefKw);
      if processed2.None? {
        RebuiltStyleIsNotClassDef(line);
        StripFillNoneIsDirective(line, ClassDefKw);
        assert DirectivePrefix(line, ClassDefKw);
        assert before + [] == before;
        continue;
      }
      sanitizedLines := sanitizedLines + [processed2.value];
    }
    assert lines[..|lines|] == lines;
  }

  /** `colorizeMermaidDiagram`. */
  method ColorizeMermaidDiagram(diagram: string) returns (out: string)
    ensures out == Colorize(diagram)
  {
    var normalized := Trim(NormalizeLineEndings(diagram));
    if normalized == [] {
      return normalized;
    }
    var subgraphIds := ExtractSubgraphIds(normalized);
    var sanitizedLines := SanitizeAll(Split(normalized, '\n'));
    var sanitized := Trim(Join(sanitizedLines, '\n'));
    if |subgraphIds| == 0 {
      return sanitized;
    }
    var styleLines := StyleLines(subgraphIds);
    out := Trim(sanitized + "\n\n" + Join(styleLines, '\n'));
  }
}

