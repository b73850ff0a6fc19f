/**
 * Re-colorizing a colorized diagram gives the same text back.
 *
 * The argument: every line the sanitiser emits is one it would emit
 * unchanged again (`Stable`), trimming the first and last lines keeps that
 * and keeps the subgraph ids, the appended `style` lines are fill-only and
 * so are dropped, and the blank separator line is trimmed away.
 */
module ColorizeProofs {
  import opened Text
  import opened Types
  import opened Colorize
  import opened LineEndings

  /** A line the sanitiser keeps exactly as it is. */
  predicate Stable(line: string) {
    SanitizeLine(line) == Some(line)
  }

  // ---------------------------------------------------------------------
  // One line
  // ---------------------------------------------------------------------

  lemma AllWsTrimStart(s: string)
    requires AllWs(s)
    ensures TrimStart(s) == []
  {
    TrimStartUnique(s, []);
    assert s + [] == s;
  }

  lemma TrimmedTrimStart(s: string)
    requires s != [] && !IsWs(s[0])
    ensures TrimStart(s) == s
  {
    TrimStartUnique([], s);
    assert [] + s == s;
  }

  lemma TrimmedTrimEnd(s: string)
    requires s != [] && !IsWs(s[|s| - 1])
    ensures TrimEnd(s) == s
  {
    TrimEndUnique(s, []);
    assert s + [] == s;
  }

  lemma SliceConcat(a: string, b: string, k: nat)
    requires k <= |a|
    ensures (a + b)[k..] == a[k..] + b && (a + b)[..k] == a[..k]
  {
  }

  /** A string whose trimmed start is non-empty is not blank. */
  lemma NotAllWs(s: string)
    requires TrimStart(s) != []
    ensures !AllWs(s)
  {
    assert s[|s| - |TrimStart(s)|] == TrimStart(s)[0];
  }

  /** Text starting with `subgraph` starts with neither `style` nor `classdef`. */
  lemma SubgraphKeywordIsNotDirective(t: string, tt: string)
    requires |tt| <= |t| && tt == t[..|tt|] && StartsWithCI(tt, "subgraph")
    ensures !StartsWithCI(t, "style") && !StartsWithCI(t, "classdef")
  {
    StartsWithCIAt(tt, "subgraph", 1);
    assert tt[1] == t[1];
    if StartsWithCI(t, "style") {
      StartsWithCIAt(t, "style", 1);
    }
    if StartsWithCI(t, "classdef") {
      StartsWithCIAt(t, "classdef", 1);
    }
  }

  /** A subgraph line is not a directive line: `subgraph` differs from both keywords in its second letter. */
  lemma SubgraphLineIsPlain(line: string)
    ensures SubgraphId(line).Some? ==> IsPlain(line)
  {
    if SubgraphId(line).Some? {
      SubgraphIdSteps(line);
      TrimPrefixOfTrimStart(line);
      SubgraphKeywordIsNotDirective(TrimStart(line), Trim(line));
      if MatchDirective(line, StyleKw).Some? {
        MatchDirectiveSteps(line, StyleKw);
      }
      if MatchDirective(line, ClassDefKw).Some? {
        MatchDirectiveSteps(line, ClassDefKw);
      }
    }
  }

  /** Directive matching looks only at the text after the leading whitespace. */
  lemma MatchTrimStart(line: string, kw: Keyword)
    ensures MatchDirective(TrimStart(line), kw) == MatchDirective(line, kw)
  {
    TrimStartIdem(line);
  }

  /** What the sanitiser emits for a directive line is a rebuilt line: trimmed and without terminators. */
  lemma SanitizedDirectiveShape(line: string)
    requires SanitizeLine(line).Some? && !IsPlain(line)
    ensures var q := SanitizeLine(line).value; q != [] && Trimmed(q) && NoTerminators(q)
  {
    if MatchDirective(line, StyleKw).Some? {
      var p := StripFill(line, StyleKw).value;
      StripFillShape(line, StyleKw);
      StartsWithSIsNotClassDef(p);
    } else {
      assert StripFill(line, StyleKw) == Some(line);
      StripFillShape(line, ClassDefKw);
    }
  }

  /** A line the sanitiser rewrites or drops is not a subgraph line, and neither is what it writes. */
  lemma SanitizeKeepsLineIds(line: string)
    ensures SanitizeLine(line).Some? ==> SubgraphId(SanitizeLine(line).value) == SubgraphId(line)
    ensures SanitizeLine(line).None? ==> SubgraphId(line).None?
  {
    if !IsPlain(line) {
      SubgraphLineIsPlain(line);
      if SanitizeLine(line).Some? {
        var q := SanitizeLine(line).value;
        if MatchDirective(line, StyleKw).Some? {
          StripFillShape(line, StyleKw);
          StartsWithSIsNotClassDef(StripFill(line, StyleKw).value);
        } else {
          assert StripFill(line, StyleKw) == Some(line);
          StripFillShape(line, ClassDefKw);
        }
        assert !IsPlain(q);
        SubgraphLineIsPlain(q);
      }
    }
  }

  /** A stable line that is a directive is a rebuilt one. */
  lemma StableDirectiveShape(line: string)
    requires Stable(line) && !IsPlain(line)
    ensures line != [] && Trimmed(line) && NoTerminators(line)
  {
    SanitizedDirectiveShape(line);
  }

  /** What the sanitiser emits has no line terminator when its input had none. */
  lemma SanitizedNoTerminators(line: string)
    requires NoTerminators(line) && SanitizeLine(line).Some?
    ensures NoTerminators(SanitizeLine(line).value)
  {
    if !IsPlain(line) {
      SanitizedDirectiveShape(line);
    }
  }

  /** Whitespace after a non-blank attribute run stays whitespace after it. */
  lemma TailAppendWs(tail: string, w: string)
    requires AllWs(w) && AllWs(tail[Span(tail, NotTerminator)..])
    ensures AllWs((tail + w)[Span(tail + w, NotTerminator)..])
  {
    var b := Span(tail, NotTerminator);
    SpanConcat(tail, w, NotTerminator);
    if b < |tail| {
      assert Span(tail + w, NotTerminator) == b;
      assert (tail + w)[b..] == tail[b..] + w;
      AllWsConcat(tail[b..], w);
    } else {
      var b2 := Span(w, NotTerminator);
      assert Span(tail + w, NotTerminator) == |tail| + b2;
      assert (tail + w)[|tail| + b2..] == w[b2..];
      AllWsDrop(w, b2);
    }
  }

  lemma AllWsDrop(w: string, k: nat)
    requires AllWs(w) && k <= |w|
    ensures AllWs(w[k..])
  {
    forall i | 0 <= i < |w[k..]| ensures IsWs(w[k..][i]) {
      assert w[k..][i] == w[k + i];
    }
  }

  /** Adding trailing whitespace to a line keeps the attribute group matching. */
  lemma AttrsGroupAppendWs(r3: string, w: string)
    requires AllWs(w) && AttrsGroup(r3).Some?
    ensures AttrsGroup(r3 + w).Some?
  {
    var w0 := |r3| - |TrimStart(r3)|;
    var tail := r3[w0..];
    var r := r3 + w;
    if tail != [] {
      assert !AllWs(r3) by {
        if AllWs(r3) {
          AllWsTrimStart(r3);
        }
      }
      TrimStartConcatNonBlank(r3, w);
      assert |r| - |TrimStart(r)| == w0;
      assert r[w0..] == tail + w;
      TailAppendWs(tail, w);
    } else {
      assert AllWs(r3) by {
        assert r3[..|r3| - |TrimStart(r3)|] == r3;
      }
      AllWsConcat(r3, w);
      AllWsTrimStart(r);
      var k := LastNonTerminator(r3, 1).value;
      assert r[k] == r3[k];
      assert LastNonTerminator(r, 1).Some?;
    }
  }

  /** Adding trailing whitespace after a name and its attributes keeps the match. */
  lemma NameAndAttrsAppendWs(v: string, w: string)
    requires AllWs(w) && NameAndAttrs(v).Some?
    ensures NameAndAttrs(v + w).Some?
  {
    var n := Span(v, NotWs);
    var r3 := v[n..];
    assert AttrsGroup(r3).Some?;
    assert n < |v|;
    SpanConcat(v, w, NotWs);
    assert Span(v + w, NotWs) == n;
    SliceConcat(v, w, n);
    AttrsGroupAppendWs(r3, w);
    assert AttrsGroup((v + w)[n..]).Some?;
  }

  /** After the keyword: the same, when trailing whitespace is added. */
  lemma AfterKeywordAppendWs(u: string, w: string)
    requires AllWs(w) && |u| > 0 && IsWs(u[0]) && NameAndAttrs(TrimStart(u)).Some?
    ensures NameAndAttrs(TrimStart(u + w)).Some?
  {
    var v := TrimStart(u);
    NotAllWs(u);
    TrimStartConcatNonBlank(u, w);
    NameAndAttrsAppendWs(v, w);
  }

  /** A directive line followed by whitespace is still a directive line. */
  lemma MatchAppendWs(line: string, w: string, kw: Keyword)
    requires AllWs(w) && MatchDirective(line, kw).Some?
    ensures MatchDirective(line + w, kw).Some?
  {
    var t := TrimStart(line);
    var f := kw.Folded();
    MatchDirectiveSteps(line, kw);
    NotAllWs(line);
    TrimStartConcatNonBlank(line, w);
    SliceConcat(t, w, |f|);
    var u := t[|f|..];
    assert u[0] == t[|f|];
    AfterKeywordAppendWs(u, w);
    assert (t + w)[|f|] == t[|f|];
    MatchDirectiveFromSteps(line + w, kw);
  }

  /** Dropping trailing whitespace from a plain line leaves it plain. */
  lemma PlainTrimEnd(line: string)
    requires IsPlain(line)
    ensures IsPlain(TrimEnd(line))
  {
    UnmatchedTrimEnd(line, StyleKw);
    UnmatchedTrimEnd(line, ClassDefKw);
  }

  lemma UnmatchedTrimEnd(line: string, kw: Keyword)
    requires MatchDirective(line, kw).None?
    ensures MatchDirective(TrimEnd(line), kw).None?
  {
    var t := TrimEnd(line);
    var w := line[|t|..];
    assert AllWs(w);
    assert line == t + w;
    if MatchDirective(t, kw).Some? {
      MatchAppendWs(t, w, kw);
    }
  }

  /** Removing leading whitespace keeps a line stable and keeps its subgraph id. */
  lemma StableTrimStart(line: string)
    requires Stable(line)
    ensures Stable(TrimStart(line))
    ensures SubgraphId(TrimStart(line)) == SubgraphId(line)
  {
    MatchTrimStart(line, StyleKw);
    MatchTrimStart(line, ClassDefKw);
    if !IsPlain(line) {
      StableDirectiveShape(line);
      TrimmedTrimStart(line);
    }
    TrimOfTrimStart(line);
    SubgraphIdOfTrim(TrimStart(line), line);
  }

  /** Removing trailing whitespace keeps a line stable and keeps its subgraph id. */
  lemma StableTrimEnd(line: string)
    requires Stable(line)
    ensures Stable(TrimEnd(line))
    ensures SubgraphId(TrimEnd(line)) == SubgraphId(line)
  {
    if IsPlain(line) {
      PlainTrimEnd(line);
    } else {
      StableDirectiveShape(line);
      TrimmedTrimEnd(line);
    }
    TrimOfTrimEnd(line);
    SubgraphIdOfTrim(TrimEnd(line), line);
  }

  // ---------------------------------------------------------------------
  // Lists of lines
  // ---------------------------------------------------------------------

  lemma SanitizeLinesSnoc(xs: seq<string>, x: string)
    ensures SanitizeLines(xs + [x]) == SanitizeLines(xs) + KeptLine(x)
  {
    FlatMapSnoc(xs, x, KeptLine);
  }

  lemma RawIdsSnoc(xs: seq<string>, x: string)
    ensures RawIds(xs + [x]) == RawIds(xs) + LineIds(x)
  {
    FlatMapSnoc(xs, x, LineIds);
  }

  lemma SanitizeLinesAppend(a: seq<string>, b: seq<string>)
    ensures SanitizeLines(a + b) == SanitizeLines(a) + SanitizeLines(b)
  {
    FlatMapAppend(a, b, KeptLine);
  }

  lemma RawIdsAppend(a: seq<string>, b: seq<string>)
    ensures RawIds(a + b) == RawIds(a) + RawIds(b)
  {
    FlatMapAppend(a, b, LineIds);
  }

  lemma KeptLineIds(line: string)
    ensures FlatMap(KeptLine(line), LineIds) == LineIds(line)
  {
    var r := SanitizeLine(line);
    SanitizeKeepsLineIds(line);
    if r.None? {
      assert KeptLine(line) == [];
      assert LineIds(line) == [];
    } else {
      var p := r.value;
      assert KeptLine(line) == [p];
      FlatMapSnoc([], p, LineIds);
      assert [] + [p] == [p];
      LineIdsEqual(p, line);
    }
  }

  lemma LineIdsEqual(a: string, b: string)
    requires SubgraphId(a) == SubgraphId(b)
    ensures LineIds(a) == LineIds(b)
  {
  }

  /** Sanitising keeps the subgraph ids of the lines, in order. */
  lemma SanitizeKeepsIds(lines: seq<string>)
    ensures RawIds(SanitizeLines(lines)) == RawIds(lines)
  {
    forall i | 0 <= i < |lines|
      ensures FlatMap(KeptLine(lines[i]), LineIds) == LineIds(lines[i])
    {
      KeptLineIds(lines[i]);
    }
    FlatMapCompose(lines, KeptLine, LineIds, LineIds);
  }

  lemma KeptLineStable(line: string)
    ensures Each(KeptLine(line), Stable)
  {
    var r := SanitizeLine(line);
    if r.Some? {
      SanitizeLineIdempotent(line);
      EachSingleton(r.value, Stable);
      assert KeptLine(line) == [r.value];
    } else {
      assert KeptLine(line) == [];
    }
  }

  lemma KeptLineNoTerminators(line: string)
    requires NoTerminators(line)
    ensures Each(KeptLine(line), NoTerminators)
  {
    var r := SanitizeLine(line);
    if r.Some? {
      SanitizedNoTerminators(line);
      EachSingleton(r.value, NoTerminators);
      assert KeptLine(line) == [r.value];
    } else {
      assert KeptLine(line) == [];
    }
  }

  /** Every sanitised line is stable. */
  lemma SanitizedLinesStable(lines: seq<string>)
    ensures Each(SanitizeLines(lines), Stable)
  {
    forall i | 0 <= i < |lines|
      ensures Each(KeptLine(lines[i]), Stable)
    {
      KeptLineStable(lines[i]);
    }
    FlatMapAll(lines, KeptLine, Stable);
  }

  /** Sanitising lines without terminators gives lines without terminators. */
  lemma SanitizedLinesNoTerminators(lines: seq<string>)
    requires Each(lines, NoTerminators)
    ensures Each(SanitizeLines(lines), NoTerminators)
  {
    forall i | 0 <= i < |lines|
      ensures Each(KeptLine(lines[i]), NoTerminators)
    {
      KeptLineNoTerminators(lines[i]);
    }
    FlatMapAll(lines, KeptLine, NoTerminators);
  }

  /** The sanitiser keeps a line unbroken: plain lines pass unchanged, directives lose their terminators. */
  lemma SanitizedUnbroken(line: string)
    requires Unbroken(line) && SanitizeLine(line).Some?
    ensures Unbroken(SanitizeLine(line).value)
    ensures Each(KeptLine(line), Unbroken)
  {
    if !IsPlain(line) {
      SanitizedDirectiveShape(line);
      NoTerminatorsUnbroken(SanitizeLine(line).value);
    }
  }

  lemma KeptLineUnbroken(line: string)
    requires Unbroken(line)
    ensures Each(KeptLine(line), Unbroken)
  {
    if SanitizeLine(line).Some? {
      SanitizedUnbroken(line);
    } else {
      assert KeptLine(line) == [];
    }
  }

  lemma SanitizedLinesUnbroken(lines: seq<string>)
    requires Each(lines, Unbroken)
    ensures Each(SanitizeLines(lines), Unbroken)
  {
    forall i | 0 <= i < |lines|
      ensures Each(KeptLine(lines[i]), Unbroken)
    {
      KeptLineUnbroken(lines[i]);
    }
    FlatMapAll(lines, KeptLine, Unbroken);
  }

  /** Stable lines go through the sanitiser unchanged. */
  lemma SanitizeLinesOfStable(lines: seq<string>)
    requires Each(lines, Stable)
    ensures SanitizeLines(lines) == lines
  {
    forall i | 0 <= i < |lines|
      ensures KeptLine(lines[i]) == [lines[i]]
    {
      assert Stable(lines[i]);
    }
    FlatMapUnit(lines, KeptLine);
  }

  /** A blank line declares no subgraph. */
  lemma BlankLineHasNoId(line: string)
    requires AllWs(line)
    ensures SubgraphId(line).None?
  {
    if SubgraphId(line).Some? {
      SubgraphIdSteps(line);
    }
  }
}
