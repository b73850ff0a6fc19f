/**
 * The line layout of `colorizeMermaidDiagram`'s output, for any diagram with
 * subgraphs: the sanitised body lines, one blank line, then one style line
 * per subgraph. Carriage returns that survive line-ending normalisation stay
 * inside their lines: the layout only depends on LF.
 */
module ColorizeLines {
  import opened Text
  import opened Types
  import opened Colorize
  import opened ColorizeProofs
  import opened ColorizeIdempotence
  import opened LineEndings

  // ---------------------------------------------------------------------
  // Re-normalising does not change the subgraph ids
  // ---------------------------------------------------------------------

  /** A trailing CR is blank, so dropping it keeps the line's subgraph id. */
  lemma LineIdsDropCr(x: string)
    ensures LineIds(DropCr(x)) == LineIds(x)
  {
    if x != [] && x[|x| - 1] == '\r' {
      assert TrimEnd(x) == TrimEnd(x[..|x| - 1]);
      LineIdsTrimEnd(x);
      LineIdsTrimEnd(DropCr(x));
    }
  }

  lemma {:induction false} DropCrsIds(lines: seq<string>)
    ensures RawIds(DropCrs(lines)) == RawIds(lines)
  {
    if |lines| > 1 {
      var rest := lines[1..];
      assert [lines[0]] + rest == lines;
      RawIdsCons(lines[0], rest);
      RawIdsCons(DropCr(lines[0]), DropCrs(rest));
      LineIdsDropCr(lines[0]);
      DropCrsIds(rest);
    }
  }

  /**
   * The ids of a diagram are those of its LF-separated lines as they stand:
   * normalising again only drops CRs at line ends, which no id depends on.
   */
  lemma SubgraphIdsOfLines(n: string)
    ensures SubgraphIds(n) == Dedup(RawIds(Split(n, '\n')))
  {
    var lines := Split(n, '\n');
    assert Each(lines, NoLf);
    NormalizeJoin(lines);
    DropCrsNoLf(lines);
    SplitJoin(DropCrs(lines), '\n');
    DropCrsIds(lines);
  }

  // ---------------------------------------------------------------------
  // The body lines hold no LF and keep the ids
  // ---------------------------------------------------------------------

  /** A kept line without LF stays without LF: a directive loses only its fill. */
  lemma SanitizedNoLf(line: string)
    requires NoLf(line) && SanitizeLine(line).Some?
    ensures NoLf(SanitizeLine(line).value)
  {
    if !IsPlain(line) {
      SanitizedDirectiveShape(line);
      NoTerminatorsNoLf(SanitizeLine(line).value);
    }
  }

  lemma KeptLineNoLf(line: string)
    requires NoLf(line)
    ensures Each(KeptLine(line), NoLf)
  {
    if SanitizeLine(line).Some? {
      SanitizedNoLf(line);
    }
  }

  lemma SanitizedLinesNoLf(lines: seq<string>)
    requires Each(lines, NoLf)
    ensures Each(SanitizeLines(lines), NoLf)
  {
    forall i | 0 <= i < |lines|
      ensures Each(KeptLine(lines[i]), NoLf)
    {
      KeptLineNoLf(lines[i]);
    }
    FlatMapAll(lines, KeptLine, NoLf);
  }

  lemma NoLfTrimmed(x: string)
    requires NoLf(x)
    ensures NoLf(TrimStart(x)) && NoLf(TrimEnd(x))
  {
    NoLfSlice(x, |x| - |TrimStart(x)|, |x|);
    NoLfSlice(x, 0, |TrimEnd(x)|);
  }

  /** Body lines of LF-free lines are LF-free and declare the same ids. */
  lemma BodyLinesNoLf(s: seq<string>)
    requires Each(s, NoLf)
    ensures Each(BodyLines(s), NoLf) && RawIds(BodyLines(s)) == RawIds(s)
  {
    if s != [] {
      forall i | 0 <= i < |s| ensures NoLf(TrimStart(s[i])) {
        NoLfTrimmed(s[i]);
      }
      LeadTrimEach(s, NoLf);
      var l := LeadTrim(s);
      forall i | 0 <= i < |l| ensures NoLf(TrimEnd(l[i])) {
        NoLfTrimmed(l[i]);
      }
      TrailTrimEach(l, NoLf);
      LeadTrimIds(s);
      TrailTrimIds(l);
    } else {
      EmptyBodyLines("");
      EachSingleton("", NoLf);
    }
  }

  // ---------------------------------------------------------------------
  // The layout
  // ---------------------------------------------------------------------

  /** Two runs of LF-free lines with an empty line between them, joined with LF, split back into those lines. */
  lemma SplitAroundBlank(t: seq<string>, e: string, sl: seq<string>)
    requires |t| >= 1 && |sl| >= 1 && e == []
    requires Each(t, NoLf) && Each(sl, NoLf)
    ensures Split(Join(t, '\n') + "\n\n" + Join(sl, '\n'), '\n') == t + [e] + sl
  {
    var b, j := Join(t, '\n'), Join(sl, '\n');
    JoinAppend(t, [e], '\n');
    assert Join([e], '\n') == e;
    assert Join(t + [e], '\n') == b + "\n";
    JoinAppend(t + [e], sl, '\n');
    assert Join(t + [e] + sl, '\n') == (b + "\n") + "\n" + j;
    NewlinePair(b, j);
    EachSingleton(e, NoLf);
    EachConcat(t, [e], NoLf);
    EachConcat(t + [e], sl, NoLf);
    SplitOfJoinNoLf(t + [e] + sl, b + "\n\n" + j);
  }

  lemma StyleLinesNoLf(ids: seq<string>)
    requires forall i :: 0 <= i < |ids| ==> IsName(ids[i])
    ensures Each(StyleLines(ids), NoLf)
  {
    var sl := StyleLines(ids);
    StyleLinesFacts(ids);
    forall i | 0 <= i < |sl| ensures NoLf(sl[i]) {
      NoTerminatorsNoLf(sl[i]);
    }
  }

  lemma SplitOfJoinNoLf(lines: seq<string>, x: string)
    requires |lines| >= 1 && Each(lines, NoLf) && Join(lines, '\n') == x
    ensures Split(x, '\n') == lines
  {
    forall i | 0 <= i < |lines| ensures '\n' !in lines[i] {
      assert NoLf(lines[i]);
    }
    SplitJoin(lines, '\n');
  }

  /** A body starting with a non-blank, followed by the style lines, is already trimmed. */
  lemma TrimLayout(b: string, ids: seq<string>)
    requires b != [] && !IsWs(b[0]) && ids != []
    ensures Trim(b + "\n\n" + Join(StyleLines(ids), '\n')) == b + "\n\n" + Join(StyleLines(ids), '\n')
  {
    StyleLinesEnd(ids);
    TrimmedAround(b, Join(StyleLines(ids), '\n'));
  }

  /** The body lines of a trimmed, normalised diagram: LF-free, joined they give its body, and they declare its ids. */
  lemma BodyLinesOf(n: string)
    ensures var t := BodyLines(SanitizeLines(Split(n, '\n')));
      |t| >= 1 && Each(t, NoLf) && Join(t, '\n') == Body(n) && Dedup(RawIds(t)) == SubgraphIds(n)
  {
    var lines := Split(n, '\n');
    assert Each(lines, NoLf);
    var s := SanitizeLines(lines);
    SanitizedLinesNoLf(lines);
    BodyLinesNoLf(s);
    BodyLinesJoin(s);
    SanitizeKeepsIds(lines);
    SubgraphIdsOfLines(n);
  }

  /**
   * With subgraphs, the output of `colorizeMermaidDiagram` is its sanitised
   * body lines, one blank line, then one style line per subgraph, in order.
   */
  lemma ColorizeLayout(d: string)
    requires SubgraphIds(Trim(NormalizeLineEndings(d))) != []
    ensures var n := Trim(NormalizeLineEndings(d));
      var ids := SubgraphIds(n);
      var body := BodyLines(SanitizeLines(Split(n, '\n')));
      Join(body, '\n') == Body(n) &&
      Split(Colorize.Colorize(d), '\n') == body + [""] + StyleLines(ids)
  {
    var n := Trim(NormalizeLineEndings(d));
    BodyStart(n);
    ColorizeText(d);
    LayoutLines(n);
  }

  /** With subgraphs, the body is non-empty and starts with a non-blank. */
  lemma BodyStart(n: string)
    requires SubgraphIds(n) != []
    ensures var b := Join(BodyLines(SanitizeLines(Split(n, '\n'))), '\n');
      n != [] && b == Body(n) && b != [] && !IsWs(b[0])
  {
    NoIdsInEmpty(n);
    BodyLinesOf(n);
    EmptyJoinHasNoIds(BodyLines(SanitizeLines(Split(n, '\n'))));
  }

  lemma ColorizeText(d: string)
    requires SubgraphIds(Trim(NormalizeLineEndings(d))) != []
    ensures var n := Trim(NormalizeLineEndings(d));
      Colorize.Colorize(d) == Body(n) + "\n\n" + Join(StyleLines(SubgraphIds(n)), '\n')
  {
    var n := Trim(NormalizeLineEndings(d));
    BodyStart(n);
    TrimLayout(Body(n), SubgraphIds(n));
  }

  lemma LayoutLines(n: string)
    requires SubgraphIds(n) != []
    ensures var t := BodyLines(SanitizeLines(Split(n, '\n')));
      var sl := StyleLines(SubgraphIds(n));
      Split(Join(t, '\n') + "\n\n" + Join(sl, '\n'), '\n') == t + [""] + sl
  {
    var t := BodyLines(SanitizeLines(Split(n, '\n')));
    BodyLinesOf(n);
    IdsAreNames(n);
    StyleLinesNoLf(SubgraphIds(n));
    SplitAroundBlank(t, "", StyleLines(SubgraphIds(n)));
  }
}
