/**
 * Re-colorizing: feeding the output of `colorizeMermaidDiagram` back in
 * returns it unchanged. The earlier style lines are fill-only, so the
 * sanitiser drops them, and the same lines are regenerated from the same ids.
 *
 * The trimmed sanitised body is described line by line: trimming the joined
 * text drops the leading and trailing blank lines and trims the first and
 * last remaining line (`LeadTrim`, `TrailTrim`).
 */
module ColorizeIdempotence {
  import opened Text
  import opened Types
  import opened Colorize
  import opened ColorizeProofs
  import opened LineEndings

  /** The lines of `TrimStart(Join(s))`: leading blank lines dropped, the next one trimmed at its start. */
  function LeadTrim(s: seq<string>): (t: seq<string>)
    requires |s| >= 1
    ensures |t| >= 1
  {
    if |s| == 1 then [TrimStart(s[0])]
    else if AllWs(s[0]) then LeadTrim(s[1..])
    else [TrimStart(s[0])] + s[1..]
  }

  /** The lines of `TrimEnd(Join(s))`: trailing blank lines dropped, the one before trimmed at its end. */
  function TrailTrim(s: seq<string>): (t: seq<string>)
    requires |s| >= 1
    ensures |t| >= 1
  {
    if |s| == 1 then [TrimEnd(s[0])]
    else if AllWs(s[|s| - 1]) then TrailTrim(s[..|s| - 1])
    else s[..|s| - 1] + [TrimEnd(s[|s| - 1])]
  }

  /** The lines of the trimmed join of `s`. */
  function BodyLines(s: seq<string>): (t: seq<string>)
    ensures |t| >= 1
  {
    if s == [] then [""] else TrailTrim(LeadTrim(s))
  }

  lemma NewlineBlank(a: string)
    requires AllWs(a)
    ensures AllWs(a + "\n") && AllWs("\n" + a)
  {
  }

  lemma {:induction false} LeadTrimJoin(s: seq<string>)
    requires |s| >= 1
    ensures Join(LeadTrim(s), '\n') == TrimStart(Join(s, '\n'))
  {
    if |s| > 1 {
      var rest := Join(s[1..], '\n');
      assert Join(s, '\n') == (s[0] + "\n") + rest;
      if AllWs(s[0]) {
        LeadTrimJoin(s[1..]);
        NewlineBlank(s[0]);
        TrimStartConcatBlank(s[0] + "\n", rest);
      } else {
        assert (s[0] + "\n") + rest == s[0] + ("\n" + rest);
        TrimStartConcatNonBlank(s[0], "\n" + rest);
        JoinCons(TrimStart(s[0]), s[1..], '\n');
      }
    }
  }

  lemma {:induction false} TrailTrimJoin(s: seq<string>)
    requires |s| >= 1
    ensures Join(TrailTrim(s), '\n') == TrimEnd(Join(s, '\n'))
  {
    if |s| > 1 {
      var init := s[..|s| - 1];
      var last := s[|s| - 1];
      assert s == init + [last];
      JoinAppend(init, [last], '\n');
      var j := Join(init, '\n');
      assert Join(s, '\n') == j + "\n" + last;
      if AllWs(last) {
        TrailTrimJoin(init);
        NewlineBlank(last);
        assert j + "\n" + last == j + ("\n" + last);
        TrimEndConcatBlank(j, "\n" + last);
      } else {
        TrimEndConcatNonBlank(j + "\n", last);
        JoinAppend(init, [TrimEnd(last)], '\n');
      }
    }
  }

  /** The trimmed join is the join of the body lines. */
  lemma BodyLinesJoin(s: seq<string>)
    ensures Join(BodyLines(s), '\n') == Trim(Join(s, '\n'))
  {
    if s != [] {
      LeadTrimJoin(s);
      TrailTrimJoin(LeadTrim(s));
    }
  }

  lemma RawIdsCons(x: string, rest: seq<string>)
    ensures RawIds([x] + rest) == LineIds(x) + RawIds(rest)
  {
    FlatMapCons(x, rest, LineIds);
  }

  /** Trimming the leading lines keeps stability, unbroken lines and the subgraph ids. */
  lemma LeadTrimKeeps(s: seq<string>)
    requires |s| >= 1 && Each(s, Stable) && Each(s, Unbroken)
    ensures Each(LeadTrim(s), Stable) && Each(LeadTrim(s), Unbroken)
    ensures RawIds(LeadTrim(s)) == RawIds(s)
  {
    forall i | 0 <= i < |s|
      ensures Stable(TrimStart(s[i])) && Unbroken(TrimStart(s[i]))
    {
      StableTrimStart(s[i]);
      UnbrokenTrimmed(s[i]);
    }
    LeadTrimEach(s, Stable);
    LeadTrimEach(s, Unbroken);
    LeadTrimIds(s);
  }

  /** A property of every line that survives trimming at the start holds of every trimmed line. */
  lemma {:induction false} LeadTrimEach(s: seq<string>, p: string -> bool)
    requires |s| >= 1 && Each(s, p)
    requires forall i :: 0 <= i < |s| ==> p(TrimStart(s[i]))
    ensures Each(LeadTrim(s), p)
  {
    EachSingleton(TrimStart(s[0]), p);
    if |s| > 1 {
      EachTail(s, p);
      if AllWs(s[0]) {
        assert forall i :: 0 <= i < |s| - 1 ==> s[1..][i] == s[i + 1];
        LeadTrimEach(s[1..], p);
      } else {
        EachConcat([TrimStart(s[0])], s[1..], p);
      }
    }
  }

  lemma {:induction false} LeadTrimIds(s: seq<string>)
    requires |s| >= 1
    ensures RawIds(LeadTrim(s)) == RawIds(s)
  {
    var head := s[0];
    var tail := s[1..];
    assert s == [head] + tail;
    if |s| > 1 && AllWs(head) {
      LeadTrimIds(tail);
      LeadTrimBlank(head, tail);
    } else {
      assert LeadTrim(s) == [TrimStart(head)] + tail;
      LeadTrimKept(head, tail);
    }
  }

  lemma LeadTrimBlank(head: string, tail: seq<string>)
    requires AllWs(head)
    ensures RawIds([head] + tail) == RawIds(tail)
  {
    RawIdsCons(head, tail);
    BlankLineIds(head);
  }

  lemma LeadTrimKept(head: string, tail: seq<string>)
    ensures RawIds([TrimStart(head)] + tail) == RawIds([head] + tail)
  {
    RawIdsCons(head, tail);
    RawIdsCons(TrimStart(head), tail);
    LineIdsTrimStart(head);
  }

  /** Trimming a line at either end keeps the ids it declares. */
  lemma LineIdsTrimStart(x: string)
    ensures LineIds(TrimStart(x)) == LineIds(x)
  {
    var t := TrimStart(x);
    assert SubgraphId(t) == SubgraphId(x) by {
      TrimOfTrimStart(x);
      SubgraphIdOfTrim(t, x);
    }
    LineIdsEqual(t, x);
  }

  lemma LineIdsTrimEnd(x: string)
    ensures LineIds(TrimEnd(x)) == LineIds(x)
  {
    var t := TrimEnd(x);
    assert SubgraphId(t) == SubgraphId(x) by {
      TrimOfTrimEnd(x);
      SubgraphIdOfTrim(t, x);
    }
    LineIdsEqual(t, x);
  }

  lemma BlankLineIds(x: string)
    requires AllWs(x)
    ensures LineIds(x) == []
  {
    BlankLineHasNoId(x);
  }

  /** Trimming the trailing lines keeps stability, unbroken lines and the subgraph ids. */
  lemma TrailTrimKeeps(s: seq<string>)
    requires |s| >= 1 && Each(s, Stable) && Each(s, Unbroken)
    ensures Each(TrailTrim(s), Stable) && Each(TrailTrim(s), Unbroken)
    ensures RawIds(TrailTrim(s)) == RawIds(s)
  {
    forall i | 0 <= i < |s|
      ensures Stable(TrimEnd(s[i])) && Unbroken(TrimEnd(s[i]))
    {
      StableTrimEnd(s[i]);
      UnbrokenTrimmed(s[i]);
    }
    TrailTrimEach(s, Stable);
    TrailTrimEach(s, Unbroken);
    TrailTrimIds(s);
  }

  /** A property of every line that survives trimming at the end holds of every trimmed line. */
  lemma {:induction false} TrailTrimEach(s: seq<string>, p: string -> bool)
    requires |s| >= 1 && Each(s, p)
    requires forall i :: 0 <= i < |s| ==> p(TrimEnd(s[i]))
    ensures Each(TrailTrim(s), p)
  {
    var init := s[..|s| - 1];
    var last := s[|s| - 1];
    EachSingleton(TrimEnd(last), p);
    if |s| > 1 {
      EachInit(s, p);
      if AllWs(last) {
        TrailTrimEach(init, p);
      } else {
        EachConcat(init, [TrimEnd(last)], p);
      }
    }
  }

  lemma {:induction false} TrailTrimIds(s: seq<string>)
    requires |s| >= 1
    ensures RawIds(TrailTrim(s)) == RawIds(s)
  {
    var init := s[..|s| - 1];
    var last := s[|s| - 1];
    assert s == init + [last];
    if |s| > 1 && AllWs(last) {
      TrailTrimIds(init);
      TrailTrimBlank(init, last);
    } else {
      assert TrailTrim(s) == init + [TrimEnd(last)];
      TrailTrimKept(init, last);
    }
  }

  lemma TrailTrimBlank(init: seq<string>, last: string)
    requires AllWs(last)
    ensures RawIds(init + [last]) == RawIds(init)
  {
    RawIdsSnoc(init, last);
    BlankLineIds(last);
  }

  lemma TrailTrimKept(init: seq<string>, last: string)
    ensures RawIds(init + [TrimEnd(last)]) == RawIds(init + [last])
  {
    RawIdsSnoc(init, last);
    RawIdsSnoc(init, TrimEnd(last));
    LineIdsTrimEnd(last);
  }

  lemma EmptyLineStable(e: string)
    requires e == []
    ensures Stable(e) && NoTerminators(e) && LineIds(e) == []
  {
    EmptyNoDirective(StyleKw);
    EmptyNoDirective(ClassDefKw);
    assert IsPlain(e);
    BlankLineHasNoId(e);
  }

  lemma EmptyNoDirective(kw: Keyword)
    ensures MatchDirective([], kw).None?
  {
    assert TrimStart([]) == [];
    assert !StartsWithCI([], kw.Folded());
  }

  /** Body lines of stable unbroken lines are stable, unbroken and carry the same ids. */
  lemma BodyLinesKeep(s: seq<string>)
    requires Each(s, Stable) && Each(s, Unbroken)
    ensures Each(BodyLines(s), Stable) && Each(BodyLines(s), Unbroken)
    ensures RawIds(BodyLines(s)) == RawIds(s)
  {
    if s != [] {
      assert BodyLines(s) == TrailTrim(LeadTrim(s));
      LeadTrimKeeps(s);
      TrailTrimKeeps(LeadTrim(s));
    } else {
      EmptyBodyLines("");
    }
  }

  lemma EmptyBodyLines(e: string)
    requires e == []
    ensures Each([e], Stable) && Each([e], Unbroken) && RawIds([e]) == []
  {
    EmptyLineStable(e);
    EachSingleton(e, Stable);
    EachSingleton(e, Unbroken);
    FlatMapCons(e, [], LineIds);
    assert [e] + [] == [e];
  }

  /**
   * The sanitised body of a normalised diagram that does not end in CR is the
   * join of lines that are stable, unbroken, and carry the diagram's subgraph ids.
   */
  lemma BodyFacts(n: string)
    requires NormalizeLineEndings(n) == n && (n == [] || n[|n| - 1] != '\r')
    ensures var t := BodyLines(SanitizeLines(Split(n, '\n')));
      Join(t, '\n') == Body(n) && SanitizeLines(t) == t && Each(t, Unbroken) &&
      RawIds(t) == RawIds(Split(n, '\n'))
  {
    SplitFixedUnbroken(n);
    SanitizedBodyLines(Split(n, '\n'));
  }

  /** The body lines of sanitised unbroken lines: stable, unbroken, with the same ids, joined to the trimmed text. */
  lemma SanitizedBodyLines(lines: seq<string>)
    requires Each(lines, Unbroken)
    ensures var t := BodyLines(SanitizeLines(lines));
      Join(t, '\n') == Trim(Join(SanitizeLines(lines), '\n')) && SanitizeLines(t) == t &&
      Each(t, Unbroken) && RawIds(t) == RawIds(lines)
  {
    SanitizedFacts(lines);
    StableBodyLines(SanitizeLines(lines));
  }

  /** Sanitising unbroken lines gives stable, unbroken lines with the same subgraph ids. */
  lemma SanitizedFacts(lines: seq<string>)
    requires Each(lines, Unbroken)
    ensures var s := SanitizeLines(lines);
      Each(s, Stable) && Each(s, Unbroken) && RawIds(s) == RawIds(lines)
  {
    SanitizedLinesStable(lines);
    SanitizedLinesUnbroken(lines);
    SanitizeKeepsIds(lines);
  }

  /** The body lines of stable, unbroken lines join to the trimmed text and keep every property. */
  lemma StableBodyLines(s: seq<string>)
    requires Each(s, Stable) && Each(s, Unbroken)
    ensures var t := BodyLines(s);
      Join(t, '\n') == Trim(Join(s, '\n')) && SanitizeLines(t) == t && Each(t, Unbroken) &&
      RawIds(t) == RawIds(s)
  {
    BodyLinesJoin(s);
    BodyLinesKeep(s);
    SanitizeLinesOfStable(BodyLines(s));
  }

  lemma StyleLineNoTerminators(id: string, c: string)
    requires IsName(id) && Solid(c)
    ensures NoTerminators(StyleLine(id, c))
  {
    var f := "fill:" + c;
    assert NoTerminators(f) by {
      forall k | 0 <= k < |f| ensures !IsTerminator(f[k]) {
        if k >= 5 {
          assert f[k] == c[k - 5];
        }
      }
    }
    var v := id + " " + f;
    assert NoTerminators(v) by {
      forall k | 0 <= k < |v| ensures !IsTerminator(v[k]) {
        if k > |id| {
          assert v[k] == f[k - |id| - 1];
        } else if k < |id| {
          assert v[k] == id[k];
        }
      }
    }
    var l := StyleKw.Canonical() + " " + v;
    assert StyleLine(id, c) == l;
    forall k | 0 <= k < |l| ensures !IsTerminator(l[k]) {
      if k > 5 {
        assert l[k] == v[k - 6];
      }
    }
  }

  /** A generated style line ends with the last character of its colour, which is not whitespace. */
  lemma StyleLineLast(id: string, c: string)
    requires Solid(c) && c != []
    ensures var l := StyleLine(id, c); l != [] && !IsWs(l[|l| - 1])
  {
    var l := StyleLine(id, c);
    assert l[|l| - 1] == c[|c| - 1];
  }

  /** The generated style lines: no terminators, no subgraph ids, all dropped by the sanitiser. */
  lemma StyleLinesFacts(ids: seq<string>)
    requires forall i :: 0 <= i < |ids| ==> IsName(ids[i])
    ensures Each(StyleLines(ids), NoTerminators)
    ensures RawIds(StyleLines(ids)) == []
    ensures SanitizeLines(StyleLines(ids)) == []
  {
    var sl := StyleLines(ids);
    forall i | 0 <= i < |sl|
      ensures NoTerminators(sl[i]) && LineIds(sl[i]) == [] && KeptLine(sl[i]) == []
    {
      StyleLineIsFillOnly(ids, i);
      StyleLineNoTerminators(ids[i], FillColor(i));
      SubgraphLineIsPlain(sl[i]);
    }
    FlatMapEmpty(sl, LineIds);
    FlatMapEmpty(sl, KeptLine);
  }

  /** The joined style lines end with a non-whitespace character. */
  lemma StyleLinesEnd(ids: seq<string>)
    requires ids != []
    ensures var j := Join(StyleLines(ids), '\n'); j != [] && !IsWs(j[|j| - 1])
  {
    var sl := StyleLines(ids);
    var k := |ids| - 1;
    StyleLineLast(ids[k], FillColor(k));
    JoinLast(sl, '\n');
  }

  lemma SplitOfJoin(t: seq<string>)
    requires |t| >= 1 && Each(t, Unbroken)
    ensures Split(Join(t, '\n'), '\n') == t
  {
    EachUnbrokenNoLf(t);
    SplitJoin(t, '\n');
  }

  /** Lines that join to nothing carry no subgraph id. */
  lemma EmptyJoinHasNoIds(t: seq<string>)
    requires |t| >= 1
    ensures Join(t, '\n') == [] ==> RawIds(t) == []
  {
    if Join(t, '\n') == [] {
      EmptyJoinLines(t);
    }
  }

  lemma EmptyJoinLines(t: seq<string>)
    requires |t| >= 1 && Join(t, '\n') == []
    ensures RawIds(t) == []
  {
    assert |t| == 1;
    assert t == [t[0]] + [];
    FlatMapCons(t[0], [], LineIds);
    EmptyLineStable(t[0]);
  }

  /** Every collected subgraph id is a name. */
  lemma IdsAreNames(n: string)
    ensures forall i :: 0 <= i < |SubgraphIds(n)| ==> IsName(SubgraphIds(n)[i])
  {
    var raw := RawIds(Split(NormalizeLineEndings(n), '\n'));
    assert SubgraphIds(n) == Dedup(raw);
    DedupNames(raw);
  }

  lemma DedupNames(xs: seq<string>)
    requires forall i :: 0 <= i < |xs| ==> IsName(xs[i])
    ensures forall i :: 0 <= i < |Dedup(xs)| ==> IsName(Dedup(xs)[i])
  {
    var d := Dedup(xs);
    forall i | 0 <= i < |d| ensures IsName(d[i]) {
      assert d[i] in xs;
      var j :| 0 <= j < |xs| && xs[j] == d[i];
    }
  }

  /** A body whose lines are stable goes through `colorizeMermaidDiagram` unchanged when it has no subgraph. */
  lemma RecolorWithoutIds(n: string)
    requires NormalizeLineEndings(n) == n && n != [] && !IsWs(n[|n| - 1]) && SubgraphIds(n) == []
    ensures Colorize.Colorize(Body(n)) == Body(n)
  {
    PlainBody(n);
    ColorizeOfPlain(Body(n));
  }

  /** Normalised, trimmed text without subgraphs that is its own body colorizes to itself. */
  lemma ColorizeOfPlain(b: string)
    requires Trim(NormalizeLineEndings(b)) == b && SubgraphIds(b) == [] && Body(b) == b
    ensures Colorize.Colorize(b) == b
  {
    if b != [] {
      ColorizeOfNormal(b);
    } else {
      ColorizeOfBlank(b);
    }
  }

  /** Without subgraphs, the body is normalised, trimmed, free of subgraphs, and its own body. */
  lemma PlainBody(n: string)
    requires NormalizeLineEndings(n) == n && n != [] && !IsWs(n[|n| - 1]) && SubgraphIds(n) == []
    ensures var b := Body(n);
      Trim(NormalizeLineEndings(b)) == b && SubgraphIds(b) == [] && Body(b) == b
  {
    BodyFacts(n);
    var t := BodyLines(SanitizeLines(Split(n, '\n')));
    TrimIdem(Join(SanitizeLines(Split(n, '\n')), '\n'));
    StableBody(t);
  }

  /** A diagram that is blank after normalising colorizes to nothing. */
  lemma ColorizeOfBlank(x: string)
    requires Trim(NormalizeLineEndings(x)) == []
    ensures Colorize.Colorize(x) == []
  {
  }

  /** Trimmed text of unbroken lines the sanitiser keeps is its own body and keeps the ids of its lines. */
  lemma StableBody(t: seq<string>)
    requires |t| >= 1 && SanitizeLines(t) == t && Each(t, Unbroken) && Trim(Join(t, '\n')) == Join(t, '\n')
    ensures var x := Join(t, '\n');
      Trim(NormalizeLineEndings(x)) == x && SubgraphIds(x) == Dedup(RawIds(t)) && Body(x) == x
  {
    LinesFixed(t, Join(t, '\n'));
  }

  /** What `colorizeMermaidDiagram` does to text that is already trimmed and normalised. */
  lemma ColorizeOfNormal(x: string)
    requires x != [] && Trim(NormalizeLineEndings(x)) == x
    ensures Colorize.Colorize(x) ==
      if SubgraphIds(x) == [] then Body(x)
      else Trim(Body(x) + "\n\n" + Join(StyleLines(SubgraphIds(x)), '\n'))
  {
  }

  /**
   * Text joined from unbroken lines reads back as those lines, and
   * normalising it changes nothing.
   */
  lemma LinesFixed(lines: seq<string>, x: string)
    requires |lines| >= 1 && Each(lines, Unbroken) && Join(lines, '\n') == x
    ensures NormalizeLineEndings(x) == x && Split(x, '\n') == lines
  {
    JoinUnbrokenFixed(lines);
    SplitOfJoin(lines);
  }

  lemma NewlinePair(b: string, j: string)
    ensures (b + "\n") + "\n" + j == b + "\n\n" + j
  {
  }

  /**
   * A block of lines that can follow the body after the blank line: no line
   * holds an LF or ends in CR, none declares a subgraph, the sanitiser drops
   * every one of them, and the joined block ends in a non-blank character.
   */
  predicate StyleBlock(sl: seq<string>) {
    var j := Join(sl, '\n');
    sl != [] && Each(sl, Unbroken) && RawIds(sl) == [] && SanitizeLines(sl) == [] &&
    j != [] && !IsWs(j[|j| - 1])
  }

  /** The generated style lines form such a block. */
  lemma StyleLinesBlock(ids: seq<string>)
    requires ids != [] && forall i :: 0 <= i < |ids| ==> IsName(ids[i])
    ensures StyleBlock(StyleLines(ids))
  {
    var sl := StyleLines(ids);
    StyleLinesFacts(ids);
    StyleLinesEnd(ids);
    forall i | 0 <= i < |sl| ensures Unbroken(sl[i]) {
      NoTerminatorsUnbroken(sl[i]);
    }
  }

  /** Joining the body lines, a blank line and a block puts two LFs between body and block. */
  lemma JoinAroundBlank(t: seq<string>, sl: seq<string>, e: string)
    requires |t| >= 1 && sl != [] && e == []
    ensures Join(t + [e] + sl, '\n') == Join(t, '\n') + "\n\n" + Join(sl, '\n')
  {
    JoinAppend(t, [e], '\n');
    assert Join([e], '\n') == e;
    JoinAppend(t + [e], sl, '\n');
    NewlinePair(Join(t, '\n'), Join(sl, '\n'));
  }

  /** The blank line between two runs of unbroken lines is itself unbroken. */
  lemma UnbrokenAroundBlank(t: seq<string>, sl: seq<string>, e: string)
    requires Each(t, Unbroken) && Each(sl, Unbroken) && e == []
    ensures Each(t + [e] + sl, Unbroken)
  {
    assert Unbroken(e);
    EachSingleton(e, Unbroken);
    EachConcat(t, [e], Unbroken);
    EachConcat(t + [e], sl, Unbroken);
  }

  /** The blank line and the block add no subgraph id. */
  lemma BlockIds(t: seq<string>, sl: seq<string>, e: string)
    requires RawIds(sl) == [] && e == []
    ensures RawIds(t + [e] + sl) == RawIds(t)
  {
    EmptyBodyLines(e);
    RawIdsAppend(t, [e]);
    RawIdsAppend(t + [e], sl);
  }

  /** Re-sanitising drops the block and keeps the stable body lines and the blank line. */
  lemma BlockSanitized(t: seq<string>, sl: seq<string>, e: string)
    requires SanitizeLines(t) == t && SanitizeLines(sl) == [] && e == []
    ensures SanitizeLines(t + [e] + sl) == t + [e]
  {
    EmptyBodyLines(e);
    SanitizeLinesOfStable([e]);
    SanitizeLinesAppend(t, [e]);
    SanitizeLinesAppend(t + [e], sl);
  }

  /** Re-sanitising the body, the blank line and the block, then trimming, gives the body back. */
  lemma StyledBodyText(t: seq<string>, sl: seq<string>, e: string)
    requires |t| >= 1 && SanitizeLines(t) == t && Trim(Join(t, '\n')) == Join(t, '\n')
    requires SanitizeLines(sl) == [] && e == []
    ensures Trim(Join(SanitizeLines(t + [e] + sl), '\n')) == Join(t, '\n')
  {
    BlockSanitized(t, sl, e);
    RecolorBody(t, e);
  }

  /** Re-sanitising keeps the body: the blank separator line is trimmed away. */
  lemma RecolorBody(t: seq<string>, e: string)
    requires |t| >= 1 && Trim(Join(t, '\n')) == Join(t, '\n') && e == []
    ensures Trim(Join(t + [e], '\n')) == Join(t, '\n')
  {
    JoinAppend(t, [e], '\n');
    assert Join([e], '\n') == e;
    assert Join(t + [e], '\n') == Join(t, '\n') + "\n";
    TrimAppendWs(Join(t, '\n'), "\n");
  }

  /** Normalised, trimmed text whose body and style lines rebuild it colorizes to itself. */
  lemma ColorizeOfStyled(x: string)
    requires x != [] && Trim(NormalizeLineEndings(x)) == x && SubgraphIds(x) != []
    requires Trim(Body(x) + "\n\n" + Join(StyleLines(SubgraphIds(x)), '\n')) == x
    ensures Colorize.Colorize(x) == x
  {
    ColorizeOfNormal(x);
  }

  /**
   * With subgraphs, the body, a blank line and the style lines make a text
   * that is trimmed, normalised, and has the same body and ids.
   */
  lemma StyledShape(n: string, t: seq<string>, ids: seq<string>, y: string)
    requires NormalizeLineEndings(n) == n && n != [] && !IsWs(n[|n| - 1])
    requires t == BodyLines(SanitizeLines(Split(n, '\n'))) && ids == SubgraphIds(n) && ids != []
    requires y == Body(n) + "\n\n" + Join(StyleLines(ids), '\n')
    ensures y != [] && Trim(y) == y && NormalizeLineEndings(y) == y
    ensures SubgraphIds(y) == ids && Body(y) == Body(n)
  {
    StyledBodyLines(n);
    StyledIdsFacts(t, ids, y);
  }

  /** Body lines the sanitiser keeps, with no LF and no final CR, joined into a non-empty trimmed text. */
  predicate StableLines(t: seq<string>) {
    |t| >= 1 && SanitizeLines(t) == t && Each(t, Unbroken) &&
    Join(t, '\n') != [] && Trim(Join(t, '\n')) == Join(t, '\n')
  }

  /** A non-empty list of subgraph names. */
  predicate Names(ids: seq<string>) {
    ids != [] && forall i :: 0 <= i < |ids| ==> IsName(ids[i])
  }

  /** With subgraphs, the body lines are stable, unbroken, non-empty and trimmed, and declare the ids. */
  lemma StyledBodyLines(n: string)
    requires NormalizeLineEndings(n) == n && n != [] && !IsWs(n[|n| - 1]) && SubgraphIds(n) != []
    ensures var t := BodyLines(SanitizeLines(Split(n, '\n')));
      StableLines(t) && Join(t, '\n') == Body(n) && Dedup(RawIds(t)) == SubgraphIds(n) && Names(SubgraphIds(n))
  {
    BodyFacts(n);
    var t := BodyLines(SanitizeLines(Split(n, '\n')));
    IdsAreNames(n);
    EmptyJoinHasNoIds(t);
    TrimIdem(Join(SanitizeLines(Split(n, '\n')), '\n'));
  }

  /** The body lines `t`, a blank line and the style lines of their ids. */
  lemma StyledIdsFacts(t: seq<string>, ids: seq<string>, x: string)
    requires StableLines(t) && Dedup(RawIds(t)) == ids && Names(ids)
    requires x == Join(t, '\n') + "\n\n" + Join(StyleLines(ids), '\n')
    ensures x != [] && Trim(x) == x
    ensures NormalizeLineEndings(x) == x && SubgraphIds(x) == ids && Body(x) == Join(t, '\n')
  {
    StyleLinesBlock(ids);
    StyledFacts(t, StyleLines(ids));
    StyledTrimmed(Join(t, '\n'), StyleLines(ids));
  }

  /** The text made of the body lines `t`, a blank line and a block. */
  lemma StyledFacts(t: seq<string>, sl: seq<string>)
    requires |t| >= 1 && SanitizeLines(t) == t && Each(t, Unbroken)
    requires Trim(Join(t, '\n')) == Join(t, '\n') && StyleBlock(sl)
    ensures var x := Join(t, '\n') + "\n\n" + Join(sl, '\n');
      NormalizeLineEndings(x) == x && SubgraphIds(x) == Dedup(RawIds(t)) && Body(x) == Join(t, '\n')
  {
    StyledNormal(t, sl);
    StyledIds(t, sl);
    StyledBody(t, sl);
  }

  /** The text keeps the subgraph ids of the body lines. */
  lemma StyledIds(t: seq<string>, sl: seq<string>)
    requires |t| >= 1 && Each(t, Unbroken) && StyleBlock(sl)
    ensures SubgraphIds(Join(t, '\n') + "\n\n" + Join(sl, '\n')) == Dedup(RawIds(t))
  {
    var e: string := [];
    StyledNormal(t, sl);
    StyledSplit(t, sl, e);
    BlockIds(t, sl, e);
  }

  /** The body of the text is the body it was made from. */
  lemma StyledBody(t: seq<string>, sl: seq<string>)
    requires |t| >= 1 && SanitizeLines(t) == t && Each(t, Unbroken)
    requires Trim(Join(t, '\n')) == Join(t, '\n') && StyleBlock(sl)
    ensures Body(Join(t, '\n') + "\n\n" + Join(sl, '\n')) == Join(t, '\n')
  {
    var e: string := [];
    StyledSplit(t, sl, e);
    StyledBodyText(t, sl, e);
  }

  /** The text is already normalised. */
  lemma StyledNormal(t: seq<string>, sl: seq<string>)
    requires |t| >= 1 && Each(t, Unbroken) && StyleBlock(sl)
    ensures var x := Join(t, '\n') + "\n\n" + Join(sl, '\n');
      NormalizeLineEndings(x) == x
  {
    var e: string := [];
    JoinAroundBlank(t, sl, e);
    UnbrokenAroundBlank(t, sl, e);
    JoinUnbrokenFixed(t + [e] + sl);
  }

  /** The text splits back into the body lines, a blank line and the block. */
  lemma StyledSplit(t: seq<string>, sl: seq<string>, e: string)
    requires |t| >= 1 && Each(t, Unbroken) && StyleBlock(sl) && e == []
    ensures Split(Join(t, '\n') + "\n\n" + Join(sl, '\n'), '\n') == t + [e] + sl
  {
    JoinAroundBlank(t, sl, e);
    UnbrokenAroundBlank(t, sl, e);
    SplitOfJoin(t + [e] + sl);
  }

  /** Text that starts with no blank, followed by a block, needs no trimming. */
  lemma StyledTrimmed(b: string, sl: seq<string>)
    requires b != [] && !IsWs(b[0]) && StyleBlock(sl)
    ensures var x := b + "\n\n" + Join(sl, '\n'); Trim(x) == x
  {
    TrimmedAround(b, Join(sl, '\n'));
  }

  lemma TrimmedAround(b: string, j: string)
    requires b != [] && !IsWs(b[0]) && j != [] && !IsWs(j[|j| - 1])
    ensures Trim(b + "\n\n" + j) == b + "\n\n" + j
  {
    var x := b + "\n\n" + j;
    assert x[0] == b[0];
    assert x[|x| - 1] == j[|j| - 1];
    TrimOfTrimmed(x);
  }


  lemma NoIdsInEmpty(n: string)
    ensures n == [] ==> SubgraphIds(n) == []
  {
    if n == [] {
      var lines := Split(NormalizeLineEndings(n), '\n');
      assert lines == [n];
      EmptyLineStable(n);
      FlatMapCons(n, [], LineIds);
      assert [n] + [] == [n];
    }
  }

  lemma StyleLineText(id: string, c: string)
    ensures StyleLine(id, c) == "style " + id + " fill:" + c
  {
  }

  /** Style line `i` colours id `i` with palette entry `i mod 8`. */
  lemma StyleLinesFormat(ids: seq<string>)
    ensures forall i :: 0 <= i < |ids| ==>
      StyleLines(ids)[i] == "style " + ids[i] + " fill:" + SubgraphFillPlaceholderCycle[i % 8]
  {
    forall i | 0 <= i < |ids|
      ensures StyleLines(ids)[i] == "style " + ids[i] + " fill:" + SubgraphFillPlaceholderCycle[i % 8]
    {
      FillColorCycles(i);
      StyleLineText(ids[i], FillColor(i));
    }
  }

  /**
   * Colorizing is idempotent on every diagram whose trimmed, normalised text
   * has no CR directly before an LF: the second run strips the fill-only
   * style lines of the first and regenerates the same ones. Such a pair can
   * only come from CR CR LF in the input, which the single-pass
   * normalisation turns into CR LF and the second run into LF.
   */
  lemma ColorizeIdempotent(d: string)
    requires NoCrLf(Trim(NormalizeLineEndings(d)))
    ensures Colorize.Colorize(Colorize.Colorize(d)) == Colorize.Colorize(d)
  {
    var n := Trim(NormalizeLineEndings(d));
    NormalizeFixedIff(n);
    if n == [] {
      assert Colorize.Colorize(d) == [];
      assert NormalizeLineEndings([]) == [];
    } else if SubgraphIds(n) == [] {
      RecolorWithoutIds(n);
    } else {
      var ids := SubgraphIds(n);
      var y := Body(n) + "\n\n" + Join(StyleLines(ids), '\n');
      StyledShape(n, BodyLines(SanitizeLines(Split(n, '\n'))), ids, y);
      ColorizeOfStyled(y);
    }
  }
}
