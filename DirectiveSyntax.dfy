/**
 * Which lines the colorizer takes for `style` and `classDef` directives
 * (src/agent/mermaidColorize.ts), in both directions: blanks, the keyword
 * in any case, blanks, a name, blanks, the attributes and trailing blanks
 * yield that name and those attributes, and every line the pattern accepts
 * is made of exactly these pieces.
 */
module DirectiveSyntax {
  import opened Text
  import opened Types
  import opened Colorize
  import SubgraphSyntax

  /**
   * The pieces of a line `/^\s*style\s+([^\s]+)\s+(.+)\s*$/i` accepts: `k` is
   * the keyword as written, and the blanks `w3` after the attributes start
   * with a line terminator, since `.+` takes every other blank.
   */
  predicate DirectiveParts(kw: Keyword, w0: string, k: string, w1: string, name: string,
                           w2: string, attrs: string, w3: string)
  {
    AllWs(w0) && Lower(k) == kw.Folded() && w1 != [] && AllWs(w1) && IsName(name)
    && w2 != [] && AllWs(w2) && attrs != [] && NoTerminators(attrs)
    && AllWs(w3) && (w3 == [] || IsTerminator(w3[0]))
  }

  /** The line the pieces make, in order. */
  function DirectiveLine(w0: string, k: string, w1: string, name: string,
                         w2: string, attrs: string, w3: string): (line: string)
    ensures |line| == |w0| + |k| + |w1| + |name| + |w2| + |attrs| + |w3|
  {
    w0 + k + w1 + name + w2 + attrs + w3
  }

  /** Blanks, then attributes that start with a non-blank, then terminator-led blanks: the group is the attributes. */
  lemma AttrsOfParts(w2: string, attrs: string, w3: string)
    requires w2 != [] && AllWs(w2) && attrs != [] && !IsWs(attrs[0]) && NoTerminators(attrs)
    requires AllWs(w3) && (w3 == [] || IsTerminator(w3[0]))
    ensures AttrsGroup(w2 + attrs + w3) == Some(attrs)
  {
    var r3 := w2 + attrs + w3;
    var tail := attrs + w3;
    assert r3 == w2 + tail;
    TrimStartUnique(w2, tail);
    assert r3[|w2|..] == tail;
    SubgraphSyntax.SpanAll(attrs, NotTerminator);
    assert Span(w3, NotTerminator) == 0;
    SpanConcat(attrs, w3, NotTerminator);
    assert tail[..|attrs|] == attrs && tail[|attrs|..] == w3;
  }

  /** A name, then blanks and attributes as above: the name and the attributes are the two groups. */
  lemma NameOfParts(name: string, w2: string, attrs: string, w3: string)
    requires IsName(name)
    requires w2 != [] && AllWs(w2) && attrs != [] && !IsWs(attrs[0]) && NoTerminators(attrs)
    requires AllWs(w3) && (w3 == [] || IsTerminator(w3[0]))
    ensures NameAndAttrs(name + w2 + attrs + w3) == Some(Directive(name, attrs))
  {
    var r3 := w2 + attrs + w3;
    var v := name + r3;
    assert name + w2 + attrs + w3 == v;
    assert IsWs(r3[0]);
    SpanOfName(name, r3);
    assert v[..|name|] == name && v[|name|..] == r3;
    AttrsOfParts(w2, attrs, w3);
  }

  /** A line of the accepted shape is matched, with its name and its attributes as the groups. */
  lemma DirectiveOfParts(kw: Keyword, w0: string, k: string, w1: string, name: string,
                         w2: string, attrs: string, w3: string)
    requires DirectiveParts(kw, w0, k, w1, name, w2, attrs, w3) && !IsWs(attrs[0])
    ensures MatchDirective(DirectiveLine(w0, k, w1, name, w2, attrs, w3), kw) == Some(Directive(name, attrs))
  {
    var line := DirectiveLine(w0, k, w1, name, w2, attrs, w3);
    var v := name + w2 + attrs + w3;
    var u := w1 + v;
    assert line == w0 + (k + u);
    KeywordStartsNonBlank(kw, k);
    TrimStartUnique(w0, k + u);
    assert v[0] == name[0];
    TrimStartUnique(w1, v);
    MatchAfterKeyword(line, kw, k, u);
    NameOfParts(name, w2, attrs, w3);
  }

  /**
   * What the colorizer makes of a user's directive line: the attributes
   * split on `,` and filtered, then the canonical line, or nothing when no
   * attribute survives.
   */
  lemma StripFillOfParts(kw: Keyword, w0: string, k: string, w1: string, name: string,
                         w2: string, attrs: string, w3: string)
    requires DirectiveParts(kw, w0, k, w1, name, w2, attrs, w3) && !IsWs(attrs[0])
    ensures var kept := KeepAttrs(Split(attrs, ','));
      StripFill(DirectiveLine(w0, k, w1, name, w2, attrs, w3), kw)
        == if kept == [] then None else Some(Rebuilt(kw, name, kept))
  {
    DirectiveOfParts(kw, w0, k, w1, name, w2, attrs, w3);
  }

  /** Once trimmed to the keyword and a blank-led rest, the groups are read from the rest. */
  lemma MatchAfterKeyword(line: string, kw: Keyword, k: string, u: string)
    requires TrimStart(line) == k + u && Lower(k) == kw.Folded()
    requires u != [] && IsWs(u[0])
    ensures MatchDirective(line, kw) == NameAndAttrs(TrimStart(u))
  {
    var t := TrimStart(line);
    assert t[..|k|] == k;
    assert t[|kw.Folded()|..] == u;
  }

  /** The keyword as written folds to `style` or `classdef`, so it starts with a non-blank. */
  lemma KeywordStartsNonBlank(kw: Keyword, k: string)
    requires Lower(k) == kw.Folded()
    ensures k != [] && !IsWs(k[0])
  {
    assert LowerChar(k[0]) == kw.Folded()[0];
    if IsWs(k[0]) {
      LowerWs(k[0]);
    }
  }

  /** The groups of a matched attribute text and the blanks around them. */
  lemma AttrsShape(r3: string, g: string) returns (w2: string, w3: string)
    requires AttrsGroup(r3) == Some(g)
    ensures r3 == w2 + g + w3
    ensures w2 != [] && AllWs(w2) && g != [] && NoTerminators(g)
    ensures AllWs(w3) && (w3 == [] || IsTerminator(w3[0]))
  {
    var w := |r3| - |TrimStart(r3)|;
    var tail := r3[w..];
    w2 := r3[..w];
    assert r3 == w2 + tail;
    if tail != [] {
      w3 := SolidAttrsShape(w2, tail, g);
    } else {
      var k := LastNonTerminator(r3, 1).value;
      assert g == [r3[k]];
      assert r3 == r3[..w];
      w2, w3 := BlankAttrsShape(r3, k);
    }
  }

  /** Attributes after blanks: the group is the terminator-free run, and only blanks follow it. */
  lemma SolidAttrsShape(w2: string, tail: string, g: string) returns (w3: string)
    requires tail != [] && !IsWs(tail[0])
    requires g == tail[..Span(tail, NotTerminator)] && AllWs(tail[Span(tail, NotTerminator)..])
    ensures tail == g + w3 && g != [] && NoTerminators(g)
    ensures AllWs(w3) && (w3 == [] || IsTerminator(w3[0]))
  {
    var b := Span(tail, NotTerminator);
    w3 := tail[b..];
    assert tail == g + w3;
  }

  /** Nothing but blanks after the name: the group is the last blank `.` can match, with at least one blank before it. */
  lemma BlankAttrsShape(r3: string, k: nat) returns (w2: string, w3: string)
    requires AllWs(r3) && 1 <= k < |r3| && !IsTerminator(r3[k])
    requires forall j :: k < j < |r3| ==> IsTerminator(r3[j])
    ensures r3 == w2 + [r3[k]] + w3 && w2 != [] && AllWs(w2)
    ensures AllWs(w3) && (w3 == [] || IsTerminator(w3[0]))
  {
    w2 := r3[..k];
    w3 := r3[k + 1..];
    assert r3 == w2 + [r3[k]] + w3;
    assert forall j :: 0 <= j < |w3| ==> w3[j] == r3[k + 1 + j];
  }

  /** The pieces of a matched line after its name. */
  lemma NameShape(v: string, d: Directive) returns (w2: string, w3: string)
    requires NameAndAttrs(v) == Some(d)
    ensures v == d.name + w2 + d.attrs + w3
    ensures IsName(d.name) && w2 != [] && AllWs(w2) && d.attrs != [] && NoTerminators(d.attrs)
    ensures AllWs(w3) && (w3 == [] || IsTerminator(w3[0]))
  {
    var n := Span(v, NotWs);
    var r3 := v[n..];
    assert n > 0 && AttrsGroup(r3) == Some(d.attrs) && d.name == v[..n];
    w2, w3 := AttrsShape(r3, d.attrs);
    ReassembleAttrs(v, n, d.name, w2, d.attrs, w3);
  }

  /** A text cut at `n`, whose second part is itself made of three parts, is the four parts in order. */
  lemma ReassembleAttrs(v: string, n: nat, x: string, w2: string, g: string, w3: string)
    requires n <= |v| && x == v[..n] && v[n..] == w2 + g + w3
    ensures v == x + w2 + g + w3
  {
    assert v == v[..n] + v[n..];
  }

  /** Every line the pattern accepts is made of the pieces of `DirectiveParts`, with the groups in place. */
  lemma DirectiveShape(line: string, kw: Keyword, d: Directive)
    requires MatchDirective(line, kw) == Some(d)
    ensures exists w0, k, w1, w2, w3 ::
              DirectiveParts(kw, w0, k, w1, d.name, w2, d.attrs, w3)
              && line == DirectiveLine(w0, k, w1, d.name, w2, d.attrs, w3)
  {
    var w0, k, w1, v := KeywordShape(line, kw);
    var w2, w3 := NameShape(v, d);
    LineOfPieces(line, w0, k, w1, v, d.name, w2, d.attrs, w3);
    assert DirectiveParts(kw, w0, k, w1, d.name, w2, d.attrs, w3);
  }

  lemma LineOfPieces(line: string, w0: string, k: string, w1: string, v: string,
                     name: string, w2: string, attrs: string, w3: string)
    requires line == w0 + k + w1 + v && v == name + w2 + attrs + w3
    ensures line == DirectiveLine(w0, k, w1, name, w2, attrs, w3)
  {
  }

  /** The blanks, the keyword as written and the blanks before the name of a matched line. */
  lemma KeywordShape(line: string, kw: Keyword) returns (w0: string, k: string, w1: string, v: string)
    requires MatchDirective(line, kw).Some?
    ensures line == w0 + k + w1 + v && NameAndAttrs(v) == MatchDirective(line, kw)
    ensures AllWs(w0) && Lower(k) == kw.Folded() && w1 != [] && AllWs(w1)
  {
    MatchDirectiveSteps(line, kw);
    var t := TrimStart(line);
    var f := |kw.Folded()|;
    k, w0, w1, v := KeywordSplit(line, t, f);
    assert StartsWithCI(t, kw.Folded());
  }

  /** A trimmed line cut after its keyword, with blanks opening what follows. */
  lemma KeywordSplit(line: string, t: string, f: nat) returns (k: string, w0: string, w1: string, v: string)
    requires t == TrimStart(line) && f < |t| && IsWs(t[f])
    ensures k == t[..f] && v == TrimStart(t[f..])
    ensures line == w0 + k + w1 + v && AllWs(w0) && w1 != [] && AllWs(w1)
  {
    k := t[..f];
    var u := t[f..];
    assert t == k + u;
    w0, w1, v := BlankSplit(line, t, k, u);
  }

  /** The blanks before a trimmed text, and the blanks that open the part after its keyword. */
  lemma BlankSplit(line: string, t: string, k: string, u: string) returns (w0: string, w1: string, v: string)
    requires t == TrimStart(line) && t == k + u && u != [] && IsWs(u[0])
    ensures line == w0 + k + w1 + v && v == TrimStart(u)
    ensures AllWs(w0) && w1 != [] && AllWs(w1)
  {
    w0 := SubgraphSyntax.StartSplit(line);
    w1 := SubgraphSyntax.StartSplit(u);
    v := TrimStart(u);
    assert w1 != [];
    assert u == w1 + v;
    assert line == w0 + t;
    ConcatNested(line, w0, t, k, u, w1, v);
  }

  lemma ConcatNested(line: string, w0: string, t: string, k: string, u: string, w1: string, v: string)
    requires line == w0 + t && t == k + u && u == w1 + v
    ensures line == w0 + k + w1 + v
  {
  }
}
