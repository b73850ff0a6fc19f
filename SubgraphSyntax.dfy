/**
 * Which lines `extractSubgraphIds` recognises (src/agent/mermaidColorize.ts),
 * in both directions: a line made of blanks, the keyword `subgraph` in any
 * case, at least one blank, an id, blanks, an optional `[label]` or
 * `["label"]` and blanks yields that id, and every line the pattern accepts
 * is made of exactly these pieces.
 */
module SubgraphSyntax {
  import opened Text
  import opened Types
  import opened Colorize

  /** The pieces of a line the subgraph pattern accepts; `tag` is the label, empty when there is none. */
  predicate SubgraphParts(w0: string, kw: string, w1: string, id: string, w2: string, tag: string, w3: string) {
    AllWs(w0) && |kw| == 8 && Lower(kw) == "subgraph" && w1 != [] && AllWs(w1) && IsRawId(id)
    && AllWs(w2) && (tag == [] || IsLabel(tag) || IsQuotedLabel(tag)) && AllWs(w3)
  }

  /** The line the pieces make, in order. */
  function SubgraphLine(w0: string, kw: string, w1: string, id: string, w2: string, tag: string, w3: string): (line: string)
    ensures |line| == |w0| + |kw| + |w1| + |id| + |w2| + |tag| + |w3|
  {
    w0 + kw + w1 + id + w2 + tag + w3
  }

  /** A line of the accepted shape declares its id. */
  lemma SubgraphRawIdOfParts(w0: string, kw: string, w1: string, id: string, w2: string, tag: string, w3: string)
    requires SubgraphParts(w0, kw, w1, id, w2, tag, w3)
    ensures SubgraphRawId(SubgraphLine(w0, kw, w1, id, w2, tag, w3)) == Some(id)
  {
    var line := SubgraphLine(w0, kw, w1, id, w2, tag, w3);
    var core := if tag == [] then id else id + w2 + tag;
    var y := w1 + core;
    TrimOfParts(w0, kw, w1, id, w2, tag, w3, core);
    assert y[0] == w1[0];
    assert core[0] == id[0];
    TrimStartUnique(w1, core);
    IdAndLabelOfCore(id, w2, tag, core);
    RawIdAfterKeyword(line, kw, y);
  }

  /** Trimming the line leaves the keyword, the blanks after it, the id and the label. */
  lemma TrimOfParts(w0: string, kw: string, w1: string, id: string, w2: string, tag: string, w3: string, core: string)
    requires SubgraphParts(w0, kw, w1, id, w2, tag, w3)
    requires core == if tag == [] then id else id + w2 + tag
    ensures Trim(SubgraphLine(w0, kw, w1, id, w2, tag, w3)) == kw + (w1 + core)
  {
    var tailWs := if tag == [] then w2 + w3 else w3;
    if tag == [] {
      AllWsConcat(w2, w3);
    }
    var x := kw + (w1 + core);
    assert SubgraphLine(w0, kw, w1, id, w2, tag, w3) == w0 + (x + tailWs);
    KeywordStartsNonBlank(kw);
    assert x[0] == kw[0];
    assert !IsWs(x[|x| - 1]) by {
      if tag == [] {
        assert x[|x| - 1] == id[|id| - 1];
      } else {
        assert x[|x| - 1] == tag[|tag| - 1];
      }
    }
    TrimStartUnique(w0, x + tailWs);
    TrimEndUnique(x, tailWs);
  }

  /** Once trimmed to the keyword and a blank-led rest, the capture is read from the rest. */
  lemma RawIdAfterKeyword(line: string, kw: string, y: string)
    requires Trim(line) == kw + y && |kw| == 8 && Lower(kw) == "subgraph"
    requires y != [] && IsWs(y[0])
    ensures SubgraphRawId(line) == IdAndLabel(TrimStart(y))
  {
    var t := Trim(line);
    assert t[..8] == kw;
    assert t[8..] == y;
  }

  /** The keyword's first letter folds to `s`, so it is not blank. */
  lemma KeywordStartsNonBlank(kw: string)
    requires |kw| == 8 && Lower(kw) == "subgraph"
    ensures !IsWs(kw[0])
  {
    assert LowerChar(kw[0]) == 's';
    if IsWs(kw[0]) {
      LowerWs(kw[0]);
    }
  }

  /** The id is the whole run of id characters; what follows trims to the label. */
  lemma IdAndLabelOfCore(id: string, w2: string, tag: string, core: string)
    requires IsRawId(id) && AllWs(w2) && (tag == [] || IsLabel(tag) || IsQuotedLabel(tag))
    requires core == if tag == [] then id else id + w2 + tag
    ensures IdAndLabel(core) == Some(id)
  {
    var rest := core[|id|..];
    assert core == id + rest;
    SpanAll(id, SubgraphIdChar);
    assert Span(rest, SubgraphIdChar) == 0 by {
      if rest != [] {
        assert rest == w2 + tag;
        if w2 != [] {
          assert rest[0] == w2[0];
        } else {
          assert rest[0] == tag[0];
        }
      }
    }
    SpanConcat(id, rest, SubgraphIdChar);
    assert core[..|id|] == id;
    if tag != [] {
      assert tag[0] == '[';
      TrimStartUnique(w2, tag);
    }
  }

  /** A text whose characters all pass `p` is spanned whole. */
  lemma {:induction false} SpanAll(s: string, p: char -> bool)
    requires forall k :: 0 <= k < |s| ==> p(s[k])
    ensures Span(s, p) == |s|
  {
    if s != [] {
      assert forall k :: 0 <= k < |s[1..]| ==> s[1..][k] == s[k + 1];
      SpanAll(s[1..], p);
    }
  }

  /** Every line the pattern accepts is made of the accepted pieces, with the captured id in the middle. */
  lemma SubgraphRawIdShape(line: string)
    requires SubgraphRawId(line).Some?
    ensures exists w0, kw, w1, w2, tag, w3 ::
      SubgraphParts(w0, kw, w1, SubgraphRawId(line).value, w2, tag, w3)
      && line == SubgraphLine(w0, kw, w1, SubgraphRawId(line).value, w2, tag, w3)
  {
    var id := SubgraphRawId(line).value;
    var w0, w3 := TrimSplit(line);
    var t := Trim(line);
    RawIdSteps(line);
    var kw := t[..8];
    var u := t[8..];
    assert t == kw + u;
    var w1 := StartSplit(u);
    assert w1 != [];
    var w2, tag := IdAndLabelSplit(TrimStart(u));
    Reassemble(line, w0, t, w3, kw, u, w1, TrimStart(u), id, w2, tag);
    assert SubgraphParts(w0, kw, w1, id, w2, tag, w3);
  }

  /** A text is its leading blanks, its trimmed text and its trailing blanks. */
  lemma TrimSplit(s: string) returns (w0: string, w3: string)
    ensures AllWs(w0) && AllWs(w3) && s == w0 + Trim(s) + w3
  {
    w0 := StartSplit(s);
    var a := TrimStart(s);
    w3 := EndSplit(a);
    TrimIsEndOfStart(s);
    Concat3(s, w0, a, TrimEnd(a), w3);
  }

  lemma TrimIsEndOfStart(s: string)
    ensures Trim(s) == TrimEnd(TrimStart(s))
  {
  }

  lemma Concat3(s: string, w0: string, a: string, t: string, w3: string)
    requires s == w0 + a && a == t + w3
    ensures s == w0 + t + w3
  {
  }

  /** A text is its trimmed-end text followed by its trailing blanks. */
  lemma EndSplit(s: string) returns (w: string)
    ensures AllWs(w) && s == TrimEnd(s) + w
  {
    w := s[|TrimEnd(s)|..];
  }

  /** A text is its leading blanks followed by the rest. */
  lemma StartSplit(s: string) returns (w: string)
    ensures AllWs(w) && s == w + TrimStart(s)
  {
    w := s[..|s| - |TrimStart(s)|];
  }

  /** The steps the subgraph pattern takes on a line it accepts. */
  lemma RawIdSteps(line: string)
    requires SubgraphRawId(line).Some?
    ensures var t := Trim(line);
      |t| > 8 && Lower(t[..8]) == "subgraph" && IsWs(t[8..][0])
      && IdAndLabel(TrimStart(t[8..])) == SubgraphRawId(line)
  {
  }

  /** After the id come blanks and an optional label, and nothing else. */
  lemma IdAndLabelSplit(v: string) returns (w2: string, tag: string)
    requires IdAndLabel(v).Some?
    ensures AllWs(w2) && (tag == [] || IsLabel(tag) || IsQuotedLabel(tag))
    ensures v == IdAndLabel(v).value + w2 + tag
  {
    var n := Span(v, SubgraphIdChar);
    assert IdAndLabel(v).value == v[..n];
    var rest := v[n..];
    w2 := StartSplit(rest);
    tag := TrimStart(rest);
    assert v == v[..n] + rest;
  }

  /** The pieces found by the steps put back together give the line. */
  lemma Reassemble(line: string, w0: string, t: string, w3: string, kw: string, u: string,
                   w1: string, v: string, id: string, w2: string, tag: string)
    requires line == w0 + t + w3 && t == kw + u && u == w1 + v && v == id + w2 + tag
    ensures line == SubgraphLine(w0, kw, w1, id, w2, tag, w3)
  {
  }

  /** A raw id needs no trimming, so the recorded id is the capture with its quotes removed. */
  lemma CleanIdOfRaw(raw: string)
    requires IsRawId(raw)
    ensures CleanId(raw) == StripQuotes(raw) && StripQuotes(raw) != []
  {
    TrimOfTrimmed(raw);
    var q := StripQuotes(raw);
    assert forall k :: 0 <= k < |q| ==> !IsWs(q[k]);
    assert q != [];
    TrimOfTrimmed(q);
  }

  /** A line of the accepted shape declares the id with its surrounding double quotes removed. */
  lemma SubgraphIdOfParts(w0: string, kw: string, w1: string, id: string, w2: string, tag: string, w3: string)
    requires SubgraphParts(w0, kw, w1, id, w2, tag, w3)
    ensures SubgraphId(SubgraphLine(w0, kw, w1, id, w2, tag, w3)) == Some(StripQuotes(id))
  {
    SubgraphRawIdOfParts(w0, kw, w1, id, w2, tag, w3);
    CleanIdOfRaw(id);
  }

  /** A declared id is the pattern's capture with its surrounding double quotes removed. */
  lemma SubgraphIdIsUnquotedCapture(line: string)
    requires SubgraphId(line).Some?
    ensures SubgraphRawId(line).Some? && SubgraphId(line) == Some(StripQuotes(SubgraphRawId(line).value))
  {
    CleanIdOfRaw(SubgraphRawId(line).value);
  }

  /** Every id a line declares comes from a line of the accepted shape, unquoted. */
  lemma SubgraphIdShape(line: string)
    requires SubgraphId(line).Some?
    ensures exists w0, kw, w1, id, w2, tag, w3 ::
      SubgraphParts(w0, kw, w1, id, w2, tag, w3)
      && line == SubgraphLine(w0, kw, w1, id, w2, tag, w3)
      && SubgraphId(line) == Some(StripQuotes(id))
  {
    SubgraphIdIsUnquotedCapture(line);
    var raw := SubgraphRawId(line).value;
    SubgraphRawIdShape(line);
    var w0, kw, w1, w2, tag, w3 :| SubgraphParts(w0, kw, w1, raw, w2, tag, w3)
      && line == SubgraphLine(w0, kw, w1, raw, w2, tag, w3);
    assert SubgraphParts(w0, kw, w1, raw, w2, tag, w3)
      && line == SubgraphLine(w0, kw, w1, raw, w2, tag, w3)
      && SubgraphId(line) == Some(StripQuotes(raw));
  }
}
