/**
 * ASCII models of the JavaScript string primitives the extension relies on:
 * `\s` / `String.prototype.trim` whitespace, `toLowerCase`, `split` on one
 * character, `join`, `includes`, `slice(0, n)` previews and decimal rendering.
 */
module Text {

  /** JavaScript whitespace (`\s`, `trim`), restricted to ASCII. */
  predicate IsWs(c: char) {
    c == ' ' || c == '\t' || c == '\n' || c == '\r' || c == '\U{000B}' || c == '\U{000C}'
  }

  predicate NotWs(c: char) { !IsWs(c) }

  /** The characters a regular-expression `.` does not match (ASCII part). */
  predicate IsTerminator(c: char) { c == '\n' || c == '\r' }

  predicate NotTerminator(c: char) { !IsTerminator(c) }

  predicate AllWs(s: string) {
    forall i :: 0 <= i < |s| ==> IsWs(s[i])
  }

  predicate NoTerminators(s: string) {
    forall i :: 0 <= i < |s| ==> !IsTerminator(s[i])
  }

  /** Length of the longest prefix of `s` whose characters all satisfy `p`. */
  function Span(s: string, p: char -> bool): (n: nat)
    ensures n <= |s|
    ensures forall i :: 0 <= i < n ==> p(s[i])
    ensures n == |s| || !p(s[n])
  {
    if |s| > 0 && p(s[0]) then 1 + Span(s[1..], p) else 0
  }

  lemma {:induction false} SpanConcat(a: string, b: string, p: char -> bool)
    ensures Span(a + b, p) == if Span(a, p) < |a| then Span(a, p) else |a| + Span(b, p)
  {
    if |a| > 0 && p(a[0]) {
      assert (a + b)[1..] == a[1..] + b;
      SpanConcat(a[1..], b, p);
    } else if |a| == 0 {
      assert a + b == b;
    }
  }

  /** `trimStart`: drops the leading whitespace. */
  function TrimStart(s: string): (r: string)
    ensures |r| <= |s| && r == s[|s| - |r|..]
    ensures AllWs(s[..|s| - |r|])
    ensures r == [] || !IsWs(r[0])
  {
    if |s| > 0 && IsWs(s[0]) then
      var r := TrimStart(s[1..]);
      assert s[..|s| - |r|] == [s[0]] + s[1..][..|s| - 1 - |r|];
      r
    else s
  }

  /** `trimEnd`: drops the trailing whitespace. */
  function TrimEnd(s: string): (r: string)
    ensures |r| <= |s| && r == s[..|r|]
    ensures AllWs(s[|r|..])
    ensures r == [] || !IsWs(r[|r| - 1])
  {
    if |s| > 0 && IsWs(s[|s| - 1]) then
      var r := TrimEnd(s[..|s| - 1]);
      assert s[|r|..] == s[..|s| - 1][|r|..] + [s[|s| - 1]];
      r
    else s
  }

  /** `trim`: the text without leading and trailing whitespace; empty iff `s` is blank. */
  function Trim(s: string): (r: string)
    ensures r == [] <==> AllWs(s)
    ensures r == [] || (!IsWs(r[0]) && !IsWs(r[|r| - 1]))
  {
    var t := TrimStart(s);
    assert AllWs(t) ==> AllWs(s) by {
      if AllWs(t) {
        assert s == s[..|s| - |t|] + t;
      }
    }
    TrimEnd(t)
  }

  /** The trimmed text is a prefix of the text with its leading whitespace removed. */
  lemma TrimPrefixOfTrimStart(s: string)
    ensures |Trim(s)| <= |TrimStart(s)| && Trim(s) == TrimStart(s)[..|Trim(s)|]
  {
  }

  /** A case-insensitive prefix fixes the folded letter at each of its positions. */
  lemma StartsWithCIAt(s: string, kw: string, i: nat)
    requires StartsWithCI(s, kw) && i < |kw|
    ensures LowerChar(s[i]) == kw[i]
  {
    assert Lower(s[..|kw|])[i] == LowerChar(s[i]);
  }

  /** Leading whitespace is determined by the first non-blank character. */
  lemma {:induction false} TrimStartUnique(w: string, r: string)
    requires AllWs(w)
    requires r == [] || !IsWs(r[0])
    ensures TrimStart(w + r) == r
  {
    if |w| > 0 {
      assert (w + r)[1..] == w[1..] + r;
      TrimStartUnique(w[1..], r);
    } else {
      assert w + r == r;
    }
  }

  lemma {:induction false} TrimEndUnique(r: string, w: string)
    requires AllWs(w)
    requires r == [] || !IsWs(r[|r| - 1])
    ensures TrimEnd(r + w) == r
  {
    if |w| > 0 {
      assert (r + w)[..|r + w| - 1] == r + w[..|w| - 1];
      TrimEndUnique(r, w[..|w| - 1]);
    } else {
      assert r + w == r;
    }
  }

  lemma {:induction false} AllWsConcat(x: string, y: string)
    requires AllWs(x) && AllWs(y)
    ensures AllWs(x + y)
  {
    forall i | 0 <= i < |x + y| ensures IsWs((x + y)[i]) {
      if i < |x| { assert (x + y)[i] == x[i]; } else { assert (x + y)[i] == y[i - |x|]; }
    }
  }

  lemma {:induction false} TrimStartConcat(a: string, b: string)
    ensures TrimStart(a + b) == if AllWs(a) then TrimStart(b) else TrimStart(a) + b
  {
    if AllWs(a) {
      TrimStartConcatBlank(a, b);
    } else {
      TrimStartConcatNonBlank(a, b);
    }
  }

  lemma {:induction false} TrimStartConcatBlank(a: string, b: string)
    requires AllWs(a)
    ensures TrimStart(a + b) == TrimStart(b)
  {
    if a == [] {
      assert a + b == b;
    } else {
      assert (a + b)[0] == a[0];
      assert (a + b)[1..] == a[1..] + b;
      TrimStartConcatBlank(a[1..], b);
    }
  }

  lemma {:induction false} TrimStartConcatNonBlank(a: string, b: string)
    requires !AllWs(a)
    ensures TrimStart(a + b) == TrimStart(a) + b
  {
    assert (a + b)[0] == a[0];
    if IsWs(a[0]) {
      assert (a + b)[1..] == a[1..] + b;
      TrimStartConcatNonBlank(a[1..], b);
    }
  }

  lemma {:induction false} TrimEndConcat(a: string, b: string)
    ensures TrimEnd(a + b) == if AllWs(b) then TrimEnd(a) else a + TrimEnd(b)
  {
    if AllWs(b) {
      TrimEndConcatBlank(a, b);
    } else {
      TrimEndConcatNonBlank(a, b);
    }
  }

  lemma {:induction false} TrimEndConcatBlank(a: string, b: string)
    requires AllWs(b)
    ensures TrimEnd(a + b) == TrimEnd(a)
  {
    var ta := TrimEnd(a);
    var w := a[|ta|..];
    assert a == ta + w;
    AllWsConcat(w, b);
    assert a + b == ta + (w + b);
    TrimEndUnique(ta, w + b);
  }

  lemma {:induction false} TrimEndConcatNonBlank(a: string, b: string)
    requires !AllWs(b)
    ensures TrimEnd(a + b) == a + TrimEnd(b)
  {
    var tb := TrimEnd(b);
    var w := b[|tb|..];
    assert b == tb + w;
    assert tb != [];
    assert a + b == (a + tb) + w;
    TrimEndUnique(a + tb, w);
  }

  lemma {:induction false} TrimStartIdem(s: string)
    ensures TrimStart(TrimStart(s)) == TrimStart(s)
  {
    var t := TrimStart(s);
    assert t == [] + t;
    TrimStartUnique([], t);
  }

  lemma {:induction false} TrimEndIdem(s: string)
    ensures TrimEnd(TrimEnd(s)) == TrimEnd(s)
  {
    var t := TrimEnd(s);
    assert t == t + [];
    TrimEndUnique(t, []);
  }

  lemma {:induction false} TrimOfTrimmed(s: string)
    requires s == [] || (!IsWs(s[0]) && !IsWs(s[|s| - 1]))
    ensures Trim(s) == s
  {
    assert TrimStart(s) == s;
    assert TrimEnd(s) == s;
  }

  lemma {:induction false} TrimIdem(s: string)
    ensures Trim(Trim(s)) == Trim(s)
  {
    TrimOfTrimmed(Trim(s));
  }

  /** Trailing whitespace does not change the trimmed text. */
  lemma {:induction false} TrimAppendWs(s: string, w: string)
    requires AllWs(w)
    ensures Trim(s + w) == Trim(s)
  {
    TrimStartConcat(s, w);
    if AllWs(s) {
      assert AllWs(s + w);
    } else {
      TrimEndConcat(TrimStart(s), w);
    }
  }

  lemma {:induction false} TrimOfTrimStart(s: string)
    ensures Trim(TrimStart(s)) == Trim(s)
  {
    TrimStartIdem(s);
  }

  lemma {:induction false} TrimOfTrimEnd(s: string)
    ensures Trim(TrimEnd(s)) == Trim(s)
  {
    var e := TrimEnd(s);
    assert s == e + s[|e|..];
    TrimAppendWs(e, s[|e|..]);
  }

  /** A property every character of `s` has is kept by trimming. */
  lemma {:induction false} TrimStartKeeps(s: string, p: char -> bool)
    requires forall k :: 0 <= k < |s| ==> p(s[k])
    ensures forall k :: 0 <= k < |TrimStart(s)| ==> p(TrimStart(s)[k])
  {
    var t := TrimStart(s);
    forall k | 0 <= k < |t| ensures p(t[k]) {
      assert t[k] == s[|s| - |t| + k];
    }
  }

  lemma {:induction false} TrimEndKeeps(s: string, p: char -> bool)
    requires forall k :: 0 <= k < |s| ==> p(s[k])
    ensures forall k :: 0 <= k < |TrimEnd(s)| ==> p(TrimEnd(s)[k])
  {
    var t := TrimEnd(s);
    forall k | 0 <= k < |t| ensures p(t[k]) {
      assert t[k] == s[k];
    }
  }

  lemma {:induction false} TrimKeeps(s: string, p: char -> bool)
    requires forall k :: 0 <= k < |s| ==> p(s[k])
    ensures forall k :: 0 <= k < |Trim(s)| ==> p(Trim(s)[k])
  {
    TrimStartKeeps(s, p);
    TrimEndKeeps(TrimStart(s), p);
  }

  /** `toLowerCase` on one ASCII character. */
  function LowerChar(c: char): char {
    if 'A' <= c <= 'Z' then (c as int + 32) as char else c
  }

  function Lower(s: string): (r: string)
    ensures |r| == |s|
    ensures forall i :: 0 <= i < |s| ==> r[i] == LowerChar(s[i])
  {
    seq(|s|, i requires 0 <= i < |s| => LowerChar(s[i]))
  }

  lemma {:induction false} LowerWs(c: char)
    requires IsWs(c)
    ensures LowerChar(c) == c
  {
  }

  /** Case-insensitive test that `s` starts with the lower-case keyword `kw`. */
  predicate StartsWithCI(s: string, kw: string) {
    |s| >= |kw| && Lower(s[..|kw|]) == kw
  }

  /**
   * `s.split(c)`: the pieces between the separators, left to right; always at
   * least one piece, and joining them back with `c` gives `s`.
   */
  function Split(s: string, c: char): (r: seq<string>)
    ensures |r| >= 1
    ensures forall i :: 0 <= i < |r| ==> c !in r[i]
    ensures Join(r, c) == s
  {
    if s == [] then [[]]
    else
      var rest := Split(s[1..], c);
      if s[0] == c then
        JoinCons([], rest, c);
        [[]] + rest
      else
        JoinCons([s[0]] + rest[0], rest[1..], c);
        JoinCons(rest[0], rest[1..], c);
        assert rest == [rest[0]] + rest[1..];
        [[s[0]] + rest[0]] + rest[1..]
  }

  /** `parts.join(c)`. */
  function Join(parts: seq<string>, c: char): string {
    if |parts| == 0 then []
    else if |parts| == 1 then parts[0]
    else parts[0] + [c] + Join(parts[1..], c)
  }

  lemma {:induction false} JoinCons(x: string, rest: seq<string>, c: char)
    ensures Join([x] + rest, c) == if rest == [] then x else x + [c] + Join(rest, c)
  {
    assert ([x] + rest)[1..] == rest;
  }

  lemma {:induction false} JoinAppend(a: seq<string>, b: seq<string>, c: char)
    requires |a| >= 1 && |b| >= 1
    ensures Join(a + b, c) == Join(a, c) + [c] + Join(b, c)
  {
    if |a| == 1 {
      assert a + b == [a[0]] + b;
      JoinCons(a[0], b, c);
    } else {
      assert a + b == [a[0]] + (a[1..] + b);
      JoinCons(a[0], a[1..] + b, c);
      JoinAppend(a[1..], b, c);
      JoinCons(a[0], a[1..], c);
      assert a == [a[0]] + a[1..];
    }
  }

  /** Every piece holds only characters that satisfy `p`, when all of `s` does. */
  lemma {:induction false} SplitKeeps(s: string, c: char, p: char -> bool)
    requires forall k :: 0 <= k < |s| ==> p(s[k])
    ensures forall i, k :: 0 <= i < |Split(s, c)| && 0 <= k < |Split(s, c)[i]| ==> p(Split(s, c)[i][k])
  {
    if s != [] {
      SplitKeeps(s[1..], c, p);
      var rest := Split(s[1..], c);
      if s[0] != c {
        var first := [s[0]] + rest[0];
        assert forall k :: 0 <= k < |first| ==> p(first[k]) by {
          forall k | 0 <= k < |first| ensures p(first[k]) {
            if k > 0 {
              assert first[k] == rest[0][k - 1];
            }
          }
        }
      }
    }
  }

  /** Joining pieces without line terminators on a separator that is not one gives none. */
  lemma {:induction false} JoinNoTerminators(parts: seq<string>, c: char)
    requires !IsTerminator(c)
    requires forall i :: 0 <= i < |parts| ==> NoTerminators(parts[i])
    ensures NoTerminators(Join(parts, c))
  {
    if |parts| > 1 {
      JoinNoTerminators(parts[1..], c);
      var rest := Join(parts[1..], c);
      var j := parts[0] + [c] + rest;
      forall i | 0 <= i < |j| ensures !IsTerminator(j[i]) {
        if i > |parts[0]| {
          assert j[i] == rest[i - |parts[0]| - 1];
        }
      }
    }
  }

  /** A character property that holds of the pieces and of the separator holds of the join. */
  lemma {:induction false} JoinKeeps(parts: seq<string>, c: char, p: char -> bool)
    requires p(c)
    requires forall i, k :: 0 <= i < |parts| && 0 <= k < |parts[i]| ==> p(parts[i][k])
    ensures forall k :: 0 <= k < |Join(parts, c)| ==> p(Join(parts, c)[k])
  {
    if |parts| > 1 {
      JoinKeeps(parts[1..], c, p);
      var rest := Join(parts[1..], c);
      var j := parts[0] + [c] + rest;
      forall k | 0 <= k < |j| ensures p(j[k]) {
        if k < |parts[0]| {
          assert j[k] == parts[0][k];
        } else if k > |parts[0]| {
          assert j[k] == rest[k - |parts[0]| - 1];
        }
      }
    } else if |parts| == 1 {
      assert forall k :: 0 <= k < |parts[0]| ==> p(parts[0][k]);
    }
  }

  /** The join ends with the last character of a non-empty last piece. */
  lemma {:induction false} JoinLast(parts: seq<string>, c: char)
    requires |parts| >= 1 && parts[|parts| - 1] != []
    ensures var j := Join(parts, c); j != [] && j[|j| - 1] == parts[|parts| - 1][|parts[|parts| - 1]| - 1]
  {
    if |parts| > 1 {
      var init := parts[..|parts| - 1];
      assert parts == init + [parts[|parts| - 1]];
      JoinAppend(init, [parts[|parts| - 1]], c);
    }
  }

  /** Splitting undoes joining when no piece contains the separator. */
  lemma {:induction false} SplitJoin(parts: seq<string>, c: char)
    requires |parts| >= 1
    requires forall i :: 0 <= i < |parts| ==> c !in parts[i]
    ensures Split(Join(parts, c), c) == parts
  {
    if |parts| == 1 {
      SplitNoSep(parts[0], c);
    } else {
      JoinCons(parts[0], parts[1..], c);
      SplitJoin(parts[1..], c);
      SplitSepConcat(parts[0], Join(parts[1..], c), c);
      assert parts == [parts[0]] + parts[1..];
    }
  }

  lemma {:induction false} SplitNoSep(s: string, c: char)
    requires c !in s
    ensures Split(s, c) == [s]
  {
    if s != [] {
      SplitNoSep(s[1..], c);
    }
  }

  /** Splitting `x + c + y` where `x` has no separator. */
  lemma {:induction false} SplitSepConcat(x: string, y: string, c: char)
    requires c !in x
    ensures Split(x + [c] + y, c) == [x] + Split(y, c)
  {
    if x == [] {
      assert x + [c] + y == [c] + y;
      assert ([c] + y)[1..] == y;
    } else {
      assert (x + [c] + y)[1..] == x[1..] + [c] + y;
      SplitSepConcat(x[1..], y, c);
      assert x == [x[0]] + x[1..];
    }
  }

  /** The concatenation of what `f` gives for each element, in order. */
  function FlatMap<S, T>(xs: seq<S>, f: S -> seq<T>): seq<T> {
    if xs == [] then [] else FlatMap(xs[..|xs| - 1], f) + f(xs[|xs| - 1])
  }

  lemma FlatMapSnoc<S, T>(xs: seq<S>, x: S, f: S -> seq<T>)
    ensures FlatMap(xs + [x], f) == FlatMap(xs, f) + f(x)
  {
    assert (xs + [x])[..|xs|] == xs;
  }

  lemma FlatMapStep<S, T>(xs: seq<S>, i: nat, f: S -> seq<T>)
    requires i < |xs|
    ensures FlatMap(xs[..i + 1], f) == FlatMap(xs[..i], f) + f(xs[i])
  {
    assert xs[..i + 1][..i] == xs[..i];
  }

  /** Flat-mapping distributes over concatenation. */
  lemma {:induction false} FlatMapAppend<S, T>(a: seq<S>, b: seq<S>, f: S -> seq<T>)
    ensures FlatMap(a + b, f) == FlatMap(a, f) + FlatMap(b, f)
  {
    if b == [] {
      assert a + b == a;
    } else {
      var init := b[..|b| - 1];
      var last := b[|b| - 1];
      assert b == init + [last];
      assert a + b == (a + init) + [last];
      FlatMapAppend(a, init, f);
      FlatMapSnoc(a + init, last, f);
      FlatMapSnoc(init, last, f);
    }
  }

  /** Flat-mapping twice is flat-mapping once with the composed step. */
  lemma {:induction false} FlatMapCompose<S, T, U>(xs: seq<S>, f: S -> seq<T>, g: T -> seq<U>, h: S -> seq<U>)
    requires forall i :: 0 <= i < |xs| ==> FlatMap(f(xs[i]), g) == h(xs[i])
    ensures FlatMap(FlatMap(xs, f), g) == FlatMap(xs, h)
  {
    if xs != [] {
      var init := xs[..|xs| - 1];
      var last := xs[|xs| - 1];
      assert forall i :: 0 <= i < |init| ==> init[i] == xs[i];
      FlatMapCompose(init, f, g, h);
      FlatMapAppend(FlatMap(init, f), f(last), g);
    }
  }

  /** Every element of `s` has `p`. */
  predicate Each<T>(s: seq<T>, p: T -> bool) {
    forall j :: 0 <= j < |s| ==> p(s[j])
  }

  lemma EachSingleton<T>(v: T, p: T -> bool)
    requires p(v)
    ensures Each([v], p)
  {
  }

  /** Every element of a flat-map has `p` when every step yields only elements with `p`. */
  lemma {:induction false} FlatMapAll<S, T>(xs: seq<S>, f: S -> seq<T>, p: T -> bool)
    requires forall i :: 0 <= i < |xs| ==> Each(f(xs[i]), p)
    ensures Each(FlatMap(xs, f), p)
  {
    if xs != [] {
      var init := xs[..|xs| - 1];
      var last := xs[|xs| - 1];
      assert forall i :: 0 <= i < |init| ==> init[i] == xs[i];
      FlatMapAll(init, f, p);
      assert Each(f(last), p);
      var r := FlatMap(xs, f);
      assert r == FlatMap(init, f) + f(last);
      forall k | 0 <= k < |r|
        ensures p(r[k])
      {
        if k >= |FlatMap(init, f)| {
          assert r[k] == f(last)[k - |FlatMap(init, f)|];
        }
      }
    }
  }

  lemma FlatMapCons<S, T>(x: S, rest: seq<S>, f: S -> seq<T>)
    ensures FlatMap([x] + rest, f) == f(x) + FlatMap(rest, f)
  {
    FlatMapAppend([x], rest, f);
    FlatMapSnoc([], x, f);
    assert [] + [x] == [x];
  }

  /** A step that gives nothing for every element gives nothing overall. */
  lemma {:induction false} FlatMapEmpty<S, T>(xs: seq<S>, f: S -> seq<T>)
    requires forall i :: 0 <= i < |xs| ==> f(xs[i]) == []
    ensures FlatMap(xs, f) == []
  {
    if xs != [] {
      var init := xs[..|xs| - 1];
      assert forall i :: 0 <= i < |init| ==> init[i] == xs[i];
      FlatMapEmpty(init, f);
    }
  }

  lemma EachTail<T>(s: seq<T>, p: T -> bool)
    requires Each(s, p) && s != []
    ensures p(s[0]) && Each(s[1..], p)
  {
    assert forall j :: 0 <= j < |s| - 1 ==> s[1..][j] == s[j + 1];
  }

  lemma EachInit<T>(s: seq<T>, p: T -> bool)
    requires Each(s, p) && s != []
    ensures p(s[|s| - 1]) && Each(s[..|s| - 1], p)
  {
  }

  lemma EachConcat<T>(a: seq<T>, b: seq<T>, p: T -> bool)
    requires Each(a, p) && Each(b, p)
    ensures Each(a + b, p)
  {
    forall j | 0 <= j < |a + b| ensures p((a + b)[j]) {
      if j >= |a| {
        assert (a + b)[j] == b[j - |a|];
      }
    }
  }

  /** A step that gives back each element alone leaves the sequence as it is. */
  lemma {:induction false} FlatMapUnit<S>(xs: seq<S>, f: S -> seq<S>)
    requires forall i :: 0 <= i < |xs| ==> f(xs[i]) == [xs[i]]
    ensures FlatMap(xs, f) == xs
  {
    if xs != [] {
      var init := xs[..|xs| - 1];
      assert forall i :: 0 <= i < |init| ==> init[i] == xs[i];
      FlatMapUnit(init, f);
      assert xs == init + [xs[|xs| - 1]];
    }
  }

  /** `sub` occurs in `s` starting at index `i`. */
  predicate OccursAt(s: string, sub: string, i: int) {
    0 <= i <= |s| - |sub| && s[i..i + |sub|] == sub
  }

  /** `s.includes(sub)`, decided left to right: true iff `sub` occurs somewhere in `s`. */
  function Includes(s: string, sub: string): (b: bool)
    ensures b <==> exists i :: OccursAt(s, sub, i)
  {
    if |sub| > |s| then false
    else if s[..|sub|] == sub then
      assert OccursAt(s, sub, 0);
      true
    else
      var b := Includes(s[1..], sub);
      assert b ==> exists i :: OccursAt(s, sub, i) by {
        if b {
          var i :| OccursAt(s[1..], sub, i);
          assert s[1..][i..i + |sub|] == s[i + 1..i + 1 + |sub|];
          assert OccursAt(s, sub, i + 1);
        }
      }
      assert (exists i :: OccursAt(s, sub, i)) ==> b by {
        if exists i :: OccursAt(s, sub, i) {
          var i :| OccursAt(s, sub, i);
          assert i != 0;
          assert s[1..][i - 1..i - 1 + |sub|] == s[i..i + |sub|];
          assert OccursAt(s[1..], sub, i - 1);
        }
      }
      b
  }

  /**
   * A preview shown in the UI: the first `n` characters followed by `...`
   * when the text is longer than `n`, the text itself otherwise.
   */
  function Preview(s: string, n: nat): (r: string)
    ensures |s| <= n ==> r == s
    ensures |s| > n ==> |r| == n + 3 && r[..n] == s[..n] && r[n..] == "..."
  {
    if |s| > n then s[..n] + "..." else s
  }

  /** Decimal rendering of a natural number, as template literals print it. */
  function NatToDecimal(n: nat): (r: string)
    ensures |r| >= 1
    ensures forall i :: 0 <= i < |r| ==> '0' <= r[i] <= '9'
    ensures |r| > 1 ==> r[0] != '0'
  {
    if n < 10 then [(48 + n) as char]
    else NatToDecimal(n / 10) + [(48 + n % 10) as char]
  }

  function IntToDecimal(n: int): (r: string)
    ensures n >= 0 ==> r == NatToDecimal(n)
    ensures n < 0 ==> r == "-" + NatToDecimal(-n)
  {
    if n >= 0 then NatToDecimal(n) else "-" + NatToDecimal(-n)
  }
}
