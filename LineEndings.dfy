/**
 * `normalizeLineEndings`, the single pass of `input.replace(/\r\n/g, '\n')`:
 * what it does to a text built from lines, and when running it again changes
 * nothing.
 */
module LineEndings {
  import opened Text
  import opened Colorize

  /**
   * Normalisation is a single pass: CR CR LF becomes CR LF, which a second
   * run turns into LF. Only a CR directly before an LF makes a second run
   * change anything (`NormalizeFixedIff`).
   */
  lemma NormalizeLineEndingsNotIdempotent()
    ensures NormalizeLineEndings("\r\r\n") == "\r\n"
    ensures NormalizeLineEndings(NormalizeLineEndings("\r\r\n")) == "\n"
  {
    var s := "\r\r\n";
    assert s[1..] == "\r\n";
    assert s[1..][2..] == [];
    assert "\r\n"[2..] == [];
  }

  /** Lines joined with CR LF, as a Windows editor saves them. */
  function CrLfJoin(lines: seq<string>): (r: string)
    ensures |lines| == 1 ==> r == lines[0]
  {
    if |lines| == 0 then []
    else if |lines| == 1 then lines[0]
    else lines[0] + "\r\n" + CrLfJoin(lines[1..])
  }

  /** A CR LF pair at the front becomes one LF. */
  lemma NormalizeCrLf(s: string)
    ensures NormalizeLineEndings("\r\n" + s) == "\n" + NormalizeLineEndings(s)
  {
    assert ("\r\n" + s)[2..] == s;
  }

  /** Any other first character is kept as it is. */
  lemma NormalizeOther(c: char, s: string)
    requires !(c == '\r' && s != [] && s[0] == '\n')
    ensures NormalizeLineEndings([c] + s) == [c] + NormalizeLineEndings(s)
  {
    assert ([c] + s)[1..] == s;
  }

  /** A CR-free prefix passes through normalisation unchanged. */
  lemma {:induction false} NormalizeCrFreePrefix(a: string, s: string)
    requires '\r' !in a
    ensures NormalizeLineEndings(a + s) == a + NormalizeLineEndings(s)
  {
    if a != [] {
      var c, b := a[0], a[1..];
      assert c != '\r' && '\r' !in b;
      NormalizeOther(c, b + s);
      NormalizeCrFreePrefix(b, s);
      Regroup(a, c, b, s);
      assert NormalizeLineEndings(a + s) == [c] + NormalizeLineEndings(b + s);
    } else {
      assert a + s == s;
    }
  }

  lemma Regroup(a: string, c: char, b: string, s: string)
    requires a == [c] + b
    ensures a + s == [c] + (b + s) && [c] + (b + NormalizeLineEndings(s)) == a + NormalizeLineEndings(s)
  {
  }

  /** CR-free lines joined with CR LF normalise to the same lines joined with LF. */
  lemma {:induction false} NormalizeCrLfJoin(lines: seq<string>)
    requires forall i :: 0 <= i < |lines| ==> '\r' !in lines[i]
    ensures NormalizeLineEndings(CrLfJoin(lines)) == Join(lines, '\n')
  {
    if |lines| > 1 {
      var rest := CrLfJoin(lines[1..]);
      NormalizeCrLfJoin(lines[1..]);
      assert lines[0] + "\r\n" + rest == lines[0] + ("\r\n" + rest);
      NormalizeCrFreePrefix(lines[0], "\r\n" + rest);
      NormalizeCrLf(rest);
    }
  }

  /** A line holds no LF. */
  predicate NoLf(s: string) {
    '\n' !in s
  }

  /** Every piece of an LF-free text is LF-free. */
  lemma NoLfSlice(x: string, i: int, j: int)
    requires NoLf(x) && 0 <= i <= j <= |x|
    ensures NoLf(x[i..j])
  {
    assert forall k :: 0 <= k < j - i ==> x[i..j][k] == x[i + k];
  }

  lemma NoTerminatorsNoLf(s: string)
    requires NoTerminators(s)
    ensures NoLf(s)
  {
    assert forall k :: 0 <= k < |s| ==> s[k] != '\n';
  }

  /** A line with a CR LF's CR at its end loses it; any other line is kept. */
  function DropCr(x: string): (r: string)
    ensures |r| <= |x| && r == x[..|r|]
  {
    if x != [] && x[|x| - 1] == '\r' then x[..|x| - 1] else x
  }

  /** Every line but the last loses a trailing CR, as joining with LF and normalising does. */
  function DropCrs(lines: seq<string>): (r: seq<string>)
    ensures |r| == |lines|
  {
    if |lines| <= 1 then lines else [DropCr(lines[0])] + DropCrs(lines[1..])
  }

  /** Text without LF has no CR LF pair, so normalisation leaves it as it is. */
  lemma {:induction false} NormalizeNoLf(x: string)
    requires NoLf(x)
    ensures NormalizeLineEndings(x) == x
  {
    if x != [] {
      assert x[1..] == [] || x[1..][0] == x[1];
      NormalizeOther(x[0], x[1..]);
      assert [x[0]] + x[1..] == x;
      NormalizeNoLf(x[1..]);
    }
  }

  /** A line followed by LF: its CR, if it ends with one, pairs with the LF; every other CR stays. */
  lemma {:induction false} NormalizeLineThenLf(x: string, rest: string)
    requires NoLf(x)
    ensures NormalizeLineEndings(x + "\n" + rest) == DropCr(x) + "\n" + NormalizeLineEndings(rest)
  {
    if x == [] {
      assert x + "\n" + rest == ['\n'] + rest;
      NormalizeOther('\n', rest);
    } else if x == "\r" {
      assert x + "\n" + rest == "\r\n" + rest;
      NormalizeCrLf(rest);
    } else {
      var c, y := x[0], x[1..];
      var s := y + "\n" + rest;
      assert x + "\n" + rest == [c] + s;
      assert y != [] ==> s[0] == x[1];
      assert y == [] ==> c != '\r';
      NormalizeOther(c, s);
      NoLfSlice(x, 1, |x|);
      NormalizeLineThenLf(y, rest);
      DropCrCons(x);
    }
  }

  lemma DropCrCons(x: string)
    requires x != [] && x != "\r"
    ensures DropCr(x) == [x[0]] + DropCr(x[1..])
  {
    if |x| == 1 {
      assert x == [x[0]];
    }
  }

  /** Normalising LF-joined lines drops the CR that ends each line but the last. */
  lemma {:induction false} NormalizeJoin(lines: seq<string>)
    requires |lines| >= 1 && Each(lines, NoLf)
    ensures NormalizeLineEndings(Join(lines, '\n')) == Join(DropCrs(lines), '\n')
  {
    EachTail(lines, NoLf);
    if |lines| == 1 {
      NormalizeNoLf(lines[0]);
    } else {
      var rest := lines[1..];
      JoinCons(lines[0], rest, '\n');
      assert [lines[0]] + rest == lines;
      NormalizeLineThenLf(lines[0], Join(rest, '\n'));
      NormalizeJoin(rest);
      JoinCons(DropCr(lines[0]), DropCrs(rest), '\n');
      assert DropCrs(lines) == [DropCr(lines[0])] + DropCrs(rest);
    }
  }

  lemma {:induction false} DropCrsNoLf(lines: seq<string>)
    requires Each(lines, NoLf)
    ensures Each(DropCrs(lines), NoLf)
  {
    if |lines| > 1 {
      EachTail(lines, NoLf);
      DropCrsNoLf(lines[1..]);
      assert NoLf(DropCr(lines[0]));
      EachSingleton(DropCr(lines[0]), NoLf);
      EachConcat([DropCr(lines[0])], DropCrs(lines[1..]), NoLf);
    }
  }

  // ---------------------------------------------------------------------
  // When normalising again changes nothing
  // ---------------------------------------------------------------------

  /** No CR stands directly before an LF: the pattern `\r\n` has nothing to match. */
  predicate NoCrLf(s: string) {
    forall i :: 0 <= i < |s| - 1 ==> !(s[i] == '\r' && s[i + 1] == '\n')
  }

  /** Normalisation leaves a text as it is exactly when the text has no CR LF pair. */
  lemma {:induction false} NormalizeFixedIff(s: string)
    ensures NormalizeLineEndings(s) == s <==> NoCrLf(s)
  {
    if NoCrLf(s) {
      NormalizeNoCrLf(s);
    } else {
      NormalizeShortens(s);
    }
  }

  lemma {:induction false} NormalizeNoCrLf(s: string)
    requires NoCrLf(s)
    ensures NormalizeLineEndings(s) == s
  {
    if s != [] {
      var c, rest := s[0], s[1..];
      assert rest != [] ==> rest[0] == s[1];
      NormalizeOther(c, rest);
      assert NoCrLf(rest) by {
        forall i | 0 <= i < |rest| - 1 ensures !(rest[i] == '\r' && rest[i + 1] == '\n') {
          assert rest[i] == s[i + 1] && rest[i + 1] == s[i + 2];
        }
      }
      NormalizeNoCrLf(rest);
      assert [c] + rest == s;
    }
  }

  /** A CR LF pair anywhere makes the normalised text shorter. */
  lemma {:induction false} NormalizeShortens(s: string)
    requires !NoCrLf(s)
    ensures |NormalizeLineEndings(s)| < |s|
  {
    var i :| 0 <= i < |s| - 1 && s[i] == '\r' && s[i + 1] == '\n';
    if s[0] == '\r' && s[1] == '\n' {
      assert s == "\r\n" + s[2..];
      NormalizeCrLf(s[2..]);
    } else {
      var c, rest := s[0], s[1..];
      assert i >= 1 && rest[i - 1] == s[i] && rest[i] == s[i + 1];
      assert !NoCrLf(rest);
      NormalizeOther(c, rest);
      NormalizeShortens(rest);
      assert [c] + rest == s;
    }
  }

  /** A line with no LF that does not end in CR: an LF after it makes no CR LF pair. */
  predicate Unbroken(s: string) {
    NoLf(s) && (s == [] || s[|s| - 1] != '\r')
  }

  lemma NoTerminatorsUnbroken(s: string)
    requires NoTerminators(s)
    ensures Unbroken(s)
  {
    NoTerminatorsNoLf(s);
    assert s != [] ==> !IsTerminator(s[|s| - 1]);
  }

  lemma UnbrokenTrimmed(x: string)
    requires Unbroken(x)
    ensures Unbroken(TrimStart(x)) && Unbroken(TrimEnd(x))
  {
    var a, b := TrimStart(x), TrimEnd(x);
    NoLfSlice(x, |x| - |a|, |x|);
    NoLfSlice(x, 0, |b|);
    assert a != [] ==> a[|a| - 1] == x[|x| - 1];
  }

  lemma EachUnbrokenNoLf(lines: seq<string>)
    requires Each(lines, Unbroken)
    ensures Each(lines, NoLf)
  {
    forall i | 0 <= i < |lines| ensures NoLf(lines[i]) {
      assert Unbroken(lines[i]);
    }
  }

  /** Lines that do not end in CR lose nothing to `DropCrs`. */
  lemma {:induction false} DropCrsUnbroken(lines: seq<string>)
    requires Each(lines, Unbroken)
    ensures DropCrs(lines) == lines
  {
    if |lines| > 1 {
      EachTail(lines, Unbroken);
      DropCrsUnbroken(lines[1..]);
      assert [lines[0]] + lines[1..] == lines;
    }
  }

  /** Lines that neither hold an LF nor end in CR, joined with LF, normalise to themselves. */
  lemma JoinUnbrokenFixed(lines: seq<string>)
    requires |lines| >= 1 && Each(lines, Unbroken)
    ensures NormalizeLineEndings(Join(lines, '\n')) == Join(lines, '\n')
  {
    EachUnbrokenNoLf(lines);
    NormalizeJoin(lines);
    DropCrsUnbroken(lines);
  }

  /** Lines that `DropCrs` keeps as they are, the last one not ending in CR, are unbroken. */
  lemma {:induction false} KeptByDropCrs(lines: seq<string>)
    requires |lines| >= 1 && Each(lines, NoLf) && DropCrs(lines) == lines
    requires Unbroken(lines[|lines| - 1])
    ensures Each(lines, Unbroken)
  {
    EachTail(lines, NoLf);
    if |lines| == 1 {
      EachSingleton(lines[0], Unbroken);
      assert [lines[0]] == lines;
    } else {
      var rest := lines[1..];
      assert DropCrs(lines) == [DropCr(lines[0])] + DropCrs(rest);
      assert DropCr(lines[0]) == lines[0] && DropCrs(rest) == rest;
      KeptByDropCrs(rest);
      EachSingleton(lines[0], Unbroken);
      EachConcat([lines[0]], rest, Unbroken);
      assert [lines[0]] + rest == lines;
    }
  }

  /**
   * The LF-separated lines of a text that normalisation leaves as it is, and
   * that does not end in CR, neither hold an LF nor end in CR.
   */
  lemma SplitFixedUnbroken(n: string)
    requires NormalizeLineEndings(n) == n && (n == [] || n[|n| - 1] != '\r')
    ensures Each(Split(n, '\n'), Unbroken)
  {
    var lines := Split(n, '\n');
    SplitFixedKept(n);
    LastLineUnbroken(n);
    KeptByDropCrs(lines);
  }

  /** The last LF-separated line of a text that does not end in CR does not end in CR either. */
  lemma LastLineUnbroken(n: string)
    requires n == [] || n[|n| - 1] != '\r'
    ensures var lines := Split(n, '\n'); Unbroken(lines[|lines| - 1])
  {
    var lines := Split(n, '\n');
    var last := lines[|lines| - 1];
    LastLineOfSplit(n);
    assert '\n' !in last;
    assert last != [] ==> last[|last| - 1] == n[|n| - 1];
  }

  /** The lines of a text that normalisation leaves as it is lose no CR to `DropCrs`. */
  lemma SplitFixedKept(n: string)
    requires NormalizeLineEndings(n) == n
    ensures Each(Split(n, '\n'), NoLf) && DropCrs(Split(n, '\n')) == Split(n, '\n')
  {
    var lines := Split(n, '\n');
    assert Each(lines, NoLf);
    NormalizeJoin(lines);
    DropCrsNoLf(lines);
    assert Join(DropCrs(lines), '\n') == n;
    SplitJoin(DropCrs(lines), '\n');
  }

  /** The last LF-separated line of a text is the end of the text. */
  lemma LastLineOfSplit(n: string)
    ensures var lines := Split(n, '\n'); var last := lines[|lines| - 1];
      |last| <= |n| && last == n[|n| - |last|..]
  {
    var lines := Split(n, '\n');
    JoinEndsWithLast(lines);
  }

  lemma {:induction false} JoinEndsWithLast(lines: seq<string>)
    requires |lines| >= 1
    ensures var j := Join(lines, '\n'); var last := lines[|lines| - 1];
      |last| <= |j| && last == j[|j| - |last|..]
  {
    if |lines| > 1 {
      var rest := lines[1..];
      JoinEndsWithLast(rest);
      JoinCons(lines[0], rest, '\n');
      assert [lines[0]] + rest == lines;
      var j, r := Join(lines, '\n'), Join(rest, '\n');
      assert j == lines[0] + ['\n'] + r;
      assert j[|j| - |r|..] == r;
    }
  }
}
