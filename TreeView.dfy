/**
 * The tree view of a codemap (`webview/components/CodemapTreeView.tsx`):
 * the index of every location by id that cross-trace references resolve
 * against, the location made up for a bare file click, and each trace's
 * header.
 */
module TreeView {
  import opened Text
  import opened Types

  function TraceLocations(t: Trace): seq<Location> {
    t.locations
  }

  /** Every location of every trace, trace by trace, each trace's in order. */
  function AllLocations(traces: seq<Trace>): seq<Location> {
    FlatMap(traces, TraceLocations)
  }

  /** The map after `map.set(loc.id, loc)` for each location in turn. */
  function IndexOf(locs: seq<Location>): map<string, Location> {
    if locs == [] then map[] else IndexOf(locs[..|locs| - 1])[locs[|locs| - 1].id := locs[|locs| - 1]]
  }

  /** The keys are exactly the ids of the locations. */
  lemma {:induction false} IndexKeys(locs: seq<Location>, id: string)
    ensures id in IndexOf(locs) <==> exists i :: 0 <= i < |locs| && locs[i].id == id
  {
    if locs != [] {
      var n := |locs| - 1;
      IndexKeys(locs[..n], id);
      assert forall i :: 0 <= i < n ==> locs[..n][i] == locs[i];
      if id in IndexOf(locs[..n]) {
        var i :| 0 <= i < n && locs[..n][i].id == id;
        assert locs[i].id == id;
      }
    }
  }

  /** When ids repeat, the entry is the last location with that id. */
  lemma {:induction false} IndexLastWins(locs: seq<Location>, i: nat)
    requires i < |locs|
    requires forall j :: i < j < |locs| ==> locs[j].id != locs[i].id
    ensures locs[i].id in IndexOf(locs) && IndexOf(locs)[locs[i].id] == locs[i]
  {
    var n := |locs| - 1;
    if i < n {
      assert forall j :: i < j < n ==> locs[..n][j] == locs[j];
      IndexLastWins(locs[..n], i);
    }
  }

  /** The trace-then-location order: a location of an earlier trace comes before one of a later trace. */
  lemma AllLocationsOrder(traces: seq<Trace>, t: nat)
    requires t < |traces|
    ensures AllLocations(traces) ==
      AllLocations(traces[..t]) + traces[t].locations + AllLocations(traces[t + 1..])
  {
    assert traces == traces[..t] + [traces[t]] + traces[t + 1..];
    FlatMapAppend(traces[..t] + [traces[t]], traces[t + 1..], TraceLocations);
    FlatMapSnoc(traces[..t], traces[t], TraceLocations);
  }

  /** One more location of the current trace overwrites its id's entry. */
  lemma IndexOfSnoc(before: seq<Location>, locs: seq<Location>, li: nat)
    requires li < |locs|
    ensures IndexOf(before + locs[..li + 1]) == IndexOf(before + locs[..li])[locs[li].id := locs[li]]
  {
    var xs := before + locs[..li + 1];
    assert xs[..|xs| - 1] == before + locs[..li];
    assert xs[|xs| - 1] == locs[li];
  }

  /** The `allLocations` memo: the nested loops over traces and their locations. */
  method BuildLocationIndex(codemap: Option<Codemap>) returns (index: map<string, Location>)
    ensures codemap.None? ==> index == map[]
    ensures codemap.Some? ==> index == IndexOf(AllLocations(codemap.value.traces))
  {
    index := map[];
    if codemap.Some? {
      var traces := codemap.value.traces;
      for ti := 0 to |traces|
        invariant index == IndexOf(AllLocations(traces[..ti]))
      {
        var locs := traces[ti].locations;
        ghost var before := AllLocations(traces[..ti]);
        assert before + locs[..0] == before;
        for li := 0 to |locs|
          invariant index == IndexOf(before + locs[..li])
        {
          IndexOfSnoc(before, locs, li);
          index := index[locs[li].id := locs[li]];
        }
        assert locs[..|locs|] == locs;
        FlatMapStep(traces, ti, TraceLocations);
      }
      assert traces[..|traces|] == traces;
    }
  }

  /**
   * Every location of every trace is found by its id, and the location found
   * for an id is the last one carrying it.
   */
  lemma IndexResolves(traces: seq<Trace>, id: string)
    ensures var locs := AllLocations(traces);
      id in IndexOf(locs) <==> exists i :: 0 <= i < |locs| && locs[i].id == id
    ensures var locs := AllLocations(traces);
      forall i :: 0 <= i < |locs| && locs[i].id == id && (forall j :: i < j < |locs| ==> locs[j].id != id) ==>
        IndexOf(locs)[id] == locs[i]
  {
    var locs := AllLocations(traces);
    IndexKeys(locs, id);
    forall i | 0 <= i < |locs| && locs[i].id == id && (forall j :: i < j < |locs| ==> locs[j].id != id)
      ensures IndexOf(locs)[id] == locs[i]
    {
      IndexLastWins(locs, i);
    }
  }

  // ---------------------------------------------------------------------
  // The location made up for a file click
  // ---------------------------------------------------------------------

  predicate IsSeparator(c: char) { c == '/' || c == '\\' }

  /** Where the last piece of `filePath.split(/[/\\]/)` starts: just after the last separator, or 0. */
  function SegmentStart(s: string): (k: nat)
    ensures k <= |s|
    ensures forall i :: k <= i < |s| ==> !IsSeparator(s[i])
    ensures k == 0 || IsSeparator(s[k - 1])
  {
    if s == [] then 0
    else if IsSeparator(s[|s| - 1]) then |s|
    else SegmentStart(s[..|s| - 1])
  }

  /** That last piece: the text after the last separator. */
  function LastSegment(s: string): (r: string)
    ensures |r| <= |s| && r == s[|s| - |r|..]
    ensures forall i :: 0 <= i < |r| ==> !IsSeparator(r[i])
    ensures |r| == |s| || IsSeparator(s[|s| - |r| - 1])
  {
    s[SegmentStart(s)..]
  }

  /** The title of a file click: its last segment, or the whole path when that segment is empty. */
  function FileTitle(filePath: string): (title: string)
    ensures filePath != [] ==> title != []
    ensures title == filePath || (title != [] && |title| <= |filePath| && title == filePath[|filePath| - |title|..])
  {
    var seg := LastSegment(filePath);
    if seg == [] then filePath else seg
  }

  /** `lineNumber || x`: a missing line and line 0 both give way to the default. */
  function LineOr(lineNumber: Option<int>, default: int): int {
    if lineNumber.Some? && lineNumber.value != 0 then lineNumber.value else default
  }

  /** `handleFileClick`'s synthetic location. */
  function SyntheticLocation(filePath: string, lineNumber: Option<int>): (loc: Location)
    ensures loc.path == filePath && loc.lineContent == [] && loc.description == []
    ensures loc.lineNumber != 0
  {
    Location("file-" + filePath + "-" + IntToDecimal(LineOr(lineNumber, 0)), filePath,
             LineOr(lineNumber, 1), "", FileTitle(filePath), "")
  }

  /**
   * The line is the given one when present and non-zero, else 1; the id
   * records the given line, or 0.
   */
  lemma SyntheticLocationLine(filePath: string, lineNumber: Option<int>)
    ensures var loc := SyntheticLocation(filePath, lineNumber);
      (lineNumber.Some? && lineNumber.value != 0 ==>
        loc.lineNumber == lineNumber.value && loc.id == "file-" + filePath + "-" + IntToDecimal(lineNumber.value)) &&
      (lineNumber.None? || lineNumber.value == 0 ==>
        loc.lineNumber == 1 && loc.id == "file-" + filePath + "-0")
  {
    ZeroDecimal(0);
  }

  lemma ZeroDecimal(z: int)
    requires z == 0
    ensures IntToDecimal(z) == "0"
  {
    assert NatToDecimal(z) == [(48 + z) as char];
  }

  /** A path without separators is its own title; one with a file name after its last separator gets that name. */
  lemma FileTitleCases(dir: string, sep: char, name: string)
    requires IsSeparator(sep)
    requires name != [] && forall i :: 0 <= i < |name| ==> !IsSeparator(name[i])
    ensures FileTitle(name) == name
    ensures FileTitle(dir + [sep] + name) == name
  {
    SegmentOf(name, []);
    assert [] + name == name;
    SegmentOf(name, dir + [sep]);
  }

  lemma SegmentOf(name: string, prefix: string)
    requires forall i :: 0 <= i < |name| ==> !IsSeparator(name[i])
    requires prefix == [] || IsSeparator(prefix[|prefix| - 1])
    ensures LastSegment(prefix + name) == name
  {
    SegmentStartOf(name, prefix);
    assert (prefix + name)[|prefix|..] == name;
  }

  lemma {:induction false} SegmentStartOf(name: string, prefix: string)
    requires forall i :: 0 <= i < |name| ==> !IsSeparator(name[i])
    requires prefix == [] || IsSeparator(prefix[|prefix| - 1])
    ensures SegmentStart(prefix + name) == |prefix|
    decreases |name|
  {
    var s := prefix + name;
    if name == [] {
      assert s == prefix;
    } else {
      var n := |name| - 1;
      SegmentStartOf(name[..n], prefix);
      assert s[|s| - 1] == name[n];
      assert s[..|s| - 1] == prefix + name[..n];
    }
  }

  /** A path that ends in a separator is its own title. */
  lemma TrailingSeparatorTitle(filePath: string)
    requires filePath != [] && IsSeparator(filePath[|filePath| - 1])
    ensures FileTitle(filePath) == filePath
  {
  }

  // ---------------------------------------------------------------------
  // Trace headers
  // ---------------------------------------------------------------------

  const TraceDescriptionPreview: nat := 120

  /** What a trace section's header shows: its step badge, its title and, when open, its description preview. */
  datatype Header = Header(step: nat, title: string, description: Option<string>)

  function TraceHeader(trace: Trace, traceIndex: nat, isExpanded: bool): (h: Header)
    ensures h.description.Some? <==> isExpanded && trace.description != []
    ensures h.description.Some? && |trace.description| <= TraceDescriptionPreview ==>
      h.description.value == trace.description
    ensures h.description.Some? && |trace.description| > TraceDescriptionPreview ==>
      h.description.value == trace.description[..TraceDescriptionPreview] + "..."
  {
    Header(traceIndex + 1, trace.title,
           if isExpanded && trace.description != [] then Some(Preview(trace.description, TraceDescriptionPreview)) else None)
  }

  /** The headers of a codemap, in trace order; `expanded[i]` is whether trace `i` is open. */
  function TraceHeaders(traces: seq<Trace>, expanded: seq<bool>): seq<Header>
    requires |expanded| == |traces|
  {
    seq(|traces|, i requires 0 <= i < |traces| => TraceHeader(traces[i], i, expanded[i]))
  }

  /**
   * The step badges number the traces 1, 2, 3, ... without gaps or repeats,
   * and only the open traces with a description show one.
   */
  lemma StepBadges(traces: seq<Trace>, expanded: seq<bool>)
    requires |expanded| == |traces|
    ensures var hs := TraceHeaders(traces, expanded);
      |hs| == |traces| &&
      (forall i :: 0 <= i < |hs| ==> hs[i].step == i + 1 && hs[i].title == traces[i].title) &&
      (forall i, j :: 0 <= i < j < |hs| ==> hs[i].step < hs[j].step) &&
      (forall i :: 0 <= i < |hs| ==> (hs[i].description.Some? <==> expanded[i] && traces[i].description != []))
  {
  }
}
