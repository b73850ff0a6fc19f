/**
 * The history list of the webview (`webview/components/CodemapList.tsx`):
 * the search filter, relative-time labels, the marker for the codemap on
 * screen, and the description preview.
 */
module CodemapList {
  import opened Text
  import opened Types

  /** An item is a hit when its lower-cased title or description contains the lower-cased search. */
  predicate Matches(item: HistoryItem, lowerSearch: string) {
    Includes(Lower(item.codemap.title), lowerSearch) || Includes(Lower(item.codemap.description), lowerSearch)
  }

  function Hits(history: seq<HistoryItem>, lowerSearch: string): (r: seq<HistoryItem>)
    ensures |r| <= |history|
  {
    if history == [] then []
    else (if Matches(history[0], lowerSearch) then [history[0]] else []) + Hits(history[1..], lowerSearch)
  }

  /** `filteredHistory`: a blank search shows everything; otherwise the hits for the search as typed. */
  function FilterHistory(history: seq<HistoryItem>, searchText: string): seq<HistoryItem> {
    if Trim(searchText) == [] then history else Hits(history, Lower(searchText))
  }

  /** Blank searches, whitespace included, leave the list as it is. */
  lemma BlankSearchKeepsAll(history: seq<HistoryItem>, searchText: string)
    requires AllWs(searchText)
    ensures FilterHistory(history, searchText) == history
  {
  }

  /** An item is kept iff it is in the history and matches the untrimmed, lower-cased search. */
  lemma {:induction false} HitsMembers(history: seq<HistoryItem>, lowerSearch: string, x: HistoryItem)
    ensures x in Hits(history, lowerSearch) <==> x in history && Matches(x, lowerSearch)
  {
    if history != [] {
      HitsMembers(history[1..], lowerSearch, x);
      assert history == [history[0]] + history[1..];
    }
  }

  /** The filter keeps order: filtering a concatenation concatenates the filtered parts. */
  lemma {:induction false} HitsAppend(a: seq<HistoryItem>, b: seq<HistoryItem>, lowerSearch: string)
    ensures Hits(a + b, lowerSearch) == Hits(a, lowerSearch) + Hits(b, lowerSearch)
  {
    if a == [] {
      assert a + b == b;
    } else {
      var head := if Matches(a[0], lowerSearch) then [a[0]] else [];
      HitsAppend(a[1..], b, lowerSearch);
      assert (a + b)[0] == a[0] && (a + b)[1..] == a[1..] + b;
      calc {
        Hits(a + b, lowerSearch);
        head + Hits(a[1..] + b, lowerSearch);
        head + (Hits(a[1..], lowerSearch) + Hits(b, lowerSearch));
        (head + Hits(a[1..], lowerSearch)) + Hits(b, lowerSearch);
      }
    }
  }

  /** `r` is obtained from `h` by deleting entries, keeping the order of the rest. */
  predicate IsSubsequence(r: seq<HistoryItem>, h: seq<HistoryItem>)
    decreases |h|
  {
    r == [] || (h != [] && ((r[0] == h[0] && IsSubsequence(r[1..], h[1..])) || IsSubsequence(r, h[1..])))
  }

  /** The filtered list is an order-preserving subsequence of the history. */
  lemma {:induction false} HitsSubsequence(history: seq<HistoryItem>, lowerSearch: string)
    ensures IsSubsequence(Hits(history, lowerSearch), history)
  {
    if history != [] {
      HitsSubsequence(history[1..], lowerSearch);
      var rest := Hits(history[1..], lowerSearch);
      if Matches(history[0], lowerSearch) {
        assert Hits(history, lowerSearch) == [history[0]] + rest;
        assert ([history[0]] + rest)[1..] == rest;
      } else {
        assert Hits(history, lowerSearch) == rest;
      }
    }
  }

  /** The search is case-insensitive: typing it in upper or lower case gives the same list. */
  lemma SearchIgnoresCase(history: seq<HistoryItem>, searchText: string)
    ensures FilterHistory(history, Lower(searchText)) == FilterHistory(history, searchText)
  {
    LowerKeepsWs(searchText);
    assert Lower(Lower(searchText)) == Lower(searchText);
  }

  lemma LowerKeepsWs(s: string)
    ensures AllWs(Lower(s)) <==> AllWs(s)
  {
    assert forall i :: 0 <= i < |s| ==> (IsWs(Lower(s)[i]) <==> IsWs(s[i]));
  }

  // ---------------------------------------------------------------------
  // Relative time
  // ---------------------------------------------------------------------

  const MsPerMinute: nat := 60000
  const MsPerHour: nat := 3600000
  const MsPerDay: nat := 86400000

  datatype TimeLabel = JustNow | MinutesAgo(minutes: int) | HoursAgo(hours: int) | DaysAgo(days: int) | OnDate(timestamp: int)

  /**
   * `formatTime`, from the clock reading `now` and the saved `timestamp` in
   * milliseconds. `Math.floor` of a quotient by a positive divisor is
   * Dafny's `/`, also for a negative difference (a timestamp in the future).
   */
  function FormatTime(now: int, timestamp: int): (t: TimeLabel) {
    var diffMs := now - timestamp;
    var diffMins := diffMs / MsPerMinute;
    var diffHours := diffMs / MsPerHour;
    var diffDays := diffMs / MsPerDay;
    if diffMins < 1 then JustNow
    else if diffMins < 60 then MinutesAgo(diffMins)
    else if diffHours < 24 then HoursAgo(diffHours)
    else if diffDays < 7 then DaysAgo(diffDays)
    else OnDate(timestamp)
  }

  /**
   * The text shown; the absolute date's locale formatting is not part of
   * this model. A counted label is the count in decimal, the unit letter,
   * then " ago".
   */
  function LabelText(t: TimeLabel): (r: string)
    requires !t.OnDate?
    ensures t.JustNow? <==> r == "Just now"
    ensures !t.JustNow? ==> (|r| > 5 && r[|r| - 4..] == " ago" && r[|r| - 5] == UnitLetter(t) &&
      r[..|r| - 5] == IntToDecimal(Count(t)))
  {
    match t
    case JustNow => "Just now"
    case MinutesAgo(n) => SuffixParts(IntToDecimal(n), 'm'); IntToDecimal(n) + "m ago"
    case HoursAgo(n) => SuffixParts(IntToDecimal(n), 'h'); IntToDecimal(n) + "h ago"
    case DaysAgo(n) => SuffixParts(IntToDecimal(n), 'd'); IntToDecimal(n) + "d ago"
  }

  /** A count, a unit letter and " ago" can be taken apart again. */
  lemma SuffixParts(d: string, u: char)
    requires d != []
    ensures var r := d + [u] + " ago";
      |r| > 5 && r[|r| - 4..] == " ago" && r[|r| - 5] == u && r[..|r| - 5] == d &&
      r == d + [u, ' ', 'a', 'g', 'o']
  {
    var r := d + [u] + " ago";
    assert r[|r| - 4..] == " ago";
    assert r[..|r| - 5] == d;
  }

  /** The unit letter of a counted label. */
  function UnitLetter(t: TimeLabel): char
    requires !t.OnDate? && !t.JustNow?
  {
    match t
    case MinutesAgo(_) => 'm'
    case HoursAgo(_) => 'h'
    case DaysAgo(_) => 'd'
  }

  /** The count of a counted label. */
  function Count(t: TimeLabel): int
    requires !t.OnDate? && !t.JustNow?
  {
    match t
    case MinutesAgo(n) => n
    case HoursAgo(n) => n
    case DaysAgo(n) => n
  }

  predicate AllDigits(s: string) {
    forall i :: 0 <= i < |s| ==> '0' <= s[i] <= '9'
  }

  /** The number a string of decimal digits denotes. */
  function DecimalValue(s: string): nat
    requires AllDigits(s)
  {
    if s == [] then 0 else DecimalValue(s[..|s| - 1]) * 10 + (s[|s| - 1] as int - 48)
  }

  /** Reading the decimal rendering of a number gives the number back. */
  lemma {:induction false} DecimalRoundTrip(n: nat)
    ensures AllDigits(NatToDecimal(n)) && DecimalValue(NatToDecimal(n)) == n
  {
    var r := NatToDecimal(n);
    if n >= 10 {
      DecimalRoundTrip(n / 10);
      assert r[..|r| - 1] == NatToDecimal(n / 10);
    }
  }

  /** Reads a shown relative-time label back; `None` for any other text. */
  function ReadLabel(s: string): (t: Option<TimeLabel>)
    ensures t.Some? ==> !t.value.OnDate?
  {
    if s == "Just now" then Some(JustNow)
    else if |s| > 5 && s[|s| - 4..] == " ago" && AllDigits(s[..|s| - 5]) then
      var n := DecimalValue(s[..|s| - 5]);
      match s[|s| - 5]
      case 'm' => Some(MinutesAgo(n))
      case 'h' => Some(HoursAgo(n))
      case 'd' => Some(DaysAgo(n))
      case _ => None
    else None
  }

  /**
   * Distinct labels show distinct texts: reading the text back gives the
   * label, whatever its band and count.
   */
  lemma LabelTextReadsBack(t: TimeLabel)
    requires !t.OnDate? && (t.JustNow? || Count(t) >= 0)
    ensures ReadLabel(LabelText(t)) == Some(t)
  {
    if !t.JustNow? {
      var r := LabelText(t);
      var d := r[..|r| - 5];
      DecimalRoundTrip(Count(t));
      assert AllDigits(d) && DecimalValue(d) == Count(t);
    }
  }

  /** What `formatTime` shows in the minute, hour and day bands reads back as that label. */
  lemma ShownTimeReadsBack(now: int, timestamp: int)
    requires now - timestamp < 7 * MsPerDay
    ensures ReadLabel(LabelText(FormatTime(now, timestamp))) == Some(FormatTime(now, timestamp))
  {
    FormatTimeBands(now, timestamp);
    LabelTextReadsBack(FormatTime(now, timestamp));
  }

  /**
   * Each label covers one band of elapsed time, and its number is the
   * elapsed time rounded down to whole units.
   */
  lemma FormatTimeBands(now: int, timestamp: int)
    ensures var d := now - timestamp; var t := FormatTime(now, timestamp);
      (t == JustNow <==> d < MsPerMinute) &&
      (t.MinutesAgo? <==> MsPerMinute <= d < MsPerHour) &&
      (t.HoursAgo? <==> MsPerHour <= d < MsPerDay) &&
      (t.DaysAgo? <==> MsPerDay <= d < 7 * MsPerDay) &&
      (t.OnDate? <==> 7 * MsPerDay <= d)
    ensures var d := now - timestamp; var t := FormatTime(now, timestamp);
      (t.MinutesAgo? ==> 1 <= t.minutes < 60 && t.minutes * MsPerMinute <= d < (t.minutes + 1) * MsPerMinute) &&
      (t.HoursAgo? ==> 1 <= t.hours < 24 && t.hours * MsPerHour <= d < (t.hours + 1) * MsPerHour) &&
      (t.DaysAgo? ==> 1 <= t.days < 7 && t.days * MsPerDay <= d < (t.days + 1) * MsPerDay)
  {
    var d := now - timestamp;
    DivBand(d, MsPerMinute, 1);
    DivBand(d, MsPerMinute, 60);
    DivBand(d, MsPerHour, 24);
    DivBand(d, MsPerDay, 7);
    DivBand(d, MsPerHour, 1);
    DivBand(d, MsPerDay, 1);
  }

  /** Floor division against a bound: `d / m < k` exactly when `d < k * m`. */
  lemma DivBand(d: int, m: nat, k: int)
    requires m > 0
    ensures d / m < k <==> d < k * m
    ensures (d / m) * m <= d < (d / m + 1) * m
  {
    var q := d / m;
    assert d == q * m + d % m;
    if q < k {
      assert q + 1 <= k;
      assert (q + 1) * m <= k * m;
    } else {
      assert q * m >= k * m;
    }
  }

  /** A timestamp in the future reads as "Just now". */
  lemma FutureIsJustNow(now: int, timestamp: int)
    requires timestamp > now
    ensures FormatTime(now, timestamp) == JustNow
  {
    DivBand(now - timestamp, MsPerMinute, 1);
  }

  // ---------------------------------------------------------------------
  // Items
  // ---------------------------------------------------------------------

  /** `isCurrentCodemap`: a codemap is on screen and it has the item's title. */
  predicate IsCurrentCodemap(current: Option<Codemap>, item: HistoryItem) {
    current.Some? && current.value.title == item.codemap.title
  }

  /**
   * Being current depends on the title alone: any two items with the same
   * title are both marked or both not, and nothing is marked with no codemap.
   */
  lemma CurrentByTitle(current: Option<Codemap>, a: HistoryItem, b: HistoryItem)
    ensures a.codemap.title == b.codemap.title ==> (IsCurrentCodemap(current, a) <==> IsCurrentCodemap(current, b))
    ensures current.None? ==> !IsCurrentCodemap(current, a)
    ensures current == Some(a.codemap) ==> IsCurrentCodemap(current, a)
  {
  }

  const DescriptionPreviewLength: nat := 100

  /** The description line of an item: up to 100 characters, else the first 100 and `...`. */
  function DescriptionPreview(description: string): (r: string)
    ensures |description| <= DescriptionPreviewLength ==> r == description
    ensures |description| > DescriptionPreviewLength ==>
      |r| == DescriptionPreviewLength + 3 && r[..DescriptionPreviewLength] == description[..DescriptionPreviewLength] &&
      r[DescriptionPreviewLength..] == "..."
  {
    Preview(description, DescriptionPreviewLength)
  }

  /** The empty-list notice, shown only when nothing is listed and no run is in progress. */
  function EmptyNotice(filtered: seq<HistoryItem>, isProcessing: bool, searchText: string): (n: Option<string>)
    ensures n.Some? <==> filtered == [] && !isProcessing
  {
    if filtered == [] && !isProcessing then
      Some(if searchText != [] then "No codemaps match your search" else "No saved codemaps yet. Generate one above!")
    else None
  }

  /**
   * The notice tests the search text untrimmed: with an empty history and a
   * search of blanks it says nothing matched, although blank searches do not
   * filter.
   */
  lemma BlankSearchNotice(searchText: string)
    requires searchText != [] && AllWs(searchText)
    ensures FilterHistory([], searchText) == []
    ensures EmptyNotice(FilterHistory([], searchText), false, searchText) == Some("No codemaps match your search")
  {
  }
}
