/**
 * The placeholder colour tables of the webview (`webview/mermaidPlaceholders.ts`):
 * eight accent keys, the placeholder hex string each stands for, the inverse
 * table, and the fill cycle that must stay in step with the colorizer's palette.
 */
module Placeholders {
  import Colorize

  datatype AccentKey =
    | AccentPink | AccentRed | AccentPurple | AccentGreen
    | AccentYellow | AccentOrange | AccentCyan | AccentBlue

  /** `MermaidAccentPlaceholders[k]`. */
  function AccentPlaceholder(k: AccentKey): string {
    match k
    case AccentPink => "#eebefa"
    case AccentRed => "#fcc2d7"
    case AccentPurple => "#d0bfff"
    case AccentGreen => "#b2f2bb"
    case AccentYellow => "#ffec99"
    case AccentOrange => "#ffd8a8"
    case AccentCyan => "#99e9f2"
    case AccentBlue => "#a5d8ff"
  }

  const AllKeys: seq<AccentKey> :=
    [AccentPink, AccentRed, AccentPurple, AccentGreen, AccentYellow, AccentOrange, AccentCyan, AccentBlue]

  /** `MermaidPlaceholderToAccentKey`, written out entry by entry. */
  const PlaceholderToAccentKey: map<string, AccentKey> := map[
    AccentPlaceholder(AccentPink) := AccentPink,
    AccentPlaceholder(AccentRed) := AccentRed,
    AccentPlaceholder(AccentPurple) := AccentPurple,
    AccentPlaceholder(AccentGreen) := AccentGreen,
    AccentPlaceholder(AccentYellow) := AccentYellow,
    AccentPlaceholder(AccentOrange) := AccentOrange,
    AccentPlaceholder(AccentCyan) := AccentCyan,
    AccentPlaceholder(AccentBlue) := AccentBlue]

  /** `MermaidTraceFillPlaceholderCycle`. */
  const TraceFillPlaceholderCycle: seq<string> := [
    AccentPlaceholder(AccentBlue),
    AccentPlaceholder(AccentOrange),
    AccentPlaceholder(AccentPurple),
    AccentPlaceholder(AccentGreen),
    AccentPlaceholder(AccentRed),
    AccentPlaceholder(AccentYellow),
    AccentPlaceholder(AccentCyan),
    AccentPlaceholder(AccentPink)]

  /** Every placeholder is a `#` and six hex digits, and distinct keys have distinct placeholders. */
  lemma PlaceholdersDistinct(k1: AccentKey, k2: AccentKey)
    ensures |AccentPlaceholder(k1)| == 7 && AccentPlaceholder(k1)[0] == '#'
    ensures AccentPlaceholder(k1) == AccentPlaceholder(k2) <==> k1 == k2
  {
  }

  lemma AllKeysComplete(k: AccentKey)
    ensures k in AllKeys && |AllKeys| == 8
  {
  }

  /** The inverse table maps each placeholder back to its key. */
  lemma InverseOfPlaceholder(k: AccentKey)
    ensures AccentPlaceholder(k) in PlaceholderToAccentKey
    ensures PlaceholderToAccentKey[AccentPlaceholder(k)] == k
  {
    match k
    case AccentPink =>
    case AccentRed =>
    case AccentPurple =>
    case AccentGreen =>
    case AccentYellow =>
    case AccentOrange =>
    case AccentCyan =>
    case AccentBlue =>
  }

  /** The inverse table holds only placeholders, each mapped to the key it stands for. */
  lemma InverseHoldsOnlyPlaceholders(h: string)
    requires h in PlaceholderToAccentKey
    ensures AccentPlaceholder(PlaceholderToAccentKey[h]) == h
  {
    InverseOfPlaceholder(AccentPink);
    InverseOfPlaceholder(AccentRed);
    InverseOfPlaceholder(AccentPurple);
    InverseOfPlaceholder(AccentGreen);
    InverseOfPlaceholder(AccentYellow);
    InverseOfPlaceholder(AccentOrange);
    InverseOfPlaceholder(AccentCyan);
    InverseOfPlaceholder(AccentBlue);
  }

  /** The cycle has one entry per key: eight distinct placeholders covering all keys. */
  lemma CycleIsPermutation()
    ensures |TraceFillPlaceholderCycle| == 8
    ensures forall i, j :: 0 <= i < j < 8 ==> TraceFillPlaceholderCycle[i] != TraceFillPlaceholderCycle[j]
    ensures forall k :: AccentPlaceholder(k) in TraceFillPlaceholderCycle
    ensures forall i :: 0 <= i < 8 ==> TraceFillPlaceholderCycle[i] in PlaceholderToAccentKey
  {
  }

  /** The webview cycle and the colorizer palette agree entry by entry. */
  lemma CycleMatchesColorizer()
    ensures TraceFillPlaceholderCycle == Colorize.SubgraphFillPlaceholderCycle
  {
  }
}
