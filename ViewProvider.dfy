/**
 * The sidebar session controller (`src/views/CodemapViewProvider.ts`): the
 * recent-files list, suggestion refresh, the single-flight submit with the
 * transcript and codemap its callbacks build, and loading saved codemaps.
 *
 * The orchestrators, the configuration check, the suggestion agent and the
 * storage module are not part of this model: a run of the orchestrator is
 * the sequence of callback events it made followed by its outcome, and the
 * other services are values passed in.
 */
module ViewProvider {
  import opened Text
  import opened Types

  /** One transcript entry, `{ role, content }`. */
  datatype ChatMessage = ChatMessage(role: string, content: string)

  /** The callbacks an orchestrator run makes, in the order it makes them. */
  datatype Event =
    | OnMessage(role: string, content: string)
    | OnToolCall(tool: string, args: string, result: string)
    | OnCodemapUpdate(codemap: Codemap)
    | OnPhaseChange(phase: string, stage: int)
    | OnTraceProcessing(traceId: string, stage: int, complete: bool)

  /** How the orchestrator call ended: it returned, or it threw. */
  datatype Outcome = Returned | Threw(message: string)

  /** What a submit did, as the notifications it shows tell the user. */
  datatype SubmitStatus = AlreadyProcessing | NotConfigured | Completed | GenerationFailed(message: string)

  const MaxRecentFiles: nat := 20
  const MinRecentFilesForSuggestions: nat := 3
  const MaxSuggestionFiles: nat := 10
  const ToolResultPreview: nat := 300

  // ---------------------------------------------------------------------
  // Recent files
  // ---------------------------------------------------------------------

  /** `xs.filter(f => f !== p)`. */
  function Without(xs: seq<string>, p: string): (r: seq<string>)
    ensures |r| <= |xs|
  {
    if xs == [] then [] else (if xs[0] == p then [] else [xs[0]]) + Without(xs[1..], p)
  }

  predicate NoDuplicates(xs: seq<string>) {
    forall i, j :: 0 <= i < j < |xs| ==> xs[i] != xs[j]
  }

  /** The list after `addRecentFile(p)`: `p` in front of the others, cut to twenty. */
  function MoveToFront(xs: seq<string>, p: string): seq<string> {
    var r := [p] + Without(xs, p);
    if |r| > MaxRecentFiles then r[..MaxRecentFiles] else r
  }

  /** The filter keeps exactly the other paths. */
  lemma {:induction false} WithoutMembers(xs: seq<string>, p: string, x: string)
    ensures x in Without(xs, p) <==> x in xs && x != p
  {
    if xs != [] {
      WithoutMembers(xs[1..], p, x);
      assert xs == [xs[0]] + xs[1..];
    }
  }

  /** The filter keeps order: filtering a concatenation concatenates the filtered parts. */
  lemma {:induction false} WithoutAppend(a: seq<string>, b: seq<string>, p: string)
    ensures Without(a + b, p) == Without(a, p) + Without(b, p)
  {
    if a == [] {
      assert a + b == b;
    } else {
      var head := if a[0] == p then [] else [a[0]];
      WithoutAppend(a[1..], b, p);
      assert (a + b)[0] == a[0] && (a + b)[1..] == a[1..] + b;
      calc {
        Without(a + b, p);
        head + Without(a[1..] + b, p);
        head + (Without(a[1..], p) + Without(b, p));
        (head + Without(a[1..], p)) + Without(b, p);
      }
    }
  }

  lemma {:induction false} WithoutNoDuplicates(xs: seq<string>, p: string)
    requires NoDuplicates(xs)
    ensures NoDuplicates(Without(xs, p))
  {
    if xs != [] {
      WithoutNoDuplicates(xs[1..], p);
      WithoutMembers(xs[1..], p, xs[0]);
      assert xs[0] !in xs[1..];
    }
  }

  /** A path already absent is not affected by the filter. */
  lemma {:induction false} WithoutAbsent(xs: seq<string>, p: string)
    requires p !in xs
    ensures Without(xs, p) == xs
  {
    if xs != [] {
      WithoutAbsent(xs[1..], p);
      assert xs == [xs[0]] + xs[1..];
    }
  }

  /**
   * After `addRecentFile(p)` the list starts with `p`, holds no duplicates,
   * has at most twenty entries, and after `p` holds the other paths in their
   * old order, as many as fit.
   */
  lemma MoveToFrontProperties(xs: seq<string>, p: string)
    requires NoDuplicates(xs)
    ensures var r := MoveToFront(xs, p);
      |r| >= 1 && r[0] == p && |r| <= MaxRecentFiles && NoDuplicates(r) &&
      r[1..] == Without(xs, p)[..|r| - 1] &&
      |r| == if |Without(xs, p)| + 1 > MaxRecentFiles then MaxRecentFiles else |Without(xs, p)| + 1
  {
    var w := Without(xs, p);
    WithoutNoDuplicates(xs, p);
    WithoutMembers(xs, p, p);
    ConsNoDuplicates(p, w);
    var full := [p] + w;
    var r := MoveToFront(xs, p);
    if |full| > MaxRecentFiles {
      PrefixNoDuplicates(full, MaxRecentFiles);
      assert r == full[..MaxRecentFiles];
      assert r[1..] == w[..MaxRecentFiles - 1];
    } else {
      assert r == full;
      assert r[1..] == w == w[..|r| - 1];
    }
  }

  lemma ConsNoDuplicates(p: string, w: seq<string>)
    requires NoDuplicates(w) && p !in w
    ensures NoDuplicates([p] + w)
  {
    var full := [p] + w;
    forall i, j | 0 <= i < j < |full| ensures full[i] != full[j] {
      assert full[j] == w[j - 1];
      if i > 0 {
        assert full[i] == w[i - 1];
      }
    }
  }

  lemma PrefixNoDuplicates(xs: seq<string>, n: nat)
    requires NoDuplicates(xs) && n <= |xs|
    ensures NoDuplicates(xs[..n])
  {
    assert forall i :: 0 <= i < n ==> xs[..n][i] == xs[i];
  }

  /** No path is invented, and while the list is not full none is lost. */
  lemma MoveToFrontMembers(xs: seq<string>, p: string, x: string)
    ensures x in MoveToFront(xs, p) ==> x == p || x in xs
    ensures |xs| < MaxRecentFiles ==> (x in MoveToFront(xs, p) <==> x == p || x in xs)
  {
    WithoutMembers(xs, p, x);
    var full := [p] + Without(xs, p);
    if x in MoveToFront(xs, p) && |full| > MaxRecentFiles {
      var k :| 0 <= k < MaxRecentFiles && full[..MaxRecentFiles][k] == x;
      assert full[k] == x;
    }
  }

  // ---------------------------------------------------------------------
  // The transcript and codemap built by the callbacks
  // ---------------------------------------------------------------------

  /** The entry `onToolCall` appends: tool, arguments and a 300-character preview of the result. */
  function ToolCallContent(tool: string, args: string, result: string): string {
    "[" + tool + "]\n" + args + "\n---\n" + Preview(result, ToolResultPreview)
  }

  /** The transcript entries one callback appends. */
  function EventMessages(e: Event): seq<ChatMessage> {
    match e
    case OnMessage(role, content) => [ChatMessage(role, content)]
    case OnToolCall(tool, args, result) => [ChatMessage("tool", ToolCallContent(tool, args, result))]
    case _ => []
  }

  /** The transcript a run of callbacks appends, in order. */
  function Transcript(events: seq<Event>): seq<ChatMessage> {
    if events == [] then [] else Transcript(events[..|events| - 1]) + EventMessages(events[|events| - 1])
  }

  /** The codemap after a run of callbacks: the last one published, or the starting one. */
  function Published(start: Option<Codemap>, events: seq<Event>): Option<Codemap> {
    if events == [] then start
    else if events[|events| - 1].OnCodemapUpdate? then Some(events[|events| - 1].codemap)
    else Published(start, events[..|events| - 1])
  }

  /** A callback that adds a transcript entry. */
  predicate Speaks(e: Event) {
    e.OnMessage? || e.OnToolCall?
  }

  /** Messages and tool calls add one entry each; the other callbacks add none. */
  lemma {:induction false} TranscriptLength(events: seq<Event>)
    ensures |Transcript(events)| == |set i | 0 <= i < |events| && Speaks(events[i])|
  {
    if events != [] {
      var n := |events| - 1;
      TranscriptLength(events[..n]);
      SpeakingSnoc(events);
      assert |EventMessages(events[n])| == if Speaks(events[n]) then 1 else 0;
    }
  }

  /** The speaking positions of a run are those of its prefix, plus the last one when it speaks. */
  lemma SpeakingSnoc(events: seq<Event>)
    requires events != []
    ensures var n := |events| - 1;
      var before := set i | 0 <= i < n && Speaks(events[..n][i]);
      var after := set i | 0 <= i < |events| && Speaks(events[i]);
      |after| == |before| + (if Speaks(events[n]) then 1 else 0)
  {
    var n := |events| - 1;
    var before := set i | 0 <= i < n && Speaks(events[..n][i]);
    var after := set i | 0 <= i < |events| && Speaks(events[i]);
    assert before == set i | 0 <= i < n && Speaks(events[i]);
    if Speaks(events[n]) {
      assert after == before + {n};
    } else {
      assert after == before;
    }
  }

  /** The tool entry's result part is the result itself up to 300 characters, else its first 300 and `...`. */
  lemma ToolCallPreview(tool: string, args: string, result: string)
    ensures var c := ToolCallContent(tool, args, result);
      var head := "[" + tool + "]\n" + args + "\n---\n";
      c[..|head|] == head &&
      (|result| <= 300 ==> c[|head|..] == result) &&
      (|result| > 300 ==> c[|head|..] == result[..300] + "...")
  {
  }

  /** The published codemap is the last `onCodemapUpdate`, or the starting one when there is none. */
  lemma {:induction false} PublishedIsLast(start: Option<Codemap>, events: seq<Event>)
    ensures (forall i :: 0 <= i < |events| ==> !events[i].OnCodemapUpdate?) ==> Published(start, events) == start
    ensures forall i ::
      (0 <= i < |events| && events[i].OnCodemapUpdate? &&
       (forall j :: i < j < |events| ==> !events[j].OnCodemapUpdate?))
      ==> Published(start, events) == Some(events[i].codemap)
  {
    if forall i :: 0 <= i < |events| ==> !events[i].OnCodemapUpdate? {
      PublishedWithoutUpdate(start, events);
    }
    forall i | 0 <= i < |events| && events[i].OnCodemapUpdate? &&
               (forall j :: i < j < |events| ==> !events[j].OnCodemapUpdate?)
      ensures Published(start, events) == Some(events[i].codemap)
    {
      PublishedLastAt(start, events, i);
    }
  }

  /** One step back: a run's codemap is its last callback's, if that is an update, else its prefix's. */
  lemma PublishedSnoc(start: Option<Codemap>, events: seq<Event>)
    requires events != []
    ensures var n := |events| - 1;
      Published(start, events) ==
        if events[n].OnCodemapUpdate? then Some(events[n].codemap) else Published(start, events[..n])
  {
  }

  lemma {:induction false} PublishedWithoutUpdate(start: Option<Codemap>, events: seq<Event>)
    requires forall i :: 0 <= i < |events| ==> !events[i].OnCodemapUpdate?
    ensures Published(start, events) == start
  {
    if events != [] {
      var n := |events| - 1;
      var pre := events[..n];
      assert !events[n].OnCodemapUpdate?;
      PublishedSnoc(start, events);
      assert forall i :: 0 <= i < |pre| ==> pre[i] == events[i];
      PublishedWithoutUpdate(start, pre);
    }
  }

  lemma {:induction false} PublishedLastAt(start: Option<Codemap>, events: seq<Event>, i: nat)
    requires i < |events| && events[i].OnCodemapUpdate?
    requires forall j :: i < j < |events| ==> !events[j].OnCodemapUpdate?
    ensures Published(start, events) == Some(events[i].codemap)
  {
    var n := |events| - 1;
    PublishedSnoc(start, events);
    if i < n {
      var pre := events[..n];
      assert !events[n].OnCodemapUpdate?;
      assert pre[i] == events[i];
      assert forall j :: i < j < |pre| ==> pre[j] == events[j];
      PublishedLastAt(start, pre, i);
    }
  }

  /** The session controller: the state behind the sidebar view. */
  class CodemapViewProvider {
    var codemap: Option<Codemap>
    var messages: seq<ChatMessage>
    var isProcessing: bool
    var mode: Mode
    var suggestions: seq<Suggestion>
    var recentFiles: seq<string>
    /** The codemaps handed to storage, oldest first. */
    var saved: seq<Codemap>

    /** The recent-files list never holds a path twice and never holds more than twenty. */
    predicate Valid()
      reads this
    {
      NoDuplicates(recentFiles) && |recentFiles| <= MaxRecentFiles
    }

    constructor()
      ensures Valid()
      ensures codemap == None && messages == [] && !isProcessing && mode == Smart
      ensures suggestions == [] && recentFiles == [] && saved == []
    {
      codemap := None;
      messages := [];
      isProcessing := false;
      mode := Smart;
      suggestions := [];
      recentFiles := [];
      saved := [];
    }

    /** `addRecentFile`. */
    method AddRecentFile(filePath: string)
      requires Valid()
      modifies this
      ensures Valid()
      ensures recentFiles == MoveToFront(old(recentFiles), filePath)
      ensures recentFiles[0] == filePath
      ensures codemap == old(codemap) && messages == old(messages) && isProcessing == old(isProcessing)
      ensures mode == old(mode) && suggestions == old(suggestions) && saved == old(saved)
    {
      MoveToFrontProperties(recentFiles, filePath);
      recentFiles := Without(recentFiles, filePath);
      recentFiles := [filePath] + recentFiles;
      if |recentFiles| > MaxRecentFiles {
        recentFiles := recentFiles[..MaxRecentFiles];
      }
    }

    /**
     * `refreshSuggestions`: `request` is the list handed to the suggestion
     * agent, if any, and `response` the texts it produced (`None` when it
     * threw).
     */
    method RefreshSuggestions(configured: bool, response: Option<seq<string>>)
      returns (request: Option<seq<string>>)
      requires Valid()
      modifies this
      ensures Valid()
      ensures !configured || |old(recentFiles)| < MinRecentFilesForSuggestions ==> request == None
      ensures configured && |old(recentFiles)| >= MinRecentFilesForSuggestions ==>
        request.Some? && |request.value| <= MaxSuggestionFiles &&
        request.value == old(recentFiles)[..if |old(recentFiles)| < MaxSuggestionFiles then |old(recentFiles)| else MaxSuggestionFiles]
      ensures request.Some? && response.Some? ==>
        |suggestions| == |response.value| &&
        forall i :: 0 <= i < |suggestions| ==>
          suggestions[i] == Suggestion(response.value[i], "Based on recent activity")
      ensures request.None? || response.None? ==> suggestions == old(suggestions)
      ensures codemap == old(codemap) && messages == old(messages) && isProcessing == old(isProcessing)
      ensures mode == old(mode) && recentFiles == old(recentFiles) && saved == old(saved)
    {
      if !configured || |recentFiles| < MinRecentFilesForSuggestions {
        return None;
      }
      var n := if |recentFiles| < MaxSuggestionFiles then |recentFiles| else MaxSuggestionFiles;
      request := Some(recentFiles[..n]);
      if response.Some? {
        var texts := response.value;
        var made: seq<Suggestion> := [];
        for i := 0 to |texts|
          invariant |made| == i
          invariant forall k :: 0 <= k < i ==> made[k] == Suggestion(texts[k], "Based on recent activity")
        {
          made := made + [Suggestion(texts[i], "Based on recent activity")];
        }
        suggestions := made;
      }
    }

    /** `showWithQuery`: the mode is taken only when the view is showing. */
    method ShowWithQuery(hasView: bool, m: Mode)
      requires Valid()
      modifies this
      ensures Valid()
      ensures mode == (if hasView then m else old(mode))
      ensures codemap == old(codemap) && messages == old(messages) && isProcessing == old(isProcessing)
      ensures suggestions == old(suggestions) && recentFiles == old(recentFiles) && saved == old(saved)
    {
      if hasView {
        mode := m;
      }
    }

    /** `loadCodemap`: the codemap replaces the current one, with a single transcript entry naming it. */
    method LoadCodemap(c: Codemap)
      requires Valid()
      modifies this
      ensures Valid()
      ensures codemap == Some(c)
      ensures messages == [ChatMessage("assistant", "Loaded saved codemap: " + c.title)]
      ensures isProcessing == old(isProcessing) && mode == old(mode) && suggestions == old(suggestions)
      ensures recentFiles == old(recentFiles) && saved == old(saved)
    {
      codemap := Some(c);
      messages := [ChatMessage("assistant", "Loaded saved codemap: " + c.title)];
    }

    /**
     * `_loadHistory`: `loaded` is what storage returned for the file name.
     * A failed load changes nothing and reports failure.
     */
    method LoadHistory(loaded: Option<Codemap>) returns (ok: bool)
      requires Valid()
      modifies this
      ensures Valid()
      ensures ok <==> loaded.Some?
      ensures ok ==> (codemap == loaded &&
        messages == [ChatMessage("assistant", "Loaded saved codemap: " + loaded.value.title)])
      ensures !ok ==> codemap == old(codemap) && messages == old(messages)
      ensures isProcessing == old(isProcessing) && mode == old(mode) && suggestions == old(suggestions)
      ensures recentFiles == old(recentFiles) && saved == old(saved)
    {
      if loaded.Some? {
        LoadCodemap(loaded.value);
        return true;
      }
      return false;
    }

    /** One callback of a run: the transcript grows by the event's entries, and an update replaces the codemap. */
    method HandleEvent(e: Event)
      requires Valid()
      modifies this
      ensures Valid()
      ensures messages == old(messages) + EventMessages(e)
      ensures codemap == if e.OnCodemapUpdate? then Some(e.codemap) else old(codemap)
      ensures isProcessing == old(isProcessing) && mode == old(mode) && suggestions == old(suggestions)
      ensures recentFiles == old(recentFiles) && saved == old(saved)
    {
      match e
      case OnMessage(role, content) =>
        messages := messages + [ChatMessage(role, content)];
      case OnToolCall(tool, args, result) =>
        messages := messages + [ChatMessage("tool", ToolCallContent(tool, args, result))];
      case OnCodemapUpdate(c) =>
        codemap := Some(c);
      case OnPhaseChange(_, _) =>
      case OnTraceProcessing(_, _, _) =>
    }

    /**
     * `_handleSubmit`. A busy controller ignores the request before it
     * looks at the configuration; an unconfigured one ignores it too. An
     * accepted request resets the session, replays the run's callbacks,
     * saves the codemap on a normal return if one was published (`savedPath`
     * is where storage put it), and always ends not processing.
     */
    method Submit(requestMode: Mode, configured: bool, events: seq<Event>, outcome: Outcome, savedPath: string)
      returns (status: SubmitStatus)
      requires Valid()
      modifies this
      ensures Valid()
      ensures old(isProcessing) ==> status == AlreadyProcessing
      ensures !old(isProcessing) && !configured ==> status == NotConfigured
      ensures status == AlreadyProcessing || status == NotConfigured ==>
        codemap == old(codemap) && messages == old(messages) && isProcessing == old(isProcessing) &&
        mode == old(mode) && saved == old(saved)
      ensures !old(isProcessing) && configured ==>
        !isProcessing && mode == requestMode && codemap == Published(None, events) &&
        (outcome.Threw? ==>
          (status == GenerationFailed(outcome.message) && messages == Transcript(events) && saved == old(saved))) &&
        (outcome.Returned? && codemap.None? ==>
          (status == Completed && messages == Transcript(events) && saved == old(saved))) &&
        (outcome.Returned? && codemap.Some? ==>
          (status == Completed &&
           messages == Transcript(events) + [ChatMessage("assistant", "Codemap saved to: " + savedPath)] &&
           saved == old(saved) + [codemap.value]))
      ensures suggestions == old(suggestions) && recentFiles == old(recentFiles)
    {
      if isProcessing {
        return AlreadyProcessing;
      }
      if !configured {
        return NotConfigured;
      }
      isProcessing := true;
      mode := requestMode;
      messages := [];
      codemap := None;
      var i := 0;
      while i < |events|
        invariant 0 <= i <= |events|
        invariant messages == Transcript(events[..i])
        invariant codemap == Published(None, events[..i])
        invariant isProcessing && mode == requestMode && Valid()
        invariant suggestions == old(suggestions) && recentFiles == old(recentFiles) && saved == old(saved)
      {
        HandleEvent(events[i]);
        assert events[..i + 1][..i] == events[..i];
        i := i + 1;
      }
      assert events[..i] == events;
      if outcome.Threw? {
        status := GenerationFailed(outcome.message);
      } else {
        if codemap.Some? {
          saved := saved + [codemap.value];
          messages := messages + [ChatMessage("assistant", "Codemap saved to: " + savedPath)];
        }
        status := Completed;
      }
      isProcessing := false;
    }
  }

  /**
   * A codemap is saved, with exactly one "saved to" entry, exactly when the
   * run returned normally after publishing one.
   */
  lemma SaveIffPublished(events: seq<Event>, outcome: Outcome)
    ensures outcome.Returned? && Published(None, events).Some? <==>
      outcome.Returned? && (exists i :: 0 <= i < |events| && events[i].OnCodemapUpdate?)
  {
    if exists i :: 0 <= i < |events| && events[i].OnCodemapUpdate? {
      LastUpdateExists(events);
    } else {
      NoUpdateNone(events);
    }
  }

  lemma {:induction false} LastUpdateExists(events: seq<Event>)
    requires exists i :: 0 <= i < |events| && events[i].OnCodemapUpdate?
    ensures Published(None, events).Some?
  {
    var n := |events| - 1;
    if !events[n].OnCodemapUpdate? {
      var i :| 0 <= i < |events| && events[i].OnCodemapUpdate?;
      assert events[..n][i] == events[i];
      LastUpdateExists(events[..n]);
    }
  }

  lemma {:induction false} NoUpdateNone(events: seq<Event>)
    requires forall i :: 0 <= i < |events| ==> !events[i].OnCodemapUpdate?
    ensures Published(None, events).None?
  {
    if events != [] {
      var n := |events| - 1;
      assert forall i :: 0 <= i < n ==> events[..n][i] == events[i];
      NoUpdateNone(events[..n]);
    }
  }
}
