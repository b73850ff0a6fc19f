/**
 * The webview's top-level state (`webview/components/App.tsx`): the state
 * restored from the host, the reducer that applies the extension's
 * messages, and the guard in front of a submit.
 */
module App {
  import opened Text
  import opened Types

  datatype View = Tree | Diagram

  datatype Page = Home | Detail

  datatype AppState = AppState(
    query: string,
    mode: Mode,
    isProcessing: bool,
    codemap: Option<Codemap>,
    suggestions: seq<Suggestion>,
    history: seq<HistoryItem>,
    activeView: View,
    page: Page)

  /** What `vscode.getState()` may hold; a missing state is all `None`. */
  datatype SavedState = SavedState(
    query: Option<string>,
    mode: Option<Mode>,
    activeView: Option<View>,
    page: Option<Page>)

  /** The extension-to-webview messages (the transcript in `update` is ignored). */
  datatype Message =
    | Update(codemap: Option<Codemap>, isProcessing: bool, mode: Mode,
             suggestions: seq<Suggestion>, history: seq<HistoryItem>)
    | SetQuery(query: string)
    | Navigate(page: Page)

  function OrElse<T>(o: Option<T>, d: T): T {
    if o.Some? then o.value else d
  }

  /**
   * The initial state: the saved query, mode, view and page where present,
   * else the defaults; never processing, no codemap, no lists yet.
   */
  function InitialState(saved: SavedState): (s: AppState)
    ensures !s.isProcessing && s.codemap == None && s.suggestions == [] && s.history == []
    ensures s.query == (if saved.query.Some? then saved.query.value else "")
    ensures saved.mode.None? ==> s.mode == Smart
    ensures saved.activeView.None? ==> s.activeView == Tree
    ensures saved.page.None? ==> s.page == Home
    ensures saved.mode.Some? ==> s.mode == saved.mode.value
    ensures saved.activeView.Some? ==> s.activeView == saved.activeView.value
    ensures saved.page.Some? ==> s.page == saved.page.value
  {
    AppState(OrElse(saved.query, ""), OrElse(saved.mode, Smart), false, None, [], [],
             OrElse(saved.activeView, Tree), OrElse(saved.page, Home))
  }

  /** The page after an `update`: the detail page when a codemap arrives, home when it is gone and nothing runs. */
  function PageAfterUpdate(prev: Page, codemap: Option<Codemap>, isProcessing: bool): Page {
    if codemap.Some? then Detail
    else if !isProcessing && prev == Detail then Home
    else prev
  }

  /** `handleMessage`, as a reducer from the previous state. */
  function Reduce(prev: AppState, msg: Message): AppState {
    match msg
    case Update(c, p, m, sg, h) =>
      prev.(codemap := c, isProcessing := p, mode := m, suggestions := sg, history := h,
            page := PageAfterUpdate(prev.page, c, p))
    case SetQuery(q) => prev.(query := q)
    case Navigate(pg) => prev.(page := pg)
  }

  /**
   * An `update` takes the codemap, processing flag, mode, suggestions and
   * history from the message and keeps the query and the active view.
   */
  lemma UpdateFrame(prev: AppState, msg: Message)
    requires msg.Update?
    ensures var next := Reduce(prev, msg);
      next.codemap == msg.codemap && next.isProcessing == msg.isProcessing && next.mode == msg.mode &&
      next.suggestions == msg.suggestions && next.history == msg.history &&
      next.query == prev.query && next.activeView == prev.activeView
  {
  }

  /** The page rule of an `update`, both ways. */
  lemma UpdatePage(prev: AppState, msg: Message)
    requires msg.Update?
    ensures var next := Reduce(prev, msg);
      (msg.codemap.Some? ==> next.page == Detail) &&
      (next.page != prev.page <==>
        (msg.codemap.Some? && prev.page == Home) ||
        (msg.codemap.None? && !msg.isProcessing && prev.page == Detail))
  {
  }

  /** After an `update` the detail page is shown without a codemap only while a run is in progress. */
  lemma UpdateNeverStrandsDetail(prev: AppState, msg: Message)
    requires msg.Update?
    ensures var next := Reduce(prev, msg);
      next.page == Detail && next.codemap.None? ==> next.isProcessing
  {
  }

  /** The same `update` delivered twice has the effect of one. */
  lemma UpdateIdempotent(prev: AppState, msg: Message)
    requires msg.Update?
    ensures Reduce(Reduce(prev, msg), msg) == Reduce(prev, msg)
  {
  }

  /** `setQuery` changes only the query, `navigate` only the page. */
  lemma SetQueryAndNavigateFrame(prev: AppState, msg: Message)
    requires !msg.Update?
    ensures msg.SetQuery? ==> Reduce(prev, msg) == prev.(query := msg.query)
    ensures msg.Navigate? ==> Reduce(prev, msg) == prev.(page := msg.page)
    ensures Reduce(prev, msg).codemap == prev.codemap && Reduce(prev, msg).isProcessing == prev.isProcessing
  {
  }

  /** The `submit` request `handleSubmit` posts, if any: the trimmed query and the current mode. */
  datatype SubmitRequest = SubmitRequest(query: string, mode: Mode)

  function HandleSubmit(s: AppState): (r: Option<SubmitRequest>)
    ensures r.Some? <==> Trim(s.query) != [] && !s.isProcessing
    ensures r.Some? ==> r.value.query == Trim(s.query) && r.value.mode == s.mode
  {
    if Trim(s.query) != [] && !s.isProcessing then Some(SubmitRequest(Trim(s.query), s.mode)) else None
  }

  /**
   * A posted query is never blank and never has surrounding whitespace, and
   * nothing is posted while the extension reports a run in progress.
   */
  lemma SubmitIsClean(s: AppState)
    requires HandleSubmit(s).Some?
    ensures var q := HandleSubmit(s).value.query;
      q != [] && Trim(q) == q && !IsWs(q[0]) && !IsWs(q[|q| - 1])
    ensures !s.isProcessing
  {
    var q := Trim(s.query);
    assert HandleSubmit(s).value.query == q;
    TrimIdem(s.query);
  }

  /** While an `update` reports processing, no submit can be posted until another update clears it. */
  lemma NoSubmitWhileProcessing(prev: AppState, msg: Message, q: string)
    requires msg.Update? && msg.isProcessing
    ensures HandleSubmit(Reduce(Reduce(prev, msg), SetQuery(q))).None?
  {
  }
}
