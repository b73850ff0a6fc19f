/**
 * The records shared by the extension and its webview (`webview/types.ts`):
 * a codemap is a titled list of traces, each an ordered list of source
 * locations with an optional diagram.
 */
module Types {

  datatype Option<+T> = None | Some(value: T)

  datatype Result<+T, +E> = Ok(value: T) | Err(error: E)

  datatype Location = Location(
    id: string,
    path: string,
    lineNumber: int,
    lineContent: string,
    title: string,
    description: string)

  datatype Trace = Trace(
    id: string,
    title: string,
    description: string,
    locations: seq<Location>,
    traceTextDiagram: Option<string>,
    traceGuide: Option<string>)

  datatype Codemap = Codemap(
    title: string,
    description: string,
    traces: seq<Trace>,
    savedAt: Option<string>)

  /** Generation mode chosen in the query bar. */
  datatype Mode = Fast | Smart

  /** One saved codemap as the history list shows it. */
  datatype HistoryItem = HistoryItem(id: string, codemap: Codemap, timestamp: int)

  /** A suggested query shown on the home page. */
  datatype Suggestion = Suggestion(text: string, sub: string)
}
