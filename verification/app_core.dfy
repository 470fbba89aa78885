/**
 The application state of the notes browser (src/app/core.rs) as an
 immutable record, with one pure step function per thing the control loop
 does to it: entering a mode, handling a key in Search or in the other
 states, refreshing search results, advancing the spinner, and draining the
 scan, search-index and vector-index channels.

 Background workers are not modelled; each receiver is a flag saying whether
 the control loop still holds it, and each tick supplies the outcome of one
 non-blocking `try_recv` on it. The search engine is a parameter answering a
 query, and `Instant` is a clock in milliseconds.
 */
module AppCore {
  import opened Options
  import opened Commands

  datatype AppState = Starting | Scanning | Preview | Indexing | Search | CommandPalette | IndexingVectors

  /** A search hit. Title, snippet and the floating-point score are opaque to the core. */
  datatype SearchResult = SearchResult(path: string)

  datatype ScannedFile = ScannedFile(localPath: string)

  /** What one `try_recv` on a channel returns. */
  datatype Recv<T> = Empty | Disconnected | Msg(payload: T)

  /** The scan worker's single message: the files and a summary, or an error. */
  datatype ScanReport = Scanned(files: seq<ScannedFile>, summary: string) | ScanFailed(message: string)

  /** The search engine's answer to one query. */
  datatype SearchReply = Found(results: seq<SearchResult>) | SearchFailed(message: string)

  /** The search engine, as a function of the query and the result limit. */
  type Engine = (string, nat) -> SearchReply

  // ---------------------------------------------------------------------------
  // Keys (crossterm's KeyEvent, reduced to what the core inspects)
  // ---------------------------------------------------------------------------

  datatype KeyCode = Char(c: char) | Esc | Enter | Backspace | Up | Down | Left | Right | Tab | OtherKey

  datatype Modifier = Shift | Control | Alt | Super | Hyper | Meta

  datatype KeyKind = Press | Repeat | Release

  datatype KeyEvent = KeyEvent(code: KeyCode, modifiers: set<Modifier>, kind: KeyKind)

  // ---------------------------------------------------------------------------
  // Constants
  // ---------------------------------------------------------------------------

  /** The braille spinner frames (core.rs:67); the Rust field is never reassigned. */
  const SpinnerChars: seq<char> :=
    ['\U{280B}', '\U{2819}', '\U{2839}', '\U{2838}', '\U{283C}',
     '\U{2834}', '\U{2826}', '\U{2827}', '\U{2807}', '\U{280F}']

  /** Poll timeout and spinner period, in milliseconds. */
  const TickMs: nat := 100

  /** How long the vector-indexing result stays on screen, in milliseconds. */
  const GraceMs: nat := 2000

  /** The maximum number of hits asked of the search engine. */
  const SearchLimit: nat := 20

  const VectorStartText: string := "Starting vector indexing..."
  const VectorSuccessText: string := "Vector indexing completed successfully!"

  // ---------------------------------------------------------------------------
  // The application record
  // ---------------------------------------------------------------------------

  /**
   core.rs:36-59. The three receivers become the flags `scanPending`,
   `indexPending` and `vectorPending` (the `Option` holds a receiver), and
   `search_engine` becomes `hasEngine`.
   */
  datatype App = App(
    running: bool,
    state: AppState,
    spinnerIdx: nat,
    scanResult: Option<seq<ScannedFile>>,
    scanSummary: Option<string>,
    scanPending: bool,
    lastTick: nat,
    searchQuery: string,
    searchResults: seq<SearchResult>,
    selectedSearchIndex: nat,
    hasEngine: bool,
    indexPending: bool,
    commandItems: seq<CommandItem>,
    selectedCommandIndex: nat,
    vectorStatus: Option<string>,
    vectorComplete: bool,
    vectorSuccessTime: Option<nat>,
    vectorPending: bool
  )

  /** `App::default()` (core.rs:61-85), created at clock time `now`. */
  function Default(now: nat): (r: App)
    ensures Valid(r) && r.state == Starting && !r.running
  {
    App(false, Starting, 0, None, None, false, now, [], [], 0, false, false, [], 0, None, false, None, false)
  }

  /**
   The facts every rendering and key handler relies on: the spinner index
   addresses a frame, a non-empty result list is addressed by the search
   selection, the palette selection addresses the menu (or both are at their
   initial empty/0), the palette is only shown with its menu, and a pending
   grace-period timestamp only exists once vector indexing completed.
   */
  predicate Valid(app: App) {
    && app.spinnerIdx < |SpinnerChars|
    && (app.searchResults == [] || app.selectedSearchIndex < |app.searchResults|)
    && (app.commandItems == [] || app.commandItems == Menu)
    && (app.selectedCommandIndex < |app.commandItems| || (app.commandItems == [] && app.selectedCommandIndex == 0))
    && (app.state == CommandPalette ==> app.commandItems == Menu)
    && (app.vectorSuccessTime.Some? ==> app.vectorComplete)
  }

  /** `Instant::elapsed`, which saturates at zero. */
  function Elapsed(since: nat, now: nat): (d: nat)
    ensures since <= now ==> since + d == now
    ensures now < since ==> d == 0
  {
    if since <= now then now - since else 0
  }

  // ---------------------------------------------------------------------------
  // Mode entry
  // ---------------------------------------------------------------------------

  /**
   core.rs:335-371, state part: show the index-building screen, forget the
   previous query and results, and arm a fresh index receiver (the worker is
   spawned outside the model).
   */
  function EnterSearchMode(app: App): (r: App)
    ensures r.state == Indexing && r.indexPending
    ensures r.searchQuery == [] && r.searchResults == [] && r.selectedSearchIndex == 0
    ensures r.running == app.running && r.commandItems == app.commandItems
    ensures r.vectorPending == app.vectorPending && r.scanPending == app.scanPending
    ensures Valid(app) ==> Valid(r)
  {
    app.(state := Indexing, searchQuery := [], searchResults := [], selectedSearchIndex := 0, indexPending := true)
  }

  /** core.rs:148-185: install the fixed menu and select its first entry. */
  function EnterCommandPalette(app: App): (r: App)
    ensures r.state == CommandPalette && r.commandItems == Menu && r.selectedCommandIndex == 0
    ensures r.selectedCommandIndex < |r.commandItems|
    ensures Valid(app) ==> Valid(r)
  {
    app.(commandItems := Menu, selectedCommandIndex := 0, state := CommandPalette)
  }

  /**
   core.rs:96-108, state part: show the vector-indexing screen with its
   starting status, clear any previous outcome and arm a fresh receiver.
   */
  function EnterVectorIndexingMode(app: App): (r: App)
    ensures r.state == IndexingVectors && r.vectorPending
    ensures r.vectorStatus == Some(VectorStartText) && !r.vectorComplete && r.vectorSuccessTime.None?
    ensures r.searchResults == app.searchResults && r.running == app.running
    ensures Valid(app) ==> Valid(r)
  {
    app.(state := IndexingVectors, vectorStatus := Some(VectorStartText), vectorComplete := false,
         vectorSuccessTime := None, vectorPending := true)
  }

  /** core.rs:495-497. */
  function Quit(app: App): (r: App)
    ensures !r.running
    ensures r.(running := app.running) == app
  {
    app.(running := false)
  }

  // ---------------------------------------------------------------------------
  // Search
  // ---------------------------------------------------------------------------

  /**
   core.rs:373-395. An empty query, or a successful engine call, replaces
   the results and selects the first; a failing engine, or none at all,
   clears the results but leaves the selection where it was.
   */
  function PerformSearch(app: App, engine: Engine): (r: App)
    ensures r.(searchResults := app.searchResults, selectedSearchIndex := app.selectedSearchIndex) == app
    ensures app.searchQuery == [] ==> r.searchResults == [] && r.selectedSearchIndex == 0
    ensures app.searchQuery != [] && app.hasEngine && engine(app.searchQuery, SearchLimit).Found? ==>
      r.searchResults == engine(app.searchQuery, SearchLimit).results && r.selectedSearchIndex == 0
    ensures app.searchQuery != [] && !(app.hasEngine && engine(app.searchQuery, SearchLimit).Found?) ==>
      r.searchResults == [] && r.selectedSearchIndex == app.selectedSearchIndex
    ensures Valid(app) ==> Valid(r)
  {
    if app.searchQuery == [] then
      app.(searchResults := [], selectedSearchIndex := 0)
    else if app.hasEngine then
      match engine(app.searchQuery, SearchLimit)
      case Found(results) => app.(searchResults := results, selectedSearchIndex := 0)
      case SearchFailed(_) => app.(searchResults := [])
    else
      app.(searchResults := [])
  }

  /** `String::pop`: drop the last character, if any. */
  function DropLast(s: string): (r: string)
    ensures s == [] ==> r == []
    ensures s != [] ==> r + [s[|s| - 1]] == s
  {
    if s == [] then [] else s[..|s| - 1]
  }

  /**
   core.rs:397-432. Only the key code is inspected, so a control chord such
   as Ctrl+C arrives here as the character 'c'. Enter opens the selected
   result in the external editor (outside the model) and returns to
   Preview, but only when the selection addresses a result.
   */
  function HandleSearchKey(app: App, code: KeyCode, engine: Engine): (r: App)
    ensures code == Esc ==> r == app.(state := Preview)
    ensures code == Enter ==>
      r == (if app.selectedSearchIndex < |app.searchResults| then app.(state := Preview) else app)
    ensures code.Char? ==> r == PerformSearch(app.(searchQuery := app.searchQuery + [code.c]), engine)
    ensures code == Backspace ==> r == PerformSearch(app.(searchQuery := DropLast(app.searchQuery)), engine)
    ensures code == Up || code == Down ==> r == app.(selectedSearchIndex := r.selectedSearchIndex)
    ensures code == Up ==> r.selectedSearchIndex == if app.selectedSearchIndex == 0 then 0 else app.selectedSearchIndex - 1
    ensures code == Down ==>
      r.selectedSearchIndex == if app.selectedSearchIndex + 1 < |app.searchResults| then app.selectedSearchIndex + 1
                               else app.selectedSearchIndex
    ensures code in {Left, Right, Tab, OtherKey} ==> r == app
  {
    match code
    case Esc => app.(state := Preview)
    case Enter =>
      if app.selectedSearchIndex < |app.searchResults| then app.(state := Preview) else app
    case Char(c) => PerformSearch(app.(searchQuery := app.searchQuery + [c]), engine)
    case Backspace => PerformSearch(app.(searchQuery := DropLast(app.searchQuery)), engine)
    case Up =>
      if app.selectedSearchIndex > 0 then app.(selectedSearchIndex := app.selectedSearchIndex - 1) else app
    case Down =>
      if app.selectedSearchIndex + 1 < |app.searchResults|
      then app.(selectedSearchIndex := app.selectedSearchIndex + 1) else app
    case _ => app
  }

  // ---------------------------------------------------------------------------
  // Keys outside Search and the palette
  // ---------------------------------------------------------------------------

  /** Esc or `q` with any modifiers, or exactly Ctrl with `c`/`C` (core.rs:318-319). */
  predicate IsQuitKey(key: KeyEvent) {
    || key.code == Esc
    || key.code == Char('q')
    || (key.modifiers == {Control} && (key.code == Char('c') || key.code == Char('C')))
  }

  /** Exactly Ctrl with `p` (core.rs:320). */
  predicate IsPaletteKey(key: KeyEvent) {
    key.modifiers == {Control} && key.code == Char('p')
  }

  /** core.rs:316-323. */
  function HandleDefaultKey(app: App, key: KeyEvent): (r: App)
    ensures IsQuitKey(key) ==> r == Quit(app)
    ensures IsPaletteKey(key) ==> r == EnterCommandPalette(app)
    ensures !IsQuitKey(key) && !IsPaletteKey(key) ==> r == app
    ensures Valid(app) ==> Valid(r)
  {
    if IsQuitKey(key) then Quit(app)
    else if IsPaletteKey(key) then EnterCommandPalette(app)
    else app
  }

  // ---------------------------------------------------------------------------
  // Spinner
  // ---------------------------------------------------------------------------

  /**
   core.rs:231-234: on a tick without input, once a poll period has passed
   since the last frame, show the next spinner frame (cyclically).
   */
  function AdvanceSpinner(app: App, now: nat): (r: App)
    ensures Elapsed(app.lastTick, now) >= TickMs ==> r.lastTick == now && r.spinnerIdx < |SpinnerChars|
    ensures Elapsed(app.lastTick, now) >= TickMs && app.spinnerIdx < |SpinnerChars| ==>
      (r.spinnerIdx == app.spinnerIdx + 1 || (r.spinnerIdx == 0 && app.spinnerIdx == |SpinnerChars| - 1))
    ensures Elapsed(app.lastTick, now) < TickMs ==> r == app
    ensures r.(spinnerIdx := app.spinnerIdx, lastTick := app.lastTick) == app
    ensures Valid(app) ==> Valid(r)
  {
    if Elapsed(app.lastTick, now) >= TickMs then
      app.(spinnerIdx := (app.spinnerIdx + 1) % |SpinnerChars|, lastTick := now)
    else app
  }

  // ---------------------------------------------------------------------------
  // Channel drains
  // ---------------------------------------------------------------------------

  /** A status string that ends vector indexing: the literal "SUCCESS" or any "Error..." text. */
  predicate IsTerminalStatus(status: string) {
    status == "SUCCESS" || "Error" <= status
  }

  /** core.rs:239-252: apply one status message of the vector-index worker. */
  function ApplyVectorStatus(app: App, status: string, now: nat): (r: App)
    ensures status == "SUCCESS" ==> r.vectorStatus == Some(VectorSuccessText)
    ensures status != "SUCCESS" ==> r.vectorStatus == Some(status)
    ensures IsTerminalStatus(status) ==> r.vectorComplete && r.vectorSuccessTime == Some(now)
    ensures !IsTerminalStatus(status) ==> r.vectorComplete == app.vectorComplete && r.vectorSuccessTime == app.vectorSuccessTime
    ensures r.(vectorStatus := app.vectorStatus, vectorComplete := app.vectorComplete,
               vectorSuccessTime := app.vectorSuccessTime) == app
  {
    if status == "SUCCESS" then
      app.(vectorStatus := Some(VectorSuccessText), vectorComplete := true, vectorSuccessTime := Some(now))
    else if "Error" <= status then
      app.(vectorStatus := Some(status), vectorComplete := true, vectorSuccessTime := Some(now))
    else
      app.(vectorStatus := Some(status))
  }

  /**
   core.rs:261-267: once the grace period after completion has run out,
   return to Preview and forget the completion time.
   */
  function ExpireGrace(app: App, now: nat): (r: App)
    ensures app.vectorSuccessTime.Some? && Elapsed(app.vectorSuccessTime.value, now) >= GraceMs ==>
      r == app.(state := Preview, vectorSuccessTime := None)
    ensures !(app.vectorSuccessTime.Some? && Elapsed(app.vectorSuccessTime.value, now) >= GraceMs) ==> r == app
    ensures OnlyVectorFieldsDiffer(app, r) && r.vectorComplete == app.vectorComplete
    ensures Valid(app) ==> Valid(r)
  {
    match app.vectorSuccessTime
    case Some(t) => if Elapsed(t, now) >= GraceMs then app.(state := Preview, vectorSuccessTime := None) else app
    case None => app
  }

  /** `r` differs from `app` at most in the displayed state and the vector-indexing fields. */
  predicate OnlyVectorFieldsDiffer(app: App, r: App) {
    && r.running == app.running && r.spinnerIdx == app.spinnerIdx && r.lastTick == app.lastTick
    && r.scanResult == app.scanResult && r.scanSummary == app.scanSummary && r.scanPending == app.scanPending
    && r.searchQuery == app.searchQuery && r.searchResults == app.searchResults
    && r.selectedSearchIndex == app.selectedSearchIndex && r.hasEngine == app.hasEngine
    && r.indexPending == app.indexPending
    && r.commandItems == app.commandItems && r.selectedCommandIndex == app.selectedCommandIndex
  }

  /**
   core.rs:237-259: one `try_recv` on the vector-index receiver while it is
   held. A status is applied; Disconnected drops the receiver and, unless
   `stay`, shows Preview.
   */
  function ReceiveVector(app: App, msg: Recv<string>, now: nat, stay: bool): (r: App)
    ensures OnlyVectorFieldsDiffer(app, r)
    ensures r.state == (if app.vectorPending && msg == Disconnected && !stay then Preview else app.state)
    ensures !app.vectorPending || msg == Empty ==> r == app
    ensures app.vectorPending && msg.Msg? ==> r == ApplyVectorStatus(app, msg.payload, now)
    ensures app.vectorPending && msg == Disconnected ==>
      !r.vectorPending && r.vectorComplete == app.vectorComplete && r.vectorSuccessTime == app.vectorSuccessTime
    ensures Valid(app) && app.state != CommandPalette ==> Valid(r)
  {
    if !app.vectorPending then app
    else match msg
      case Msg(status) => ApplyVectorStatus(app, status, now)
      case Empty => app
      case Disconnected => if stay then app.(vectorPending := false) else app.(vectorPending := false, state := Preview)
  }

  /**
   The vector-index drain exactly as core.rs:236-268 writes it. The worker
   exits right after its terminal message and so drops its sender; the next
   `try_recv` then reports Disconnected, which returns to Preview at once and
   cuts the grace period short (see `GraceCutShortAsWritten`).
   */
  function DrainVectorAsWritten(app: App, msg: Recv<string>, now: nat): (r: App)
    ensures app.state != IndexingVectors ==> r == app
    ensures app.state == IndexingVectors && app.vectorPending && msg == Disconnected ==>
      r.state == Preview && !r.vectorPending
    ensures app.state == IndexingVectors && app.vectorPending && msg.Msg? && IsTerminalStatus(msg.payload) ==>
      r.vectorComplete && r.vectorSuccessTime == Some(now) && r.state == IndexingVectors
    ensures OnlyVectorFieldsDiffer(app, r)
    ensures Valid(app) ==> Valid(r)
  {
    if app.state != IndexingVectors then app
    else ExpireGrace(ReceiveVector(app, msg, now, false), now)
  }

  /**
   The vector-index drain with the evidently intended grace period: a
   disconnect after the terminal message only drops the receiver, and the
   timer alone returns to Preview; a disconnect before any terminal message
   (the worker died) returns to Preview at once, as in the source.
   */
  function DrainVector(app: App, msg: Recv<string>, now: nat): (r: App)
    ensures app.state != IndexingVectors ==> r == app
    ensures app.state == IndexingVectors && app.vectorPending && msg == Disconnected && !app.vectorComplete ==>
      r.state == Preview && !r.vectorPending
    ensures app.state == IndexingVectors && app.vectorPending && msg.Msg? && !IsTerminalStatus(msg.payload) ==>
      r.vectorStatus == Some(msg.payload)
    ensures app.state == IndexingVectors && app.vectorPending && msg.Msg? && IsTerminalStatus(msg.payload) ==>
      r.vectorComplete && r.vectorSuccessTime == Some(now) && r.state == IndexingVectors
    ensures OnlyVectorFieldsDiffer(app, r)
    ensures Valid(app) ==> Valid(r)
  {
    if app.state != IndexingVectors then app
    else ExpireGrace(ReceiveVector(app, msg, now, app.vectorComplete), now)
  }

  /**
   core.rs:270-288. Any message ends scanning and shows Preview; only a
   successful scan stores files and summary (a failure is only logged). A
   disconnect drops the receiver and leaves the state alone.
   */
  function DrainScan(app: App, msg: Recv<ScanReport>): (r: App)
    ensures !app.scanPending || msg == Empty ==> r == app
    ensures app.scanPending && msg.Msg? ==> r.state == Preview && !r.scanPending
    ensures app.scanPending && msg.Msg? && msg.payload.Scanned? ==>
      r.scanResult == Some(msg.payload.files) && r.scanSummary == Some(msg.payload.summary)
    ensures app.scanPending && msg.Msg? && msg.payload.ScanFailed? ==>
      r == app.(state := Preview, scanPending := false)
    ensures app.scanPending && msg == Disconnected ==> r == app.(scanPending := false)
    ensures Valid(app) ==> Valid(r)
  {
    if !app.scanPending then app
    else match msg
      case Msg(report) => ReceiveScan(app, report)
      case Empty => app
      case Disconnected => app.(scanPending := false)
  }

  /** One scan report received: Preview shown, the receiver dropped, a success stored. */
  function ReceiveScan(app: App, report: ScanReport): (r: App)
    ensures r.state == Preview && !r.scanPending
    ensures report.Scanned? ==> r.scanResult == Some(report.files) && r.scanSummary == Some(report.summary)
    ensures report.ScanFailed? ==> r == app.(state := Preview, scanPending := false)
    ensures Valid(app) ==> Valid(r)
  {
    match report
    case Scanned(files, summary) =>
      app.(scanResult := Some(files), scanSummary := Some(summary), state := Preview, scanPending := false)
    case ScanFailed(_) => app.(state := Preview, scanPending := false)
  }

  /**
   core.rs:290-295. The completion signal moves to Search from whatever
   state the application is in; a disconnect is ignored and the receiver
   kept.
   */
  function DrainIndex(app: App, msg: Recv<()>): (r: App)
    ensures app.indexPending && msg.Msg? ==> r == app.(state := Search, indexPending := false)
    ensures !(app.indexPending && msg.Msg?) ==> r == app
    ensures Valid(app) ==> Valid(r)
  {
    if app.indexPending && msg.Msg? then app.(state := Search, indexPending := false) else app
  }
}
