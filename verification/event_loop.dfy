/**
 The control loop of `App::run` (src/app/core.rs:187-302): per iteration,
 poll for one input event, route a key press (global Ctrl+S and Ctrl+E
 first, then by state), advance the spinner when idle, and drain the
 vector-index, scan and search-index channels in that order.
 */
module EventLoop {
  import opened Options
  import opened Commands
  import opened AppCore
  import opened CommandPalette

  /** What `event::poll` / `event::read` produced this iteration. */
  datatype Polled = Idle | KeyInput(key: KeyEvent) | OtherInput

  /** The `try_recv` outcome of each receiver this iteration (ignored when not held). */
  datatype Inbox = Inbox(vector: Recv<string>, scan: Recv<ScanReport>, index: Recv<()>)

  /** One loop iteration's inputs; `now` is the clock after polling. */
  datatype TickInput = TickInput(polled: Polled, now: nat, inbox: Inbox)

  const Quiet: Inbox := Inbox(Empty, Empty, Empty)

  /** The modifiers contain Ctrl and the key is the character `c` (core.rs:215-220). */
  predicate IsCtrl(key: KeyEvent, c: char) {
    Control in key.modifiers && key.code == Char(c)
  }

  /**
   core.rs:304-314: dispatch a key by the current state. In Search no key
   stops the application and the only way out is to Preview, and no key ever
   restarts a stopped application.
   */
  function HandleKey(app: App, key: KeyEvent, engine: Engine): (r: App)
    ensures app.state == Search ==> r == HandleSearchKey(app, key.code, engine)
    ensures app.state == CommandPalette ==> r == HandleCommandPaletteKey(app, key.code)
    ensures app.state !in {Search, CommandPalette} ==> r == HandleDefaultKey(app, key)
    ensures app.state == Search ==> r.running == app.running && r.state in {Search, Preview}
    ensures r.running != app.running ==> !r.running
  {
    match app.state
    case Search =>
      SearchKeyStaysOrPreviews(app, key.code, engine);
      HandleSearchKey(app, key.code, engine)
    case CommandPalette => HandleCommandPaletteKey(app, key.code)
    case _ => HandleDefaultKey(app, key)
  }

  /**
   core.rs:214-228: only presses count; Ctrl+S enters search mode from every
   state; Ctrl+E runs the configuration editor (a blocking foreground
   process, leaving the state as it was); anything else goes to `HandleKey`.
   */
  function RouteKey(app: App, key: KeyEvent, engine: Engine): (r: App)
    ensures key.kind != Press ==> r == app
    ensures key.kind == Press && IsCtrl(key, 's') ==>
      r.state == Indexing && r.indexPending && r.searchQuery == [] && r.searchResults == []
      && r.running == app.running
    ensures key.kind == Press && IsCtrl(key, 'e') ==> r == app
    ensures key.kind == Press && !IsCtrl(key, 's') && !IsCtrl(key, 'e') ==> r == HandleKey(app, key, engine)
  {
    if key.kind != Press then app
    else if IsCtrl(key, 's') then EnterSearchMode(app)
    else if IsCtrl(key, 'e') then app
    else HandleKey(app, key, engine)
  }

  /** The `continue` after the configuration editor skips the rest of the iteration (core.rs:225). */
  predicate SkipsDrains(polled: Polled) {
    polled.KeyInput? && polled.key.kind == Press && IsCtrl(polled.key, 'e')
  }

  /**
   Which vector-index drain an iteration runs: the one core.rs:236-268
   writes, or the corrected one whose grace period a disconnect cannot cut
   short (see "Findings" in the README).
   */
  datatype Variant = AsWritten | Corrected

  /** core.rs:236-295: the three channel drains, in source order. */
  function Drain(app: App, inbox: Inbox, now: nat, v: Variant): (r: App)
    ensures Valid(app) ==> Valid(r)
    ensures r.running == app.running && r.spinnerIdx == app.spinnerIdx && r.lastTick == app.lastTick
  {
    var vectored := match v
      case AsWritten => DrainVectorAsWritten(app, inbox.vector, now)
      case Corrected => DrainVector(app, inbox.vector, now);
    DrainIndex(DrainScan(vectored, inbox.scan), inbox.index)
  }

  /**
   One iteration of the `while self.running` loop, rendering left out. Only
   a key can stop the application, and nothing restarts it.
   */
  function Tick(app: App, t: TickInput, engine: Engine, v: Variant): (r: App)
    ensures SkipsDrains(t.polled) ==> r == app
    ensures r.running != app.running ==> t.polled.KeyInput? && !r.running
  {
    if SkipsDrains(t.polled) then app
    else
      var handled := match t.polled
        case Idle => AdvanceSpinner(app, t.now)
        case KeyInput(key) => RouteKey(app, key, engine)
        case OtherInput => app;
      Drain(handled, t.inbox, t.now, v)
  }

  /** core.rs:195-210: arm the scan receiver, show Scanning, start running. */
  function Launch(app: App): (r: App)
    ensures r.state == Scanning && r.scanPending && r.running
    ensures Valid(app) ==> Valid(r)
  {
    app.(scanPending := true, state := Scanning, running := true)
  }

  /**
   The loop over a finite run of iterations; it stops as soon as `running`
   is false. A stopped application stays as it is, and a running one stops
   only on some key input.
   */
  function Run(app: App, ticks: seq<TickInput>, engine: Engine, v: Variant): (r: App)
    ensures !app.running ==> r == app
    ensures app.running && !r.running ==> exists i :: 0 <= i < |ticks| && ticks[i].polled.KeyInput?
    decreases |ticks|
  {
    if ticks == [] || !app.running then app
    else
      var r := Run(Tick(app, ticks[0], engine, v), ticks[1..], engine, v);
      assert !r.running && Tick(app, ticks[0], engine, v).running ==>
        exists i :: 0 <= i < |ticks[1..]| && ticks[1..][i].polled.KeyInput?;
      assert forall i :: 0 <= i < |ticks[1..]| ==> ticks[1..][i] == ticks[i + 1];
      r
  }

  // ---------------------------------------------------------------------------
  // Invariant
  // ---------------------------------------------------------------------------

  lemma SearchKeyKeepsValid(app: App, code: KeyCode, engine: Engine)
    requires Valid(app)
    ensures Valid(HandleSearchKey(app, code, engine))
  {
    match code
    case Char(c) =>
    case Backspace =>
    case _ =>
  }

  lemma TickKeepsValid(app: App, t: TickInput, engine: Engine, v: Variant)
    requires Valid(app)
    ensures Valid(Tick(app, t, engine, v))
  {
    if !SkipsDrains(t.polled) {
      match t.polled
      case Idle =>
      case OtherInput =>
      case KeyInput(key) =>
        if key.kind == Press && !IsCtrl(key, 's') && !IsCtrl(key, 'e') && app.state == Search {
          SearchKeyKeepsValid(app, key.code, engine);
        }
    }
  }

  /** Every reachable application state satisfies `Valid`. */
  lemma {:induction false} RunKeepsValid(app: App, ticks: seq<TickInput>, engine: Engine, v: Variant)
    requires Valid(app)
    ensures Valid(Run(app, ticks, engine, v))
    decreases |ticks|
  {
    if ticks != [] && app.running {
      TickKeepsValid(app, ticks[0], engine, v);
      RunKeepsValid(Tick(app, ticks[0], engine, v), ticks[1..], engine, v);
    }
  }

  // ---------------------------------------------------------------------------
  // Key routing
  // ---------------------------------------------------------------------------

  /** Ctrl+S is intercepted before dispatch: from every state it starts a fresh search. */
  lemma CtrlSStartsSearchFromEveryState(app: App, mods: set<Modifier>, engine: Engine)
    requires Control in mods
    ensures var r := RouteKey(app, KeyEvent(Char('s'), mods, Press), engine);
      && r.state == Indexing && r.indexPending
      && r.searchQuery == [] && r.searchResults == [] && r.selectedSearchIndex == 0
      && r.running == app.running
  {
  }

  /** An iteration that reads Ctrl+E changes nothing: not even the channels are drained. */
  lemma CtrlEChangesNothing(app: App, mods: set<Modifier>, now: nat, inbox: Inbox, engine: Engine, v: Variant)
    requires Control in mods
    ensures Tick(app, TickInput(KeyInput(KeyEvent(Char('e'), mods, Press)), now, inbox), engine, v) == app
  {
  }

  /**
   Dispatch in Search looks only at the key code, so Ctrl+C and Ctrl+P are
   typed into the query instead of quitting or opening the palette.
   */
  lemma ChordsAreTypedInSearch(app: App, c: char, engine: Engine)
    requires app.state == Search
    requires c == 'c' || c == 'p' || c == 'q'
    ensures var r := RouteKey(app, KeyEvent(Char(c), {Control}, Press), engine);
      && r.running == app.running
      && r.searchQuery == app.searchQuery + [c]
      && r.state == Search
  {
  }

  /** In Search a key never stops the application, and the only way out is to Preview. */
  lemma SearchKeyStaysOrPreviews(app: App, code: KeyCode, engine: Engine)
    requires app.state == Search
    ensures var r := HandleSearchKey(app, code, engine);
      r.running == app.running && r.state in {Search, Preview}
  {
    match code
    case Char(c) =>
      var q := app.(searchQuery := app.searchQuery + [c]);
      assert PerformSearch(q, engine).(searchResults := q.searchResults,
                                       selectedSearchIndex := q.selectedSearchIndex) == q;
    case Backspace =>
      var q := app.(searchQuery := DropLast(app.searchQuery));
      assert PerformSearch(q, engine).(searchResults := q.searchResults,
                                       selectedSearchIndex := q.selectedSearchIndex) == q;
    case _ =>
  }

  /**
   What a key can do in each kind of state: in Search it never stops the
   application and leaves only for Preview; outside Search and the palette it
   can only open the palette or stop; the palette ignores keys other than
   Esc, the arrows and Enter; and no key restarts a stopped application.
   */
  lemma KeyEffectsByState(app: App, key: KeyEvent, engine: Engine)
    ensures var r := HandleKey(app, key, engine);
      && (app.state == Search ==> r.running == app.running && r.state in {Search, Preview})
      && (app.state !in {Search, CommandPalette} ==>
            r.state in {app.state, CommandPalette} && r.searchResults == app.searchResults)
      && (app.state == CommandPalette && key.code !in {Esc, Up, Down, Enter} ==> r == app)
      && (r.running != app.running ==> !r.running)
  {
    if app.state == Search {
      SearchKeyStaysOrPreviews(app, key.code, engine);
    }
  }

  /**
   A key press stops the application exactly when it is a quit key outside
   Search and the palette, or Enter on the palette's Quit entry.
   */
  lemma StopsOnlyOnQuitCommand(app: App, key: KeyEvent, engine: Engine)
    requires app.running
    ensures !RouteKey(app, key, engine).running <==>
      && key.kind == Press && !IsCtrl(key, 's') && !IsCtrl(key, 'e')
      && ((app.state !in {Search, CommandPalette} && IsQuitKey(key))
          || (app.state == CommandPalette && key.code == Enter
              && app.selectedCommandIndex < |app.commandItems|
              && app.commandItems[app.selectedCommandIndex].action == QuitCommand))
  {
    if key.kind == Press && !IsCtrl(key, 's') && !IsCtrl(key, 'e') && app.state == Search {
      SearchKeyStaysOrPreviews(app, key.code, engine);
    }
  }


  /** Outside Search and the palette, Esc, `q` and exactly-Ctrl `c` quit and change nothing else. */
  lemma QuitKeysOutsideSearch(app: App, key: KeyEvent, engine: Engine)
    requires app.state !in {Search, CommandPalette}
    requires key.kind == Press && IsQuitKey(key)
    ensures RouteKey(app, key, engine) == app.(running := false)
  {
  }

  /** Ctrl+P opens the palette from every state except Search and the palette itself. */
  lemma CtrlPOpensPalette(app: App, engine: Engine)
    requires app.state !in {Search, CommandPalette}
    ensures var r := RouteKey(app, KeyEvent(Char('p'), {Control}, Press), engine);
      r.state == CommandPalette && r.commandItems == Menu && r.selectedCommandIndex == 0
      && r.running == app.running
  {
  }

  // ---------------------------------------------------------------------------
  // Search navigation
  // ---------------------------------------------------------------------------

  /** Up and Down keep a valid selection valid; at the ends of the list they are no-ops. */
  lemma SearchNavigationStaysInRange(app: App, code: KeyCode, engine: Engine)
    requires code == Up || code == Down
    requires app.selectedSearchIndex < |app.searchResults|
    ensures HandleSearchKey(app, code, engine).selectedSearchIndex < |app.searchResults|
    ensures code == Up && app.selectedSearchIndex == 0 ==> HandleSearchKey(app, code, engine) == app
    ensures code == Down && app.selectedSearchIndex == |app.searchResults| - 1 ==>
      HandleSearchKey(app, code, engine) == app
  {
  }

  /** The results the engine answer leaves in the list. */
  function ResultsFor(engine: Engine, query: string): seq<SearchResult> {
    match engine(query, SearchLimit)
    case Found(results) => results
    case SearchFailed(_) => []
  }

  /**
   Typing "foo" one key at a time queries the engine with "f", "fo" and
   "foo", and after each key the list holds that query's answer.
   */
  lemma TypingQueriesEachPrefix(app: App, engine: Engine)
    requires app.state == Search && app.hasEngine && app.searchQuery == []
    ensures var a1 := HandleSearchKey(app, Char('f'), engine);
      var a2 := HandleSearchKey(a1, Char('o'), engine);
      var a3 := HandleSearchKey(a2, Char('o'), engine);
      && a1.searchQuery == "f" && a1.searchResults == ResultsFor(engine, "f")
      && a2.searchQuery == "fo" && a2.searchResults == ResultsFor(engine, "fo")
      && a3.searchQuery == "foo" && a3.searchResults == ResultsFor(engine, "foo")
      && a3.state == Search
  {
    assert [] + ['f'] == "f";
    assert "f" + ['o'] == "fo";
    assert "fo" + ['o'] == "foo";
  }

  /** Backspace on an empty query leaves it empty and empties the list, selecting the first entry. */
  lemma BackspaceOnEmptyQuery(app: App, engine: Engine)
    requires app.searchQuery == []
    ensures var r := HandleSearchKey(app, Backspace, engine);
      r.searchQuery == [] && r.searchResults == [] && r.selectedSearchIndex == 0
  {
  }

  /**
   A failing engine empties the list but keeps a stale selection, so "an
   empty list has selection 0" is not an invariant; Enter stays harmless
   because it looks the selection up with a bounds check.
   */
  lemma FailedSearchKeepsStaleSelection(r1: SearchResult, r2: SearchResult)
    ensures var engine: Engine := (q, n) => SearchFailed("unavailable");
      var app := Default(0).(state := Search, hasEngine := true, searchQuery := "ab",
                             searchResults := [r1, r2], selectedSearchIndex := 1);
      var after := HandleSearchKey(app, Backspace, engine);
      && after.searchResults == [] && after.selectedSearchIndex == 1
      && HandleSearchKey(after, Enter, engine) == after
  {
    assert DropLast("ab") == "a";
  }

  // ---------------------------------------------------------------------------
  // Command palette
  // ---------------------------------------------------------------------------

  /** Esc closes the palette, keeping its menu and selection. */
  lemma PaletteEscKeepsMenu(app: App)
    ensures var r := HandleCommandPaletteKey(app, Esc);
      r.state == Preview && r.commandItems == app.commandItems
      && r.selectedCommandIndex == app.selectedCommandIndex
  {
  }

  /** Applies palette keys in order, as consecutive iterations in the palette would. */
  function PaletteKeys(app: App, codes: seq<KeyCode>): App
    decreases |codes|
  {
    if codes == [] then app else PaletteKeys(HandleCommandPaletteKey(app, codes[0]), codes[1..])
  }

  /**
   After `EnterCommandPalette`, any run of Up and Down keys keeps the
   selection inside the four-entry menu.
   */
  lemma {:induction false} PaletteNavigationStaysInMenu(app: App, codes: seq<KeyCode>)
    requires app.commandItems == Menu && app.selectedCommandIndex < |Menu|
    requires forall i :: 0 <= i < |codes| ==> codes[i] == Up || codes[i] == Down
    ensures var r := PaletteKeys(app, codes);
      r.commandItems == Menu && r.selectedCommandIndex < |Menu| && r.state == app.state
    decreases |codes|
  {
    if codes != [] {
      PaletteNavigationStaysInMenu(HandleCommandPaletteKey(app, codes[0]), codes[1..]);
    }
  }

  /** Enter on an out-of-range selection does nothing. */
  lemma PaletteEnterOutOfRange(app: App)
    requires app.selectedCommandIndex >= |app.commandItems|
    ensures HandleCommandPaletteKey(app, Enter) == app
  {
  }

  /** Enter on "Quit" (entry 3) only clears `running`. */
  lemma PaletteQuitOnlyStopsRunning(app: App)
    requires app.commandItems == Menu && app.selectedCommandIndex == 3
    ensures HandleCommandPaletteKey(app, Enter) == app.(running := false)
  {
  }

  /**
   Enter on "Search" (entry 0) ends in Search with an empty query and list
   and the index receiver armed: the action overwrites the Indexing state
   that entering search mode had set.
   */
  lemma PaletteSearchSkipsIndexingScreen(app: App)
    requires app.commandItems == Menu && app.selectedCommandIndex == 0
    ensures var r := HandleCommandPaletteKey(app, Enter);
      && r.state == Search && r.searchQuery == [] && r.searchResults == []
      && r.selectedSearchIndex == 0 && r.indexPending && r.running == app.running
  {
  }

  /** Keys other than Esc, Up, Down and Enter leave the palette as it is. */
  lemma PaletteIgnoresOtherKeys(app: App, code: KeyCode)
    requires code !in {Esc, Up, Down, Enter}
    ensures HandleCommandPaletteKey(app, code) == app
  {
  }

  /**
   Opening the palette with Ctrl+P and pressing Down once selects "Index
   Vectors", not "Quit": Enter then starts vector indexing. Quit is three
   Downs away.
   */
  lemma PaletteDownOnceThenEnter(app: App, engine: Engine)
    requires app.state == Preview
    ensures var ctrlP := KeyEvent(Char('p'), {Control}, Press);
      var palette := RouteKey(app, ctrlP, engine);
      var one := PaletteKeys(palette, [Down, Enter]);
      var three := PaletteKeys(palette, [Down, Down, Down, Enter]);
      && one.state == IndexingVectors && one.running == app.running
      && !three.running && three.state == CommandPalette
  {
    var palette := EnterCommandPalette(app);
    assert [Down, Enter][1..] == [Enter];
    assert [Enter][1..] == [];
    assert [Down, Down, Down, Enter][1..] == [Down, Down, Enter];
    assert [Down, Down, Enter][1..] == [Down, Enter];
  }

  // ---------------------------------------------------------------------------
  // Channel drains
  // ---------------------------------------------------------------------------

  /**
   With the evidently intended drain, once vector indexing has completed at
   time `t` the state becomes Preview exactly when the grace period has run
   out, whatever else the channel reports (a fresh terminal message restarts
   the period).
   */
  lemma GracePeriodIsHonoured(app: App, t: nat, msg: Recv<string>, now: nat)
    requires app.state == IndexingVectors && app.vectorComplete && app.vectorSuccessTime == Some(t)
    ensures DrainVector(app, msg, now).state == Preview ==> Elapsed(t, now) >= GraceMs
    ensures Elapsed(t, now) >= GraceMs && !(app.vectorPending && msg.Msg? && IsTerminalStatus(msg.payload)) ==>
      DrainVector(app, msg, now).state == Preview && DrainVector(app, msg, now).vectorSuccessTime.None?
  {
  }

  /**
   As written, the worker's disconnect right after "SUCCESS" returns to
   Preview 100 ms later, long before the 2 s grace period ends; the
   corrected loop keeps the success screen.
   */
  lemma GraceCutShortAsWritten(engine: Engine)
    ensures var app := Default(0).(running := true).(state := IndexingVectors, vectorPending := true);
      var done := DrainVectorAsWritten(app, Msg("SUCCESS"), 0);
      var later := TickInput(OtherInput, 100, Inbox(Disconnected, Empty, Empty));
      && done.state == IndexingVectors && done.vectorComplete && done.vectorSuccessTime == Some(0)
      && Elapsed(0, 100) < GraceMs
      && Tick(done, later, engine, AsWritten).state == Preview
      && Tick(done, later, engine, Corrected).state == IndexingVectors
  {
  }

  /** A non-terminal status only updates the status line. */
  lemma VectorProgressOnlyUpdatesStatus(app: App, status: string, now: nat)
    requires app.state == IndexingVectors && app.vectorPending && app.vectorSuccessTime.None?
    requires !IsTerminalStatus(status)
    ensures DrainVector(app, Msg(status), now) == app.(vectorStatus := Some(status))
  {
  }

  /** An "Error..." status completes indexing and keeps the error text on screen. */
  lemma VectorErrorKeepsText(app: App, status: string, now: nat)
    requires app.state == IndexingVectors && app.vectorPending
    requires "Error" <= status
    ensures var r := DrainVector(app, Msg(status), now);
      r.vectorStatus == Some(status) && r.vectorComplete && r.vectorSuccessTime == Some(now)
  {
    assert status[0] == 'E';
  }

  /**
   A scan message ends Scanning from whatever state the application is in,
   and only a successful scan stores its files; a scan that fails and then
   disconnects leaves Preview with no files.
   */
  lemma ScanFailureFallsBackToPreview(app: App, message: string)
    requires app.scanPending && app.scanResult.None?
    ensures var failed := DrainScan(app, Msg(ScanFailed(message)));
      && failed.state == Preview && failed.scanResult.None? && !failed.scanPending
      && DrainScan(failed, Disconnected) == failed
  {
  }

  /** The three iterations of the start-up scenario below. */
  const ScanDone: TickInput := TickInput(OtherInput, 100, Inbox(Empty, Msg(Scanned([], "0 files")), Empty))
  const PressCtrlS: TickInput := TickInput(KeyInput(KeyEvent(Char('s'), {Control}, Press)), 200, Quiet)
  const IndexDone: TickInput := TickInput(OtherInput, 300, Inbox(Empty, Empty, Msg(())))

  /** Runs of two iterations unfold into two ticks while the application keeps running. */
  lemma RunTwo(app: App, t1: TickInput, t2: TickInput, engine: Engine, v: Variant)
    requires app.running && Tick(app, t1, engine, v).running
    ensures Run(app, [t1, t2], engine, v) == Tick(Tick(app, t1, engine, v), t2, engine, v)
  {
    var a1 := Tick(app, t1, engine, v);
    assert [t1, t2][1..] == [t2];
    assert Run(app, [t1, t2], engine, v) == Run(a1, [t2], engine, v);
    assert [t2][1..] == [];
    assert Run(a1, [t2], engine, v) == Run(Tick(a1, t2, engine, v), [], engine, v);
  }

  /**
   Launch, a successful empty scan, Ctrl+S and the index worker's signal
   lead from Starting through Scanning, Preview and Indexing to Search with
   an empty list.
   */
  lemma StartupStates(engine: Engine, v: Variant)
    ensures var s0 := Launch(Default(0));
      var s1 := Tick(s0, ScanDone, engine, v);
      var s2 := Tick(s1, PressCtrlS, engine, v);
      var s3 := Tick(s2, IndexDone, engine, v);
      && s0.state == Scanning
      && s1.state == Preview && s1.scanResult == Some([]) && s1.scanSummary == Some("0 files") && s1.running
      && s2.state == Indexing && s2.indexPending && s2.running
      && s3.state == Search && s3.searchResults == [] && s3.searchQuery == [] && s3.running
  {
  }

  /** Running the three iterations of the start-up scenario ends in the Search screen it reaches step by step. */
  lemma StartupToSearch(engine: Engine, v: Variant)
    ensures var s0 := Launch(Default(0));
      var s3 := Tick(Tick(Tick(s0, ScanDone, engine, v), PressCtrlS, engine, v), IndexDone, engine, v);
      && Run(s0, [ScanDone, PressCtrlS, IndexDone], engine, v) == s3
      && s3.state == Search && s3.searchResults == [] && s3.running
  {
    var s0 := Launch(Default(0));
    var s1 := Tick(s0, ScanDone, engine, v);
    StartupStates(engine, v);
    assert [ScanDone, PressCtrlS, IndexDone][1..] == [PressCtrlS, IndexDone];
    RunStep(s0, [ScanDone, PressCtrlS, IndexDone], engine, v);
    RunTwo(s1, PressCtrlS, IndexDone, engine, v);
  }

  /** The index worker's signal moves to Search even after the user has left (e.g. back to Preview). */
  lemma IndexSignalForcesSearch(app: App)
    requires app.indexPending && app.state == Preview
    ensures DrainIndex(app, Msg(())).state == Search
  {
  }

  // ---------------------------------------------------------------------------
  // Spinner
  // ---------------------------------------------------------------------------

  /**
   Idle iterations, each polled at least one period after the previous
   frame (the first one period after `last`).
   */
  predicate SpacedIdleTicks(last: nat, ticks: seq<TickInput>)
    decreases |ticks|
  {
    ticks == [] || (ticks[0].polled == Idle && last + TickMs <= ticks[0].now && SpacedIdleTicks(ticks[0].now, ticks[1..]))
  }

  /**
   An idle iteration past the period advances the spinner by one frame and
   records the clock, in every state and whatever the channels report.
   */
  lemma IdleTickAdvancesSpinner(app: App, now: nat, inbox: Inbox, engine: Engine, v: Variant)
    requires app.spinnerIdx < |SpinnerChars| && Elapsed(app.lastTick, now) >= TickMs
    ensures var r := Tick(app, TickInput(Idle, now, inbox), engine, v);
      r.spinnerIdx == (app.spinnerIdx + 1) % |SpinnerChars| && r.lastTick == now && r.running == app.running
  {
  }

  /** `n` spaced idle iterations move the spinner `n` frames forward, cyclically. */
  lemma {:induction false} IdleTicksCycleSpinner(app: App, ticks: seq<TickInput>, engine: Engine, v: Variant)
    requires app.running && app.spinnerIdx < |SpinnerChars|
    requires SpacedIdleTicks(app.lastTick, ticks)
    ensures Run(app, ticks, engine, v).spinnerIdx == (app.spinnerIdx + |ticks|) % |SpinnerChars|
    decreases |ticks|
  {
    if ticks != [] {
      var t := ticks[0];
      assert t == TickInput(Idle, t.now, t.inbox);
      IdleTickAdvancesSpinner(app, t.now, t.inbox, engine, v);
      var next := Tick(app, t, engine, v);
      IdleTicksCycleSpinner(next, ticks[1..], engine, v);
      RunStep(app, ticks, engine, v);
      SpinnerShift(app.spinnerIdx + 1, |ticks| - 1);
    }
  }

  /** A running application takes the first iteration, then runs the rest. */
  lemma RunStep(app: App, ticks: seq<TickInput>, engine: Engine, v: Variant)
    requires app.running && ticks != []
    ensures Run(app, ticks, engine, v) == Run(Tick(app, ticks[0], engine, v), ticks[1..], engine, v)
  {
  }

  lemma SpinnerShift(a: nat, b: nat)
    ensures (a % |SpinnerChars| + b) % |SpinnerChars| == (a + b) % |SpinnerChars|
  {
  }
}
