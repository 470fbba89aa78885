# notemancy-console core in Dafny

A Dafny model of the control plane of the notemancy terminal notes browser.
The browser scans a notes directory, builds a search index and a vector
index in background workers, and lets the user search and open notes.
The model covers three parts:

- **The application state machine** (`src/app/core.rs`). `App` is an
  immutable record with an `AppState` tag (`Starting | Scanning | Preview |
  Indexing | Search | CommandPalette | IndexingVectors`) and the flat
  fields of the Rust struct. Each thing the control loop does is a pure
  step function: key handling in Search and in the other states, routing
  with the global Ctrl+S / Ctrl+E intercepts, entering a mode, refreshing
  search results, advancing the spinner, and draining the scan,
  search-index and vector-index channels. One loop iteration is
  `EventLoop.Tick`, and `EventLoop.Run` folds it over a finite sequence of
  iterations while `running` holds. `Drain`, `Tick` and `Run` take a
  `Variant`. `AsWritten` runs the vector-index drain exactly as the code
  writes it. `Corrected` runs the drain with the grace period the code
  evidently intends (see "Findings").
- **The command palette** (`src/app/command_palette.rs`). Esc, Up/Down and
  Enter over the fixed four-entry menu. The Rust code stores each action as
  a boxed closure and calls it through a raw pointer. Here each action is a
  tag (`Search | IndexVectors | OpenConfig | Quit`), dispatched by `match`.
- **Two text transforms** (`src/app/highlight.rs`). `HighlightMatches`
  splits each styled span around the case-insensitive, leftmost,
  non-overlapping occurrences of the search query. As in the Rust code,
  `Pieces` searches a lower-cased copy of the text for the lower-cased query
  and cuts the original text at the offsets found. `EqualFold` is the
  case-insensitive comparison the results are stated in, and
  `EqualFoldIffLower` connects the two. `AddLineSpacing` puts a
  `" "` line after every line.

Abstractions:

- Each background worker is replaced by its receiver. A flag records
  whether the loop still holds the receiver, and every iteration supplies
  the outcome of one `try_recv`: `Empty | Disconnected | Msg(payload)`.
- The search engine is a parameter `(query, limit) -> Found(results) |
  SearchFailed`. The field `hasEngine` stands for `search_engine.is_some()`.
- `Instant` is a natural-number clock in milliseconds. `elapsed` saturates
  at zero, as Rust's does.

`AppCore.Valid` is the invariant the handlers and the renderer rely on:
- the spinner index addresses a frame;
- a non-empty result list is addressed by the selection;
- the palette selection addresses the menu;
- the palette is shown only with its menu;
- a grace-period timestamp exists only after completion.

`EventLoop.RunKeepsValid` proves that every reachable state satisfies it.

Where the intended behaviour described for the system and the code
disagree, the model follows the code:

- The intended behaviour is that the selection is 0 whenever the result list is empty.
  The code keeps a stale selection when the engine fails
  (`EventLoop.FailedSearchKeepsStaleSelection`). This is harmless, because
  Enter and the renderer look the selection up with a bounds check.
- The described scenario "Ctrl+P, Down once, Enter on Quit" does not match
  the menu order. Down once selects "Index Vectors"; Quit is three Downs
  away (`EventLoop.PaletteDownOnceThenEnter`).
- The described behaviour allows Ctrl+S only from Preview, Search, CommandPalette and
  IndexingVectors. The code intercepts it in every state
  (`EventLoop.CtrlSStartsSearchFromEveryState`).
- The description includes an `InputMode` (Normal/Editing), a `DetailViewMode`
  and a related-files debounce. `src/app/core.rs` defines none of them: its
  Search state types every character into the query. They are not part of
  this model.

## Model

| member | source | states |
|---|---|---|
| Highlight.FindFound | src/app/highlight.rs:224-225 | a position found is an occurrence of the lower-cased query at or after the resume offset, and no occurrence starts between the offset and it |
| Highlight.FindMissing | src/app/highlight.rs:224 | when nothing is found, no occurrence starts anywhere at or after the resume offset |
| Highlight.EqualFoldIffLower | src/app/highlight.rs:222-223 | two strings have equal lower-cased copies exactly when they are equal ignoring case |
| Highlight.OccursLowerIffMatches | src/app/highlight.rs:222-224 | searching the lower-cased copies finds exactly the case-insensitive occurrences in the original text |
| Highlight.PiecesIsLeftmostSplit | src/app/highlight.rs:220-237 | one span's pieces concatenate to its text, none is empty, every highlighted piece equals the query ignoring case, text between matches holds no match, and each match is the leftmost one after the previous match |
| Highlight.LeftmostSplitIsPieces | src/app/highlight.rs:220-237 | any split of the text with those properties is the one the loop computes, so the leftmost split is unique |
| Highlight.PiecesTexts | src/app/highlight.rs:224-237 | the pieces concatenate back to the text from the resume offset on |
| Highlight.PiecesGood | src/app/highlight.rs:224-237 | every piece is non-empty; a highlighted piece equals the query ignoring case; an unhighlighted piece contains no match |
| Highlight.PiecesLeftmost | src/app/highlight.rs:224-237 | every highlighted piece starts at the first match at or after the end of the previous piece, and no match starts inside an unhighlighted piece |
| Highlight.HighlightSpanIsLeftmost | src/app/highlight.rs:219-238 | one span's output is its leftmost split, styled: the outputs concatenate to its content, and each is a black-on-yellow match of the query or unmatched text in the span's own style |
| Highlight.HighlightSpansContents | src/app/highlight.rs:219-238 | the output spans of a line concatenate to the line's text |
| Highlight.HighlightSpansWellSplit | src/app/highlight.rs:219-238 | each output span is a match in the match style or unmatched text in the style of some input span |
| Highlight.HighlightSpansPerSpan | src/app/highlight.rs:219-238 | the output is the concatenation, in order, of each input span's own split |
| Highlight.HighlightMatches | src/app/highlight.rs:217-240 | the output text is exactly the input text in order; every output span is non-empty and is a match in the match style or unmatched text in the style of an input span; the output is each input span's leftmost split in turn; the query must be non-empty |
| Highlight.HighlightSpansAppend | src/app/highlight.rs:219-238 | spans are split independently (a homomorphism over concatenation), so no match crosses an original span boundary |
| Highlight.HighlightSpanNoMatch | src/app/highlight.rs:224-237 | a non-empty span without an occurrence passes through unchanged |
| Highlight.HighlightExample | src/app/highlight.rs:224-237 | searching "aXa" for "x" gives the pieces a, X (black on yellow), a; the unmatched text keeps the span's style |
| Highlight.OccurrenceAcrossSpansNotHighlighted | src/app/highlight.rs:219-238 | "fo" + "o" searched for "FOO" is not highlighted at all |
| Highlight.AddLineSpacing | src/app/highlight.rs:242-249 | twice as many lines; even positions are the inputs in order, odd positions the `" "` line |
| AppCore.Default | src/app/core.rs:61-85 | the initial application is Starting, not running, and satisfies the invariant |
| AppCore.EnterSearchMode | src/app/core.rs:335-347 | shows Indexing, empties query and results, selects 0, arms the index receiver, keeps the other receivers and the invariant |
| AppCore.EnterCommandPalette | src/app/core.rs:148-185 | shows the palette with the four-entry menu and the first entry selected |
| AppCore.EnterVectorIndexingMode | src/app/core.rs:96-108 | shows IndexingVectors with the starting status, clears completion and timestamp, arms the receiver |
| AppCore.Quit | src/app/core.rs:495-497 | clears `running` and nothing else |
| AppCore.PerformSearch | src/app/core.rs:373-395 | an empty query or a successful engine call replaces the results and selects 0; engine failure or no engine clears the results and keeps the selection; only results and selection change; the invariant is kept |
| AppCore.HandleSearchKey | src/app/core.rs:397-432 | Esc goes to Preview; Enter goes to Preview only on a valid selection; a character is appended and Backspace drops the last one before a re-search; Up/Down move the selection by one within the list and change nothing else |
| AppCore.HandleDefaultKey | src/app/core.rs:316-323 | Esc, `q` or exactly Ctrl+`c`/`C` quit; exactly Ctrl+`p` opens the palette; every other key changes nothing |
| AppCore.AdvanceSpinner | src/app/core.rs:231-234 | after a full period the next frame (cyclically) is shown and the clock is recorded; otherwise nothing changes |
| AppCore.ApplyVectorStatus | src/app/core.rs:239-252 | "SUCCESS" sets the success text, completion and the time; an "Error..." text is kept and sets completion and time; other text only updates the status |
| AppCore.ExpireGrace | src/app/core.rs:261-267 | once 2000 ms have elapsed since completion the state is Preview and the timestamp is cleared; before that nothing changes |
| AppCore.DrainVectorAsWritten | src/app/core.rs:236-268 | the drain as written: only in IndexingVectors; a terminal status completes with a timestamp, and a disconnect always drops the receiver and returns to Preview |
| AppCore.DrainVector | src/app/core.rs:236-268 | the drain with the intended grace period: a disconnect before completion returns to Preview; progress updates the status; a terminal status completes and stays on screen |
| AppCore.ReceiveVector | src/app/core.rs:237-259 | a status is applied; a disconnect drops the receiver and returns to Preview unless told to stay; only the vector fields and the state change; the invariant is kept |
| AppCore.ReceiveScan | src/app/core.rs:272-283 | a scan message shows Preview and drops the receiver; only a successful scan stores files and summary; a failed one changes nothing else |
| AppCore.DrainScan | src/app/core.rs:270-288 | any message shows Preview and drops the receiver; only a successful scan stores files and summary; a disconnect only drops the receiver; Empty changes nothing |
| AppCore.DrainIndex | src/app/core.rs:290-295 | the completion signal moves to Search and drops the receiver; anything else changes nothing |
| CommandPalette.RunAction | src/app/core.rs:148-185 | Search ends in Search with an empty query and results and the index receiver armed; Index Vectors starts vector indexing; Open Config returns to Preview; Quit only clears `running` |
| CommandPalette.HandleCommandPaletteKey | src/app/command_palette.rs:24-54 | Esc shows Preview; Up/Down move within the menu; Enter runs the selected action or does nothing out of range; other keys change nothing |
| EventLoop.HandleKey | src/app/core.rs:304-314 | in Search no key stops the application and the only state a key can leave for is Preview; in no state does a key restart a stopped application |
| EventLoop.RouteKey | src/app/core.rs:214-228 | only presses count; Ctrl+S (any state) clears the query and results and waits for the index; Ctrl+E leaves the state alone; everything else is dispatched by state |
| EventLoop.SearchKeyStaysOrPreviews | src/app/core.rs:397-432 | in Search no key stops the application, and the only state it can leave for is Preview |
| EventLoop.KeyEffectsByState | src/app/core.rs:304-323 | outside Search and the palette a key only opens the palette or stops; the palette ignores other keys; no key restarts a stopped application |
| EventLoop.StopsOnlyOnQuitCommand | src/app/core.rs:214-228 | a running application stops on a key exactly when it is a quit key outside Search and the palette, or Enter on the palette's Quit entry |
| EventLoop.Drain | src/app/core.rs:236-295 | with either vector drain, the three drains keep the invariant and leave `running`, the spinner and its clock alone |
| EventLoop.Launch | src/app/core.rs:195-210 | start-up arms the scan receiver, shows Scanning and sets `running` |
| EventLoop.Run | src/app/core.rs:211-298 | a stopped application stays as it is; a running one that ends stopped has read a key in some iteration |
| EventLoop.SearchKeyKeepsValid | src/app/core.rs:397-432 | Search keys keep the invariant, in particular a non-empty list stays addressed by the selection |
| EventLoop.Tick | src/app/core.rs:211-296 | after Ctrl+E returns from the editor the iteration changes nothing, drains included; `running` changes only in an iteration that read a key, and only to false |
| EventLoop.TickKeepsValid | src/app/core.rs:211-296 | one loop iteration keeps the invariant |
| EventLoop.RunKeepsValid | src/app/core.rs:211-298 | every state reached by the loop satisfies the invariant |
| EventLoop.CtrlSStartsSearchFromEveryState | src/app/core.rs:215-218 | Ctrl+S from any state shows Indexing with an empty query and results and the index receiver armed |
| EventLoop.CtrlEChangesNothing | src/app/core.rs:219-226 | an iteration that reads Ctrl+E leaves the application unchanged, channels undrained |
| EventLoop.ChordsAreTypedInSearch | src/app/core.rs:309-310 | in Search, Ctrl+C, Ctrl+P and Ctrl+Q append 'c', 'p', 'q' to the query and neither quit nor open the palette |
| EventLoop.QuitKeysOutsideSearch | src/app/core.rs:316-319 | outside Search and the palette, a quit key clears `running` and nothing else |
| EventLoop.CtrlPOpensPalette | src/app/core.rs:320 | outside Search and the palette, Ctrl+P opens the palette on its first entry |
| EventLoop.SearchNavigationStaysInRange | src/app/core.rs:420-429 | Up/Down keep a valid selection valid; Up at 0 and Down at the last entry are no-ops |
| EventLoop.TypingQueriesEachPrefix | src/app/core.rs:412-415 | typing "foo" queries "f", "fo", "foo" in turn and each time the list holds that query's answer |
| EventLoop.BackspaceOnEmptyQuery | src/app/core.rs:416-419 | Backspace on an empty query keeps it empty and resets the list and selection |
| EventLoop.FailedSearchKeepsStaleSelection | src/app/core.rs:386-394 | a failing engine leaves an empty list with selection 1, and Enter then does nothing |
| EventLoop.PaletteEscKeepsMenu | src/app/command_palette.rs:30-32 | Esc shows Preview and keeps the menu and the selection |
| EventLoop.PaletteNavigationStaysInMenu | src/app/command_palette.rs:33-42 | any run of Up/Down keys keeps the selection inside the four-entry menu |
| EventLoop.PaletteEnterOutOfRange | src/app/command_palette.rs:43-51 | Enter with an out-of-range selection changes nothing |
| EventLoop.PaletteQuitOnlyStopsRunning | src/app/core.rs:175-181 | Enter on entry 3 (Quit) clears `running` and changes nothing else |
| EventLoop.PaletteSearchSkipsIndexingScreen | src/app/core.rs:150-156 | Enter on entry 0 (Search) ends in Search, not Indexing, with empty query and results and the index receiver armed |
| EventLoop.PaletteIgnoresOtherKeys | src/app/command_palette.rs:52 | keys other than Esc, Up, Down and Enter leave the palette unchanged |
| EventLoop.PaletteDownOnceThenEnter | src/app/core.rs:149-182 | Ctrl+P, Down, Enter starts vector indexing; three Downs then Enter quits |
| EventLoop.GracePeriodIsHonoured | src/app/core.rs:261-267 | with the intended drain, after completion the state becomes Preview exactly when 2000 ms have elapsed, never earlier |
| EventLoop.GraceCutShortAsWritten | src/app/core.rs:254-257 | as written, a disconnect 100 ms after "SUCCESS" returns to Preview before the grace period ends |
| EventLoop.VectorProgressOnlyUpdatesStatus | src/app/core.rs:249-251 | a non-terminal status only replaces the status text |
| EventLoop.VectorErrorKeepsText | src/app/core.rs:245-248 | an "Error..." status completes indexing, records the time and keeps the error text |
| EventLoop.ScanFailureFallsBackToPreview | src/app/core.rs:270-288 | a failed scan shows Preview with no files, and a later disconnect changes nothing |
| EventLoop.StartupStates | src/app/core.rs:195-295 | launch, an empty successful scan, Ctrl+S and the index signal go Scanning, Preview, Indexing, Search with empty results |
| EventLoop.StartupToSearch | src/app/core.rs:211-298 | running those three iterations through the loop ends in that Search state |
| EventLoop.IndexSignalForcesSearch | src/app/core.rs:290-295 | the index signal moves to Search even after the user has gone back to Preview |
| EventLoop.IdleTickAdvancesSpinner | src/app/core.rs:231-234 | an idle iteration after a full period advances the spinner by one frame and records the clock, in every state |
| EventLoop.IdleTicksCycleSpinner | src/app/core.rs:211-234 | n idle iterations, each a full period after the previous frame, move the spinner n frames forward, cyclically |

## Left out

- Rendering: `App::draw` (src/app/core.rs:434-493) and all of src/app/ui.rs. The spinner frames are a constant because the Rust field is never reassigned.
- The worker threads (src/app/core.rs:111-145, 199-208, 350-370): thread spawning, tokio runtimes, scanner, database, search-index and embedding calls. Each is represented only by the `try_recv` outcomes of its receiver.
- The external editors: `open_config_in_editor` (Ctrl+E and the palette entry) and `open_file_in_editor` (Enter in Search). They are blocking foreground processes with no effect on the modelled state. src/app/core.rs calls `open_file_in_editor`, but src/config_editor.rs does not define it, so it is not part of this model.
- Diagnostic output (`eprintln!`, `println!`) and the terminal's raw mode.
- EventLoop.Run: models only the exit through `running` becoming false. In the source, an error from `enable_raw_mode()?` (core.rs:192), `event::poll(..)?` or `event::read()?` (core.rs:212-213) or `terminal.draw(..)?` (core.rs:297) also ends `run`, with `running` still true and raw mode left on. Terminal I/O is not modelled, so those exits are not either.
- `set_search_engine` (src/app/core.rs:92-94) and search-engine construction in src/main.rs: represented by the `hasEngine` field.
- The engine as a pure function of (query, limit): an engine whose answers change between calls is not modelled. The limit of 20 is passed, but the model does not assume the engine honours it.
- `SearchResult` title, snippet and floating-point score: a result is an opaque record with a path.
- `highlight_markdown` and `highlight_full_markdown` (src/app/highlight.rs:16-215): folds over the markdown parser's events plus syntax highlighting.
- src/app.rs and src/app/app.rs: earlier copies of the same state machine, not used by src/main.rs.
- Input modes, detail-view modes and the related-files debounce: src/app/core.rs defines none of them.
- Key codes beyond those the core inspects: they are collapsed into `OtherKey`.
- Highlight.HighlightMatches: case folding covers ASCII letters only. Rust's `to_lowercase` also folds other letters, and on text where folding changes byte lengths the offsets found in the lower-cased copy can fall inside a character of the original, where Rust's slicing panics. Every claim is made for ASCII-folding semantics.
- Highlight.HighlightMatches: requires a non-empty query. The Rust loop never terminates on an empty query, and its only caller (src/app/ui.rs:94) checks for that.
- `usize` arithmetic: the `+ 1` steps on `spinner_idx`, `selected_search_index` and `selected_command_index` cannot overflow because each is bounded by a short list, so the model uses unbounded naturals.

## Findings

| source | as written | input that shows it | evidently intended | confidence | as-written member | corrected member |
|---|---|---|---|---|---|---|
| src/app/core.rs:254-257 | The vector-index worker drops its sender as soon as it has sent "SUCCESS" or "Error...". On the next iteration `try_recv` reports Disconnected, so the state returns to Preview and the 2 s grace period (core.rs:261-267) is cut short. | "SUCCESS" at t = 0 ms, then Disconnected at t = 100 ms: the state is Preview at 100 ms, not 2000 ms. | After completion a disconnect only drops the receiver, and the grace timer alone returns to Preview. | medium, not executed | AppCore.DrainVectorAsWritten (shown by EventLoop.GraceCutShortAsWritten) | AppCore.DrainVector (proved by EventLoop.GracePeriodIsHonoured; run by EventLoop.Tick with Corrected) |
