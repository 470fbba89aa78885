/**
 The entries of the command palette (src/app/command_palette.rs:10-14). The
 Rust entry stores a boxed closure that it calls through a raw pointer; here
 the action is a tag that `CommandPalette.RunAction` dispatches by `match`.
 */
module Commands {

  datatype CommandAction = SearchCommand | IndexVectorsCommand | OpenConfigCommand | QuitCommand

  datatype CommandItem = CommandItem(name: string, description: string, action: CommandAction)

  /** The fixed menu built by `enter_command_palette` (src/app/core.rs:149-182). */
  const Menu: seq<CommandItem> := [
    CommandItem("Search", "Enter search mode", SearchCommand),
    CommandItem("Index Vectors", "Generate vector embeddings for all markdown files", IndexVectorsCommand),
    CommandItem("Open Config Editor", "Edit configuration file", OpenConfigCommand),
    CommandItem("Quit", "Exit the application", QuitCommand)
  ]
}

/**
 Key handling while the command palette is open
 (src/app/command_palette.rs:24-54) and the effects of the four menu
 actions (src/app/core.rs:148-185).
 */
module CommandPalette {
  import opened Options
  import opened Commands
  import opened AppCore

  /**
   What running one menu action does to the application. Opening the
   configuration editor is a blocking foreground process whose only effect
   on the state is the return to Preview.
   */
  function RunAction(app: App, action: CommandAction): (r: App)
    ensures action == QuitCommand ==> r == app.(running := false)
    ensures action == SearchCommand ==>
      && r.state == Search && r.searchQuery == [] && r.searchResults == []
      && r.selectedSearchIndex == 0 && r.indexPending
    ensures action == IndexVectorsCommand ==>
      && r.state == IndexingVectors && r.vectorPending && !r.vectorComplete
      && r.vectorSuccessTime == None && r.vectorStatus == Some(VectorStartText)
    ensures action == OpenConfigCommand ==> r == app.(state := Preview)
    ensures action != QuitCommand ==> r.running == app.running
    ensures r.commandItems == app.commandItems && r.selectedCommandIndex == app.selectedCommandIndex
    ensures Valid(app) && app.commandItems == Menu ==> Valid(r)
  {
    match action
    case SearchCommand => EnterSearchMode(app).(state := Search)
    case IndexVectorsCommand => EnterVectorIndexingMode(app)
    case OpenConfigCommand => app.(state := Preview)
    case QuitCommand => Quit(app)
  }

  /** command_palette.rs:29-53. */
  function HandleCommandPaletteKey(app: App, code: KeyCode): (r: App)
    ensures code == Esc ==> r == app.(state := Preview)
    ensures code == Up ==>
      r == app.(selectedCommandIndex := if app.selectedCommandIndex > 0 then app.selectedCommandIndex - 1
                                        else app.selectedCommandIndex)
    ensures code == Down ==>
      r == app.(selectedCommandIndex := if app.selectedCommandIndex + 1 < |app.commandItems|
                                        then app.selectedCommandIndex + 1 else app.selectedCommandIndex)
    ensures code == Enter && app.selectedCommandIndex >= |app.commandItems| ==> r == app
    ensures code == Enter && app.selectedCommandIndex < |app.commandItems| ==>
      r == RunAction(app, app.commandItems[app.selectedCommandIndex].action)
    ensures code !in {Esc, Up, Down, Enter} ==> r == app
    ensures Valid(app) ==> Valid(r)
  {
    match code
    case Esc => app.(state := Preview)
    case Up =>
      if app.selectedCommandIndex > 0 then app.(selectedCommandIndex := app.selectedCommandIndex - 1) else app
    case Down =>
      if app.selectedCommandIndex + 1 < |app.commandItems|
      then app.(selectedCommandIndex := app.selectedCommandIndex + 1) else app
    case Enter =>
      if app.selectedCommandIndex < |app.commandItems|
      then RunAction(app, app.commandItems[app.selectedCommandIndex].action) else app
    case _ => app
  }
}
