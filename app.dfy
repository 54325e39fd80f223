/** The page component around the store: the file it is bound to, the snapshot
    of the state at the last new/save/load (`initialAbstract`), the "needs save"
    answer given before closing or loading, and the search panel's scan.

    The snapshot is the digest `md5(JSON.stringify(store.state))`; digesting is
    taken to be injective, so the model keeps the state value itself and
    compares states. File contents, the outcome of a write and the file chosen
    in a dialog arrive as parameters. */
module Document {
  import opened Model
  import Js
  import opened TodoStore
  import opened Search

  /** What the read stream delivered: nothing, text that parses to a state, or
      text that does not parse. */
  datatype FileData = NoData | Json(state: StoreState) | Malformed

  /** How `readFile`'s promise settles: resolved, or rejected with the number
      of parse errors. */
  datatype LoadResult = Loaded | LoadFailed(errors: nat)

  /** How `save`'s promise settles: resolved after `data` was written to
      `file`, rejected after the write to `file` failed, or `Pending` when the
      save dialog is dismissed, in which case the promise never settles. */
  datatype SaveResult = Saved(file: string, data: StoreState) | WriteFailed(file: string) | Pending

  class App {
    const store: Store
    var currentFile: Option<string>
    var initialAbstract: Option<StoreState>
    var searchStr: string
    var searchList: seq<Hit>

    /** The component's initial data: no file, no snapshot yet, empty search. */
    constructor ()
      ensures fresh(store) && store.State() == EmptyState
      ensures currentFile == None && initialAbstract == None
      ensures searchStr == "" && searchList == []
    {
      store := new Store();
      currentFile := None;
      initialAbstract := None;
      searchStr := "";
      searchList := [];
    }

    /** The answer to "ask-change-sate-before-quit": the current state differs
        from the snapshot (always so while no snapshot has been taken). */
    function NeedsSave(): (r: bool)
      reads this, store
      ensures initialAbstract == None ==> r
      ensures !r <==> initialAbstract == Some(StoreState(store.list, store.listIndex, store.taskIndex))
    {
      initialAbstract != Some(store.State())
    }

    /** `newFile`: install the empty state and take it as the snapshot. The
        bound file is kept. */
    method NewFile()
      modifies this`initialAbstract, store
      ensures store.State() == EmptyState
      ensures initialAbstract == Some(EmptyState)
      ensures !NeedsSave()
    {
      var defaultStore := EmptyState;
      store.ReplaceState(defaultStore);
      initialAbstract := Some(defaultStore);
    }

    /** `saveFile`: the write's callback; on success the snapshot becomes the
        current state. The target file is not remembered as `currentFile`. */
    method SaveFile(file: string, writeOk: bool) returns (r: SaveResult)
      modifies this`initialAbstract
      ensures r == (if writeOk then Saved(file, store.State()) else WriteFailed(file))
      ensures writeOk ==> initialAbstract == Some(store.State()) && !NeedsSave()
      ensures !writeOk ==> initialAbstract == old(initialAbstract)
    {
      var data := store.State();
      if !writeOk {
        return WriteFailed(file);
      }
      initialAbstract := Some(store.State());
      r := Saved(file, data);
    }

    /** `save`: write to the bound file, or else to the file chosen in the save
        dialog (`saveAs`); a dismissed dialog leaves everything as it was. */
    method Save(dialogFile: Option<string>, writeOk: bool) returns (r: SaveResult)
      modifies this`initialAbstract
      ensures currentFile.None? && dialogFile.None? ==> r == Pending
      // the bound file is the target; only without one is the dialog's file used
      ensures currentFile.Some? ==> r.Saved? || r.WriteFailed?
      ensures currentFile.Some? && (r.Saved? || r.WriteFailed?) ==> r.file == currentFile.value
      ensures currentFile.None? && dialogFile.Some? ==> (r.Saved? || r.WriteFailed?) && r.file == dialogFile.value
      // the file receives the current state, which becomes the snapshot
      ensures r.Saved? <==> (currentFile.Some? || dialogFile.Some?) && writeOk
      ensures r.Saved? ==> r.data == store.State() && initialAbstract == Some(r.data) && !NeedsSave()
      ensures !r.Saved? ==> initialAbstract == old(initialAbstract)
    {
      match currentFile
      case Some(file) =>
        r := SaveFile(file, writeOk);
      case None =>
        match dialogFile
        case Some(file) =>
          r := SaveFile(file, writeOk);
        case None =>
          r := Pending;
    }

    /** `readFile` as written: text that parses replaces the state; then the
        stream's end handler binds the file and takes the snapshot. Its
        parameter `err` hides the error counter and the end event carries no
        argument, so the promise never rejects, a malformed file included. */
    method ReadFile(file: string, data: FileData) returns (r: LoadResult)
      modifies this`currentFile, this`initialAbstract, store
      ensures store.State() == (if data.Json? then data.state else old(store.State()))
      ensures currentFile == Some(file)
      ensures initialAbstract == Some(store.State()) && !NeedsSave()
      ensures r == Loaded
    {
      var err := 0;
      match data {
        case Json(s) =>
          store.ReplaceState(s);
        case Malformed =>
          err := err + 1;
        case NoData =>
      }
      currentFile := Some(file);
      initialAbstract := Some(store.State());
      r := Loaded;
    }

    /** `readFile` as its error counter intends: a malformed file rejects with
        the number of errors and changes nothing, so unsaved edits stay
        unsaved; otherwise it behaves as ReadFile. */
    method ReadFileChecked(file: string, data: FileData) returns (r: LoadResult)
      modifies this`currentFile, this`initialAbstract, store
      ensures data.Malformed? ==>
                && r == LoadFailed(1)
                && store.State() == old(store.State())
                && currentFile == old(currentFile)
                && initialAbstract == old(initialAbstract)
                && NeedsSave() == old(NeedsSave())
      ensures !data.Malformed? ==>
                && r == Loaded
                && store.State() == (if data.Json? then data.state else old(store.State()))
                && currentFile == Some(file)
                && initialAbstract == Some(store.State()) && !NeedsSave()
    {
      var err := 0;
      match data {
        case Json(s) =>
          store.ReplaceState(s);
        case Malformed =>
          err := err + 1;
        case NoData =>
      }
      if err > 0 {
        return LoadFailed(err);
      }
      currentFile := Some(file);
      initialAbstract := Some(store.State());
      r := Loaded;
    }

    /** The start-up step of `created`: no file argument (or ".") starts a new
        document, anything else is read. */
    method Startup(fileArg: Option<string>, data: FileData)
      modifies this`currentFile, this`initialAbstract, store
      ensures !NeedsSave()
      ensures fileArg == None || fileArg == Some(".") ==>
                store.State() == EmptyState && currentFile == old(currentFile)
      ensures fileArg != None && fileArg != Some(".") ==>
                && currentFile == fileArg
                && store.State() == (if data.Json? then data.state else old(store.State()))
    {
      if fileArg == None || fileArg == Some(".") {
        NewFile();
      } else {
        var _ := ReadFile(fileArg.value, data);
      }
    }

    /** `search`: scan every list and every task, pushing an entry for each task
        whose list name, title or content the query matches. A non-blank query
        that is not a valid pattern (`compiles` is false) makes `new RegExp`
        throw before `searchList` is assigned, so the previous result stays. */
    method Search(matches: (string, string) -> bool, compiles: string -> bool)
      modifies this`searchList
      ensures Js.Blank(searchStr) || compiles(searchStr) ==>
                searchList == SearchResult(searchStr, store.list, matches)
      ensures !Js.Blank(searchStr) && !compiles(searchStr) ==> searchList == old(searchList)
    {
      if Js.Trim(searchStr) != [] {
        if !compiles(searchStr) {
          return;
        }
        searchList := Scan(searchStr, store.list, matches);
      } else {
        searchList := [];
      }
    }

    /** The `searchStr` watcher: each change of the query runs the scan at once
        (the watcher builds a fresh throttle per change, whose first call is
        never delayed). */
    method SetSearchStr(query: string, matches: (string, string) -> bool, compiles: string -> bool)
      modifies this`searchStr, this`searchList
      ensures searchStr == query
      ensures Js.Blank(query) || compiles(query) ==> searchList == SearchResult(query, store.list, matches)
      ensures !Js.Blank(query) && !compiles(query) ==> searchList == old(searchList)
    {
      searchStr := query;
      Search(matches, compiles);
    }
  }

  /** The discrepancy in ReadFile, on a concrete run: after an edit the
      document needs saving; reading a malformed file then reports success
      although nothing was loaded, binds the window to that file while the old
      document stays shown, and takes that document as the snapshot, so "needs
      save" is cleared and the next save writes it over the broken file. */
  method MalformedLoadHidesEdit() returns (app: App, r: LoadResult)
    ensures r == Loaded
    ensures app.store.list == [ListItem(UntitledList, [])]
    ensures app.currentFile == Some("broken.todo")
    ensures !app.NeedsSave()
  {
    app := new App();
    app.NewFile();
    app.store.AddListItem();
    assert app.NeedsSave();
    r := app.ReadFile("broken.todo", Malformed);
  }

  /** The same run with ReadFileChecked: the load is rejected and the edit
      still needs saving. */
  method MalformedLoadKeepsEdit() returns (app: App, r: LoadResult)
    ensures r == LoadFailed(1)
    ensures app.store.list == [ListItem(UntitledList, [])]
    ensures app.currentFile == None
    ensures app.NeedsSave()
  {
    app := new App();
    app.NewFile();
    app.store.AddListItem();
    r := app.ReadFileChecked("broken.todo", Malformed);
  }
}
