/** The settings store: the documents directory the user chose, and whether it has been
    fetched from the host once. Only `initialized` is saved between sessions.

    Every host call (`set_document_path`, `get_document_path`, the directory picker) is an
    input carrying its outcome. */
module Settings {
  import opened Wrappers
  import opened Text

  /** The outcome of a host command: its value, or the error it was rejected with. */
  datatype HostResult<T> = Ok(value: T) | Err(error: string)

  /** What the directory picker resolved to. */
  datatype PickerResult =
    | Cancelled
    | Picked(path: string)
    | PickedMany(paths: seq<string>)
    | PickerFailed(error: string)

  /** The part of the store that is saved: `partialize` keeps `initialized` only. */
  datatype Persisted = Persisted(initialized: bool)

  function Partialize(documentPath: Option<string>, initialized: bool): (saved: Persisted)
    ensures saved.initialized == initialized
  {
    Persisted(initialized)
  }

  /** The saved state does not depend on the chosen directory. */
  lemma PartializeForgetsPath(a: Option<string>, b: Option<string>, initialized: bool)
    ensures Partialize(a, initialized) == Partialize(b, initialized)
  {
  }

  /** `defaultPath: get().documentPath || undefined`: an empty path opens no default. */
  function PickerDefault(documentPath: Option<string>): (r: Option<string>)
    ensures r.Some? <==> documentPath.Some? && documentPath.value != ""
    ensures r.Some? ==> r == documentPath
  {
    match documentPath
    case Some(p) => if p == "" then None else Some(p)
    case None => None
  }

  /** `selected && typeof selected === "string"`: only one non-empty path is taken. */
  function PickedPath(selected: PickerResult): (r: Option<string>)
    ensures r.Some? <==> selected.Picked? && selected.path != ""
    ensures r.Some? ==> r.value == selected.path
  {
    match selected
    case Picked(p) => if p == "" then None else Some(p)
    case _ => None
  }

  class SettingsStore {
    var documentPath: Option<string>
    var initialized: bool

    constructor()
      ensures documentPath == None && !initialized
    {
      documentPath := None;
      initialized := false;
    }

    /** A reload: the initial state with the saved `initialized` merged in. */
    constructor Rehydrate(saved: Persisted)
      ensures documentPath == None && initialized == saved.initialized
    {
      documentPath := None;
      initialized := saved.initialized;
    }

    /** `setDocumentPath`: the path is stored only once the host accepted it; a rejection
        is rethrown and leaves the store as it was. */
    method SetDocumentPath(path: string, host: HostResult<()>) returns (thrown: Option<string>)
      modifies this
      ensures initialized == old(initialized)
      ensures host.Ok? ==> documentPath == Some(path) && thrown == None
      ensures host.Err? ==> documentPath == old(documentPath) && thrown == Some(host.error)
    {
      match host {
        case Ok(_) =>
          documentPath := Some(path);
          thrown := None;
        case Err(e) =>
          thrown := Some(e);
      }
    }

    /** `selectDocumentPath`: the picker opens at the current path; only a single
        non-empty selection is passed on to `setDocumentPath`. A failure of either is
        rethrown. */
    method SelectDocumentPath(picker: PickerResult, host: HostResult<()>)
      returns (defaultPath: Option<string>, thrown: Option<string>)
      modifies this
      ensures defaultPath == PickerDefault(old(documentPath))
      ensures initialized == old(initialized)
      ensures PickedPath(picker).Some? && host.Ok? ==>
                documentPath == PickedPath(picker) && thrown == None
      ensures PickedPath(picker).Some? && host.Err? ==>
                documentPath == old(documentPath) && thrown == Some(host.error)
      ensures picker.PickerFailed? ==> documentPath == old(documentPath) && thrown == Some(picker.error)
      ensures PickedPath(picker).None? && !picker.PickerFailed? ==>
                documentPath == old(documentPath) && thrown == None
    {
      defaultPath := PickerDefault(documentPath);
      if picker.PickerFailed? {
        return defaultPath, Some(picker.error);
      }
      var selected := PickedPath(picker);
      thrown := None;
      if selected.Some? {
        thrown := SetDocumentPath(selected.value, host);
      }
    }

    /** `initializeDocumentPath`: once `initialized` is set nothing happens; otherwise the
        host's path is stored when it answers, and `initialized` is set either way. */
    method InitializeDocumentPath(host: HostResult<string>)
      modifies this
      ensures old(initialized) ==> documentPath == old(documentPath) && initialized
      ensures !old(initialized) ==> initialized
      ensures !old(initialized) && host.Ok? ==> documentPath == Some(host.value)
      ensures !old(initialized) && host.Err? ==> documentPath == old(documentPath)
    {
      if !initialized {
        match host {
          case Ok(path) =>
            documentPath := Some(path);
            initialized := true;
          case Err(_) =>
            initialized := true;
        }
      }
    }
  }

  /** After a session that fetched the path, a reload starts with no path and
      `initialized` set, so the path is never fetched again, whatever the host would say. */
  method PathLostAfterReload(fetched: string, again: HostResult<string>) returns (before: Option<string>, after: Option<string>)
    ensures before == Some(fetched)
    ensures after == None
  {
    var first := new SettingsStore();
    first.InitializeDocumentPath(Ok(fetched));
    before := first.documentPath;
    var saved := Partialize(first.documentPath, first.initialized);
    var second := new SettingsStore.Rehydrate(saved);
    second.InitializeDocumentPath(again);
    after := second.documentPath;
  }
}
