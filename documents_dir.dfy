/** The host side of the documents directory: the directory the user chose (none at
    start-up), the fallback `<app local data>/documents`, and the commands that hand out,
    change, write into and look up paths in it.

    A path is its sequence of components, as the standard library's `Path::components`
    yields them. Directory creation, file writes and existence tests are inputs carrying
    their outcome. */
module DocumentsDir {
  import opened Wrappers
  import opened Text

  datatype Component = RootDir | CurDir | ParentDir | Normal(name: string)
  type Path = seq<Component>

  datatype Result<T> = Ok(value: T) | Err(error: string)

  predicate IsAbsolute(p: Path) {
    |p| > 0 && p[0] == RootDir
  }

  /** `PathBuf::join`: a relative path is appended; an absolute one replaces the base. */
  function Join(base: Path, p: Path): (r: Path)
    ensures IsAbsolute(p) ==> r == p
    ensures !IsAbsolute(p) ==> |r| == |base| + |p| && r[..|base|] == base && r[|base|..] == p
  {
    if IsAbsolute(p) then p else base + p
  }

  /** `Path::starts_with`: a whole-component prefix test. */
  predicate StartsWith(p: Path, base: Path) {
    base <= p
  }

  const DocumentsName: Component := Normal("documents")
  const DirectoryFailedPrefix: string := "Failed to create documents directory: "
  const CreateFailedPrefix: string := "Failed to create directory: "
  const WriteFailedPrefix: string := "Failed to write file: "
  const MissingFileMessage: string := "File does not exist"
  const InvalidPathMessage: string := "Invalid file path"

  /** `ensure_documents_dir`: the chosen directory if there is one, else the fallback under
      the application's local data directory; either way it must be creatable. */
  function EnsureDocumentsDir(stored: Option<Path>, appLocalDataDir: Path, createError: Option<string>): (r: Result<Path>)
    ensures createError.Some? <==> r.Err?
    ensures createError.Some? ==> r.error == DirectoryFailedPrefix + createError.value
    ensures r.Ok? && stored.Some? ==> r.value == stored.value
    ensures r.Ok? && stored.None? ==> r.value == Join(appLocalDataDir, [DocumentsName])
  {
    var dir := match stored
      case Some(path) => path
      case None => Join(appLocalDataDir, [DocumentsName]);
    match createError
    case Some(e) => Err(DirectoryFailedPrefix + e)
    case None => Ok(dir)
  }

  /** The managed `DocumentPath` state. */
  class DocumentPathState {
    var stored: Option<Path>

    constructor()
      ensures stored == None
    {
      stored := None;
    }

    /** `set_document_path`: the new directory is kept only when it could be created. */
    method SetDocumentPath(path: Path, createError: Option<string>) returns (r: Result<()>)
      modifies this
      ensures createError.None? ==> r == Ok(()) && stored == Some(path)
      ensures createError.Some? ==> r == Err(CreateFailedPrefix + createError.value) && stored == old(stored)
    {
      if createError.Some? {
        return Err(CreateFailedPrefix + createError.value);
      }
      stored := Some(path);
      r := Ok(());
    }

    /** `get_document_path`: the directory now in force. The fallback is handed out but
        never stored. */
    method GetDocumentPath(appLocalDataDir: Path, createError: Option<string>) returns (r: Result<Path>)
      ensures createError.Some? <==> r.Err?
      ensures r.Ok? && stored.Some? ==> r.value == stored.value
      ensures r.Ok? && stored.None? ==> r.value == Join(appLocalDataDir, [DocumentsName])
    {
      r := EnsureDocumentsDir(stored, appLocalDataDir, createError);
    }

    /** `save_file`: the name is joined to the directory with no containment test, and the
        written path is returned. */
    method SaveFile(appLocalDataDir: Path, fileName: Path, createError: Option<string>, writeError: Option<string>)
      returns (r: Result<Path>)
      ensures createError.Some? ==> r == Err(DirectoryFailedPrefix + createError.value)
      ensures createError.None? && writeError.Some? ==> r == Err(WriteFailedPrefix + writeError.value)
      ensures createError.None? && writeError.None? ==>
                r == Ok(Join(EnsureDocumentsDir(stored, appLocalDataDir, None).value, fileName))
    {
      var dir := EnsureDocumentsDir(stored, appLocalDataDir, createError);
      if dir.Err? {
        return Err(dir.error);
      }
      var filePath := Join(dir.value, fileName);
      if writeError.Some? {
        return Err(WriteFailedPrefix + writeError.value);
      }
      r := Ok(filePath);
    }

    /** `get_file_path`: the joined path must exist, and only then must it start with the
        directory. */
    method GetFilePath(appLocalDataDir: Path, fileName: Path, createError: Option<string>, existing: set<Path>)
      returns (r: Result<Path>)
      ensures createError.Some? ==> r == Err(DirectoryFailedPrefix + createError.value)
      ensures createError.None? ==>
                var dir := EnsureDocumentsDir(stored, appLocalDataDir, None).value;
                var filePath := Join(dir, fileName);
                (filePath !in existing ==> r == Err(MissingFileMessage)) &&
                (filePath in existing && !StartsWith(filePath, dir) ==> r == Err(InvalidPathMessage)) &&
                (filePath in existing && StartsWith(filePath, dir) ==> r == Ok(filePath))
      ensures r.Ok? ==> r.value in existing
    {
      var dir := EnsureDocumentsDir(stored, appLocalDataDir, createError);
      if dir.Err? {
        return Err(dir.error);
      }
      var filePath := Join(dir.value, fileName);
      if filePath !in existing {
        return Err(MissingFileMessage);
      }
      if !StartsWith(filePath, dir.value) {
        return Err(InvalidPathMessage);
      }
      r := Ok(filePath);
    }
  }

  /** The containment test is lexical: every relative name passes it, `..` components
      included, and only an absolute name outside the directory fails it. */
  lemma ContainmentIsLexical(dir: Path, fileName: Path)
    ensures !IsAbsolute(fileName) ==> StartsWith(Join(dir, fileName), dir)
    ensures IsAbsolute(fileName) ==> (StartsWith(Join(dir, fileName), dir) <==> dir <= fileName)
  {
  }

  /** A name climbing out of the directory with `..` is still handed out. */
  method ParentDirEscapes(app: Path, secret: string, existing: set<Path>) returns (r: Result<Path>)
    requires app + [DocumentsName, ParentDir, Normal(secret)] in existing
    ensures r == Ok(app + [DocumentsName, ParentDir, Normal(secret)])
  {
    var state := new DocumentPathState();
    var dir := Join(app, [DocumentsName]);
    assert !IsAbsolute([DocumentsName]);
    assert Join(dir, [ParentDir, Normal(secret)]) == app + [DocumentsName, ParentDir, Normal(secret)];
    r := state.GetFilePath(app, [ParentDir, Normal(secret)], None, existing);
  }

  /** With no directory chosen, an absolute name outside the fallback directory is
      reported missing when it does not exist, and refused only when it does. */
  method AbsoluteNameLookup(app: Path, fileName: Path, existing: set<Path>) returns (r: Result<Path>)
    requires IsAbsolute(fileName) && !(app + [DocumentsName] <= fileName)
    ensures fileName !in existing ==> r == Err(MissingFileMessage)
    ensures fileName in existing ==> r == Err(InvalidPathMessage)
  {
    var state := new DocumentPathState();
    assert !IsAbsolute([DocumentsName]);
    r := state.GetFilePath(app, fileName, None, existing);
  }

  /** `save_file` with an absolute name writes exactly there, outside any directory that
      is not a prefix of it. */
  lemma AbsoluteNameEscapesSave(dir: Path, fileName: Path)
    requires IsAbsolute(fileName)
    ensures Join(dir, fileName) == fileName
    ensures !(dir <= fileName) ==> !StartsWith(Join(dir, fileName), dir)
  {
  }

  /** `greet`. */
  function Greet(name: string): (r: string)
    ensures |r| == |name| + 39
    ensures r[..7] == "Hello, " && r[7..7 + |name|] == name
    ensures r[7 + |name|..] == "! You've been greeted from Rust!"
  {
    "Hello, " + name + "! You've been greeted from Rust!"
  }

  /** Different names get different greetings. */
  lemma GreetInjective(a: string, b: string)
    requires Greet(a) == Greet(b)
    ensures a == b
  {
    assert |a| == |b|;
    assert a == Greet(a)[7..7 + |a|];
  }
}
