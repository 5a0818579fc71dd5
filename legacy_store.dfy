/**
 * The legacy migration_state module: a local-only ledger that is recreated
 * from a fixed two-stage template on every run, looked up strictly (a
 * missing key is an error), and written whenever the stored status differs
 * from the requested one.
 */
module LegacyStore {
  import opened Wrappers
  import opened StateDocument

  /** `init_state_file`: the template every run starts from. */
  function InitialDocument(): (d: Document)
    ensures d.version == "v1"
    ensures d.stages == Some(map["first" := Completed, "second" := Started])
  {
    Document(SchemaVersion, Some(map["first" := Completed, "second" := Started]))
  }

  /** Local files by path. */
  type Files = map<string, Document>

  /** `state["stages"][key]`: fails on a missing "stages" member or a missing key. */
  function StrictLookup(doc: Document, key: string): (r: Result<Status, StoreError>)
    ensures r.Ok? <==> doc.stages.Some? && key in doc.stages.value
    ensures r.Ok? ==> r.value == doc.stages.value[key]
    ensures doc.stages.None? ==> r == Err(StagesMissing)
    ensures doc.stages.Some? && key !in doc.stages.value ==> r == Err(KeyMissing(key))
  {
    match doc.stages
    case None => Err(StagesMissing)
    case Some(stages) => if key in stages then Ok(stages[key]) else Err(KeyMissing(key))
  }

  /** What `_read_state_file` returns or raises. */
  function Fetched(files: Files, path: string): Result<Document, StoreError>
  {
    if path in files then Ok(files[path]) else Err(FileNotFound(path))
  }

  /** What `_get_state_key` returns or raises. */
  function KeyStatus(files: Files, path: string, key: string): Result<Status, StoreError>
  {
    var doc :- Fetched(files, path);
    StrictLookup(doc, key)
  }

  /** What `_set_state_key` returns or raises, and the files afterwards. */
  function KeySet(files: Files, path: string, key: string, value: Status): (Result<Document, StoreError>, Files)
  {
    match Fetched(files, path)
    case Err(e) => (Err(e), files)
    case Ok(doc) =>
      match WithStage(doc, key, value)
      case Err(e) => (Err(e), files)
      case Ok(doc') => (Ok(doc'), files[path := doc'])
  }

  /** The result `main` hands to `exit_json`: the status read before any write. */
  datatype Report = Report(name: string, state: Status)

  /** A whole run of `main`: recreate, read the key, write if it differs. */
  function Ran(files: Files, path: string, name: string, desired: Status): (Result<Report, StoreError>, Files)
  {
    var f1 := files[path := InitialDocument()];
    match KeyStatus(f1, path, name)
    case Err(e) => (Err(e), f1)
    case Ok(status) =>
      if status == desired then (Ok(Report(name, status)), f1)
      else
        var (res, f2) := KeySet(f1, path, name, desired);
        match res
        case Err(e) => (Err(e), f2)
        case Ok(_) => (Ok(Report(name, status)), f2)
  }

  /** The local files the legacy module reads and writes. */
  class LegacyStateFiles {
    var files: Files

    constructor (initial: Files)
      ensures files == initial
    {
      files := initial;
    }

    /** `_create_state_file`: overwrite the file with the template, whatever it held. */
    method CreateStateFile(path: string)
      modifies this
      ensures files == old(files)[path := InitialDocument()]
    {
      files := files[path := InitialDocument()];
    }

    /** `_read_state_file`. */
    method ReadStateFile(path: string) returns (r: Result<Document, StoreError>)
      ensures r == Fetched(files, path)
      ensures r.Ok? <==> path in files
      ensures r.Ok? ==> r.value == files[path]
    {
      if path in files {
        r := Ok(files[path]);
      } else {
        r := Err(FileNotFound(path));
      }
    }

    /** `_write_state_file`: replace the whole file. */
    method WriteStateFile(path: string, doc: Document)
      modifies this
      ensures files == old(files)[path := doc]
    {
      files := files[path := doc];
    }

    /** `_get_state_key`: the status of a key that must exist. */
    method GetKey(path: string, key: string) returns (r: Result<Status, StoreError>)
      ensures r == KeyStatus(files, path, key)
    {
      var doc := ReadStateFile(path);
      if doc.Err? {
        return Err(doc.error);
      }
      r := StrictLookup(doc.value, key);
    }

    /** `_set_state_key`: read, change one stage, write the whole document back. */
    method SetKey(path: string, key: string, value: Status) returns (r: Result<Document, StoreError>)
      modifies this
      ensures (r, files) == KeySet(old(files), path, key, value)
    {
      var doc := ReadStateFile(path);
      if doc.Err? {
        return Err(doc.error);
      }
      match doc.value.stages
      case None =>
        r := Err(StagesMissing);
      case Some(stages) =>
        var doc' := doc.value.(stages := Some(stages[key := value]));
        WriteStateFile(path, doc');
        r := Ok(doc');
    }

    /** Lines 486-490 and 576-578 of `main`. */
    method Run(path: string, name: string, desired: Status) returns (r: Result<Report, StoreError>)
      modifies this
      ensures (r, files) == Ran(old(files), path, name, desired)
    {
      CreateStateFile(path);
      var status := GetKey(path, name);
      if status.Err? {
        return Err(status.error);
      }
      if status.value != desired {
        var written := SetKey(path, name, desired);
        if written.Err? {
          return Err(written.error);
        }
      }
      r := Ok(Report(name, status.value));
    }
  }

  // ---------------------------------------------------------------------------
  // Properties of the legacy store.

  /** `_set_state_key` changes only `stages[key]` and persists the document it returns. */
  lemma SetKeyIsolation(files: Files, path: string, key: string, value: Status)
    requires KeySet(files, path, key, value).0.Ok?
    ensures var (r, files') := KeySet(files, path, key, value);
            && path in files && files' == files[path := r.value]
            && r.value.version == files[path].version
            && StrictLookup(r.value, key) == Ok(value)
            && (forall k :: k != key ==> StrictLookup(r.value, k) == StrictLookup(files[path], k))
  {
  }

  /**
   * A run whose key is one of the two template stages reports the template's
   * status (read before any write) and leaves the file as the template with
   * that stage set to the requested status, whatever the file held before.
   */
  lemma RunKnownKey(files: Files, path: string, name: string, desired: Status)
    requires name == "first" || name == "second"
    ensures Ran(files, path, name, desired)
         == (Ok(Report(name, InitialDocument().stages.value[name])),
             files[path := WithStage(InitialDocument(), name, desired).value])
  {
    var f1 := files[path := InitialDocument()];
    assert KeyStatus(f1, path, name) == Ok(InitialDocument().stages.value[name]);
    var doc' := WithStage(InitialDocument(), name, desired).value;
    if InitialDocument().stages.value[name] == desired {
      WithStageUnchangedValue(InitialDocument(), name);
      assert f1 == files[path := doc'];
    } else {
      assert Fetched(f1, path) == Ok(InitialDocument());
      assert f1[path := doc'] == files[path := doc'];
    }
  }

  /** Any other key fails, after the file has already been reset to the template. */
  lemma RunUnknownKey(files: Files, path: string, name: string, desired: Status)
    requires name != "first" && name != "second"
    ensures Ran(files, path, name, desired) == (Err(KeyMissing(name)), files[path := InitialDocument()])
  {
    assert KeyStatus(files[path := InitialDocument()], path, name) == Err(KeyMissing(name));
  }

  /** The prior contents of the file never influence a run. */
  lemma RunDiscardsHistory(files: Files, other: Files, path: string, name: string, desired: Status)
    ensures Ran(files, path, name, desired).0 == Ran(other, path, name, desired).0
    ensures Ran(files, path, name, desired).1[path] == Ran(other, path, name, desired).1[path]
  {
    if name == "first" || name == "second" {
      RunKnownKey(files, path, name, desired);
      RunKnownKey(other, path, name, desired);
    } else {
      RunUnknownKey(files, path, name, desired);
      RunUnknownKey(other, path, name, desired);
    }
  }

  /** There is no sticky completion: the completed stage "first" is reopened on request. */
  lemma CompletedCanBeReopened(files: Files, path: string)
    ensures var (r, files') := Ran(files, path, "first", Started);
            && r == Ok(Report("first", Completed))
            && files'[path].stages == Some(map["first" := Started, "second" := Started])
  {
    RunKnownKey(files, path, "first", Started);
    assert map["first" := Completed, "second" := Started]["first" := Started]
        == map["first" := Started, "second" := Started];
  }
}
