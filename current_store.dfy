/**
 * The current migration_state module: a stage ledger kept either in a local
 * JSON file or in an S3 object, read and rewritten whole on every change.
 *
 * Both media are modelled as one map from location to parsed document; a
 * location that is absent from the map holds no file or object.  The backend
 * is the raw string the module receives: only "local" and "s3" are
 * recognised, and any other string falls through every dispatch.
 */
module CurrentStore {
  import opened Wrappers
  import opened StateDocument

  /** `state_template`: what a newly created ledger holds. */
  function EmptyTemplate(): (d: Document)
    ensures d.version == "v1" && d.stages == Some(map[])
  {
    Document(SchemaVersion, Some(map[]))
  }

  /** A file path for the local backend, a bucket and key for S3. */
  datatype Location = LocalFile(path: string) | S3Object(bucket: string, key: string)

  type Backing = map<Location, Document>

  /** The location a backend string addresses; `None` when the string is not recognised. */
  function Target(stateFile: string, backend: string, bucket: string): Option<Location>
  {
    if backend == "local" then Some(LocalFile(stateFile))
    else if backend == "s3" then Some(S3Object(bucket, stateFile))
    else None
  }

  /** The stored state after `init_state_file`. */
  function Initialized(m: Backing, stateFile: string, backend: string, bucket: string): Backing
  {
    if backend == "local" then
      if LocalFile(stateFile) in m then m else m[LocalFile(stateFile) := EmptyTemplate()]
    else if backend == "s3" then
      m[S3Object(bucket, stateFile) := EmptyTemplate()]
    else
      m
  }

  /** What `_read_state_file` returns or raises. */
  function Fetched(m: Backing, stateFile: string, backend: string, bucket: string): Result<Option<Document>, StoreError>
  {
    if backend == "local" then
      if LocalFile(stateFile) in m then Ok(Some(m[LocalFile(stateFile)])) else Err(FileNotFound(stateFile))
    else if backend == "s3" then
      if S3Object(bucket, stateFile) in m then Ok(Some(m[S3Object(bucket, stateFile)]))
      else Err(ObjectNotFound(bucket, stateFile))
    else
      Ok(None)
  }

  /** The stored state after `_write_state_file`. */
  function Stored(m: Backing, doc: Document, stateFile: string, backend: string, bucket: string): Backing
  {
    match Target(stateFile, backend, bucket)
    case Some(loc) => m[loc := doc]
    case None => m
  }

  /** `state.get('stages', {}).get(key, None)`. */
  function Lookup(doc: Document, key: string): (r: Option<Status>)
    ensures r.Some? <==> doc.stages.Some? && key in doc.stages.value
    ensures r.Some? ==> r.value == doc.stages.value[key]
  {
    match doc.stages
    case None => None
    case Some(stages) => if key in stages then Some(stages[key]) else None
  }

  /** What `_get_state_key` returns or raises; a `None` document fails on `.get`. */
  function KeyStatus(m: Backing, stateFile: string, key: string, backend: string, bucket: string): Result<Option<Status>, StoreError>
  {
    var found :- Fetched(m, stateFile, backend, bucket);
    match found
    case None => Err(NoDocument)
    case Some(doc) => Ok(Lookup(doc, key))
  }

  /** What `_set_state_key` returns or raises, and the stored state afterwards. */
  function KeySet(m: Backing, stateFile: string, key: string, value: Status, backend: string, bucket: string): (Result<Document, StoreError>, Backing)
  {
    match Fetched(m, stateFile, backend, bucket)
    case Err(e) => (Err(e), m)
    case Ok(None) => (Err(NoDocument), m)
    case Ok(Some(doc)) =>
      match WithStage(doc, key, value)
      case Err(e) => (Err(e), m)
      case Ok(doc') => (Ok(doc'), Stored(m, doc', stateFile, backend, bucket))
  }

  /** The outcome of the decision block of `main`: what it reports and whether it writes. */
  datatype Decision = Decision(final: Option<Status>, changed: bool, write: bool)

  /**
   * Given the stored status, the requested one and `read_state`: a read-only
   * run reports the stored status; a completed stage stays completed; otherwise
   * the requested status is reported, and written only when it differs.
   */
  function Decide(stored: Option<Status>, desired: Status, readState: bool): (d: Decision)
    ensures d.changed == d.write
    ensures readState ==> !d.write && d.final == stored
    ensures !readState && stored == Some(Completed) ==> !d.write && d.final == Some(Completed)
    ensures !readState && stored != Some(Completed) ==>
              d.final == Some(desired) && (d.write <==> stored != Some(desired))
    ensures d.write ==> stored != Some(Completed) && stored != Some(desired)
  {
    if readState then Decision(stored, false, false)
    else if stored == Some(Completed) then Decision(Some(Completed), false, false)
    else if stored != Some(desired) then Decision(Some(desired), true, true)
    else
      assert stored == Some(desired) && desired != Completed;
      Decision(Some(Started), false, false)
  }

  /** The status a stage holds after a decision has been carried out. */
  function After(stored: Option<Status>, desired: Status, d: Decision): Option<Status>
  {
    if d.write then Some(desired) else stored
  }

  /** Completion is terminal, and a stage only ever moves forward. */
  lemma DecideTransitions(stored: Option<Status>, desired: Status, readState: bool)
    ensures var d := Decide(stored, desired, readState);
            var next := After(stored, desired, d);
            && (stored == Some(Completed) ==> next == Some(Completed))
            && (stored == Some(Started) ==> next == Some(Started) || next == Some(Completed))
            && (next == None <==> stored == None && !d.write)
  {
  }

  /** The result `main` hands to `exit_json`. */
  datatype Report = Report(name: string, state: Option<Status>, changed: bool)

  /** A whole run of `main`: initialise, read the key, decide, possibly write. */
  function Ran(m: Backing, name: string, desired: Status, stateFile: string, backend: string,
               bucket: string, readState: bool): (Result<Report, StoreError>, Backing)
  {
    var m1 := Initialized(m, stateFile, backend, bucket);
    match KeyStatus(m1, stateFile, name, backend, bucket)
    case Err(e) => (Err(e), m1)
    case Ok(stored) =>
      var d := Decide(stored, desired, readState);
      if !d.write then (Ok(Report(name, d.final, d.changed)), m1)
      else
        var (res, m2) := KeySet(m1, stateFile, name, desired, backend, bucket);
        match res
        case Err(e) => (Err(e), m2)
        case Ok(_) => (Ok(Report(name, d.final, d.changed)), m2)
  }

  /** Every file and object the module can reach, with the operations it performs on them. */
  class StateStore {
    var objects: Backing

    constructor (initial: Backing)
      ensures objects == initial
    {
      objects := initial;
    }

    /** `_create_local_state_file`: (over)write the template at a path and return the path. */
    method CreateLocal(path: string) returns (created: string)
      modifies this
      ensures objects == old(objects)[LocalFile(path) := EmptyTemplate()]
      ensures created == path
    {
      objects := objects[LocalFile(path) := EmptyTemplate()];
      created := path;
    }

    /** `_create_s3_state_file`: put the template at bucket/key and return "bucket/key". */
    method CreateS3(bucket: string, key: string) returns (created: string)
      modifies this
      ensures objects == old(objects)[S3Object(bucket, key) := EmptyTemplate()]
      ensures created == bucket + "/" + key
    {
      objects := objects[S3Object(bucket, key) := EmptyTemplate()];
      created := bucket + "/" + key;
    }

    /**
     * `init_state_file`: a local file is created only when missing, an S3
     * object is always replaced, any other backend does nothing.  Returns what
     * was created, or `None`.
     */
    method Init(stateFile: string, backend: string, bucket: string) returns (created: Option<string>)
      modifies this
      ensures objects == Initialized(old(objects), stateFile, backend, bucket)
      ensures created.Some? <==>
                (backend == "local" && LocalFile(stateFile) !in old(objects)) || backend == "s3"
      ensures backend == "local" && created.Some? ==> created.value == stateFile
      ensures backend == "s3" ==> created == Some(bucket + "/" + stateFile)
    {
      created := None;
      if backend == "local" {
        if LocalFile(stateFile) !in objects {
          var path := CreateLocal(stateFile);
          created := Some(path);
        }
      } else if backend == "s3" {
        var name := CreateS3(bucket, stateFile);
        created := Some(name);
      }
    }

    /** `_read_state_file`: the document at the location, `None` for an unknown backend. */
    method Read(stateFile: string, backend: string, bucket: string) returns (r: Result<Option<Document>, StoreError>)
      ensures r == Fetched(objects, stateFile, backend, bucket)
      ensures r.Ok? && r.value.Some? ==>
                Target(stateFile, backend, bucket).Some?
                && objects[Target(stateFile, backend, bucket).value] == r.value.value
    {
      if backend == "local" {
        if LocalFile(stateFile) in objects {
          r := Ok(Some(objects[LocalFile(stateFile)]));
        } else {
          r := Err(FileNotFound(stateFile));
        }
      } else if backend == "s3" {
        if S3Object(bucket, stateFile) in objects {
          r := Ok(Some(objects[S3Object(bucket, stateFile)]));
        } else {
          r := Err(ObjectNotFound(bucket, stateFile));
        }
      } else {
        r := Ok(None);
      }
    }

    /** `_write_state_file`: replace the whole document at the location. */
    method Write(doc: Document, stateFile: string, backend: string, bucket: string)
      modifies this
      ensures objects == Stored(old(objects), doc, stateFile, backend, bucket)
    {
      if backend == "local" {
        objects := objects[LocalFile(stateFile) := doc];
      } else if backend == "s3" {
        objects := objects[S3Object(bucket, stateFile) := doc];
      }
    }

    /** `_get_state_key`: the stored status of one key; it never writes. */
    method GetKey(stateFile: string, key: string, backend: string, bucket: string) returns (r: Result<Option<Status>, StoreError>)
      ensures r == KeyStatus(objects, stateFile, key, backend, bucket)
    {
      var found := Read(stateFile, backend, bucket);
      if found.Err? {
        return Err(found.error);
      }
      match found.value
      case None =>
        r := Err(NoDocument);
      case Some(doc) =>
        r := Ok(Lookup(doc, key));
    }

    /** `_set_state_key`: read, change one stage, write the whole document back. */
    method SetKey(stateFile: string, key: string, value: Status, backend: string, bucket: string)
      returns (r: Result<Document, StoreError>)
      modifies this
      ensures (r, objects) == KeySet(old(objects), stateFile, key, value, backend, bucket)
    {
      var found := Read(stateFile, backend, bucket);
      if found.Err? {
        return Err(found.error);
      }
      if found.value.None? {
        return Err(NoDocument);
      }
      var doc := found.value.value;
      match doc.stages
      case None =>
        r := Err(StagesMissing);
      case Some(stages) =>
        var doc' := doc.(stages := Some(stages[key := value]));
        Write(doc', stateFile, backend, bucket);
        r := Ok(doc');
    }

    /** Lines 215-232 of `main`, with the arguments it reads from its parameters. */
    method Run(name: string, desired: Status, stateFile: string, backend: string, bucket: string, readState: bool)
      returns (r: Result<Report, StoreError>)
      modifies this
      ensures (r, objects) == Ran(old(objects), name, desired, stateFile, backend, bucket, readState)
    {
      var changed := false;
      var finalState := Some(Started);
      var _ := Init(stateFile, backend, bucket);
      var stored := GetKey(stateFile, name, backend, bucket);
      if stored.Err? {
        return Err(stored.error);
      }
      if readState {
        changed := false;
        finalState := stored.value;
      } else if stored.value == Some(Completed) {
        changed := false;
        finalState := Some(Completed);
      } else if stored.value != Some(desired) {
        var written := SetKey(stateFile, name, desired, backend, bucket);
        if written.Err? {
          return Err(written.error);
        }
        changed := true;
        finalState := Some(desired);
      }
      r := Ok(Report(name, finalState, changed));
    }
  }

  // ---------------------------------------------------------------------------
  // Properties of the store.

  /** Running `init_state_file` a second time changes nothing more. */
  lemma InitIdempotent(m: Backing, stateFile: string, backend: string, bucket: string)
    ensures Initialized(Initialized(m, stateFile, backend, bucket), stateFile, backend, bucket)
         == Initialized(m, stateFile, backend, bucket)
  {
  }

  /** Local init writes the template only where nothing exists, and touches nothing else. */
  lemma LocalInitOnlyWhenAbsent(m: Backing, path: string, bucket: string)
    ensures LocalFile(path) in m ==> Initialized(m, path, "local", bucket) == m
    ensures LocalFile(path) !in m ==> Initialized(m, path, "local", bucket) == m[LocalFile(path) := EmptyTemplate()]
  {
  }

  /** S3 init replaces whatever object was there with the empty template. */
  lemma S3InitOverwrites(m: Backing, key: string, bucket: string)
    ensures Initialized(m, key, "s3", bucket) == m[S3Object(bucket, key) := EmptyTemplate()]
    ensures S3Object(bucket, key) in m && m[S3Object(bucket, key)] != EmptyTemplate() ==>
              Initialized(m, key, "s3", bucket) != m
  {
    assert Initialized(m, key, "s3", bucket)[S3Object(bucket, key)] == EmptyTemplate();
  }

  /** After a write a read returns the document written; other locations keep theirs. */
  lemma ReadAfterWrite(m: Backing, doc: Document, stateFile: string, backend: string, bucket: string)
    requires backend == "local" || backend == "s3"
    ensures Fetched(Stored(m, doc, stateFile, backend, bucket), stateFile, backend, bucket) == Ok(Some(doc))
    ensures forall loc :: loc in m && Some(loc) != Target(stateFile, backend, bucket) ==>
              loc in Stored(m, doc, stateFile, backend, bucket)
              && Stored(m, doc, stateFile, backend, bucket)[loc] == m[loc]
  {
  }

  /**
   * `_set_state_key` leaves `stages[key] == value`, keeps `version` and every
   * other stage, persists the document it returns, and a later read yields it.
   */
  lemma SetKeyIsolation(m: Backing, stateFile: string, key: string, value: Status, backend: string, bucket: string)
    requires KeySet(m, stateFile, key, value, backend, bucket).0.Ok?
    ensures var (r, m') := KeySet(m, stateFile, key, value, backend, bucket);
            var loc := Target(stateFile, backend, bucket).value;
            && loc in m && m' == m[loc := r.value]
            && r.value.version == m[loc].version
            && Lookup(r.value, key) == Some(value)
            && (forall k :: k != key ==> Lookup(r.value, k) == Lookup(m[loc], k))
            && Fetched(m', stateFile, backend, bucket) == Ok(Some(r.value))
  {
    var loc := Target(stateFile, backend, bucket).value;
    assert Fetched(m, stateFile, backend, bucket) == Ok(Some(m[loc]));
  }

  /** A read-only run writes nothing beyond what init writes and reports the stored status. */
  lemma RunReadOnly(m: Backing, name: string, desired: Status, stateFile: string, backend: string, bucket: string)
    ensures var (r, m') := Ran(m, name, desired, stateFile, backend, bucket, true);
            var m1 := Initialized(m, stateFile, backend, bucket);
            && m' == m1
            && match KeyStatus(m1, stateFile, name, backend, bucket)
               case Ok(stored) => r == Ok(Report(name, stored, false))
               case Err(e) => r == Err(e)
  {
  }

  /**
   * On a local ledger, once a stage is completed every run reports it
   * completed, unchanged, and writes nothing, whatever state is requested.
   */
  lemma RunCompletedIsTerminal(m: Backing, name: string, desired: Status, path: string, bucket: string, readState: bool)
    requires LocalFile(path) in m && Lookup(m[LocalFile(path)], name) == Some(Completed)
    ensures Ran(m, name, desired, path, "local", bucket, readState) == (Ok(Report(name, Some(Completed), false)), m)
  {
    assert KeyStatus(m, path, name, "local", bucket) == Ok(Some(Completed));
  }

  /**
   * On an existing local ledger, a run that is not read-only and whose stage is
   * not completed reports the requested status; it writes (and says changed)
   * exactly when the stored status differs, and then only that stage.
   */
  lemma RunWritesOnlyOnChange(m: Backing, name: string, desired: Status, path: string, bucket: string)
    requires LocalFile(path) in m && m[LocalFile(path)].stages.Some?
    requires Lookup(m[LocalFile(path)], name) != Some(Completed)
    ensures var (r, m') := Ran(m, name, desired, path, "local", bucket, false);
            var stored := Lookup(m[LocalFile(path)], name);
            && r.Ok? && r.value.state == Some(desired)
            && (r.value.changed <==> stored != Some(desired))
            && (stored == Some(desired) ==> m' == m)
            && (stored != Some(desired) ==>
                  m' == m[LocalFile(path) := WithStage(m[LocalFile(path)], name, desired).value])
  {
    assert KeyStatus(m, path, name, "local", bucket) == Ok(Lookup(m[LocalFile(path)], name));
  }

  /** A run on a local ledger never changes any other stage or any other location. */
  lemma RunIsolation(m: Backing, name: string, desired: Status, path: string, bucket: string, readState: bool, other: string)
    requires LocalFile(path) in m && other != name
    ensures var m' := Ran(m, name, desired, path, "local", bucket, readState).1;
            && LocalFile(path) in m'
            && Lookup(m'[LocalFile(path)], other) == Lookup(m[LocalFile(path)], other)
            && m'[LocalFile(path)].version == m[LocalFile(path)].version
            && (forall loc :: loc in m && loc != LocalFile(path) ==> loc in m' && m'[loc] == m[loc])
  {
    assert KeyStatus(m, path, name, "local", bucket) == Ok(Lookup(m[LocalFile(path)], name));
  }

  /**
   * The first run on a missing local file creates the template. A read-only
   * run then reports `None`; any other run writes the requested stage and
   * reports it as changed. No other location is touched.
   */
  lemma RunFreshLocal(m: Backing, name: string, desired: Status, path: string, bucket: string, readState: bool)
    requires LocalFile(path) !in m
    ensures Ran(m, name, desired, path, "local", bucket, readState)
         == if readState then (Ok(Report(name, None, false)), m[LocalFile(path) := EmptyTemplate()])
            else (Ok(Report(name, Some(desired), true)),
                  m[LocalFile(path) := Document(SchemaVersion, Some(map[name := desired]))])
  {
    var m1 := Initialized(m, path, "local", bucket);
    assert KeyStatus(m1, path, name, "local", bucket) == Ok(None);
    assert m1[LocalFile(path) := Document(SchemaVersion, Some(map[name := desired]))]
        == m[LocalFile(path) := Document(SchemaVersion, Some(map[name := desired]))];
  }

  /** A run behaves as if it had started from the initialised map, on every backend. */
  lemma RunAfterInit(m: Backing, name: string, desired: Status, stateFile: string, backend: string,
                     bucket: string, readState: bool)
    ensures Ran(m, name, desired, stateFile, backend, bucket, readState)
         == Ran(Initialized(m, stateFile, backend, bucket), name, desired, stateFile, backend, bucket, readState)
  {
    InitIdempotent(m, stateFile, backend, bucket);
  }

  /** Repeating a successful local run reports the same status, unchanged, and writes nothing. */
  lemma {:induction false} RunTwiceLocal(m: Backing, name: string, desired: Status, path: string, bucket: string, readState: bool)
    requires Ran(m, name, desired, path, "local", bucket, readState).0.Ok?
    ensures var (r1, m1) := Ran(m, name, desired, path, "local", bucket, readState);
            var (r2, m2) := Ran(m1, name, desired, path, "local", bucket, readState);
            && m2 == m1
            && r2 == Ok(Report(name, r1.value.state, false))
  {
    var m0 := Initialized(m, path, "local", bucket);
    var loc := LocalFile(path);
    assert loc in m0;
    var (r1, m1) := Ran(m, name, desired, path, "local", bucket, readState);
    assert Initialized(m1, path, "local", bucket) == m1;
    var stored := Lookup(m0[loc], name);
    assert KeyStatus(m0, path, name, "local", bucket) == Ok(stored);
    var d := Decide(stored, desired, readState);
    if d.write {
      assert m1 == m0[loc := WithStage(m0[loc], name, desired).value];
      assert Lookup(m1[loc], name) == Some(desired);
      assert KeyStatus(m1, path, name, "local", bucket) == Ok(Some(desired));
    } else {
      assert m1 == m0;
    }
  }

  /**
   * Because S3 init replaces the object, every S3 run starts from an empty
   * ledger: a writing run always reports the requested status as changed and
   * leaves only that one stage, so completion is never remembered across runs.
   */
  lemma S3RunForgetsHistory(m: Backing, name: string, desired: Status, key: string, bucket: string)
    ensures Ran(m, name, desired, key, "s3", bucket, false)
         == (Ok(Report(name, Some(desired), true)),
             m[S3Object(bucket, key) := Document(SchemaVersion, Some(map[name := desired]))])
  {
    var m1 := Initialized(m, key, "s3", bucket);
    assert KeyStatus(m1, key, name, "s3", bucket) == Ok(None);
    assert m1[S3Object(bucket, key) := Document(SchemaVersion, Some(map[name := desired]))]
        == m[S3Object(bucket, key) := Document(SchemaVersion, Some(map[name := desired]))];
  }

  /** Even a read-only S3 run resets the object to the empty template and reports `None`. */
  lemma S3ReadOnlyResets(m: Backing, name: string, desired: Status, key: string, bucket: string)
    ensures Ran(m, name, desired, key, "s3", bucket, true)
         == (Ok(Report(name, None, false)), m[S3Object(bucket, key) := EmptyTemplate()])
  {
    var m1 := Initialized(m, key, "s3", bucket);
    assert KeyStatus(m1, key, name, "s3", bucket) == Ok(None);
  }

  /** An unrecognised backend creates nothing, reads `None`, and the run fails. */
  lemma RunUnknownBackend(m: Backing, name: string, desired: Status, stateFile: string, backend: string, bucket: string, readState: bool)
    requires backend != "local" && backend != "s3"
    ensures Ran(m, name, desired, stateFile, backend, bucket, readState) == (Err(NoDocument), m)
  {
  }

  /** A local ledger without a "stages" member can be read (the key is absent) but not written. */
  lemma RunWithoutStages(m: Backing, name: string, desired: Status, path: string, bucket: string, readState: bool)
    requires LocalFile(path) in m && m[LocalFile(path)].stages.None?
    ensures Ran(m, name, desired, path, "local", bucket, readState)
         == (if readState then Ok(Report(name, None, false)) else Err(StagesMissing), m)
  {
    assert KeyStatus(m, path, name, "local", bucket) == Ok(None);
  }

  /**
   * A walk through a fresh local ledger: start a stage, complete it, then try
   * to restart it.
   */
  lemma LocalWalkthrough(bucket: string)
    ensures var m0: Backing := map[];
            var (r1, m1) := Ran(m0, "step1", Started, "state.json", "local", bucket, true);
            var (r2, m2) := Ran(m1, "step1", Started, "state.json", "local", bucket, false);
            var (r3, m3) := Ran(m2, "step1", Completed, "state.json", "local", bucket, false);
            var (r4, m4) := Ran(m3, "step1", Started, "state.json", "local", bucket, false);
            && r1 == Ok(Report("step1", None, false))
            && m1 == map[LocalFile("state.json") := EmptyTemplate()]
            && r2 == Ok(Report("step1", Some(Started), true))
            && m2 == map[LocalFile("state.json") := Document("v1", Some(map["step1" := Started]))]
            && r3 == Ok(Report("step1", Some(Completed), true))
            && r4 == Ok(Report("step1", Some(Completed), false))
            && m4 == m3
            && m3 == map[LocalFile("state.json") := Document("v1", Some(map["step1" := Completed]))]
  {
    var f := LocalFile("state.json");
    var m1: Backing := map[f := EmptyTemplate()];
    assert Initialized(map[], "state.json", "local", bucket) == m1;
    assert KeyStatus(m1, "state.json", "step1", "local", bucket) == Ok(None);
    var m2: Backing := map[f := Document("v1", Some(map["step1" := Started]))];
    assert m1[f := Document("v1", Some(map[][("step1") := Started]))] == m2;
    assert Initialized(m1, "state.json", "local", bucket) == m1;
    assert Initialized(m2, "state.json", "local", bucket) == m2;
    assert KeyStatus(m2, "state.json", "step1", "local", bucket) == Ok(Some(Started));
    var m3: Backing := map[f := Document("v1", Some(map["step1" := Completed]))];
    assert map["step1" := Started]["step1" := Completed] == map["step1" := Completed];
    assert m2[f := Document("v1", Some(map["step1" := Completed]))] == m3;
    RunCompletedIsTerminal(m3, "step1", Started, "state.json", bucket, false);
  }
}
