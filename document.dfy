/**
 * The persisted stage ledger: `{"version": ..., "stages": {name: status}}`.
 * Both versions of the module work on this document after it has been parsed
 * from JSON; the byte-level JSON encoding is not part of the model.
 */
module StateDocument {
  import opened Wrappers

  /** The two status strings the module writes: "started" and "completed". */
  datatype Status = Started | Completed

  /**
   * A parsed ledger. `stages` is `None` when the parsed object has no
   * "stages" member at all; nothing validates `version` on read.
   */
  datatype Document = Document(version: string, stages: Option<map<string, Status>>)

  /** What makes one run of either module stop with an exception. */
  datatype StoreError =
    | FileNotFound(path: string)                 // open(..., "r") on a missing file
    | ObjectNotFound(bucket: string, key: string) // get_object on a missing key
    | NoDocument                                 // the read produced None (unknown backend)
    | StagesMissing                              // state["stages"] raised KeyError
    | KeyMissing(key: string)                    // state["stages"][key] raised KeyError

  const SchemaVersion: string := "v1"

  /**
   * `state["stages"][key] = value` on a loaded document: fails when there is no
   * "stages" member, otherwise changes that one entry and nothing else.
   */
  function WithStage(doc: Document, key: string, value: Status): (r: Result<Document, StoreError>)
    ensures r.Err? <==> doc.stages.None?
    ensures r.Err? ==> r.error == StagesMissing
    ensures r.Ok? ==> r.value.version == doc.version
    ensures r.Ok? ==> r.value.stages.Some? && key in r.value.stages.value
                      && r.value.stages.value[key] == value
    ensures r.Ok? ==> r.value.stages.value.Keys == doc.stages.value.Keys + {key}
    ensures r.Ok? ==> forall k :: k in doc.stages.value && k != key ==>
                        r.value.stages.value[k] == doc.stages.value[k]
  {
    match doc.stages
    case None => Err(StagesMissing)
    case Some(stages) => Ok(doc.(stages := Some(stages[key := value])))
  }

  /** Writing the value a key already holds changes nothing. */
  lemma WithStageUnchangedValue(doc: Document, key: string)
    requires doc.stages.Some? && key in doc.stages.value
    ensures WithStage(doc, key, doc.stages.value[key]) == Ok(doc)
  {
    assert doc.stages.value[key := doc.stages.value[key]] == doc.stages.value;
  }

  /** The later of two writes to the same key wins; the earlier leaves no trace. */
  lemma WithStageLastWriteWins(doc: Document, key: string, first: Status, second: Status)
    requires doc.stages.Some?
    ensures WithStage(WithStage(doc, key, first).value, key, second) == WithStage(doc, key, second)
  {
    assert doc.stages.value[key := first][key := second] == doc.stages.value[key := second];
  }

  /** Writes to two different keys commute. */
  lemma WithStageCommutes(doc: Document, k1: string, v1: Status, k2: string, v2: Status)
    requires doc.stages.Some? && k1 != k2
    ensures WithStage(WithStage(doc, k1, v1).value, k2, v2)
         == WithStage(WithStage(doc, k2, v2).value, k1, v1)
  {
    assert doc.stages.value[k1 := v1][k2 := v2] == doc.stages.value[k2 := v2][k1 := v1];
  }
}
