# Stage-state ledger of the `migration_state` Ansible module

The `migration_state` module keeps a small ledger of workflow stages. A
migration playbook uses it to skip stages that already finished when it is
rerun. The ledger is one JSON document, `{"version": "v1", "stages": {name:
"started" | "completed"}}`. Each run of the module reads the whole document,
looks at one stage key, and may write the whole document back.

Two versions of the module exist side by side, and both are modelled here:

- **The current module** (`plugins/modules/migration_state.py`) stores the
  ledger in a local file or in an S3 object. `CurrentStore.StateStore` is a
  class whose one field maps each location (a local path, or a bucket and
  key) to the document stored there. Nothing is stored at a location that is
  missing from the map. Each helper of the module is a method that reads or
  reassigns this field. `Run` plays lines 215-232 of `main`: initialise, read
  the key, decide, and possibly write. Pure functions over the map give the
  specification of every method, and the lemmas about them prove the rules:
  - on a local ledger, completion is sticky;
  - on a local ledger, equal states cause no write;
  - a read-only run writes nothing beyond what init writes;
  - local init leaves an existing ledger alone;
  - S3 init rewrites the object on every run, so on S3 none of the rules
    above survive from one run to the next;
  - setting a key leaves every other key alone.
- **The legacy module** (`library/migration_state.py`) is local only.
  `LegacyStore.LegacyStateFiles` models its file helpers. Its `main`
  recreates the file from a fixed two-stage template on every run, fails on a
  key the template lacks, has no sticky completion, and reports the status it
  read before writing. The same file holds three more routines, which are
  also modelled. The first two are modelled over input that was already
  obtained: the command's output and the parsed plan.
  - `get_workspace_context` (`Workspaces`) parses the output of
    `terraform workspace list`, which it runs itself;
  - `get_diff` (`PlanDiff`) parses a plan's JSON and sorts its resource
    changes into before and after lists, each stably sorted by address;
  - `format_args` (`TerraformArgs`) renders a scalar as Terraform text.

Shared pieces:
- `StateDocument` holds the parsed document and the one-key update both
  modules perform.
- `Text` models the Python string operations these routines rely on:
  `strip`, `split`, `startswith`, `replace` and comparison by code point.

Both modules raise an exception on a missing file or object, and the legacy
module also on a missing stage key. The current module never fails on a
missing key: its lookup (line 186) gives `None` and its update (line 191)
creates the key. Both fail when the document has no `stages` member and a
stage is written. The model returns these failures as `Err` values of
`StoreError`.

Where the module's own documentation and its code differ, the model follows
the code:
- The documentation lists `choices: ['local', 's3']` for `state_backend`, but
  the argument spec (line 200) has none. An unknown backend therefore gets
  through: init does nothing, the read gives `None`, and the lookup then
  fails on `None.get`. `RunUnknownBackend` proves that this run fails.
- Check mode is declared but never consulted, so check mode is not modelled.
- The document's `version` is never validated on read, and the model does not
  validate it either.
- Only local init leaves an existing ledger alone. S3 init writes the empty
  template over the object on every run, so on S3 every run starts from an
  empty ledger, and a completed stage is "forgotten" by the next run.
  `S3RunForgetsHistory` proves this for a writing run and `S3ReadOnlyResets`
  for a read-only one. (Initialising twice in a row still leaves the same map
  on every backend, which `InitIdempotent` states.)

## Model

| member | source | states |
|---|---|---|
| `CurrentStore.EmptyTemplate` | plugins/modules/migration_state.py:116-117 | The current module's template is version `"v1"` with an empty stage map. |
| `StateDocument.WithStage` | plugins/modules/migration_state.py:191 | `state["stages"][key] = value`: fails exactly when the document has no `stages` member. Otherwise the key holds the new value, the key set grows by that key only, every other stage keeps its value, and `version` is unchanged. |
| `StateDocument.WithStageUnchangedValue` | plugins/modules/migration_state.py:191 | Writing the value a key already holds gives back the same document. |
| `StateDocument.WithStageLastWriteWins` | plugins/modules/migration_state.py:191 | Of two writes to one key, the later one wins. |
| `StateDocument.WithStageCommutes` | plugins/modules/migration_state.py:191 | Writes to two different keys commute. |
| `CurrentStore.StateStore.CreateLocal` | plugins/modules/migration_state.py:139-142 | Writes the template (`"v1"`, empty stages) at the path, whatever was there. Returns the path. Nothing else changes. |
| `CurrentStore.StateStore.CreateS3` | plugins/modules/migration_state.py:144-151 | Puts the template at bucket/key, replacing any object there. Returns `"bucket/key"`. |
| `CurrentStore.StateStore.Init` | plugins/modules/migration_state.py:129-137 | Local: creates the template only when the path is absent. S3: always creates it. Any other backend: nothing. It returns a name exactly when it created something: the path for local, `"bucket/key"` for S3. |
| `CurrentStore.StateStore.Read` | plugins/modules/migration_state.py:153-167 | Returns the stored document for local or S3, fails when nothing is stored there, and gives `None` for an unknown backend. It changes nothing. |
| `CurrentStore.StateStore.Write` | plugins/modules/migration_state.py:169-182 | Replaces the whole document at the location. An unknown backend changes nothing. |
| `CurrentStore.Lookup` | plugins/modules/migration_state.py:186 | Returns the status when the document has a `stages` map holding the key. Returns `None` when the key or the whole map is missing. |
| `CurrentStore.StateStore.GetKey` | plugins/modules/migration_state.py:184-187 | Returns the key's status, or `None`. A read failure is propagated. A `None` document gives the `NoDocument` error. It never writes. |
| `CurrentStore.StateStore.SetKey` | plugins/modules/migration_state.py:189-193 | Reads the document, changes one stage, writes the whole document back and returns it. Read failures, a `None` document and a missing `stages` member all fail without writing. |
| `CurrentStore.Decide` | plugins/modules/migration_state.py:215-232 | Read-only: reports the stored status, no write. Stored `completed`: reports `completed`, no write. Otherwise: reports the requested status and writes exactly when it differs from the stored one. `changed` always tells whether a write happened. |
| `CurrentStore.DecideTransitions` | plugins/modules/migration_state.py:226-232 | After a decision, `completed` stays `completed`, `started` stays `started` or becomes `completed`, and a set stage never becomes unset. The stage ends unset exactly when it was unset and nothing was written. |
| `CurrentStore.StateStore.Run` | plugins/modules/migration_state.py:215-232 | Initialises, reads the key, decides and possibly sets it. Its result and the new map are those of `Ran`, the function the lemmas below are about. |
| `CurrentStore.InitIdempotent` | plugins/modules/migration_state.py:129-137 | Initialising twice leaves the same map as initialising once, for every backend. |
| `CurrentStore.LocalInitOnlyWhenAbsent` | plugins/modules/migration_state.py:129-132 | Local init leaves an existing document untouched, and otherwise adds only the template at that path. |
| `CurrentStore.S3InitOverwrites` | plugins/modules/migration_state.py:133-134 | S3 init puts the template at bucket/key, and destroys any other document stored there. |
| `CurrentStore.ReadAfterWrite` | plugins/modules/migration_state.py:153-182 | After a write, a read returns the document written, and every other location keeps its document. |
| `CurrentStore.SetKeyIsolation` | plugins/modules/migration_state.py:189-193 | A successful set stores the returned document at the location and nowhere else. In it the key holds the value, every other key and `version` are unchanged, and a later read returns it. |
| `CurrentStore.RunReadOnly` | plugins/modules/migration_state.py:222-225 | With `read_state`, the run writes nothing beyond init and reports the stored status (possibly `None`) with `changed = false`. |
| `CurrentStore.RunCompletedIsTerminal` | plugins/modules/migration_state.py:226-228 | On a local ledger whose stage is `completed`, every run reports `completed`, unchanged, and leaves the map as it was, whatever is requested. |
| `CurrentStore.RunWritesOnlyOnChange` | plugins/modules/migration_state.py:215-232 | On a local ledger whose stage is not completed, a writing run reports the requested status. It is changed, and writes that one stage, exactly when the stored status differs. Otherwise the map is untouched. |
| `CurrentStore.RunIsolation` | plugins/modules/migration_state.py:229-232 | A local run never changes another stage, the `version`, or any other location. |
| `CurrentStore.RunFreshLocal` | plugins/modules/migration_state.py:129-232 | On a missing local file, the run creates the template. A read-only run then reports `None`, unchanged, and leaves the template there. Any other run writes a ledger holding only the requested stage, and reports that stage as changed. No other location changes. |
| `CurrentStore.RunAfterInit` | plugins/modules/migration_state.py:218-232 | A run from any map behaves exactly as a run from the initialised map, on every backend. Together with `RunWritesOnlyOnChange`, `RunIsolation` and `RunFreshLocal`, this covers both an existing and a missing local file. |
| `CurrentStore.RunTwiceLocal` | plugins/modules/migration_state.py:215-232 | Repeating a successful local run reports the same status with `changed = false` and changes nothing. |
| `CurrentStore.S3RunForgetsHistory` | plugins/modules/migration_state.py:218-232 | A writing S3 run always reports the requested status as changed. It leaves a ledger holding only that stage, whatever was stored before. |
| `CurrentStore.S3ReadOnlyResets` | plugins/modules/migration_state.py:218-225 | A read-only S3 run reports `None`, unchanged, yet leaves the object reset to the empty template. |
| `CurrentStore.RunUnknownBackend` | plugins/modules/migration_state.py:184-187 | With an unrecognised backend every run fails with `NoDocument` (the `None.get` failure) and changes nothing. |
| `CurrentStore.RunWithoutStages` | plugins/modules/migration_state.py:184-193 | On a local document without `stages`, a read-only run reports `None`. Any other run fails with `StagesMissing` and writes nothing. |
| `CurrentStore.LocalWalkthrough` | plugins/modules/migration_state.py:215-232 | On a fresh local ledger: a read-only probe gives `None` and creates the template; starting gives `(started, changed)`; completing gives `(completed, changed)`; restarting gives `(completed, unchanged)` and no write. |
| `LegacyStore.InitialDocument` | library/migration_state.py:225-227 | The legacy template: version `"v1"`, `first` completed, `second` started. |
| `LegacyStore.StrictLookup` | library/migration_state.py:247 | Returns the status exactly when `stages` exists and holds the key. A missing `stages` gives `StagesMissing`, a missing key gives `KeyMissing(key)`. |
| `LegacyStore.LegacyStateFiles.CreateStateFile` | library/migration_state.py:229-231 | Overwrites the file with the template, whatever it held. |
| `LegacyStore.LegacyStateFiles.ReadStateFile` | library/migration_state.py:236-239 | Returns the file's document exactly when the file exists. Otherwise it fails with `FileNotFound`. |
| `LegacyStore.LegacyStateFiles.WriteStateFile` | library/migration_state.py:241-243 | Replaces the whole file. |
| `LegacyStore.LegacyStateFiles.GetKey` | library/migration_state.py:245-247 | Returns the status of a key that must exist. Read and lookup failures are propagated. It never writes. |
| `LegacyStore.LegacyStateFiles.SetKey` | library/migration_state.py:249-253 | Reads, changes one stage, writes the whole document back and returns it. Failures do not write. |
| `LegacyStore.LegacyStateFiles.Run` | library/migration_state.py:486-490 | Recreates the file, reads the key, and writes when the status differs. Its result and the new files are those of `Ran`. |
| `LegacyStore.SetKeyIsolation` | library/migration_state.py:249-253 | A successful set stores the returned document at the path. In it the key holds the value, and every other key and `version` are unchanged. |
| `LegacyStore.RunKnownKey` | library/migration_state.py:486-490 | For `first` or `second`, the run reports the template's status, read before any write. The file ends up as the template with that stage set to the requested status. |
| `LegacyStore.RunUnknownKey` | library/migration_state.py:487-488 | Any other key fails with `KeyMissing`, and the file is still left reset to the template. |
| `LegacyStore.RunDiscardsHistory` | library/migration_state.py:487 | Neither the result nor the resulting file depends on what the file held before the run. |
| `LegacyStore.CompletedCanBeReopened` | library/migration_state.py:488-490 | Requesting `started` for the completed stage `first` reports `completed` but stores `started`: there is no sticky completion. |
| `Text.Split` | library/migration_state.py:214 | `split('\n')` yields at least one piece, and no piece contains the separator. |
| `Text.JoinSplit` | library/migration_state.py:214 | Joining the pieces of a split with the separator gives back the input. |
| `Text.SplitJoin` | library/migration_state.py:214 | Splitting a join of separator-free pieces gives back the pieces. |
| `Text.Strip` | library/migration_state.py:215 | A stripped string is no longer than its input and neither starts nor ends with whitespace. |
| `Text.StripSlice` | library/migration_state.py:215 | The stripped string is the slice of the input starting at the first non-whitespace character, and everything outside that slice is whitespace. |
| `Text.StripBlank` | library/migration_state.py:215-217 | A line strips to the empty string exactly when it is all whitespace. |
| `Text.Replace` | library/migration_state.py:219-220 | `replace` returns its input unchanged when the pattern does not occur or is replaced by itself, and never lengthens the input when the replacement is no longer than the pattern. |
| `Text.ReplaceKeepsLast` | library/migration_state.py:219-220 | A last character that cannot end an occurrence of the pattern is still last after `replace`. |
| `Text.Less` | library/migration_state.py:352-353 | A proper prefix sorts before the longer string. |
| `Text.ReplaceChar` | library/migration_state.py:411 | `replace` with a one-character pattern rewrites each occurrence of that character and keeps every other character. |
| `Text.LessIrreflexive` | library/migration_state.py:352-353 | No address sorts before itself. |
| `Text.LessTransitive` | library/migration_state.py:352-353 | The string order the sort uses is transitive. |
| `Text.LessTotal` | library/migration_state.py:352-353 | Of two different addresses, one sorts before the other. |
| `Text.LessAsymmetric` | library/migration_state.py:352-353 | Two addresses never each sort before the other. |
| `Workspaces.GetWorkspaceContext` | library/migration_state.py:208-223 | The loop over the output's lines returns exactly `Names` and `Selected` of those lines, which the lemmas below characterise. |
| `Workspaces.Listed` | library/migration_state.py:218-222 | The name recorded for a stripped line is no longer than the line. A marked line loses at least the two marker characters. A name recorded from a stripped line is non-empty and keeps the line's last character. |
| `Workspaces.Names` | library/migration_state.py:214-222 | There is at most one name per line of output. |
| `Workspaces.NamesWellFormed` | library/migration_state.py:215-222 | Every listed name is non-empty and has no trailing whitespace. |
| `Workspaces.Selected` | library/migration_state.py:209-220 | The current workspace is never empty and has no trailing whitespace. |
| `Workspaces.NamesAppend` | library/migration_state.py:214-222 | Names are collected line by line, in input order: the names of a concatenation are the concatenated names. |
| `Workspaces.BlankLineSkipped` | library/migration_state.py:216-217 | A blank line contributes nothing. |
| `Workspaces.NonBlankLineListed` | library/migration_state.py:218-222 | A non-blank line contributes exactly one name. An unmarked line contributes its stripped text verbatim. |
| `Workspaces.ListedDropsMarker` | library/migration_state.py:219-220 | A marked line loses its leading `* `, and then every non-overlapping `* ` that a left-to-right scan of the rest finds. |
| `Workspaces.SelectedDefault` | library/migration_state.py:209 | Without a marked line the current workspace is `"default"`. |
| `Workspaces.SelectedIsLastMarked` | library/migration_state.py:218-220 | With marked lines, the current workspace is the name of the last marked line. |
| `Workspaces.SelectedIsListed` | library/migration_state.py:218-220 | The current workspace is one of the listed names whenever some line is marked, and is `"default"` otherwise. |
| `PlanDiff.GetDiff` | library/migration_state.py:318-358 | Without `resource_changes`, returns `(False, {})`. Otherwise, `changed` is whether any record was shown, and the before and after lists are the classified entries, each stably sorted by address. |
| `PlanDiff.AnyShownIff` | library/migration_state.py:333-350 | `changed` is true exactly when at least one record is an update, a replacement, a deletion or a creation. |
| `PlanDiff.BeforeEntriesMembership` | library/migration_state.py:339-346 | An entry is in the before list exactly when it is the address and prior state of some update, replacement or deletion. |
| `PlanDiff.AfterEntriesMembership` | library/migration_state.py:339-350 | An entry is in the after list exactly when it is the address and planned state of some update, replacement or creation. |
| `PlanDiff.ClassificationTable` | library/migration_state.py:339-350 | `[delete]` goes before only and `[create]` after only. Both sides hold exactly `[update]` and `[delete, create]`. Neither side holds any other actions list. |
| `PlanDiff.SortedByAddress` | library/migration_state.py:352-353 | The sort returns a permutation of its input. |
| `PlanDiff.SortedByAddressCorrect` | library/migration_state.py:352-353 | The sort yields a list ordered by address that is a permutation of its input. |
| `PlanDiff.SortedByAddressStable` | library/migration_state.py:352-353 | The sort is stable: entries sharing an address keep their input order. |
| `PlanDiff.GetDiffMeaning` | library/migration_state.py:318-358 | Both lists are sorted by address. Each holds exactly the entries its side of the classification produced, and `changed` tells whether any record was classified. |
| `TerraformArgs.FormatArgs` | library/migration_state.py:409-417 | A boolean renders as `true` or `false` according to its value. An integer renders as non-empty text that starts with `-` exactly when it is negative. |
| `TerraformArgs.NatDigits` | library/migration_state.py:417 | `str(n)` of a natural number is one or more decimal digits with no leading zero. |
| `TerraformArgs.Decimal` | library/migration_state.py:417 | `str(n)` of an integer is non-empty, starts with `-` exactly for negative numbers, and is all digits otherwise. |
| `TerraformArgs.FormatString` | library/migration_state.py:410-411 | The three `replace` calls amount to quoting the string and escaping each backslash, quote and newline in it. |
| `TerraformArgs.FormatStringRoundTrip` | library/migration_state.py:410-411 | Reading a formatted string literal back gives the original string. |
| `TerraformArgs.FormatStringSingleLine` | library/migration_state.py:411 | A formatted string never contains a raw newline. |
| `TerraformArgs.FormatIntRoundTrip` | library/migration_state.py:417 | `str(n)` of an integer reads back as the same integer. |

## Left out

- JSON encoding and decoding: the documents are modelled after parsing. A file that is not valid JSON is not modelled, and neither is a stage value other than `"started"` or `"completed"`.
- `StateDocument.Document` has exactly a string `version` and an optional `stages` map. Several valid JSON documents that the source reads do not fit that shape, and are not modelled:
  - a document with no `version`, or a non-string one. The source never reads `version`, so `{"stages": {}}` would run normally;
  - extra top-level members, which `_set_state_key` would keep in its write-back (plugins/modules/migration_state.py:190-192, library/migration_state.py:250-252);
  - a `stages` member that is `null` or not an object. That fails with `AttributeError` at plugins/modules/migration_state.py:186 or with `TypeError` at line 191;
  - a top-level value that is not an object.
- Real file and S3 I/O (`open`, `os.path.exists`, `boto3` `put_object` and `get_object`): replaced by the map of locations. Errors other than a missing file or object are not modelled, because the code catches none.
- The Ansible plumbing: the argument spec, `exit_json`, `fail_json`, `warn`, and the global `module` handle. `preflight_validation` is not modelled either: it only rejects a `None` path, and paths here are always strings.
- Check mode, because the code never consults it.
- Concurrent writers: there is no locking, so each run is modelled as one sequential read-modify-write.
- Helpers outside the ledger. `get_version`, `init_plugins`, `_workspace_cmd` and `build_plan` build and run Terraform commands. `_state_args` and `get_state` (library/migration_state.py:173-185) only build a `-state` argument list and may warn about a missing file. `_delete_state_file` (library/migration_state.py:233-234) is a bare `os.remove` that nothing calls. The commented-out parts of the legacy `main` are not behaviour.
- `Workspaces.GetWorkspaceContext` takes the command's output as a parameter. Running `terraform workspace list` and the warning on a non-zero exit code are not modelled.
- `PlanDiff.GetDiff` takes the already parsed `resource_changes`, with every record carrying an address, an actions list and before/after values. A record missing one of these would raise `KeyError` in the source; that is not modelled. The warning for a missing `resource_changes` is not modelled either. The in-place `list.sort` is modelled on values, as a stable insertion sort.
- `TerraformArgs.FormatArgs` models string, boolean and integer values; the string case of its contract is stated by the lemmas `FormatString`, `FormatStringRoundTrip` and `FormatStringSingleLine`. What `str()` prints for floats and other values is not modelled.
- The return value of `_write_state_file` for S3 (the raw `put_object` response) is not modelled.
