# mlrun `run` command: the run-request builder

This project models the pure part of the `run` command of the mlrun command
line (`mlrun/__main__.py`). That command turns its flags into a run request
`{'metadata': meta, 'spec': spec}` and then sends the request to a remote
runtime or executes the target file locally. The model covers:

- `line2keylist`, which turns `key=path` flags into an ordered list of
  two-field records. It raises on a line without `=`.
- The `--param` loop. It skips flags without `=`, evaluates each value with
  `literal_eval`, and lets the last duplicate key win.
- `set_item`, a conditional insert keyed on Python truthiness.
- The assembly of `labels`, `metadata` and `spec`.
- The `'://' in file` choice between the remote and the local path. On the
  remote path the model includes the overwrite of `spec['secret_sources']`.
  On the local path it includes the choice between a temporary result file
  and `--save-to`.

The values that flow through the request are the datatype `PyValues.Value`,
with Python truthiness. It has `None`, booleans, integers, strings, lists and
dicts with string keys. Every other value `literal_eval` can return is the
constructor `Opaque`, which keeps only that value's truthiness (see
"## Left out").
Three Python string operations are modelled exactly in `PyStr`: `str.find`
for one character, `str.strip()` (over the whitespace set of `str.isspace`)
and the substring test.

The collaborators the command calls become parameters:

- `parse: string -> Option<Value>` stands for `ast.literal_eval`. `None`
  means it raised.
- `expand: string -> string` stands for `os.path.expandvars`.
- `owner: string` stands for `getpass.getuser()`.
- `resolve: map<string, Value> -> Value` stands for
  `SecretsStore().from_dict(spec)` followed by `to_serial()`.

The model follows the code where its behaviour is surprising:

- The `key is None` guards (lines 49-50 and 103-104) can never fire, because
  slicing and `strip()` always give a string. A flag such as `=x` or ` =x`
  is therefore accepted with the empty key, as `Entries.EmptyKeyAccepted`
  and `Params.ParamsEmptyKey` state. No error is modelled for an empty key.
- The `ValueError` for a line without `=` names the field pair (for
  instance `key=path`), not the offending line. `Entries.Error.MissingEquals`
  carries exactly that pair.
- `parameters` is added whenever `--param` was given at all, even when every
  flag was skipped. It is then the empty dict (`RunCommand.AllParamsSkipped`).

Modules: `Wrappers` (Option, Result), `PyStr`, `PyValues`, `Entries` (the
first-`=` split and `line2keylist`), `Params` (the `--param` loop) and
`RunCommand` (assembly and dispatch).

## Model

| member | source | states |
|---|---|---|
| `PyStr.Find` | mlrun/__main__.py:99 | `line.find('=')` is -1 exactly when there is no `=`, and otherwise the index of the first `=` |
| `PyStr.Strip` | mlrun/__main__.py:102 | `strip()` leaves no whitespace at either end |
| `PyStr.StripPads` | mlrun/__main__.py:102 | `s` is the stripped string with only whitespace around it, so `strip()` removes characters from the ends and nowhere else |
| `PyStr.StripUnique` | mlrun/__main__.py:102 | any whitespace padding around a trimmed string is removed exactly, giving back that string |
| `PyStr.StripIdempotent` | mlrun/__main__.py:102 | stripping twice gives the same result as stripping once |
| `PyStr.Contains` | mlrun/__main__.py:62 | `t in s` holds exactly when `t` occurs at some index of `s` |
| `PyValues.Truthy` | mlrun/__main__.py:89-90 | Python truthiness as `if item:` and `if value:` test it: `None`, `False`, `0` and empty strings, lists and dicts are falsy, and an `Opaque` value has its recorded truthiness |
| `PyValues.FalsyValues` | mlrun/__main__.py:89-90 | the falsy values are exactly the false, zero or empty value of each kind |
| `PyValues.OptionValue` | mlrun/__main__.py:22-28 | a single-valued option is truthy exactly when it was given and is not empty |
| `PyValues.TupleValue` | mlrun/__main__.py:18-24 | a multiple option is truthy exactly when at least one flag was given; it holds the flags in order |
| `Entries.SplitEntry` | mlrun/__main__.py:99-102 | the split fails exactly when the line has no `=`; the key it gives never contains `=` |
| `Entries.SplitAtFirstEquals` | mlrun/__main__.py:99-102 | the line is split at its first `=`: the key is the stripped text before it and the value the stripped text after it |
| `Entries.SplitAfterKey` | mlrun/__main__.py:99-102 | `key=value` with an `=`-free key splits into the stripped key and the stripped value, even when the value contains `=` |
| `Entries.SplitJoined` | mlrun/__main__.py:99-102 | round trip: a trimmed `=`-free key and a trimmed value joined by `=`, with any whitespace around either, split back into that exact key and value |
| `Entries.SplitTrimmed` | mlrun/__main__.py:99-102 | a trimmed `=`-free key and a trimmed value joined by `=` split back into that exact key and value |
| `Entries.EmptyKeyAccepted` | mlrun/__main__.py:102-104 | the `key is None` guard never fires: a key part of only whitespace is accepted as the empty key |
| `Entries.Record` | mlrun/__main__.py:105-106 | a record has exactly the two requested field names and, when they differ, the key field holds the key; the value field always holds the expanded value |
| `Entries.RecordOf` | mlrun/__main__.py:99-106 | one line gives a record exactly when it contains `=` |
| `Entries.Line2KeyList` | mlrun/__main__.py:96-107 | fails exactly when some line lacks `=`, with the error naming the field pair; on success there is one record per line, in order, each built from that line's first-`=` split |
| `Entries.Line2KeyListAppend` | mlrun/__main__.py:97-107 | no reordering or deduplication: the list for `a + b` is the list for `a` followed by the list for `b`, and it fails exactly when either fails |
| `Params.ParamStep` | mlrun/__main__.py:45-51 | one iteration: it skips exactly the flags without `=`, raises exactly when `literal_eval` rejects the stripped value, and otherwise binds the stripped key to the parsed value |
| `Params.ParseParams` | mlrun/__main__.py:42-52 | the loop succeeds exactly when `literal_eval` accepts the value of every flag that has `=` |
| `Params.ParamsFailure` | mlrun/__main__.py:44-51 | a failed loop reports the value text of the first flag whose literal is rejected |
| `Params.ParamsKeys` | mlrun/__main__.py:44-51 | the keys of the dict are exactly the stripped keys of the flags that contain `=` |
| `Params.ParamsLastWins` | mlrun/__main__.py:44-51 | a key holds the parsed value of the last flag that binds it |
| `Params.ParamsSkipMalformed` | mlrun/__main__.py:45-47 | dropping a flag without `=` changes neither the dict nor the error |
| `Params.ParamsEmptyKey` | mlrun/__main__.py:48-50 | the `key is None` guard never fires: `=v` binds the empty key |
| `RunCommand.SetItem` | mlrun/__main__.py:88-93 | a falsy item leaves the map unchanged; otherwise only `key` changes, to `value` if it is truthy and to `item` if not |
| `RunCommand.Labels` | mlrun/__main__.py:37-38 | the labels are `parent_type = local` and the owner, plus the workflow exactly when one was given |
| `RunCommand.Metadata` | mlrun/__main__.py:33-39 | the metadata always holds the labels, and holds `uid` and `name` exactly when they were given |
| `RunCommand.WithParameters` | mlrun/__main__.py:42-52 | `parameters` is added exactly when `--param` was given, and the step fails with the loop's error |
| `RunCommand.WithList` | mlrun/__main__.py:54 | the record list is stored exactly when the option list is not empty; every other key is untouched |
| `RunCommand.WithPath` | mlrun/__main__.py:55-56 | the default path is stored exactly when it was given; every other key is untouched |
| `RunCommand.WithInputs` | mlrun/__main__.py:54-56 | the input artifacts and both default paths are each present exactly when given, and `parameters` is kept |
| `RunCommand.WithOutputs` | mlrun/__main__.py:57-58 | the output artifacts and the secret sources are each present exactly when given, and every earlier entry is kept |
| `RunCommand.WithArtifacts` | mlrun/__main__.py:54-58 | each of the five optional spec entries is present exactly when its flag was given, `parameters` is kept, and no other key appears |
| `RunCommand.Spec` | mlrun/__main__.py:41-58 | the spec is built exactly when the params parse and every artifact and secret line has `=`; errors come in source order, and secret records use the fields `kind`/`source` |
| `RunCommand.Request` | mlrun/__main__.py:33-60 | the request pairs the metadata with the spec, and fails exactly when the spec does |
| `RunCommand.IsRemote` | mlrun/__main__.py:62 | the target is remote exactly when `://` occurs somewhere in the file name |
| `RunCommand.Dispatch` | mlrun/__main__.py:62-75 | up to the plan: the remote path is taken exactly when `://` occurs in the file; it replaces only `secret_sources`, with `resolve` of the spec, and passes `--save-to` on; the local path keeps the request and uses a temporary file exactly when `--save-to` is empty |
| `RunCommand.Run` | mlrun/__main__.py:30-75 | up to the plan: the command fails exactly when the spec cannot be built, with the spec's error; otherwise the request holds the metadata, and the remote and local paths behave as in `Dispatch` on the built spec |
| `RunCommand.DispatchExamples` | mlrun/__main__.py:62 | `s3://bucket/job.py` goes to the remote path and `./job.py` to the local one |
| `RunCommand.AllParamsSkipped` | mlrun/__main__.py:42-52 | when every `--param` lacks `=`, `parameters` is still present and is the empty dict |
| `Params.TwoParameters` | mlrun/__main__.py:44-52 | `-p k1=v1 -p k2=v2` binds both keys when they differ, and keeps only the second value when they are equal |
| `Params.WellFormedStep` | mlrun/__main__.py:45-51 | a well-formed `key=value` flag binds `key` to the parsed value |
| `Entries.SingleKeyList` | mlrun/__main__.py:96-107 | one well-formed `key=path` line gives exactly one record |
| `RunCommand.ExampleRun` | mlrun/__main__.py:30-75 | a local run with two parameters, one input artifact and a uid gives the expected request and a temporary result file |

## Left out

- Click wiring (lines 12-30 and 110-111): option parsing is done by a library outside this model. `Flags` holds the values click delivers.
- `getpass.getuser()`: the user lookup is an OS call, so the owner is a parameter.
- `literal_eval` and `path.expandvars`: their Python semantics are outside the model. They are uninterpreted parameters, and a failed `literal_eval` is the single abstract error `LiteralError`.
- `SecretsStore`, `from_dict` and `to_serial` (lines 63-65): a module outside this model. Their combined result is the parameter `resolve`.
- `remote_run` (line 67): the remote call itself. The model stops at the `RemoteRun` plan that carries its arguments.
- `RunCommand.Run`: `json.dumps(struct)` at line 69 raises `TypeError` when a parameter value is a set, bytes, a complex number, `...` or a dict with tuple keys (for instance `-p "x={1}"`). `Opaque` cannot tell these values apart from serialisable ones, so the model gives a `LocalRun` plan where the program raises before choosing the result file. `Run` and `Dispatch` therefore describe the command up to the plan, not up to the serialisation.
- The local branch's I/O (lines 69-84): the environment writes, `mktemp`, reading and `exec` of the file, printing and removing the result file, and the `FileNotFoundError` handler. The model stops at the `LocalRun` plan and its result-file choice; the JSON serialisation of the request before it is covered by the `RunCommand.Run` line above.
- `print` (lines 66 and 80): output only.
- `PyValues.Value`: floats, tuples, sets, bytes, complex numbers and dicts with non-string keys, all of which `literal_eval` can return, are not represented one by one. They are the single constructor `Opaque(truthy)`, which keeps only whether the value is truthy. The request builder only stores what `parse` returns and never inspects it; the one later step that does, the JSON serialisation on the local path, is described under `RunCommand.Run` above.
- Python dict insertion order: dicts are Dafny maps, so the order in which keys were inserted is not recorded.
- Lone surrogate code points: Dafny characters are Unicode scalar values, so Python strings holding lone surrogates cannot be represented.
- Repeated runs: every member is a pure function, so building the request twice from the same flags and collaborators gives the same result by construction. There is no separate lemma for this.
