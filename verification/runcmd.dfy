/** The `run` command of the mlrun command line: it assembles the run
    request (`metadata` and `spec`) from the flags and decides between the
    remote and the local execution path. */
module RunCommand {
  import opened Wrappers
  import opened PyStr
  import opened PyValues
  import opened Entries
  import opened Params

  /** The arguments of `run` as click delivers them. Single-valued options
      without a default are `None` when absent; `multiple=True` options are
      tuples, empty when absent; `--save-to` defaults to the empty string. */
  datatype Flags = Flags(
    file: string,
    param: seq<string>,
    inArtifact: seq<string>,
    outArtifact: seq<string>,
    inPath: Option<string>,
    outPath: Option<string>,
    secrets: seq<string>,
    uid: Option<string>,
    name: Option<string>,
    workflow: Option<string>,
    saveTo: string)

  /** The run request: the metadata and the spec side by side. */
  datatype RunRequest = RunRequest(metadata: map<string, Value>, spec: map<string, Value>)

  /** Where the local path finds the run's result: a temporary `.yaml` file
      removed after reading, or the `--save-to` path. */
  datatype ResultFile = TempFile | SavePath(path: string)

  /** What the command goes on to do with a built request. */
  datatype Plan =
    /** Hand the target and the request to the remote runtime, with the result path */
    | RemoteRun(target: string, request: RunRequest, saveTo: string)
    /** Execute the target's source with the request and the result path in the environment */
    | LocalRun(target: string, request: RunRequest, resultFile: ResultFile)

  /** A single-valued option that is truthy: given and not empty. */
  predicate Given(o: Option<string>) {
    o.Some? && o.value != []
  }

  /** Every line has an `=`, so `line2keylist` does not raise. */
  predicate AllHaveEquals(lines: seq<string>) {
    forall k :: 0 <= k < |lines| ==> '=' in lines[k]
  }

  /** The conditional insert of the run command: when `item` is truthy, store
      `value` under `key` if it is truthy and `item` otherwise; every other
      key keeps its entry. */
  function SetItem(m: map<string, Value>, item: Value, key: string, value: Value): (r: map<string, Value>)
    ensures forall k :: k != key ==> (k in r <==> k in m)
    ensures forall k :: k in r && k != key ==> r[k] == m[k]
    ensures key in r <==> key in m || Truthy(item)
    ensures key in r && !Truthy(item) ==> r[key] == m[key]
    ensures Truthy(item) ==> r[key] == (if Truthy(value) then value else item)
  {
    if Truthy(item) then
      if Truthy(value) then m[key := value] else m[key := item]
    else m
  }

  /** `labels`: always `parent_type = local` and the owner, plus the
      workflow when one was given. */
  function Labels(owner: string, workflow: Option<string>): (r: map<string, Value>)
    ensures r.Keys == {"parent_type", "owner"} + (if Given(workflow) then {"workflow"} else {})
    ensures r["parent_type"] == Str("local")
    ensures r["owner"] == Str(owner)
    ensures Given(workflow) ==> r["workflow"] == Str(workflow.value)
  {
    var labels := map["parent_type" := Str("local"), "owner" := Str(owner)];
    SetItem(labels, OptionValue(workflow), "workflow", Null)
  }

  /** `meta`: `uid` and `name` only when given, and always the labels. */
  function Metadata(uid: Option<string>, name: Option<string>, owner: string, workflow: Option<string>): (r: map<string, Value>)
    ensures r.Keys == {"labels"} + (if Given(uid) then {"uid"} else {}) + (if Given(name) then {"name"} else {})
    ensures Given(uid) ==> r["uid"] == Str(uid.value)
    ensures Given(name) ==> r["name"] == Str(name.value)
    ensures r["labels"] == Dict(Labels(owner, workflow))
  {
    var meta := SetItem(map[], OptionValue(uid), "uid", Null);
    var meta := SetItem(meta, OptionValue(name), "name", Null);
    meta["labels" := Dict(Labels(owner, workflow))]
  }

  /** The `parameters` step: present as soon as any `--param` was given,
      even when every flag was skipped. */
  function WithParameters(spec: map<string, Value>, param: seq<string>, parse: string -> Option<Value>): (r: Result<map<string, Value>, Error>)
    ensures r.Success? <==> ParseParams(param, parse).Success?
    ensures r.Failure? ==> r.error == ParseParams(param, parse).error
    ensures r.Success? && param == [] ==> r.value == spec
    ensures r.Success? && param != [] ==> r.value == spec["parameters" := Dict(ParseParams(param, parse).value)]
  {
    if param != [] then
      var params := ParseParams(param, parse);
      if params.Failure? then Failure(params.error)
      else Success(spec["parameters" := Dict(params.value)])
    else
      Success(spec)
  }

  /** `r` and `m` agree on every key but `key`. */
  ghost predicate AgreeExcept(m: map<string, Value>, r: map<string, Value>, key: string) {
    forall k :: k != key ==> (k in r <==> k in m) && (k in m ==> r[k] == m[k])
  }

  /** The conditional insert of a key list, where `records` is the list
      built from `lines`: stored exactly when `lines` is not empty. */
  function WithList(spec: map<string, Value>, lines: seq<string>, key: string, records: seq<Value>): (r: map<string, Value>)
    requires |records| == |lines|
    ensures key in r <==> key in spec || lines != []
    ensures lines != [] ==> r[key] == List(records)
    ensures AgreeExcept(spec, r, key)
  {
    SetItem(spec, TupleValue(lines), key, List(records))
  }

  /** The conditional insert of a default path: stored exactly when the path is truthy. */
  function WithPath(spec: map<string, Value>, path: Option<string>, key: string): (r: map<string, Value>)
    ensures key in r <==> key in spec || Given(path)
    ensures Given(path) ==> r[key] == Str(path.value)
    ensures AgreeExcept(spec, r, key)
  {
    SetItem(spec, OptionValue(path), key, Null)
  }

  const SpecKeys: set<string> := {
    "parameters", "input_artifacts", "default_input_path", "default_output_path",
    "output_artifacts", "secret_sources"
  }

  /** `spec[key]` is `List(records)`, present exactly when `lines` is not empty. */
  ghost predicate HoldsList(spec: map<string, Value>, key: string, lines: seq<string>, records: seq<Value>) {
    && (key in spec <==> lines != [])
    && (lines != [] ==> spec[key] == List(records))
  }

  /** `spec[key]` is the given path, present exactly when it is truthy. */
  ghost predicate HoldsPath(spec: map<string, Value>, key: string, path: Option<string>) {
    && (key in spec <==> Given(path))
    && (Given(path) ==> spec[key] == Str(path.value))
  }

  /** Lines 54-58 of the command once the three key lists are built: the
      lists and the default paths are added to a `spec` that may already
      hold `parameters`, which is kept as it is. */
  function WithArtifacts(spec: map<string, Value>, flags: Flags,
                         inputs: seq<Value>, outputs: seq<Value>, sources: seq<Value>): (r: map<string, Value>)
    requires spec.Keys <= {"parameters"}
    requires |inputs| == |flags.inArtifact| && |outputs| == |flags.outArtifact| && |sources| == |flags.secrets|
    ensures r.Keys <= SpecKeys
    ensures "parameters" in r <==> "parameters" in spec
    ensures "parameters" in spec ==> r["parameters"] == spec["parameters"]
    ensures HoldsList(r, "input_artifacts", flags.inArtifact, inputs)
    ensures HoldsPath(r, "default_input_path", flags.inPath)
    ensures HoldsPath(r, "default_output_path", flags.outPath)
    ensures HoldsList(r, "output_artifacts", flags.outArtifact, outputs)
    ensures HoldsList(r, "secret_sources", flags.secrets, sources)
  {
    var s3 := WithInputs(spec, flags, inputs);
    WithOutputs(s3, flags, outputs, sources)
  }

  const InputKeys: set<string> := {"parameters", "input_artifacts", "default_input_path", "default_output_path"}

  /** Lines 54-56: the input artifacts and both default paths. */
  function WithInputs(spec: map<string, Value>, flags: Flags, inputs: seq<Value>): (r: map<string, Value>)
    requires spec.Keys <= {"parameters"}
    requires |inputs| == |flags.inArtifact|
    ensures r.Keys <= InputKeys
    ensures "parameters" in r <==> "parameters" in spec
    ensures "parameters" in spec ==> r["parameters"] == spec["parameters"]
    ensures HoldsList(r, "input_artifacts", flags.inArtifact, inputs)
    ensures HoldsPath(r, "default_input_path", flags.inPath)
    ensures HoldsPath(r, "default_output_path", flags.outPath)
  {
    var s1 := WithList(spec, flags.inArtifact, "input_artifacts", inputs);
    var s2 := WithPath(s1, flags.inPath, "default_input_path");
    WithPath(s2, flags.outPath, "default_output_path")
  }

  /** Lines 57-58: the output artifacts and the secret sources, over a spec
      whose other entries are kept as they are. */
  function WithOutputs(spec: map<string, Value>, flags: Flags, outputs: seq<Value>, sources: seq<Value>): (r: map<string, Value>)
    requires spec.Keys <= InputKeys
    requires |outputs| == |flags.outArtifact| && |sources| == |flags.secrets|
    ensures r.Keys == spec.Keys + (if flags.outArtifact != [] then {"output_artifacts"} else {})
                                + (if flags.secrets != [] then {"secret_sources"} else {})
    ensures forall k :: k in spec ==> r[k] == spec[k]
    ensures HoldsList(r, "output_artifacts", flags.outArtifact, outputs)
    ensures HoldsList(r, "secret_sources", flags.secrets, sources)
  {
    var s4 := WithList(spec, flags.outArtifact, "output_artifacts", outputs);
    WithList(s4, flags.secrets, "secret_sources", sources)
  }

  /** `spec`, or the first error raised while building it: `--param`
      literals first, then input artifacts, output artifacts and secrets. */
  function Spec(flags: Flags, parse: string -> Option<Value>, expand: string -> string): (r: Result<map<string, Value>, Error>)
    ensures r.Success? <==> && ParseParams(flags.param, parse).Success?
                            && AllHaveEquals(flags.inArtifact)
                            && AllHaveEquals(flags.outArtifact)
                            && AllHaveEquals(flags.secrets)
    ensures r.Failure? && ParseParams(flags.param, parse).Failure? ==> r.error == ParseParams(flags.param, parse).error
    ensures r.Failure? && ParseParams(flags.param, parse).Success? ==>
              r.error == if AllHaveEquals(flags.inArtifact) && AllHaveEquals(flags.outArtifact)
                         then MissingEquals("kind", "source") else MissingEquals("key", "path")
    ensures r.Success? ==> r.value.Keys <= SpecKeys
    ensures r.Success? ==> ("parameters" in r.value <==> flags.param != [])
    ensures r.Success? && flags.param != [] ==> r.value["parameters"] == Dict(ParseParams(flags.param, parse).value)
    ensures r.Success? ==> HoldsList(r.value, "input_artifacts", flags.inArtifact, Line2KeyList(flags.inArtifact, "key", "path", expand).value)
    ensures r.Success? ==> HoldsPath(r.value, "default_input_path", flags.inPath)
    ensures r.Success? ==> HoldsPath(r.value, "default_output_path", flags.outPath)
    ensures r.Success? ==> HoldsList(r.value, "output_artifacts", flags.outArtifact, Line2KeyList(flags.outArtifact, "key", "path", expand).value)
    ensures r.Success? ==> HoldsList(r.value, "secret_sources", flags.secrets, Line2KeyList(flags.secrets, "kind", "source", expand).value)
  {
    var spec :- WithParameters(map[], flags.param, parse);
    var inputs :- Line2KeyList(flags.inArtifact, "key", "path", expand);
    var outputs :- Line2KeyList(flags.outArtifact, "key", "path", expand);
    var sources :- Line2KeyList(flags.secrets, "kind", "source", expand);
    Success(WithArtifacts(spec, flags, inputs, outputs, sources))
  }

  /** The run request, or the error that aborts the command. */
  function Request(flags: Flags, owner: string, parse: string -> Option<Value>, expand: string -> string): (r: Result<RunRequest, Error>)
    ensures r.Success? <==> Spec(flags, parse, expand).Success?
    ensures r.Failure? ==> r.error == Spec(flags, parse, expand).error
    ensures r.Success? ==> r.value.spec == Spec(flags, parse, expand).value
    ensures r.Success? ==> r.value.metadata == Metadata(flags.uid, flags.name, owner, flags.workflow)
  {
    var spec :- Spec(flags, parse, expand);
    Success(RunRequest(Metadata(flags.uid, flags.name, owner, flags.workflow), spec))
  }

  /** The target goes to the remote runtime when it holds a scheme separator `://`. */
  function IsRemote(file: string): (r: bool)
    ensures r <==> exists i :: OccursAt(file, "://", i)
  {
    Contains(file, "://")
  }

  /** Lines 62-75 up to the collaborators: on the remote path overwrite
      `secret_sources` with the secrets store's serialisation of the spec
      (`resolve`) and pass the `--save-to` path on; on the local path keep
      the request and pick the result file. */
  function Dispatch(file: string, request: RunRequest, saveTo: string,
                    resolve: map<string, Value> -> Value): (p: Plan)
    ensures p.target == file
    ensures p.RemoteRun? <==> exists i :: OccursAt(file, "://", i)
    ensures p.RemoteRun? ==>
              && p.request.metadata == request.metadata
              && p.request.spec.Keys == request.spec.Keys + {"secret_sources"}
              && p.request.spec["secret_sources"] == resolve(request.spec)
              && (forall k :: k in request.spec && k != "secret_sources" ==> p.request.spec[k] == request.spec[k])
              && p.saveTo == saveTo
    ensures p.LocalRun? ==>
              && p.request == request
              && (p.resultFile.TempFile? <==> saveTo == [])
              && (p.resultFile.SavePath? ==> p.resultFile.path == saveTo)
  {
    if IsRemote(file) then
      var spec := request.spec["secret_sources" := resolve(request.spec)];
      RemoteRun(file, RunRequest(request.metadata, spec), saveTo)
    else
      LocalRun(file, request, if saveTo == [] then TempFile else SavePath(saveTo))
  }

  /** The whole command up to the plan: build the request, or stop at the
      error that aborts it, then dispatch on the target. The serialisation
      of the request on the local path comes after the plan. */
  function Run(flags: Flags, owner: string, parse: string -> Option<Value>, expand: string -> string,
               resolve: map<string, Value> -> Value): (r: Result<Plan, Error>)
    ensures r.Success? <==> Spec(flags, parse, expand).Success?
    ensures r.Failure? ==> r.error == Spec(flags, parse, expand).error
    ensures r.Success? ==> r.value.target == flags.file
    ensures r.Success? ==> (r.value.RemoteRun? <==> exists i :: OccursAt(flags.file, "://", i))
    ensures r.Success? ==> r.value.request.metadata == Metadata(flags.uid, flags.name, owner, flags.workflow)
    ensures r.Success? && r.value.RemoteRun? ==>
              var built := Spec(flags, parse, expand).value;
              && r.value.request.spec.Keys == built.Keys + {"secret_sources"}
              && r.value.request.spec["secret_sources"] == resolve(built)
              && (forall k :: k in built && k != "secret_sources" ==> r.value.request.spec[k] == built[k])
              && r.value.saveTo == flags.saveTo
    ensures r.Success? && r.value.LocalRun? ==>
              && r.value.request.spec == Spec(flags, parse, expand).value
              && (r.value.resultFile.TempFile? <==> flags.saveTo == [])
              && (r.value.resultFile.SavePath? ==> r.value.resultFile.path == flags.saveTo)
  {
    var request :- Request(flags, owner, parse, expand);
    Success(Dispatch(flags.file, request, flags.saveTo, resolve))
  }

  /** A scheme separator anywhere sends the target to the remote path. */
  lemma DispatchExamples()
    ensures IsRemote("s3://bucket/job.py")
    ensures !IsRemote("./job.py")
  {
    assert OccursAt("s3://bucket/job.py", "://", 2);
    var local := "./job.py";
    assert forall i :: !OccursAt(local, "://", i) by {
      assert local[0] == '.' && local[1] == '/' && local[2] == 'j' && local[3] == 'o';
      assert local[4] == 'b' && local[5] == '.' && local[6] == 'p' && local[7] == 'y';
    }
  }

  /** `--param` given but every flag lacks `=`: `parameters` is still
      present, and it is the empty dict. */
  lemma AllParamsSkipped(flags: Flags, parse: string -> Option<Value>, expand: string -> string)
    requires flags.param != [] && forall j :: 0 <= j < |flags.param| ==> '=' !in flags.param[j]
    requires Spec(flags, parse, expand).Success?
    ensures Spec(flags, parse, expand).value["parameters"] == Dict(map[])
  {
    ParamsKeys(flags.param, parse);
    var m := ParseParams(flags.param, parse).value;
    assert forall key :: key !in m;
    assert m == map[];
  }

  /** The end-to-end example `run FILE -p k1=v1 -p k2=v2 -i in=path --uid UID`
      (as in `run job.py -p x=1 -p y='hi' -i in1=/tmp/a --uid r1`): it runs
      locally with a temporary result file, and its request holds the uid,
      both parameters and the one input artifact, and no output artifacts. */
  lemma ExampleRun(file: string, k1: string, v1: string, k2: string, v2: string, inKey: string, inPath: string,
                   uid: string, owner: string, parse: string -> Option<Value>, expand: string -> string,
                   resolve: map<string, Value> -> Value)
    requires !IsRemote(file) && uid != []
    requires WellFormed(k1, v1) && WellFormed(k2, v2) && k1 != k2 && parse(v1).Some? && parse(v2).Some?
    requires WellFormed(inKey, inPath)
    ensures var flags := Flags(file, [k1 + "=" + v1, k2 + "=" + v2], [inKey + "=" + inPath], [], None, None, [],
                               Some(uid), None, None, "");
            var r := Run(flags, owner, parse, expand, resolve);
            && r.Success? && r.value.LocalRun? && r.value.resultFile == TempFile
            && r.value.request.metadata["uid"] == Str(uid)
            && r.value.request.spec["parameters"] == Dict(map[k1 := parse(v1).value, k2 := parse(v2).value])
            && r.value.request.spec["input_artifacts"]
               == List([Dict(map["key" := Str(inKey), "path" := Str(expand(inPath))])])
            && "output_artifacts" !in r.value.request.spec
  {
    var flags := Flags(file, [k1 + "=" + v1, k2 + "=" + v2], [inKey + "=" + inPath], [], None, None, [],
                       Some(uid), None, None, "");
    TwoParameters(k1, v1, k2, v2, parse);
    SingleKeyList(inKey, inPath, "key", "path", expand);
    assert Spec(flags, parse, expand).Success?;
  }
}
