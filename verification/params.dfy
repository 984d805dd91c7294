/** The `--param` loop of the run command: each `key=literal` flag is split
    at its first `=`, flags without `=` are skipped, and the rest are
    collected into a dict of `literal_eval` results in which the last
    occurrence of a key wins. */
module Params {
  import opened Wrappers
  import opened PyStr
  import opened PyValues
  import opened Entries

  /** What one loop iteration does: `continue`, store a binding, or raise. */
  datatype Step<K, V, E> = Skip | Bind(key: K, value: V) | Reject(error: E)

  predicate BindsKey<K(==), V, E>(s: Step<K, V, E>, key: K) {
    s.Bind? && s.key == key
  }

  /** The `j`-th iteration is the first one that raises. */
  ghost predicate FirstReject<A, K, V, E>(xs: seq<A>, f: A -> Step<K, V, E>, j: int) {
    && 0 <= j < |xs|
    && f(xs[j]).Reject?
    && forall i :: 0 <= i < j ==> !f(xs[i]).Reject?
  }

  /** A loop that fills a dict from `xs` one step at a time and stops at
      the first step that raises. */
  function Collect<A, K(==), V, E>(xs: seq<A>, f: A -> Step<K, V, E>): (r: Result<map<K, V>, E>)
    ensures r.Success? <==> forall j :: 0 <= j < |xs| ==> !f(xs[j]).Reject?
    decreases |xs|
  {
    if |xs| == 0 then Success(map[])
    else
      var init := xs[..|xs| - 1];
      var m :- Collect(init, f);
      assert forall j :: 0 <= j < |init| ==> init[j] == xs[j];
      match f(xs[|xs| - 1])
      case Skip => Success(m)
      case Bind(k, v) => Success(m[k := v])
      case Reject(e) => Failure(e)
  }

  /** A one-element loop performs exactly one step. */
  lemma CollectSingle<A, K, V, E>(x: A, f: A -> Step<K, V, E>)
    ensures Collect([x], f) == match f(x)
                               case Skip => Success(map[])
                               case Bind(k, v) => Success(map[k := v])
                               case Reject(e) => Failure(e)
  {
    assert [x][..0] == [];
  }

  /** A two-element loop whose steps both bind stores the first binding,
      then the second over it. */
  lemma CollectPair<A, K, V, E>(x: A, y: A, f: A -> Step<K, V, E>)
    requires f(x).Bind? && f(y).Bind?
    ensures Collect([x, y], f) == Success(map[f(x).key := f(x).value][f(y).key := f(y).value])
  {
    assert [x, y][..1] == [x];
    CollectSingle(x, f);
  }

  /** A failed loop reports the error of the first step that raises. */
  lemma {:induction false} CollectFailure<A, K, V, E>(xs: seq<A>, f: A -> Step<K, V, E>)
    requires Collect(xs, f).Failure?
    ensures exists j :: FirstReject(xs, f, j) && Collect(xs, f).error == f(xs[j]).error
    decreases |xs|
  {
    var init := xs[..|xs| - 1];
    assert forall j :: 0 <= j < |init| ==> init[j] == xs[j];
    if Collect(init, f).Failure? {
      CollectFailure(init, f);
      var j :| FirstReject(init, f, j) && Collect(init, f).error == f(init[j]).error;
      assert FirstReject(xs, f, j);
    } else {
      assert FirstReject(xs, f, |xs| - 1);
    }
  }

  /** The keys of a successful loop are exactly the keys some step binds. */
  lemma {:induction false} CollectKeys<A, K, V, E>(xs: seq<A>, f: A -> Step<K, V, E>)
    requires Collect(xs, f).Success?
    ensures forall key :: key in Collect(xs, f).value <==>
              exists j :: 0 <= j < |xs| && BindsKey(f(xs[j]), key)
    decreases |xs|
  {
    if |xs| > 0 {
      var init := xs[..|xs| - 1];
      assert forall j :: 0 <= j < |init| ==> init[j] == xs[j];
      CollectKeys(init, f);
      forall key | exists j :: 0 <= j < |xs| && BindsKey(f(xs[j]), key)
        ensures key in Collect(xs, f).value
      {
        var j :| 0 <= j < |xs| && BindsKey(f(xs[j]), key);
        if j < |init| {
          assert BindsKey(f(init[j]), key);
        }
      }
    }
  }

  /** The value stored under a key is the one bound by the last step that
      binds it. */
  lemma {:induction false} CollectLastWins<A, K, V, E>(xs: seq<A>, f: A -> Step<K, V, E>, j: int)
    requires Collect(xs, f).Success?
    requires 0 <= j < |xs| && f(xs[j]).Bind?
    requires forall i :: j < i < |xs| ==> !BindsKey(f(xs[i]), f(xs[j]).key)
    ensures f(xs[j]).key in Collect(xs, f).value
    ensures Collect(xs, f).value[f(xs[j]).key] == f(xs[j]).value
    decreases |xs|
  {
    var init := xs[..|xs| - 1];
    assert forall i :: 0 <= i < |init| ==> init[i] == xs[i];
    if j < |xs| - 1 {
      CollectLastWins(init, f, j);
    }
  }

  /** A step that only `continue`s can be dropped without changing the outcome. */
  lemma {:induction false} CollectDropSkip<A, K, V, E>(xs: seq<A>, f: A -> Step<K, V, E>, j: int)
    requires 0 <= j < |xs| && f(xs[j]).Skip?
    ensures Collect(xs[..j] + xs[j + 1..], f) == Collect(xs, f)
    decreases |xs|
  {
    var ys := xs[..j] + xs[j + 1..];
    var init := xs[..|xs| - 1];
    if j == |xs| - 1 {
      assert ys == init;
    } else {
      assert ys[..|ys| - 1] == init[..j] + init[j + 1..];
      assert ys[|ys| - 1] == xs[|xs| - 1];
      CollectDropSkip(init, f, j);
    }
  }

  /** One iteration of the `--param` loop: `continue` when the flag has no
      `=`, raise when `literal_eval` rejects the stripped value, else bind
      the stripped key to the parsed value. */
  function ParamStep(parse: string -> Option<Value>, line: string): (s: Step<string, Value, Error>)
    ensures s.Skip? <==> '=' !in line
    ensures s.Reject? <==> !ParamParses(parse, line)
    ensures s.Reject? ==> s.error == LiteralError(SplitEntry(line).value.value)
    ensures s.Bind? ==> HasKey(line, s.key) && Some(s.value) == parse(SplitEntry(line).value.value)
  {
    match SplitEntry(line)
    case None => Skip
    case Some(e) =>
      match parse(e.value)
      case None => Reject(LiteralError(e.value))
      case Some(v) => Bind(e.key, v)
  }

  function ParamFn(parse: string -> Option<Value>): string -> Step<string, Value, Error> {
    line => ParamStep(parse, line)
  }

  /** The flag splits into an entry whose stripped key is `key`. */
  predicate HasKey(line: string, key: string) {
    SplitEntry(line).Some? && SplitEntry(line).value.key == key
  }

  /** The flag has no `=`, or `literal_eval` accepts its stripped value. */
  predicate ParamParses(parse: string -> Option<Value>, line: string) {
    match SplitEntry(line)
    case None => true
    case Some(e) => parse(e.value).Some?
  }

  /** The parameter dict as built by the loop, or the error `literal_eval` raised. */
  function ParseParams(params: seq<string>, parse: string -> Option<Value>): (r: Result<map<string, Value>, Error>)
    ensures r.Success? <==> forall j :: 0 <= j < |params| ==> ParamParses(parse, params[j])
  {
    Collect(params, ParamFn(parse))
  }

  /** On failure the error carries the stripped value text of the first
      flag (with `=`) that `literal_eval` rejects. */
  lemma ParamsFailure(params: seq<string>, parse: string -> Option<Value>)
    requires ParseParams(params, parse).Failure?
    ensures exists j :: 0 <= j < |params|
              && (forall i :: 0 <= i < j ==> ParamParses(parse, params[i]))
              && !ParamParses(parse, params[j])
              && ParseParams(params, parse).error == LiteralError(SplitEntry(params[j]).value.value)
  {
    var f := ParamFn(parse);
    CollectFailure(params, f);
    var j :| FirstReject(params, f, j) && Collect(params, f).error == f(params[j]).error;
    assert forall i :: 0 <= i < j ==> !f(params[i]).Reject?;
    assert f(params[j]) == ParamStep(parse, params[j]);
  }

  /** The keys of the dict are the stripped keys of the flags that contain `=`. */
  lemma ParamsKeys(params: seq<string>, parse: string -> Option<Value>)
    requires ParseParams(params, parse).Success?
    ensures forall key :: key in ParseParams(params, parse).value <==>
              exists j :: 0 <= j < |params| && HasKey(params[j], key)
  {
    var f := ParamFn(parse);
    var m := ParseParams(params, parse).value;
    CollectKeys(params, f);
    forall key | key in m
      ensures exists j :: 0 <= j < |params| && HasKey(params[j], key)
    {
      var j :| 0 <= j < |params| && BindsKey(f(params[j]), key);
      assert HasKey(params[j], key);
    }
    forall key, j | 0 <= j < |params| && HasKey(params[j], key)
      ensures key in m
    {
      assert BindsKey(f(params[j]), key);
    }
  }

  /** Last occurrence wins: a key maps to `literal_eval` of the value of the
      last flag that names it. */
  lemma ParamsLastWins(params: seq<string>, parse: string -> Option<Value>, j: int)
    requires ParseParams(params, parse).Success?
    requires 0 <= j < |params| && SplitEntry(params[j]).Some?
    requires forall i :: j < i < |params| ==> !HasKey(params[i], SplitEntry(params[j]).value.key)
    ensures SplitEntry(params[j]).value.key in ParseParams(params, parse).value
    ensures Some(ParseParams(params, parse).value[SplitEntry(params[j]).value.key])
            == parse(SplitEntry(params[j]).value.value)
  {
    var f := ParamFn(parse);
    assert f(params[j]).Bind?;
    forall i | j < i < |params|
      ensures !BindsKey(f(params[i]), f(params[j]).key)
    {
    }
    CollectLastWins(params, f, j);
  }

  /** A flag without `=` is skipped: removing it changes neither the dict
      nor the error. */
  lemma ParamsSkipMalformed(params: seq<string>, parse: string -> Option<Value>, j: int)
    requires 0 <= j < |params| && '=' !in params[j]
    ensures ParseParams(params[..j] + params[j + 1..], parse) == ParseParams(params, parse)
  {
    CollectDropSkip(params, ParamFn(parse), j);
  }

  /** The dead `key is None` guard: `=v` binds the empty key. */
  lemma ParamsEmptyKey(pad: string, value: string, parse: string -> Option<Value>)
    requires AllSpace(pad) && parse(Strip(value)).Some?
    ensures ParseParams([pad + "=" + value], parse) == Success(map["" := parse(Strip(value)).value])
  {
    var line := pad + "=" + value;
    var v := parse(Strip(value)).value;
    assert ParamFn(parse)(line) == Bind("", v) by {
      EmptyKeyAccepted(pad, value);
    }
    CollectSingle(line, ParamFn(parse));
  }

  /** `-p k1=v1 -p k2=v2` with distinct keys binds both keys to their parsed
      values; with equal keys the second flag wins. */
  lemma TwoParameters(k1: string, v1: string, k2: string, v2: string, parse: string -> Option<Value>)
    requires WellFormed(k1, v1) && WellFormed(k2, v2)
    requires parse(v1).Some? && parse(v2).Some?
    ensures k1 != k2 ==> ParseParams([k1 + "=" + v1, k2 + "=" + v2], parse)
                         == Success(map[k1 := parse(v1).value, k2 := parse(v2).value])
    ensures k1 == k2 ==> ParseParams([k1 + "=" + v1, k2 + "=" + v2], parse)
                         == Success(map[k2 := parse(v2).value])
  {
    var x, y := parse(v1).value, parse(v2).value;
    assert ParamFn(parse)(k1 + "=" + v1) == Bind(k1, x) by { WellFormedStep(k1, v1, parse); }
    assert ParamFn(parse)(k2 + "=" + v2) == Bind(k2, y) by { WellFormedStep(k2, v2, parse); }
    CollectPair(k1 + "=" + v1, k2 + "=" + v2, ParamFn(parse));
    if k1 == k2 {
      assert map[k1 := x][k2 := y] == map[k2 := y];
    }
  }

  /** A well-formed `key=value` flag binds `key` to the parsed value. */
  lemma WellFormedStep(key: string, value: string, parse: string -> Option<Value>)
    requires WellFormed(key, value) && parse(value).Some?
    ensures ParamFn(parse)(key + "=" + value) == Bind(key, parse(value).value)
  {
    var line := key + "=" + value;
    assert ParamStep(parse, line) == Bind(key, parse(value).value) by {
      SplitTrimmed(key, value);
    }
  }
}
