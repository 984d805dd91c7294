/** Splitting a `key=value` flag at its first `=`, and `line2keylist`, which
    turns the artifact and secret flags into an ordered list of two-field
    records. */
module Entries {
  import opened Wrappers
  import opened PyStr
  import opened PyValues

  /** The exceptions the run command can raise while building a request. */
  datatype Error =
    /** `line2keylist` met a line without `=`; the message names the field pair. */
    | MissingEquals(keyName: string, valName: string)
    /** `literal_eval` rejected the text of a `--param` value. */
    | LiteralError(text: string)

  /** A flag split at its first `=`, both halves stripped. */
  datatype Entry = Entry(key: string, value: string)

  /** The `=` at index `i` is the first one in `line`. */
  predicate FirstEqualsAt(line: string, i: int) {
    0 <= i < |line| && line[i] == '=' && '=' !in line[..i]
  }

  /** The line split at its first `=`, with whitespace stripped from the
      text before and after it; `None` when the line has no `=`. */
  function SplitEntry(line: string): (r: Option<Entry>)
    ensures r.None? <==> '=' !in line
    ensures r.Some? ==> '=' !in r.value.key
  {
    var i := Find(line, '=');
    if i == -1 then None
    else
      var key := Strip(line[..i]);
      StripPads(line[..i]);
      Some(Entry(key, Strip(line[i + 1..])))
  }

  /** The split happens at the first `=`, wherever it is. */
  lemma SplitAtFirstEquals(line: string, i: int)
    requires FirstEqualsAt(line, i)
    ensures SplitEntry(line) == Some(Entry(Strip(line[..i]), Strip(line[i + 1..])))
  {
    assert Find(line, '=') == i;
  }

  /** The first `=` of `key + "=" + value` is the one after `key` when `key` has none. */
  lemma SplitAfterKey(key: string, value: string)
    requires '=' !in key
    ensures SplitEntry(key + "=" + value) == Some(Entry(Strip(key), Strip(value)))
  {
    var line := key + "=" + value;
    var i := Find(line, '=');
    assert line[|key|] == '=';
    assert i == |key|;
    assert line[..i] == key;
    assert line[i + 1..] == value;
  }

  /** Round trip: a trimmed key without `=` and a trimmed value, joined by `=`
      with any whitespace around either, split back into exactly that key and
      value. The value may itself contain `=`. */
  lemma SplitJoined(p1: string, key: string, p2: string, p3: string, value: string, p4: string)
    requires AllSpace(p1) && AllSpace(p2) && AllSpace(p3) && AllSpace(p4)
    requires '=' !in key && IsTrimmed(key) && IsTrimmed(value)
    ensures SplitEntry(p1 + key + p2 + "=" + p3 + value + p4) == Some(Entry(key, value))
  {
    var left := p1 + key + p2;
    assert '=' !in left;
    assert p1 + key + p2 + "=" + p3 + value + p4 == left + "=" + (p3 + value + p4);
    SplitAfterKey(left, p3 + value + p4);
    StripUnique(p1, key, p2);
    StripUnique(p3, value, p4);
  }

  /** A flag written `key=value` with a trimmed, `=`-free key and a trimmed value. */
  predicate WellFormed(key: string, value: string) {
    '=' !in key && IsTrimmed(key) && IsTrimmed(value)
  }

  /** An unpadded flag: a well-formed key and value joined by `=` split
      back into exactly that key and value. */
  lemma SplitTrimmed(key: string, value: string)
    requires WellFormed(key, value)
    ensures SplitEntry(key + "=" + value) == Some(Entry(key, value))
  {
    assert key + "=" + value == [] + key + [] + "=" + [] + value + [];
    SplitJoined([], key, [], [], value, []);
  }

  /** The dead `key is None` guard: a line whose key part is only whitespace
      is accepted with an empty key instead of being rejected. */
  lemma EmptyKeyAccepted(pad: string, value: string)
    requires AllSpace(pad)
    ensures SplitEntry(pad + "=" + value) == Some(Entry("", Strip(value)))
  {
    SplitAfterKey(pad, value);
    assert pad + [] + [] == pad;
    StripUnique(pad, [], []);
  }

  /** A dict with the key under `keyName` and the value, passed through
      `path.expandvars`, which the model takes as the parameter `expand`. */
  function Record(keyName: string, valName: string, e: Entry, expand: string -> string): (v: Value)
    ensures v.Dict? && v.entries.Keys == {keyName, valName}
    ensures keyName != valName ==> v.entries[keyName] == Str(e.key)
    ensures v.entries[valName] == Str(expand(e.value))
  {
    Dict(map[keyName := Str(e.key), valName := Str(expand(e.value))])
  }

  /** The record for one line of `line2keylist`, or `None` where it raises. */
  function RecordOf(keyName: string, valName: string, expand: string -> string, line: string): (r: Option<Value>)
    ensures r.None? <==> '=' !in line
  {
    match SplitEntry(line)
    case None => None
    case Some(e) => Some(Record(keyName, valName, e, expand))
  }

  function LineRecord(keyName: string, valName: string, expand: string -> string): string -> Option<Value> {
    line => RecordOf(keyName, valName, expand, line)
  }

  /** Applies `f` to every element in order, stopping at the first `None`:
      the shape of a Python loop that appends to a list or raises. */
  function MapAll<A, B>(xs: seq<A>, f: A -> Option<B>): (r: Option<seq<B>>)
    ensures r.None? <==> exists k :: 0 <= k < |xs| && f(xs[k]).None?
    ensures r.Some? ==> |r.value| == |xs|
    ensures r.Some? ==> forall k :: 0 <= k < |xs| ==> f(xs[k]) == Some(r.value[k])
    decreases |xs|
  {
    if |xs| == 0 then Some([])
    else
      var init := xs[..|xs| - 1];
      var out :- MapAll(init, f);
      assert forall k :: 0 <= k < |init| ==> init[k] == xs[k];
      var last :- f(xs[|xs| - 1]);
      Some(out + [last])
  }

  /** The key list built from `lines` with the given field names: one
      record per line, in order, or the `ValueError` raised at the first line without `=`. */
  function Line2KeyList(lines: seq<string>, keyName: string, valName: string,
                        expand: string -> string): (r: Result<seq<Value>, Error>)
    ensures r.Failure? <==> exists k :: 0 <= k < |lines| && '=' !in lines[k]
    ensures r.Failure? ==> r.error == MissingEquals(keyName, valName)
    ensures r.Success? ==> |r.value| == |lines|
    ensures r.Success? ==> forall k :: 0 <= k < |lines| ==>
              SplitEntry(lines[k]).Some? && r.value[k] == Record(keyName, valName, SplitEntry(lines[k]).value, expand)
  {
    match MapAll(lines, LineRecord(keyName, valName, expand))
    case None => Failure(MissingEquals(keyName, valName))
    case Some(out) => Success(out)
  }

  lemma MapAllAppend<A, B>(a: seq<A>, b: seq<A>, f: A -> Option<B>)
    ensures var ra := MapAll(a, f);
            var rb := MapAll(b, f);
            var rab := MapAll(a + b, f);
            && (rab.Some? <==> ra.Some? && rb.Some?)
            && (rab.Some? ==> rab.value == ra.value + rb.value)
  {
    var ra := MapAll(a, f);
    var rb := MapAll(b, f);
    var rab := MapAll(a + b, f);
    if rab.None? {
      var k :| 0 <= k < |a + b| && f((a + b)[k]).None?;
      if k < |a| {
        assert f(a[k]).None?;
      } else {
        assert f(b[k - |a|]).None?;
      }
    } else {
      assert forall k :: 0 <= k < |a| ==> (a + b)[k] == a[k];
      assert forall k :: 0 <= k < |b| ==> (a + b)[|a| + k] == b[k];
      forall k | 0 <= k < |a + b|
        ensures rab.value[k] == (ra.value + rb.value)[k]
      {
        if k < |a| {
          assert f(a[k]) == Some(rab.value[k]);
        } else {
          assert f(b[k - |a|]) == Some(rab.value[k]);
        }
      }
    }
  }

  /** No deduplication and no reordering: the list for `a + b` is the list for
      `a` followed by the list for `b`, and fails exactly when either does. */
  lemma Line2KeyListAppend(a: seq<string>, b: seq<string>, keyName: string, valName: string,
                           expand: string -> string)
    ensures var ra := Line2KeyList(a, keyName, valName, expand);
            var rb := Line2KeyList(b, keyName, valName, expand);
            var rab := Line2KeyList(a + b, keyName, valName, expand);
            && (rab.Success? <==> ra.Success? && rb.Success?)
            && (rab.Success? ==> rab.value == ra.value + rb.value)
  {
    MapAllAppend(a, b, LineRecord(keyName, valName, expand));
  }

  /** `-i key=path` gives one record with the key and the expanded path. */
  lemma SingleKeyList(key: string, value: string, keyName: string, valName: string, expand: string -> string)
    requires WellFormed(key, value)
    ensures Line2KeyList([key + "=" + value], keyName, valName, expand)
            == Success([Record(keyName, valName, Entry(key, value), expand)])
  {
    var ls := [key + "=" + value];
    SplitTrimmed(key, value);
    var r := Line2KeyList(ls, keyName, valName, expand);
    assert r.Success?;
    assert r.value[0] == Record(keyName, valName, Entry(key, value), expand);
    assert r.value == [r.value[0]];
  }
}
