/**
 * Message resolution (`getMessages`): the page-specific and the shared
 * message bundle of one language are loaded, merged with `Object.assign`
 * and flattened to dotted keys.
 *
 * JSON objects are association lists that keep insertion order, as
 * JavaScript objects with string keys do.
 */
module Messages {
  import opened Wrappers
  import opened Paths

  /** A value of a message file: a string, or an object of named members. */
  datatype Json = Text(text: string) | Obj(members: seq<(string, Json)>)

  /** The members of one JSON object, in insertion order. */
  type Fields = seq<(string, Json)>

  function Keys(o: Fields): (ks: seq<string>)
    ensures |ks| == |o| && forall i :: 0 <= i < |o| ==> ks[i] == o[i].0
  {
    seq(|o|, i requires 0 <= i < |o| => o[i].0)
  }

  /** No key occurs twice: what every parsed JSON object satisfies. */
  predicate UniqueKeys(o: Fields) {
    forall i, j :: 0 <= i < j < |o| ==> o[i].0 != o[j].0
  }

  /** The position of the first member named `k`. */
  function KeyIndex(o: Fields, k: string): (i: nat)
    requires k in Keys(o)
    ensures i < |o| && o[i].0 == k
    ensures forall j :: 0 <= j < i ==> o[j].0 != k
  {
    if o[0].0 == k then 0
    else
      assert k in Keys(o[1..]) by {
        var j :| 0 <= j < |o| && Keys(o)[j] == k;
        assert Keys(o[1..])[j - 1] == k;
      }
      1 + KeyIndex(o[1..], k)
  }

  /** `o[k]`: the value stored under `k`, None for `undefined`. */
  function Lookup(o: Fields, k: string): (r: Option<Json>)
    ensures r.None? <==> k !in Keys(o)
  {
    if k in Keys(o) then Some(o[KeyIndex(o, k)].1) else None
  }

  /** `o[k] = v`: an existing key keeps its position, a new one is appended. */
  function Put(o: Fields, k: string, v: Json): (r: Fields)
    ensures k in Keys(o) ==> Keys(r) == Keys(o)
    ensures k !in Keys(o) ==> r == o + [(k, v)]
    ensures UniqueKeys(o) ==> UniqueKeys(r)
    ensures IsFlat(o) && IsLeaf(v) ==> IsFlat(r)
  {
    if k in Keys(o) then
      var r := o[KeyIndex(o, k) := (k, v)];
      assert Keys(r) == Keys(o);
      r
    else
      o + [(k, v)]
  }

  /** After `o[k] = v`, `k` reads `v` and every other key reads what it read before. */
  lemma PutLookup(o: Fields, k: string, v: Json, k': string)
    ensures Lookup(Put(o, k, v), k') == if k' == k then Some(v) else Lookup(o, k')
  {
    var r := Put(o, k, v);
    if k in Keys(o) {
      if k' in Keys(o) {
        var a, b := KeyIndex(r, k'), KeyIndex(o, k');
        assert Keys(r)[a] == k' && Keys(r)[b] == k';
        assert a == b;
      }
    } else if k' in Keys(o) {
      assert Keys(r) == Keys(o) + [k];
      var a, b := KeyIndex(r, k'), KeyIndex(o, k');
      assert r[b].0 == k';
    } else if k' == k {
      assert Keys(r) == Keys(o) + [k];
      assert r[|o|].0 == k;
    } else {
      assert Keys(r) == Keys(o) + [k];
    }
  }

  /** `Object.assign(target, source)`: the source's members are put in order. */
  function Assign(target: Fields, source: Fields): Fields
    decreases |source|
  {
    if source == [] then target
    else Assign(Put(target, source[0].0, source[0].1), source[1..])
  }

  /** After `Object.assign` a key of the source reads the source's value; every other key keeps the target's. */
  lemma {:induction false} AssignLookup(target: Fields, source: Fields, k: string)
    requires UniqueKeys(source)
    ensures Lookup(Assign(target, source), k) ==
            if k in Keys(source) then Lookup(source, k) else Lookup(target, k)
    decreases |source|
  {
    if source != [] {
      var k0, v0 := source[0].0, source[0].1;
      assert Keys(source) == [k0] + Keys(source[1..]);
      AssignLookup(Put(target, k0, v0), source[1..], k);
      PutLookup(target, k0, v0, k);
    }
  }

  /** `Object.assign` keeps the target's keys in place, adds no duplicate, and adds only the source's keys. */
  lemma {:induction false} AssignKeys(target: Fields, source: Fields)
    ensures Keys(target) <= Keys(Assign(target, source))
    ensures forall k :: k in Keys(Assign(target, source)) ==> k in Keys(target) || k in Keys(source)
    ensures UniqueKeys(target) ==> UniqueKeys(Assign(target, source))
    ensures IsFlat(target) && IsFlat(source) ==> IsFlat(Assign(target, source))
    decreases |source|
  {
    if source != [] {
      var k0, v0 := source[0].0, source[0].1;
      var t' := Put(target, k0, v0);
      assert Keys(source) == [k0] + Keys(source[1..]);
      assert IsFlat(source) ==> IsLeaf(v0) && IsFlat(source[1..]);
      AssignKeys(t', source[1..]);
    }
  }

  // ----- flattening (the `flat` package's `step`) -----

  /** `prev ? prev + "." + key : key`: an empty prefix is falsy. */
  function JoinKey(prev: string, key: string): string {
    if prev == "" then key else prev + "." + key
  }

  /** A value that flattening stores as it is: a string or an empty object. */
  predicate IsLeaf(v: Json) {
    v.Text? || v.members == []
  }

  predicate IsFlat(o: Fields) {
    forall i :: 0 <= i < |o| ==> IsLeaf(o[i].1)
  }

  /**
   * One call of `step(object, prev)` from member `i` on, storing into `out`:
   * a non-empty nested object is walked with the joined key as prefix,
   * anything else is stored under the joined key.
   */
  function Step(out: Fields, fields: Fields, i: nat, prev: string): (r: Fields)
    requires i <= |fields|
    decreases Obj(fields), |fields| - i
    ensures UniqueKeys(out) && IsFlat(out) ==> UniqueKeys(r) && IsFlat(r)
  {
    if i == |fields| then out
    else
      var key := JoinKey(prev, fields[i].0);
      var v := fields[i].1;
      var out' := if v.Obj? && v.members != [] then Step(out, v.members, 0, key) else Put(out, key, v);
      Step(out', fields, i + 1, prev)
  }

  /** `flatten(o)`: every key of the result is unique and every value a leaf. */
  function Flatten(o: Fields): (r: Fields)
    ensures UniqueKeys(r) && IsFlat(r)
  {
    Step([], o, 0, "")
  }

  /** The members of `fs` with their keys joined to `prev`. */
  function Prefixed(prev: string, fs: Fields): (r: Fields)
    ensures |r| == |fs|
  {
    seq(|fs|, j requires 0 <= j < |fs| => (JoinKey(prev, fs[j].0), fs[j].1))
  }

  /** Walking a flat object appends its members, keys joined to the prefix, in order. */
  lemma {:induction false} StepOfFlat(out: Fields, fields: Fields, i: nat, prev: string)
    requires i <= |fields|
    requires IsFlat(fields)
    requires UniqueKeys(out + Prefixed(prev, fields[i..]))
    ensures Step(out, fields, i, prev) == out + Prefixed(prev, fields[i..])
    decreases |fields| - i
  {
    if i < |fields| {
      var key := JoinKey(prev, fields[i].0);
      var v := fields[i].1;
      var tail := Prefixed(prev, fields[i + 1..]);
      assert Prefixed(prev, fields[i..]) == [(key, v)] + tail;
      var whole := out + [(key, v)] + tail;
      assert whole == out + Prefixed(prev, fields[i..]);
      assert key !in Keys(out) by {
        forall j | 0 <= j < |out| ensures out[j].0 != key {
          assert whole[j] == out[j] && whole[|out|] == (key, v);
        }
      }
      assert UniqueKeys((out + [(key, v)]) + tail) by { assert (out + [(key, v)]) + tail == whole; }
      StepOfFlat(out + [(key, v)], fields, i + 1, prev);
    }
  }

  /** Flattening an object that is already flat changes nothing. */
  lemma FlattenOfFlat(o: Fields)
    requires IsFlat(o) && UniqueKeys(o)
    ensures Flatten(o) == o
  {
    assert Prefixed("", o[0..]) == o;
    StepOfFlat([], o, 0, "");
  }

  /** Flattening is idempotent. */
  lemma FlattenIdempotent(o: Fields)
    ensures Flatten(Flatten(o)) == Flatten(o)
  {
    FlattenOfFlat(Flatten(o));
  }

  /** A named flat object nested one level deep becomes its members under dotted keys: {"a": {"b": "X"}} gives {"a.b": "X"}. */
  lemma FlattenNested(k: string, inner: Fields)
    requires k != "" && inner != []
    requires IsFlat(inner) && UniqueKeys(inner)
    ensures Flatten([(k, Obj(inner))]) == Prefixed(k, inner)
    ensures forall j :: 0 <= j < |inner| ==> Prefixed(k, inner)[j] == (k + "." + inner[j].0, inner[j].1)
  {
    var p := Prefixed(k, inner);
    assert UniqueKeys(p) by {
      forall i, j | 0 <= i < j < |p| ensures p[i].0 != p[j].0 {
        assert p[i].0[|k| + 1..] == inner[i].0;
        assert p[j].0[|k| + 1..] == inner[j].0;
      }
    }
    assert inner[0..] == inner;
    StepOfFlat([], inner, 0, k);
    assert Step([], [(k, Obj(inner))], 0, "") == Step(Step([], inner, 0, k), [(k, Obj(inner))], 1, "");
  }

  // ----- loading and merging -----

  /**
   * What the file system offers: the JSON objects `require` can load
   * (a path absent here throws) and the paths `fs.existsSync` reports.
   */
  datatype FileSystem = FileSystem(modules: map<string, Fields>, existing: set<string>) {

    /** `require(p)`, None when it throws. */
    function Require(p: string): Option<Fields> {
      if p in modules then Some(modules[p]) else None
    }

    predicate ExistsSync(p: string) {
      p in existing
    }

    /** Parsed JSON objects never repeat a key. */
    predicate Valid() {
      forall p :: p in modules ==> UniqueKeys(modules[p])
    }
  }

  datatype MessageError =
    | NoMessages(language: string)       // both bundles absent: `Object.keys(undefined)` throws
    | SharedUnloadable(path: string)     // the shared file exists but `require` throws

  /**
   * `messages ? Object.assign(messages, shared) : shared`, taken only when
   * the shared file exists (`shared` is None when it does not).
   */
  function Merge(page: Option<Fields>, shared: Option<Fields>): (r: Option<Fields>)
    ensures r.None? <==> page.None? && shared.None?
    ensures shared.None? ==> r == page
    ensures page.None? ==> r == shared
    ensures page.Some? && shared.Some? ==> Keys(page.value) <= Keys(r.value)
    ensures page.Some? && shared.Some? && UniqueKeys(shared.value) ==>
              forall k :: Lookup(r.value, k) ==
                if k in Keys(shared.value) then Lookup(shared.value, k) else Lookup(page.value, k)
  {
    match shared
    case None => page
    case Some(s) =>
      match page
      case None => shared
      case Some(p) =>
        AssignKeys(p, s);
        forall k | UniqueKeys(s)
          ensures Lookup(Assign(p, s), k) == if k in Keys(s) then Lookup(s, k) else Lookup(p, k)
        {
          AssignLookup(p, s, k);
        }
        Some(Assign(p, s))
  }

  /** The shared file wins a conflicting key: {"a.b": "X"} merged with {"a.b": "Y", "c": "Z"}. */
  lemma SharedWinsExample()
    ensures Merge(Some([("a.b", Text("X"))]), Some([("a.b", Text("Y")), ("c", Text("Z"))])) ==
            Some([("a.b", Text("Y")), ("c", Text("Z"))])
  {
    var p: Fields := [("a.b", Text("X"))];
    var s: Fields := [("a.b", Text("Y")), ("c", Text("Z"))];
    assert Keys(p) == ["a.b"];
    var p' := Put(p, "a.b", Text("Y"));
    assert p' == [("a.b", Text("Y"))];
    assert Keys(p') == ["a.b"];
    assert Put(p', "c", Text("Z")) == [("a.b", Text("Y")), ("c", Text("Z"))];
  }

  /** The value `getMessages(path, language, file)` returns, or the error it throws. */
  function ResolveMessages(path: string, sharedMessages: string, fs: FileSystem, language: string, file: string)
    : (r: Result<Fields, MessageError>)
    ensures r.Ok? ==> UniqueKeys(r.value) && IsFlat(r.value)
    ensures r == Err(NoMessages(language)) <==>
              fs.Require(PageFilePath(path, language, file)).None? &&
              !fs.ExistsSync(SharedFilePath(path, language, sharedMessages))
    ensures r.Err? && r.error.SharedUnloadable? <==>
              var sharedPath := SharedFilePath(path, language, sharedMessages);
              fs.ExistsSync(sharedPath) && fs.Require(sharedPath).None?
  {
    var filePath := PageFilePath(path, language, file);
    var sharedPath := SharedFilePath(path, language, sharedMessages);
    if fs.ExistsSync(sharedPath) && fs.Require(sharedPath).None? then
      Err(SharedUnloadable(sharedPath))
    else
      var shared := if fs.ExistsSync(sharedPath) then fs.Require(sharedPath) else None;
      match Merge(fs.Require(filePath), shared)
      case None => Err(NoMessages(language))
      case Some(m) => Ok(if m == [] then [] else Flatten(m))
  }

  /**
   * With flat bundles on both sides, the resolved bundle reads every key
   * from the shared file when it has it, and from the page file otherwise.
   */
  lemma ResolveSharedWins(path: string, sharedMessages: string, fs: FileSystem, language: string, file: string, k: string)
    requires fs.Valid()
    requires var p := fs.Require(PageFilePath(path, language, file)); p.Some? && IsFlat(p.value)
    requires var sharedPath := SharedFilePath(path, language, sharedMessages);
             fs.ExistsSync(sharedPath) && fs.Require(sharedPath).Some? && IsFlat(fs.Require(sharedPath).value)
    ensures var r := ResolveMessages(path, sharedMessages, fs, language, file);
            var p := fs.Require(PageFilePath(path, language, file)).value;
            var s := fs.Require(SharedFilePath(path, language, sharedMessages)).value;
            r.Ok? && Lookup(r.value, k) == if k in Keys(s) then Lookup(s, k) else Lookup(p, k)
  {
    var p := fs.Require(PageFilePath(path, language, file)).value;
    var s := fs.Require(SharedFilePath(path, language, sharedMessages)).value;
    var m := Assign(p, s);
    AssignKeys(p, s);
    AssignLookup(p, s, k);
    if m != [] {
      FlattenOfFlat(m);
    }
  }

  /** `getMessages`: `messages` starts undefined and is reassigned by the two loads. */
  method GetMessages(path: string, sharedMessages: string, fs: FileSystem, language: string, file: string)
    returns (r: Result<Fields, MessageError>)
    ensures r == ResolveMessages(path, sharedMessages, fs, language, file)
  {
    var languagePath := path + "/" + language;
    var filePath := languagePath + RemoveFileEndings(file) + JSON_SUFFIX;
    var sharedMessagePath := languagePath + "/" + sharedMessages;
    assert filePath == PageFilePath(path, language, file);
    assert sharedMessagePath == SharedFilePath(path, language, sharedMessages);

    var messages: Option<Fields> := None;
    var loaded := fs.Require(filePath);
    if loaded.Some? {
      messages := loaded;
    }
    if fs.ExistsSync(sharedMessagePath) {
      var shared := fs.Require(sharedMessagePath);
      if shared.None? {
        return Err(SharedUnloadable(sharedMessagePath));
      }
      if messages.Some? {
        messages := Some(Assign(messages.value, shared.value));
      } else {
        messages := shared;
      }
    }
    if messages.None? {
      return Err(NoMessages(language));
    }
    if messages.value == [] {
      return Ok([]);
    }
    return Ok(Flatten(messages.value));
  }
}
