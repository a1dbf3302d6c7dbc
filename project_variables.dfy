/** The `project_variables` resolver: it loads a YAML file named by its argument,
    builds a key path from the environment path and the stack name, and walks
    that path through nested mappings to the value it returns. */
module ProjectVariables {
  import opened Yaml
  import opened PyStr

  /** The two fields of the environment configuration the resolver reads. */
  datatype EnvironmentConfig = EnvironmentConfig(sceptreDir: string, environmentPath: string)

  /** The one field of the stack configuration the resolver reads. */
  datatype StackConfig = StackConfig(name: string)

  /** What `open` followed by `yaml.safe_load` gives for a file path. */
  datatype Loaded = Document(doc: Value) | Unreadable | Malformed

  /** Why a resolution fails. `KeyPathError(step)` stands for both the `KeyError`
      (the key is missing) and the `TypeError` (the value is not a mapping)
      raised by the subscript at position `step` of the key path. */
  datatype Error = FileAccessError | ParseError | KeyPathError(step: nat)

  datatype Result<T> = Ok(value: T) | Err(error: Error)

  const Separator: char := '/'

  /** The subscript `v[key]` with a string key succeeds exactly when `v` is a
      mapping that holds that string as a key. */
  predicate Descendable(v: Value, key: string)
  {
    v.Map? && ScalarKey(Str(key)) in v.entries
  }

  /** The value `v[key]` when the subscript succeeds. */
  function Child(v: Value, key: string): Value
    requires Descendable(v, key)
  {
    v.entries[ScalarKey(Str(key))]
  }

  /** A failure that happened `n` steps further down the key path. */
  function Later(r: Result<Value>, n: nat): Result<Value>
  {
    match r
    case Err(KeyPathError(j)) => Err(KeyPathError(j + n))
    case _ => r
  }

  /** The value reached from `v` by subscripting with each key in turn, or the
      position of the first subscript that fails. */
  function Lookup(v: Value, keys: seq<string>): (r: Result<Value>)
    ensures r.Err? ==> r.error.KeyPathError? && r.error.step < |keys|
    decreases |keys|
  {
    if keys == [] then Ok(v)
    else if !Descendable(v, keys[0]) then Err(KeyPathError(0))
    else Later(Lookup(Child(v, keys[0]), keys[1..]), 1)
  }

  /** The key path: the segments of the environment path between the `/`
      characters, in order, then the stack name. */
  function KeyPath(environmentPath: string, stackName: string): (keys: seq<string>)
    ensures |keys| == Count(environmentPath, Separator) + 2
    ensures keys[|keys| - 1] == stackName
    ensures forall i :: 0 <= i < |keys| - 1 ==> Separator !in keys[i]
    ensures Join(keys[..|keys| - 1], Separator) == environmentPath
  {
    var segments := Split(environmentPath, Separator);
    JoinOfSplit(environmentPath, Separator);
    assert (segments + [stackName])[..|segments|] == segments;
    segments + [stackName]
  }

  /** What `resolve` returns or raises, given the path joining and the loading
      of a file as parameters. */
  function Resolution(argument: string, env: EnvironmentConfig, stack: StackConfig,
                      join: (string, string) -> string, load: string -> Loaded): Result<Value>
  {
    match load(join(env.sceptreDir, argument))
    case Unreadable => Err(FileAccessError)
    case Malformed => Err(ParseError)
    case Document(doc) => Lookup(doc, KeyPath(env.environmentPath, stack.name))
  }

  /** `resolve`: build the file path, load it, build the key path by splitting
      the environment path and appending the stack name, then rebind the cursor
      to its child at each key. */
  method Resolve(argument: string, env: EnvironmentConfig, stack: StackConfig,
                 join: (string, string) -> string, load: string -> Loaded)
    returns (r: Result<Value>)
    ensures r == Resolution(argument, env, stack, join, load)
  {
    var filePath := join(env.sceptreDir, argument);
    var loaded := load(filePath);
    if loaded.Unreadable? {
      return Err(FileAccessError);
    }
    if loaded.Malformed? {
      return Err(ParseError);
    }
    var variables := loaded.doc;
    var keys := Split(env.environmentPath, Separator);
    keys := keys + [stack.name];
    assert keys == KeyPath(env.environmentPath, stack.name);
    var i := 0;
    while i < |keys|
      invariant 0 <= i <= |keys|
      invariant Lookup(loaded.doc, keys[..i]) == Ok(variables)
    {
      if !Descendable(variables, keys[i]) {
        LookupAppend(loaded.doc, keys[..i], keys[i..]);
        assert keys[..i] + keys[i..] == keys;
        return Err(KeyPathError(i));
      }
      LookupAppend(loaded.doc, keys[..i], [keys[i]]);
      assert keys[..i + 1] == keys[..i] + [keys[i]];
      variables := Child(variables, keys[i]);
      i := i + 1;
    }
    assert keys[..i] == keys;
    return Ok(variables);
  }

  /** Descent is compositional: looking up `p + q` is looking up `p`, then `q`
      from the value found; a failure along `p` is the failure of the whole. */
  lemma {:induction false} LookupAppend(v: Value, p: seq<string>, q: seq<string>)
    ensures Lookup(v, p + q) ==
              match Lookup(v, p)
              case Ok(w) => Later(Lookup(w, q), |p|)
              case Err(e) => Err(e)
    decreases |p|
  {
    if p == [] {
      assert p + q == q;
    } else {
      assert (p + q)[0] == p[0];
      if Descendable(v, p[0]) {
        assert (p + q)[1..] == p[1..] + q;
        LookupAppend(Child(v, p[0]), p[1..], q);
      }
    }
  }

  /** `vs` records the values met along `keys`: it starts at `doc`, and each
      value is a mapping holding the next key, whose value is the next entry. */
  ghost predicate IsChain(doc: Value, keys: seq<string>, vs: seq<Value>)
  {
    && |vs| == |keys| + 1
    && vs[0] == doc
    && forall i :: 0 <= i < |keys| ==>
         vs[i].Map? && ScalarKey(Str(keys[i])) in vs[i].entries
         && vs[i].entries[ScalarKey(Str(keys[i]))] == vs[i + 1]
  }

  /** When every step of the path reaches a mapping holding the next key, the
      lookup returns exactly the value stored at the end, with no conversion. */
  lemma {:induction false} ChainLookup(doc: Value, keys: seq<string>, vs: seq<Value>)
    requires IsChain(doc, keys, vs)
    ensures Lookup(doc, keys) == Ok(vs[|keys|])
    decreases |keys|
  {
    if keys != [] {
      assert IsChain(vs[1], keys[1..], vs[1..]);
      ChainLookup(vs[1], keys[1..], vs[1..]);
    }
  }

  /** Conversely, a successful lookup followed such a chain of mappings. */
  lemma {:induction false} LookupChain(doc: Value, keys: seq<string>) returns (vs: seq<Value>)
    requires Lookup(doc, keys).Ok?
    ensures IsChain(doc, keys, vs) && vs[|keys|] == Lookup(doc, keys).value
    decreases |keys|
  {
    if keys == [] {
      vs := [doc];
    } else {
      var rest := LookupChain(Child(doc, keys[0]), keys[1..]);
      vs := [doc] + rest;
      assert forall i :: 1 <= i < |keys| ==> vs[i] == rest[i - 1] && keys[i] == keys[1..][i - 1];
    }
  }

  /** When the chain holds up to step `i` and the value reached there is not a
      mapping holding `keys[i]`, the lookup fails at step `i`: no default, no
      skipping of a key. */
  lemma BrokenChain(doc: Value, keys: seq<string>, vs: seq<Value>, i: nat)
    requires i < |keys|
    requires IsChain(doc, keys[..i], vs)
    requires !Descendable(vs[i], keys[i])
    ensures Lookup(doc, keys) == Err(KeyPathError(i))
  {
    ChainLookup(doc, keys[..i], vs);
    LookupAppend(doc, keys[..i], keys[i..]);
    assert keys[..i] + keys[i..] == keys;
  }

  /** Conversely, a failing lookup at step `i` followed a chain up to `i` and
      then met a value that is not a mapping holding `keys[i]`. */
  lemma {:induction false} LookupFailure(doc: Value, keys: seq<string>) returns (vs: seq<Value>)
    requires Lookup(doc, keys).Err?
    ensures var i := Lookup(doc, keys).error.step;
            i < |keys| && IsChain(doc, keys[..i], vs) && !Descendable(vs[i], keys[i])
    decreases |keys|
  {
    if !Descendable(doc, keys[0]) {
      vs := [doc];
    } else {
      var rest := LookupFailure(Child(doc, keys[0]), keys[1..]);
      vs := [doc] + rest;
      var i := Lookup(doc, keys).error.step;
      assert i == Lookup(Child(doc, keys[0]), keys[1..]).error.step + 1;
      assert keys[..i][1..] == keys[1..][..i - 1];
      assert forall j :: 1 <= j < i ==> vs[j] == rest[j - 1] && keys[..i][j] == keys[1..][..i - 1][j - 1];
    }
  }

  /** A document that is not a mapping (an empty file loads as `Null`) makes
      every resolution fail at the first step, since the key path is never empty. */
  lemma NonMappingDocumentFails(argument: string, env: EnvironmentConfig, stack: StackConfig,
                                join: (string, string) -> string, load: string -> Loaded)
    requires load(join(env.sceptreDir, argument)).Document?
    requires !load(join(env.sceptreDir, argument)).doc.Map?
    ensures Resolution(argument, env, stack, join, load) == Err(KeyPathError(0))
  {
  }

  /** Only string keys are consulted: a mapping whose one key is the integer `n`
      never yields a value for any segment, not even its decimal spelling. */
  lemma NonStringKeysNeverMatch(n: int, v: Value, key: string, rest: seq<string>)
    ensures Lookup(Map(map[ScalarKey(Int(n)) := v]), [key] + rest) == Err(KeyPathError(0))
  {
  }

  /** The environment path `a/b` with stack `c` gives the key path `a`, `b`, `c`;
      over `{a: {b: {c: 42}}}` it resolves to 42, and the stack `z` fails at the
      last step. */
  lemma NestedExample()
    ensures KeyPath("a/b", "c") == ["a", "b", "c"]
    ensures var doc := Map(map[ScalarKey(Str("a")) := Map(map[ScalarKey(Str("b")) :=
                         Map(map[ScalarKey(Str("c")) := Atom(Int(42))])])]);
            Lookup(doc, KeyPath("a/b", "c")) == Ok(Atom(Int(42)))
            && Lookup(doc, KeyPath("a/b", "z")) == Err(KeyPathError(2))
  {
    assert Split("a/b", Separator) == ["a", "b"] by {
      SplitOfJoin(["a", "b"], Separator);
    }
  }
}
