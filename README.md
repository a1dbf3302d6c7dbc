# project_variables resolver, modelled in Dafny

Sceptre's `project_variables` resolver reads a YAML file named by its argument.
It derives a key path from the environment path and the stack name, then walks
that path through nested mappings and returns the value it reaches. This project
models the key-path construction and the descent, and proves what they promise.

- `yaml.dfy` (module `Yaml`): a parsed document. A value is `Null`, a scalar, a
  sequence or a mapping. Mapping keys are their own type because YAML allows
  non-string keys.
- `py_str.dfy` (module `PyStr`): Python's `str.split` and `str.join` for a
  one-character separator, with their round-trip lemmas.
- `project_variables.dfy` (module `ProjectVariables`): the configuration
  records, the subscript `d[key]`, the recursive `Lookup` specification, the
  key path, and `Resolve`. `Resolve` is a method with the source's loop, which
  rebinds a cursor one key at a time.

The resolver changes nothing. Documents and configurations are immutable
values here, and `Resolve` has no `modifies` clause. Only its local cursor is
rebound.

The docstring of `resolve` gives its return type as `str`. The code returns
whatever value sits at the end of the path: a mapping, a sequence, a number or
`None`. The model follows the code, and `ChainLookup` states that the stored
value is returned with no conversion.

## Model

| member | source | states |
|---|---|---|
| `PyStr.Split` | sceptre/resolvers/project_variables.py:35 | `str.split("/")` gives one more segment than there are separators, and no segment contains the separator |
| `PyStr.JoinOfSplit` | sceptre/resolvers/project_variables.py:35 | joining the segments with `/` gives back the environment path exactly, including empty segments |
| `PyStr.SplitOfJoin` | sceptre/resolvers/project_variables.py:35 | splitting a join of separator-free segments gives back those segments, so the split is the only such cut |
| `PyStr.SplitEdgeCases` | sceptre/resolvers/project_variables.py:35 | `""` splits to `[""]`; `a//b` splits to `["a","","b"]`; `/a/` splits to `["","a",""]` |
| `ProjectVariables.KeyPath` | sceptre/resolvers/project_variables.py:35-36 | the key path has (number of `/`) + 2 keys; the last key is the stack name; the others contain no `/` and join back to the environment path |
| `ProjectVariables.Lookup` | sceptre/resolvers/project_variables.py:38-39 | a failed descent names a step inside the key path, and the only failure is a key-path failure |
| `ProjectVariables.Resolve` | sceptre/resolvers/project_variables.py:20-41 | the loop returns what `Resolution` specifies: a file or parse failure from loading, otherwise `Lookup` of the document along `KeyPath` |
| `ProjectVariables.LookupAppend` | sceptre/resolvers/project_variables.py:38-39 | looking up `p + q` is looking up `q` from the value found at `p`; it fails with `p`'s failure if the lookup at `p` fails |
| `ProjectVariables.ChainLookup` | sceptre/resolvers/project_variables.py:38-41 | when every step reaches a mapping that holds the next key, the result is exactly the value stored at the end of the path |
| `ProjectVariables.LookupChain` | sceptre/resolvers/project_variables.py:38-41 | a successful lookup went through such a chain of mappings and returns the chain's last value |
| `ProjectVariables.BrokenChain` | sceptre/resolvers/project_variables.py:38-39 | if the value reached at step `i` is not a mapping holding `keys[i]`, the lookup fails at step `i`; there is no default and no key is skipped |
| `ProjectVariables.LookupFailure` | sceptre/resolvers/project_variables.py:38-39 | a lookup that fails at step `i` followed a chain up to `i` and then met a non-mapping or a missing key |
| `ProjectVariables.NonMappingDocumentFails` | sceptre/resolvers/project_variables.py:33-39 | a document that is not a mapping always fails at step 0, because the key path is never empty; this includes an empty file, which loads as `Null` |
| `ProjectVariables.NonStringKeysNeverMatch` | sceptre/resolvers/project_variables.py:39 | an integer key never matches a path segment, not even its decimal spelling |
| `ProjectVariables.NestedExample` | sceptre/resolvers/project_variables.py:35-41 | `a/b` with stack `c` gives keys `a`, `b`, `c`; over `{a: {b: {c: 42}}}` these resolve to 42; stack `z` fails at step 2 |

## Left out

- Building the file path with `os.path.join` (lines 27-30): this is library path semantics. `Resolve` takes it as a parameter `join`. There is no containment check in the source to verify.
- Opening and parsing the file (lines 32-33): this is I/O and a foreign YAML parser. `Resolve` takes it as a parameter `load`, which gives a document, an unreadable file or malformed YAML. YAML syntax is not modelled.
- Python's exception classes: `KeyError` (missing key) and `TypeError` (not a mapping) are one `KeyPathError` that records the failing step.
- Floats, timestamps and binary scalars: these leaves are never mappings, so a lookup treats them like the scalars that are modelled.
- Python's equality between `1`, `1.0` and `True` as dictionary keys: not modelled. The lookup only uses string keys, which never equal those.
- The `Resolver` base class, plugin registration and the constructor (lines 6, 9, 17-18): their source is not part of this model. The configurations are plain records holding the fields `resolve` reads.
