/** The shape of a document as a safe YAML load returns it: nested mappings,
    sequences, scalars and null. */
module Yaml {

  /** Scalars a safe load produces that matter to a key-path lookup. */
  datatype Scalar = Str(s: string) | Int(i: int) | Bool(b: bool)

  /** Mapping keys. YAML admits non-string keys (`1:`, `true:`, `~:`), so a key
      is not a string: the integer key 1 is a different key from the string "1". */
  datatype Key = ScalarKey(scalar: Scalar) | NullKey

  /** A parsed document or any part of it. An empty file loads as `Null`. */
  datatype Value =
    | Null
    | Atom(scalar: Scalar)
    | Seq(items: seq<Value>)
    | Map(entries: map<Key, Value>)
}
