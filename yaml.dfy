/** The YAML values the frontmatter holds, as the parser hands them over.
    Numbers are kept as integers; keys are strings or some other scalar. */
module Yaml {
  import opened Util

  datatype Key = StrKey(name: string) | OtherKey(id: int)

  datatype Value =
    | Null
    | Bool(b: bool)
    | Number(n: int)
    | Str(s: string)
    | Sequence(items: seq<Value>)
    | Mapping(entries: map<Key, Value>)

  type Mapping = map<Key, Value>

  /** `value.get(name)` with a string index: only a mapping has entries. */
  function Get(v: Value, name: string): (r: Option<Value>)
    ensures r.Some? <==> v.Mapping? && StrKey(name) in v.entries
    ensures r.Some? ==> r.value == v.entries[StrKey(name)]
  {
    if v.Mapping? && StrKey(name) in v.entries then Some(v.entries[StrKey(name)]) else None
  }

  /** `mapping.get(name)`. */
  function Lookup(m: Mapping, name: string): (r: Option<Value>)
    ensures r.Some? <==> StrKey(name) in m
    ensures r.Some? ==> r.value == m[StrKey(name)]
  {
    if StrKey(name) in m then Some(m[StrKey(name)]) else None
  }

  /** `value.as_bool()`. */
  function AsBool(v: Value): (r: Option<bool>)
    ensures r.Some? <==> v.Bool?
    ensures r.Some? ==> r.value == v.b
  {
    if v.Bool? then Some(v.b) else None
  }
}
