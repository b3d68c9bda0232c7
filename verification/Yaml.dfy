/** Configuration values as the YAML library presents them; key order inside a mapping is not modelled. */
module Yaml {
  import opened Basics

  datatype Value =
    | Null
    | Bool(b: bool)
    | Int(n: int)
    | Float(r: real)
    | Str(s: string)
    | Sequence(items: seq<Value>)
    | Mapping(entries: map<Value, Value>)

  type Entries = map<Value, Value>

  /** Looking up a string key in any value; only mappings have any. */
  function Get(v: Value, key: string): Option<Value> {
    if v.Mapping? && Str(key) in v.entries then Some(v.entries[Str(key)]) else None
  }

  function AsStr(v: Value): Option<string> {
    if v.Str? then Some(v.s) else None
  }
}
