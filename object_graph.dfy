/** The decoded recipe archive: a dictionary from string keys to values, some
    of which are ordered lists of nested dictionaries (ingredient, direction
    and image entries), and the fail-soft `as?` casts the converter reads it
    with. */
module ObjectGraph {
  import opened Wrappers

  type Bytes = seq<bv8>

  /** A value stored under a key of the archive. */
  datatype Value =
    | Str(s: string)
    | Int(i: int)
    | Bool(b: bool)
    | Blob(bytes: Bytes)
    | Entries(items: seq<Dict>)

  /** One decoded object: `NSDictionary` at the root, `[String: Any]` for an
      entry of a list. */
  type Dict = map<string, Value>

  /** `d[key] as? String` */
  function GetString(d: Dict, key: string): (r: Option<string>)
    ensures r.Some? <==> key in d && d[key].Str?
    ensures r.Some? ==> d[key] == Str(r.value)
  {
    if key in d && d[key].Str? then Some(d[key].s) else None
  }

  /** `d[key] as? Int` */
  function GetInt(d: Dict, key: string): (r: Option<int>)
    ensures r.Some? <==> key in d && d[key].Int?
    ensures r.Some? ==> d[key] == Int(r.value)
  {
    if key in d && d[key].Int? then Some(d[key].i) else None
  }

  /** `d[key] as? Data` */
  function GetBlob(d: Dict, key: string): (r: Option<Bytes>)
    ensures r.Some? <==> key in d && d[key].Blob?
    ensures r.Some? ==> d[key] == Blob(r.value)
  {
    if key in d && d[key].Blob? then Some(d[key].bytes) else None
  }

  /** `d[key] as? [[String: Any]]` */
  function GetList(d: Dict, key: string): (r: Option<seq<Dict>>)
    ensures r.Some? <==> key in d && d[key].Entries?
    ensures r.Some? ==> d[key] == Entries(r.value)
  {
    if key in d && d[key].Entries? then Some(d[key].items) else None
  }

  /** Where a forced cast (`as!`) of the converter fails: the key whose value
      is missing or has another type. Swift stops the process there. */
  datatype Trap = ForcedCast(key: string)
}
