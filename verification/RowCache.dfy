/** The row-level part of the SQL data driver: one table per storage, a cache of frames, and the changed flag. */
module RowCache {
  import opened Words

  datatype Json =
    | Null
    | Bool(b: bool)
    | Number(n: real)
    | Str(s: string)
    | Array(items: seq<Json>)
    | Object(fields: map<string, Json>)

  /** The JSON library: reading a text, which may fail, and writing a value. */
  datatype Codec = Codec(parse: string -> Option<Json>, write: Json -> string)

  /** The driver's name, which is part of every cache key, and the JSON library. */
  datatype Setup = Setup(driver: string, codec: Codec)

  type Tables = map<string, map<string, string>>

  datatype State = State(tables: Tables, frames: map<string, string>, changed: bool)

  predicate IsSpace(c: char) {
    c == ' ' || '\t' <= c <= '\r'
  }

  function TrimRight(s: string): string {
    if s != "" && IsSpace(s[|s| - 1]) then TrimRight(s[..|s| - 1]) else s
  }

  function TrimLeft(s: string): string {
    if s != "" && IsSpace(s[0]) then TrimLeft(s[1..]) else s
  }

  /** What get makes of a row's text: trimmed, and nothing where that leaves null. */
  function Normal(text: string): string {
    var s := TrimLeft(TrimRight(text));
    if s == "null" then "" else s
  }

  /** string_to_json: the empty text gives an undefined value, here None; a text that does not parse throws. */
  function Parse(c: Setup, s: string): Outcome<Option<Json>> {
    if s == "" then Returned(None)
    else
      match c.codec.parse(s)
      case None => Threw
      case Some(v) => Returned(Some(v))
  }

  /** json_to_string. */
  function Print(c: Setup, v: Option<Json>): string {
    if v.None? then "" else c.codec.write(v.value)
  }

  /** The cache keys of a storage and of a row. */
  function StorageKey(c: Setup, storage: string): string {
    "data:sql:" + c.driver + ":" + storage
  }

  function FrameKey(c: Setup, storage: string, key: string): string {
    StorageKey(c, storage) + ":" + key
  }

  /** value::find with a name without dots. */
  function Find(v: Option<Json>, name: string): Option<Json> {
    if v.Some? && v.value.Object? && name in v.value.fields then Some(v.value.fields[name]) else None
  }

  /** The text of a row as get gives it, where there is such a row. */
  function RowText(tables: Tables, storage: string, key: string): Option<string> {
    if storage in tables && key in tables[storage] then Some(Normal(tables[storage][key])) else None
  }

  function FrameOf(c: Setup, st: State, storage: string, key: string): Option<string> {
    if FrameKey(c, storage, key) in st.frames then Some(st.frames[FrameKey(c, storage, key)]) else None
  }

  /** store_frame for the row and rise for its storage. */
  function Store(c: Setup, st: State, storage: string, key: string, text: string): State {
    st.(frames := st.frames[FrameKey(c, storage, key) := text] - {StorageKey(c, storage)})
  }

  function Drop(c: Setup, st: State, storage: string, key: string): State {
    st.(frames := st.frames - {FrameKey(c, storage, key)})
  }

  function WriteRow(st: State, storage: string, key: string, text: string): State
    requires storage in st.tables
  {
    st.(tables := st.tables[storage := st.tables[storage][key := text]], changed := true)
  }

  /** get of a row as a string. */
  function Get(c: Setup, st: State, storage: string, key: string): (State, string) {
    if storage == "" || key == "" then (st, "")
    else if !st.changed && FrameOf(c, st, storage, key).Some? then (st, FrameOf(c, st, storage, key).value)
    else
      match RowText(st.tables, storage, key)
      case None => (st, "")
      case Some(text) => (Store(c, st, storage, key, text).(changed := false), text)
  }

  /** get of a row as JSON: None for false, the value assigned for true. */
  function GetJson(c: Setup, st: State, storage: string, key: string): (State, Outcome<Option<Option<Json>>>) {
    if storage == "" || key == "" then (st, Returned(None))
    else if !st.changed && FrameOf(c, st, storage, key).Some? then
      match Parse(c, FrameOf(c, st, storage, key).value)
      case Threw => (st, Threw)
      case Returned(v) => (st, Returned(Some(v)))
    else
      match RowText(st.tables, storage, key)
      case None => (st, Returned(None))
      case Some(text) =>
        if text == "" then (Store(c, st, storage, key, text), Returned(None))
        else
          match Parse(c, text)
          case Threw => (st, Returned(None))
          case Returned(v) => (Store(c, st, storage, key, text).(changed := false), Returned(Some(v)))
  }

  /** The position of the first object of an array, or its length. */
  function FirstObject(items: seq<Json>): (i: nat)
    ensures i <= |items| && (i < |items| ==> items[i].Object?)
    ensures forall j :: 0 <= j < i ==> !items[j].Object?
  {
    if items == [] || items[0].Object? then 0 else 1 + FirstObject(items[1..])
  }

  /** The fields of `was`, with those that `f` has too taken from `f`. */
  function Refreshed(was: map<string, Json>, f: map<string, Json>): map<string, Json> {
    map k | k in was :: if k in f then f[k] else was[k]
  }

  /** json_set on a value that exists. An object goes into an object or an array but not onto a scalar. */
  function Merge(was: Json, value: Json): Outcome<Json> {
    match value
    case Array(_) => Returned(if was.Array? then Array(was.items + [value]) else value)
    case Object(f) =>
      (match was
       case Object(g) => Returned(Object(g + f))
       case Array(items) =>
         var i := FirstObject(items);
         Returned(
           if i < |items| then Array(items[i := Object(Refreshed(items[i].fields, f))])
           else if f == map[] then was
           else Array(items + [value]))
       case _ => Threw)
    case _ =>
      Returned(if !was.Array? then value else if value in was.items then was else Array(was.items + [value]))
  }

  /** The new value of a row: `value` where there was none; an undefined one only ever replaces. */
  function Merged(was: Option<Json>, value: Option<Json>): Outcome<Option<Json>> {
    if was.None? || was.value.Null? || value.None? then Returned(value)
    else
      match Merge(was.value, value.value)
      case Threw => Threw
      case Returned(v) => Returned(Some(v))
  }

  /** The value that set first takes from the cache: undefined where there is none, an exception where it is no JSON. */
  function Cached(c: Setup, st: State, storage: string, key: string): Outcome<Option<Json>> {
    if !st.changed && FrameOf(c, st, storage, key).Some? then Parse(c, FrameOf(c, st, storage, key).value)
    else Returned(None)
  }

  /** set, once the present value `v` has been read. */
  function Put(c: Setup, st: State, storage: string, key: string, v: Option<Json>, value: Option<Json>)
    : (State, Outcome<bool>)
  {
    if Find(v, key) == value then (st, Returned(true))
    else if v.None? || v.value.Null? then
      if storage !in st.tables || key in st.tables[storage] then (st, Returned(false))
      else
        var text := Print(c, value);
        (Store(c, WriteRow(st, storage, key, text), storage, key, text), Returned(true))
    else if v == value then (st, Returned(true))
    else
      match Merged(v, value)
      case Threw => (st, Threw)
      case Returned(w) =>
        if storage !in st.tables then (st, Returned(false))
        else
          var text := Print(c, w);
          var written := if key in st.tables[storage] then WriteRow(st, storage, key, text) else st.(changed := true);
          (Store(c, written, storage, key, text), Returned(true))
  }

  function Set(c: Setup, st: State, storage: string, key: string, value: Option<Json>): (State, Outcome<bool>) {
    if storage == "" || key == "" then (st, Returned(false))
    else
      match Cached(c, st, storage, key)
      case Threw => (st, Threw)
      case Returned(v) =>
        if v.Some? && Find(v, key) == value then (st, Returned(true))
        else
          var (read, found) := GetJson(c, st, storage, key);
          match found
          case Threw => (read, Threw)
          case Returned(None) => Put(c, read, storage, key, v, value)
          case Returned(Some(w)) => Put(c, read, storage, key, w, value)
  }

  function Erase(c: Setup, st: State, storage: string, key: string): (State, Outcome<bool>) {
    var (read, text) := Get(c, st, storage, key);
    match Parse(c, text)
    case Threw => (read, Threw)
    case Returned(v) =>
      if v.None? || v.value.Null? then (read, Returned(false))
      else if storage !in read.tables then (read, Returned(false))
      else
        var gone := read.(tables := read.tables[storage := read.tables[storage] - {key}], changed := true);
        (Drop(c, gone, storage, key), Returned(true))
  }

  function Create(c: Setup, st: State, storage: string): (State, bool) {
    if storage == "" then (st, false)
    else if StorageKey(c, storage) in st.frames then (st, true)
    else
      var made := if storage in st.tables then st.tables else st.tables[storage := map[]];
      (st.(tables := made, frames := st.frames[StorageKey(c, storage) := ""]), true)
  }

  function Clear(st: State, storage: string): (State, bool) {
    if storage == "" then (st, false) else (st.(tables := st.tables - {storage}, frames := map[]), true)
  }
}
