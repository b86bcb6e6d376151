/** The driver with its cache answers like one that has none. */
module RowCacheTheory {
  import opened Words
  import opened RowCache

  /** A storage names a table, so it has no colon in it. */
  predicate TableName(storage: string) {
    ':' !in storage
  }

  lemma {:induction false} SplitAtColon(a: string, b: string, x: string, y: string)
    requires TableName(a) && TableName(b) && a + ":" + x == b + ":" + y
    ensures a == b && x == y
  {
    var s, t := a + ":" + x, b + ":" + y;
    assert s[0] == if a == "" then ':' else a[0];
    assert t[0] == if b == "" then ':' else b[0];
    if a != "" && b != "" {
      assert s[1..] == a[1..] + ":" + x && t[1..] == b[1..] + ":" + y;
      SplitAtColon(a[1..], b[1..], x, y);
    } else {
      assert x == s[1..] && y == t[1..];
    }
  }

  lemma CutPrefix(p: string, a: string, b: string)
    ensures p + a == p + b <==> a == b
  {
    assert (p + a)[|p|..] == a && (p + b)[|p|..] == b;
  }

  /** Cache keys of different rows are different, and none is the key of a storage. */
  lemma KeysApart(c: Setup, s: string, k: string, t: string, l: string)
    requires TableName(s) && TableName(t)
    ensures FrameKey(c, s, k) == FrameKey(c, t, l) <==> s == t && k == l
    ensures FrameKey(c, s, k) != StorageKey(c, t)
    ensures StorageKey(c, s) == StorageKey(c, t) <==> s == t
  {
    var p := "data:sql:" + c.driver + ":";
    CutPrefix(p, s, t);
    assert FrameKey(c, s, k) == p + (s + ":" + k) && FrameKey(c, t, l) == p + (t + ":" + l);
    CutPrefix(p, s + ":" + k, t + ":" + l);
    CutPrefix(p, s + ":" + k, t);
    assert (s + ":" + k)[|s|] == ':';
    if s + ":" + k == t + ":" + l {
      SplitAtColon(s, t, k, l);
    }
  }

  /** Without that condition the keys of two storages can meet. */
  lemma KeysCanMeet(c: Setup)
    ensures FrameKey(c, "a:b", "c") == FrameKey(c, "a", "b:c") == "data:sql:" + c.driver + ":a:b:c"
  {
    assert FrameKey(c, "a:b", "c") == "data:sql:" + c.driver + ":" + "a:b:c";
    assert FrameKey(c, "a", "b:c") == "data:sql:" + c.driver + ":" + "a:b:c";
  }

  /** The frame of one row, if there is one, holds the row's text. */
  predicate Agrees(c: Setup, st: State, s: string, k: string) {
    FrameOf(c, st, s, k).Some? ==> RowText(st.tables, s, k) == FrameOf(c, st, s, k)
  }

  ghost predicate Coherent(c: Setup, st: State) {
    && (forall s, k :: TableName(s) ==> Agrees(c, st, s, k))
    && (forall s :: TableName(s) && StorageKey(c, s) in st.frames ==> s in st.tables)
  }

  /** Every row's text is empty or JSON. */
  ghost predicate Readable(c: Setup, tables: Tables) {
    forall s, k :: RowText(tables, s, k).Some? ==> Parse(c, RowText(tables, s, k).value).Returned?
  }

  /** What is asked of the JSON library: a value other than null is written without space around it, as a text that
      parses. It need not parse as the same value: digits of a number may be lost. */
  ghost predicate Good(c: Setup) {
    && (forall v :: v != Null ==> Normal(c.codec.write(v)) == c.codec.write(v) != "")
    && (forall v :: v != Null ==> c.codec.parse(c.codec.write(v)).Some?)
  }

  /** Whether one value is read back as it was written. */
  predicate ReadsBack(c: Setup, v: Json) {
    c.codec.parse(c.codec.write(v)) == Some(v)
  }

  /** The library's text for null. */
  predicate WritesNullAsNull(c: Setup) {
    c.codec.write(Null) == "null"
  }

  /** A small library: it reads back null, truth values and strings, and writes 0 for the rest. */
  function PlainCodec(): Codec {
    Codec(
      (s: string) =>
        if s == "null" then Some(Null)
        else if s == "true" then Some(Bool(true))
        else if s == "false" then Some(Bool(false))
        else if s == "0" then Some(Number(0.0))
        else if |s| >= 2 && s[0] == '"' && s[|s| - 1] == '"' then Some(Str(s[1..|s| - 1]))
        else None,
      (v: Json) =>
        match v
        case Null => "null"
        case Bool(b) => if b then "true" else "false"
        case Str(s) => "\"" + s + "\""
        case _ => "0")
  }

  /** A text without space at its ends is left alone. */
  lemma NormalOfTight(s: string)
    requires s != "" && !IsSpace(s[0]) && !IsSpace(s[|s| - 1]) && s != "null"
    ensures Normal(s) == s
  {
  }

  /** So there are libraries of the kind that is asked for. */
  lemma GoodLibraryExists(driver: string)
    ensures Good(Setup(driver, PlainCodec())) && WritesNullAsNull(Setup(driver, PlainCodec()))
    ensures forall s :: ReadsBack(Setup(driver, PlainCodec()), Str(s))
  {
    var c := PlainCodec();
    forall v: Json
      ensures v != Null ==> Normal(c.write(v)) == c.write(v) != "" && c.parse(c.write(v)).Some?
      ensures v.Str? ==> c.parse(c.write(v)) == Some(v)
    {
      NormalOfTight(if v.Null? then "0" else c.write(v));
    }
  }

  lemma FramesOfStore(c: Setup, st: State, s: string, k: string, text: string, t: string, l: string)
    requires TableName(s) && TableName(t)
    ensures FrameOf(c, Store(c, st, s, k, text), t, l) == if s == t && k == l then Some(text) else FrameOf(c, st, t, l)
    ensures StorageKey(c, t) in Store(c, st, s, k, text).frames ==> StorageKey(c, t) in st.frames
  {
    KeysApart(c, s, k, t, l);
    KeysApart(c, t, l, s, k);
    hide FrameKey, StorageKey, TableName;
  }

  lemma FramesOfDrop(c: Setup, st: State, s: string, k: string, t: string, l: string)
    requires TableName(s) && TableName(t)
    ensures FrameOf(c, Drop(c, st, s, k), t, l) == if s == t && k == l then None else FrameOf(c, st, t, l)
  {
    KeysApart(c, s, k, t, l);
    hide FrameKey, StorageKey, TableName;
  }

  /** Storing a row's present text keeps coherence. */
  lemma StoreKeeps(c: Setup, st: State, before: State, s: string, k: string)
    requires TableName(s) && Coherent(c, before) && before.frames == st.frames
    requires RowText(st.tables, s, k).Some?
    requires forall t, l ::
      TableName(t) && !(t == s && l == k) ==> RowText(st.tables, t, l) == RowText(before.tables, t, l)
    requires forall t :: t in before.tables ==> t in st.tables
    ensures Coherent(c, Store(c, st, s, k, RowText(st.tables, s, k).value))
  {
    var text := RowText(st.tables, s, k).value;
    var after := Store(c, st, s, k, text);
    hide Store, FrameOf, RowText, FrameKey, StorageKey, TableName;
    assert after.tables == st.tables by { StoreTables(c, st, s, k, text); }
    forall t, l | TableName(t)
      ensures Agrees(c, after, t, l)
    {
      FramesOfStore(c, st, s, k, text, t, l);
      FrameOfSame(c, st, before, t, l);
      assert Agrees(c, before, t, l);
    }
    forall t | TableName(t) && StorageKey(c, t) in after.frames
      ensures t in after.tables
    {
      FramesOfStore(c, st, s, k, text, t, "");
    }
  }

  lemma StoreTables(c: Setup, st: State, s: string, k: string, text: string)
    ensures Store(c, st, s, k, text).tables == st.tables
    ensures Store(c, st, s, k, text).changed == st.changed
  {
  }

  lemma FrameOfSame(c: Setup, st: State, other: State, s: string, k: string)
    requires st.frames == other.frames
    ensures FrameOf(c, st, s, k) == FrameOf(c, other, s, k)
  {
  }

  /** The flag has no part in coherence. */
  lemma FlagIsFree(c: Setup, st: State, flag: bool)
    requires Coherent(c, st)
    ensures Coherent(c, st.(changed := flag))
  {
    hide FrameOf, RowText, FrameKey, StorageKey, TableName;
    var after := st.(changed := flag);
    forall t, l | TableName(t)
      ensures Agrees(c, after, t, l)
    {
      assert Agrees(c, st, t, l);
      FrameOfSame(c, st, after, t, l);
    }
  }

  /** What a read of the table gives. */
  function DirectGet(tables: Tables, storage: string, key: string): string {
    if storage == "" || key == "" then "" else RowText(tables, storage, key).GetOr("")
  }

  function DirectValue(c: Setup, tables: Tables, storage: string, key: string): Option<Json> {
    match Parse(c, DirectGet(tables, storage, key))
    case Threw => None
    case Returned(v) => v
  }

  /** In a coherent state get returns what the table holds, whatever is cached, and stays coherent. */
  lemma GetIsDirect(c: Setup, st: State, storage: string, key: string)
    requires TableName(storage) && Coherent(c, st)
    ensures Get(c, st, storage, key).1 == DirectGet(st.tables, storage, key)
    ensures Get(c, st, storage, key).0.tables == st.tables && Coherent(c, Get(c, st, storage, key).0)
  {
    assert Agrees(c, st, storage, key);
    hide Coherent, FrameOf, RowText, TableName, Store;
    if RowText(st.tables, storage, key).Some? {
      var text := RowText(st.tables, storage, key).value;
      StoreKeeps(c, st, st, storage, key);
      StoreTables(c, st, storage, key, text);
      FlagIsFree(c, Store(c, st, storage, key, text), false);
    }
  }

  /** The value that get of JSON leaves its caller with: none where it fails, throws, or assigns an undefined one. */
  function ValueFound(r: Outcome<Option<Option<Json>>>): Option<Json> {
    if r.Threw? then None else r.value.GetOr(None)
  }

  /** get of JSON returns the value of that text; with no such value it fails, is undefined, or throws. */
  lemma GetJsonIsDirect(c: Setup, st: State, storage: string, key: string)
    requires TableName(storage) && Coherent(c, st)
    ensures GetJson(c, st, storage, key).0.tables == st.tables && Coherent(c, GetJson(c, st, storage, key).0)
    ensures ValueFound(GetJson(c, st, storage, key).1) == DirectValue(c, st.tables, storage, key)
  {
    assert Agrees(c, st, storage, key);
    hide Coherent, FrameOf, RowText, TableName, Store;
    if RowText(st.tables, storage, key).Some? {
      var text := RowText(st.tables, storage, key).value;
      StoreKeeps(c, st, st, storage, key);
      StoreTables(c, st, storage, key, text);
      FlagIsFree(c, Store(c, st, storage, key, text), false);
    }
  }

  /** It differs from a read of the table only at a usable frame: an empty one makes it true, no JSON makes it throw. */
  lemma GetJsonDiffers(c: Setup, st: State, storage: string, key: string)
    requires TableName(storage) && Coherent(c, st)
    ensures var (_, r) := GetJson(c, st, storage, key);
            var (_, d) := GetJson(c, st.(frames := map[]), storage, key);
            var frame := FrameOf(c, st, storage, key);
            r != d <==> storage != "" && key != "" && !st.changed && frame.Some?
                        && (frame.value == "" || c.codec.parse(frame.value).None?)
  {
    assert Agrees(c, st, storage, key);
    hide Coherent, RowText, TableName, Store, FrameKey;
  }

  /** A driver without a cache. */
  function DirectPut(c: Setup, tables: Tables, storage: string, key: string, v: Option<Json>, value: Option<Json>)
    : (Tables, Outcome<bool>)
  {
    if Find(v, key) == value then (tables, Returned(true))
    else if v.None? || v.value.Null? then
      if storage !in tables || key in tables[storage] then (tables, Returned(false))
      else (tables[storage := tables[storage][key := Print(c, value)]], Returned(true))
    else if v == value then (tables, Returned(true))
    else
      match Merged(v, value)
      case Threw => (tables, Threw)
      case Returned(w) =>
        if storage !in tables then (tables, Returned(false))
        else (tables[storage := tables[storage][key := Print(c, w)]], Returned(true))
  }

  function DirectSet(c: Setup, tables: Tables, storage: string, key: string, value: Option<Json>)
    : (Tables, Outcome<bool>)
  {
    if storage == "" || key == "" then (tables, Returned(false))
    else DirectPut(c, tables, storage, key, DirectValue(c, tables, storage, key), value)
  }

  function DirectErase(c: Setup, tables: Tables, storage: string, key: string): (Tables, Outcome<bool>) {
    var v := DirectValue(c, tables, storage, key);
    if v.None? || v.value.Null? || storage !in tables then (tables, Returned(false))
    else (tables[storage := tables[storage] - {key}], Returned(true))
  }

  /** What is written is what get will make of it. */
  lemma WrittenIsNormal(c: Setup, w: Option<Json>)
    requires Good(c) && w != Some(Null)
    ensures Normal(Print(c, w)) == Print(c, w) && Parse(c, Print(c, w)).Returned?
  {
    if w.Some? {
      assert c.codec.parse(c.codec.write(w.value)).Some?;
    }
  }

  lemma RowsOfWrite(st: State, s: string, k: string, text: string, t: string, l: string)
    requires s in st.tables
    ensures RowText(WriteRow(st, s, k, text).tables, t, l)
         == if t == s && l == k then Some(Normal(text)) else RowText(st.tables, t, l)
    ensures WriteRow(st, s, k, text).frames == st.frames
    ensures forall u :: u in st.tables ==> u in WriteRow(st, s, k, text).tables
  {
  }

  /** Writing a row and its frame keeps both invariants, where the text is one that reads back as itself. */
  lemma WriteKeeps(c: Setup, st: State, s: string, k: string, text: string)
    requires TableName(s) && s in st.tables && Coherent(c, st) && Readable(c, st.tables)
    requires Normal(text) == text && Parse(c, text).Returned?
    ensures var after := Store(c, WriteRow(st, s, k, text), s, k, text);
            Coherent(c, after) && Readable(c, after.tables)
  {
    var written := WriteRow(st, s, k, text);
    forall t, l
      ensures RowText(written.tables, t, l)
           == if t == s && l == k then Some(Normal(text)) else RowText(st.tables, t, l)
    {
      RowsOfWrite(st, s, k, text, t, l);
    }
    RowsOfWrite(st, s, k, text, s, k);
    StoreTables(c, written, s, k, text);
    hide WriteRow, RowText, Coherent, Store, Normal, Parse, TableName;
    StoreKeeps(c, written, st, s, k);
  }

  /** Whether set writes null: as a new row, or over a value that is neither an array nor has null in a field of that
      name. */
  predicate PutsNull(c: Setup, tables: Tables, s: string, k: string, value: Option<Json>) {
    var v := DirectValue(c, tables, s, k);
    && value == Some(Null) && Find(v, k) != value
    && if v.None? || v.value.Null? then s in tables && k !in tables[s] else !v.value.Array?
  }

  lemma MergedIsNull(v: Option<Json>, value: Option<Json>)
    ensures Merged(v, value) == Returned(Some(Null))
       <==> value == Some(Null) && (v.None? || !v.value.Array?)
  {
  }

  /** Once the present value is known, the cached driver does to the tables what the other does. */
  lemma PutIsDirect(c: Setup, st: State, s: string, k: string, value: Option<Json>)
    requires TableName(s) && s != "" && k != "" && Good(c) && Coherent(c, st) && Readable(c, st.tables)
    requires !PutsNull(c, st.tables, s, k, value)
    ensures var v := DirectValue(c, st.tables, s, k);
            var (after, r) := Put(c, st, s, k, v, value);
            && Coherent(c, after) && Readable(c, after.tables)
            && (after.tables, r) == DirectPut(c, st.tables, s, k, v, value)
  {
    var v := DirectValue(c, st.tables, s, k);
    var m := Merged(v, value);
    hide Coherent, Readable, Good, Merge, Find, TableName, Normal, WriteRow, Store;
    PresentValueHasRow(c, st, s, k);
    MergedIsNull(v, value);
    if s in st.tables && m.Returned? {
      WriteTables(c, st, s, k, Print(c, m.value));
      if m.value != Some(Null) {
        WrittenIsNormal(c, m.value);
        WriteKeeps(c, st, s, k, Print(c, m.value));
      }
    }
  }

  lemma WriteTables(c: Setup, st: State, s: string, k: string, text: string)
    requires s in st.tables
    ensures Store(c, WriteRow(st, s, k, text), s, k, text).tables == st.tables[s := st.tables[s][k := text]]
  {
  }

  lemma PresentValueHasRow(c: Setup, st: State, s: string, k: string)
    ensures DirectValue(c, st.tables, s, k).Some? ==> s in st.tables && k in st.tables[s]
  {
  }

  /** set does to the tables what a driver without a cache does, and ends alike. */
  lemma SetIsDirect(c: Setup, st: State, s: string, k: string, value: Option<Json>)
    requires TableName(s) && Good(c) && Coherent(c, st) && Readable(c, st.tables)
    requires !PutsNull(c, st.tables, s, k, value)
    ensures var (after, r) := Set(c, st, s, k, value);
            Coherent(c, after) && Readable(c, after.tables) && (after.tables, r) == DirectSet(c, st.tables, s, k, value)
  {
    if s != "" && k != "" {
      var v := DirectValue(c, st.tables, s, k);
      CachedIsDirect(c, st, s, k);
      GetJsonIsDirect(c, st, s, k);
      var read := GetJson(c, st, s, k).0;
      PutIsDirect(c, read, s, k, value);
      hide Coherent, Readable, Good, Put, DirectPut, DirectValue, Find, TableName, GetJson, Cached, PutsNull;
    }
  }

  /** What set reads, from the cache and then by get, is the row's value. */
  lemma CachedIsDirect(c: Setup, st: State, s: string, k: string)
    requires TableName(s) && s != "" && k != "" && Coherent(c, st) && Readable(c, st.tables)
    ensures var v := DirectValue(c, st.tables, s, k);
            var cached, found := Cached(c, st, s, k), GetJson(c, st, s, k).1;
            && cached.Returned? && (cached.value == None || cached.value == v)
            && found.Returned? && (if found.value.Some? then found.value.value == v else cached.value == v == None)
  {
    assert Agrees(c, st, s, k);
    hide Coherent, Normal, TableName, FrameKey;
  }

  lemma DropKeeps(c: Setup, st: State, gone: State, s: string, k: string)
    requires TableName(s) && Coherent(c, st) && gone.frames == st.frames
    requires forall t, l :: RowText(gone.tables, t, l) == if t == s && l == k then None else RowText(st.tables, t, l)
    requires forall t :: t in st.tables ==> t in gone.tables
    ensures Coherent(c, Drop(c, gone, s, k))
  {
    var after := Drop(c, gone, s, k);
    forall t, l | TableName(t)
      ensures Agrees(c, after, t, l)
    {
      FramesOfDrop(c, gone, s, k, t, l);
      FrameOfSame(c, gone, st, t, l);
      assert Agrees(c, st, t, l);
    }
  }

  /** erase does to the tables what a driver without a cache does, and ends alike. */
  lemma EraseIsDirect(c: Setup, st: State, s: string, k: string)
    requires TableName(s) && Coherent(c, st) && Readable(c, st.tables)
    ensures var (after, r) := Erase(c, st, s, k);
            Coherent(c, after) && Readable(c, after.tables) && (after.tables, r) == DirectErase(c, st.tables, s, k)
  {
    GetIsDirect(c, st, s, k);
    var (read, text) := Get(c, st, s, k);
    DirectTextReads(c, st.tables, s, k);
    var v := DirectValue(c, st.tables, s, k);
    if v.Some? && !v.value.Null? && s in read.tables {
      var gone := read.(tables := read.tables[s := read.tables[s] - {k}], changed := true);
      assert forall t, l :: RowText(gone.tables, t, l) == if t == s && l == k then None else RowText(st.tables, t, l);
      hide RowText, Get, Coherent, TableName;
      DropKeeps(c, read, gone, s, k);
    }
  }

  lemma DirectTextReads(c: Setup, tables: Tables, s: string, k: string)
    requires Readable(c, tables)
    ensures Parse(c, DirectGet(tables, s, k)) == Returned(DirectValue(c, tables, s, k))
  {
  }

  function DirectCreate(tables: Tables, storage: string): (Tables, bool) {
    if storage == "" then (tables, false)
    else (if storage in tables then tables else tables[storage := map[]], true)
  }

  /** create makes the table, whatever it believes from its frame. */
  lemma CreateIsDirect(c: Setup, st: State, s: string)
    requires TableName(s) && Coherent(c, st) && Readable(c, st.tables)
    ensures var (after, r) := Create(c, st, s);
            Coherent(c, after) && Readable(c, after.tables) && (after.tables, r) == DirectCreate(st.tables, s)
  {
    var (after, r) := Create(c, st, s);
    assert forall t, l :: RowText(after.tables, t, l) == RowText(st.tables, t, l);
    forall t, l | TableName(t)
      ensures Agrees(c, after, t, l)
    {
      assert Agrees(c, st, t, l);
      KeysApart(c, t, l, s, l);
      hide FrameKey, StorageKey;
    }
    forall t | TableName(t) && StorageKey(c, t) in after.frames
      ensures t in after.tables
    {
      KeysApart(c, t, "", s, "");
      hide FrameKey, StorageKey;
    }
  }

  function DirectClear(tables: Tables, storage: string): (Tables, bool) {
    if storage == "" then (tables, false) else (tables - {storage}, true)
  }

  /** clear drops the table, and with it every frame of every table. */
  lemma ClearIsDirect(c: Setup, st: State, s: string)
    requires TableName(s) && Coherent(c, st) && Readable(c, st.tables)
    ensures var (after, r) := Clear(st, s);
            && Coherent(c, after) && Readable(c, after.tables) && (after.tables, r) == DirectClear(st.tables, s)
            && (r ==> s !in after.tables && forall t, k :: FrameOf(c, after, t, k) == None)
  {
    var after := Clear(st, s).0;
    assert forall t, l :: RowText(after.tables, t, l).Some? ==> RowText(after.tables, t, l) == RowText(st.tables, t, l);
    forall t, l | TableName(t)
      ensures Agrees(c, after, t, l)
    {
      assert Agrees(c, st, t, l);
    }
  }

  /** A frame may go at any time. */
  function Evict(st: State, frame: string): State {
    st.(frames := st.frames - {frame})
  }

  lemma EvictKeeps(c: Setup, st: State, frame: string)
    requires Coherent(c, st)
    ensures Coherent(c, Evict(st, frame))
  {
    var after := Evict(st, frame);
    forall t, l | TableName(t)
      ensures Agrees(c, after, t, l)
    {
      assert Agrees(c, st, t, l);
    }
  }

  /** The calls a client can make, and the loss of a frame. */
  datatype Op =
    | GetRow(storage: string, key: string)
    | GetValueRow(storage: string, key: string)
    | SetRow(storage: string, key: string, value: Option<Json>)
    | EraseRow(storage: string, key: string)
    | CreateTable(storage: string)
    | ClearTable(storage: string)
    | LoseFrame(frame: string)

  datatype Answer = Text(text: string) | Value(value: Option<Json>) | Done(flag: Outcome<bool>) | Silent

  /** Names without colons in tables, without dots in keys, and no null. */
  predicate Allowed(op: Op) {
    match op
    case GetRow(s, k) => TableName(s) && '.' !in k
    case GetValueRow(s, k) => TableName(s) && '.' !in k
    case SetRow(s, k, value) => TableName(s) && '.' !in k && value != Some(Null)
    case EraseRow(s, k) => TableName(s) && '.' !in k
    case CreateTable(s) => TableName(s)
    case ClearTable(s) => TableName(s)
    case LoseFrame(_) => true
  }

  function Step(c: Setup, st: State, op: Op): (State, Answer) {
    match op
    case GetRow(s, k) => var (after, r) := Get(c, st, s, k); (after, Text(r))
    case GetValueRow(s, k) => var (after, r) := GetJson(c, st, s, k); (after, Value(ValueFound(r)))
    case SetRow(s, k, value) => var (after, r) := Set(c, st, s, k, value); (after, Done(r))
    case EraseRow(s, k) => var (after, r) := Erase(c, st, s, k); (after, Done(r))
    case CreateTable(s) => var (after, r) := Create(c, st, s); (after, Done(Returned(r)))
    case ClearTable(s) => var (after, r) := Clear(st, s); (after, Done(Returned(r)))
    case LoseFrame(f) => (Evict(st, f), Silent)
  }

  function DirectStep(c: Setup, tables: Tables, op: Op): (Tables, Answer) {
    match op
    case GetRow(s, k) => (tables, Text(DirectGet(tables, s, k)))
    case GetValueRow(s, k) => (tables, Value(DirectValue(c, tables, s, k)))
    case SetRow(s, k, value) => var (after, r) := DirectSet(c, tables, s, k, value); (after, Done(r))
    case EraseRow(s, k) => var (after, r) := DirectErase(c, tables, s, k); (after, Done(r))
    case CreateTable(s) => var (after, r) := DirectCreate(tables, s); (after, Done(Returned(r)))
    case ClearTable(s) => var (after, r) := DirectClear(tables, s); (after, Done(Returned(r)))
    case LoseFrame(f) => (tables, Silent)
  }

  function Run(c: Setup, st: State, ops: seq<Op>): (State, seq<Answer>)
    decreases |ops|
  {
    if ops == [] then (st, [])
    else
      var (next, a) := Step(c, st, ops[0]);
      var (last, rest) := Run(c, next, ops[1..]);
      (last, [a] + rest)
  }

  function DirectRun(c: Setup, tables: Tables, ops: seq<Op>): (Tables, seq<Answer>)
    decreases |ops|
  {
    if ops == [] then (tables, [])
    else
      var (next, a) := DirectStep(c, tables, ops[0]);
      var (last, rest) := DirectRun(c, next, ops[1..]);
      (last, [a] + rest)
  }

  lemma StepIsDirect(c: Setup, st: State, op: Op)
    requires Good(c) && Coherent(c, st) && Readable(c, st.tables) && Allowed(op)
    ensures var (after, a) := Step(c, st, op);
            Coherent(c, after) && Readable(c, after.tables) && (after.tables, a) == DirectStep(c, st.tables, op)
  {
    hide Good, Coherent, Readable, TableName, Get, GetJson, Set, Erase, Create, Clear;
    hide DirectGet, DirectValue, DirectSet, DirectErase, DirectCreate, DirectClear;
    match op
    case GetRow(s, k) => GetIsDirect(c, st, s, k);
    case GetValueRow(s, k) => GetJsonIsDirect(c, st, s, k);
    case SetRow(s, k, value) => SetIsDirect(c, st, s, k, value);
    case EraseRow(s, k) => EraseIsDirect(c, st, s, k);
    case CreateTable(s) => CreateIsDirect(c, st, s);
    case ClearTable(s) => ClearIsDirect(c, st, s);
    case LoseFrame(f) => EvictKeeps(c, st, f);
  }

  /** Over every run, with any frames lost on the way, every answer and the tables are those of a driver without a
      cache, and every frame held for a row has the row's text. */
  lemma {:induction false} RunIsDirect(c: Setup, st: State, ops: seq<Op>)
    requires Good(c) && Coherent(c, st) && Readable(c, st.tables) && forall i :: 0 <= i < |ops| ==> Allowed(ops[i])
    ensures var (last, answers) := Run(c, st, ops);
            && Coherent(c, last) && Readable(c, last.tables)
            && (last.tables, answers) == DirectRun(c, st.tables, ops)
    decreases |ops|
  {
    if ops != [] {
      StepIsDirect(c, st, ops[0]);
      hide Good, Coherent, Readable, Step, DirectStep, Allowed;
      RunIsDirect(c, Step(c, st, ops[0]).0, ops[1..]);
    }
  }

  /** A driver starts with an empty cache, which is coherent with any tables; so, from the start, no run tells it from
      one without a cache. */
  lemma FreshRunIsDirect(c: Setup, tables: Tables, ops: seq<Op>)
    requires Good(c) && Readable(c, tables) && forall i :: 0 <= i < |ops| ==> Allowed(ops[i])
    ensures var (last, answers) := Run(c, State(tables, map[], false), ops);
            Coherent(c, last) && (last.tables, answers) == DirectRun(c, tables, ops)
  {
    var st := State(tables, map[], false);
    assert Coherent(c, st);
    hide *;
    RunIsDirect(c, st, ops);
  }

  lemma NullIsNoText()
    ensures Normal("null") == ""
  {
    assert TrimRight("null") == "null" && TrimLeft("null") == "null";
  }

  lemma StaleNull(c: Setup, st: State, s: string, k: string)
    requires TableName(s) && s in st.tables && WritesNullAsNull(c)
    ensures !Coherent(c, Store(c, WriteRow(st, s, k, Print(c, Some(Null))), s, k, Print(c, Some(Null))))
  {
    var written := WriteRow(st, s, k, "null");
    var after := Store(c, written, s, k, "null");
    NullIsNoText();
    RowsOfWrite(st, s, k, "null", s, k);
    StoreTables(c, written, s, k, "null");
    FramesOfStore(c, written, s, k, "null", s, k);
    hide Normal, RowText, Store, WriteRow, FrameOf, TableName;
    assert !Agrees(c, after, s, k);
  }

  /** set keeps the cache coherent exactly when it does not write null: such a row's frame says null, get nothing. */
  lemma SetKeepsCoherenceIff(c: Setup, st: State, s: string, k: string, value: Option<Json>)
    requires TableName(s) && s != "" && k != "" && Good(c) && WritesNullAsNull(c)
    requires Coherent(c, st) && Readable(c, st.tables)
    ensures Coherent(c, Set(c, st, s, k, value).0) <==> !PutsNull(c, st.tables, s, k, value)
  {
    if PutsNull(c, st.tables, s, k, value) {
      var v := DirectValue(c, st.tables, s, k);
      CachedIsDirect(c, st, s, k);
      GetJsonIsDirect(c, st, s, k);
      var read := GetJson(c, st, s, k).0;
      PresentValueHasRow(c, st, s, k);
      if s in st.tables {
        StaleNull(c, read, s, k);
      }
      hide Coherent, Readable, Good, DirectValue, Find, TableName, GetJson, Cached, Store, WriteRow;
    } else {
      SetIsDirect(c, st, s, k, value);
    }
  }

  /** When a merge amounts to a replacement: nothing there, or no array there and all fields of an object renewed. */
  predicate Replaces(v: Option<Json>, value: Json) {
    v.None? || v.value.Null?
    || (match v.value
        case Array(_) => false
        case Object(f) => value.Object? ==> f.Keys <= value.fields.Keys
        case _ => !value.Object?)
  }

  lemma MergeReplaces(v: Option<Json>, value: Json)
    ensures Merged(v, Some(value)) == Returned(Some(value)) <==> Replaces(v, value)
  {
    if v.Some? && v.value.Object? && value.Object? {
      var f, g := v.value.fields, value.fields;
      if f.Keys <= g.Keys {
        assert f + g == g;
      } else {
        assert (f + g).Keys == f.Keys + g.Keys;
      }
    } else if v.Some? && v.value.Array? && value.Array? {
      ArrayIsNoItem(v.value.items, value);
    }
  }

  lemma ArrayIsNoItem(items: seq<Json>, value: Json)
    requires value.Array?
    ensures Array(items + [value]) != value
  {
    var longer := items + [value];
    assert longer[|items|] == value;
  }

  /** After a set that returned true, the row's text is the merged value's, unless the row had the value already or a
      field of the key's name has it, which makes set return early. */
  lemma SetThenText(c: Setup, st: State, s: string, k: string, value: Json)
    requires TableName(s) && Good(c) && Coherent(c, st) && Readable(c, st.tables) && value != Null
    requires Set(c, st, s, k, Some(value)).1 == Returned(true)
    ensures var v, after := DirectValue(c, st.tables, s, k), Set(c, st, s, k, Some(value)).0.tables;
            if v == Some(value) || Find(v, k) == Some(value) then after == st.tables
            else
              var m := Merged(v, Some(value));
              m.Returned? && s in st.tables && after == st.tables[s := st.tables[s][k := Print(c, m.value)]]
  {
    SetIsDirect(c, st, s, k, Some(value));
    hide Set, Coherent, Readable, Good, Merge, Find, DirectValue, Print;
  }

  /** It reads as the value set exactly when it did already, or there was no such field and merging amounts to
      replacing; for this the library has to read back the merged value. */
  lemma SetThenRead(c: Setup, st: State, s: string, k: string, value: Json)
    requires TableName(s) && Good(c) && Coherent(c, st) && Readable(c, st.tables) && value != Null
    requires Set(c, st, s, k, Some(value)).1 == Returned(true)
    requires var m := Merged(DirectValue(c, st.tables, s, k), Some(value));
             m.Returned? && m.value.Some? ==> ReadsBack(c, m.value.value)
    ensures var v, after := DirectValue(c, st.tables, s, k), Set(c, st, s, k, Some(value)).0.tables;
            (DirectValue(c, after, s, k) == Some(value)
             <==> v == Some(value) || (Find(v, k) != Some(value) && Replaces(v, value)))
  {
    var v := DirectValue(c, st.tables, s, k);
    var m := Merged(v, Some(value));
    SetThenText(c, st, s, k, value);
    SetNeedsNames(c, st, s, k, value);
    MergeReplaces(v, value);
    FindIsInside(v, k, value);
    MergedIsNull(v, Some(value));
    MergedIsDefined(v, value);
    if m.Returned? && s in st.tables {
      WrittenIsNormal(c, m.value);
      ParsedBack(c, m.value);
      ReadWritten(c, st.tables, s, k, Print(c, m.value));
    }
    hide *;
  }

  lemma SetNeedsNames(c: Setup, st: State, s: string, k: string, value: Json)
    requires Set(c, st, s, k, Some(value)).1 == Returned(true)
    ensures s != "" && k != ""
  {
  }

  lemma MergedIsDefined(v: Option<Json>, value: Json)
    ensures Merged(v, Some(value)).Returned? ==> Merged(v, Some(value)).value.Some?
  {
  }

  lemma ParsedBack(c: Setup, w: Option<Json>)
    requires Good(c) && w.Some? && w != Some(Null) && ReadsBack(c, w.value)
    ensures Parse(c, Print(c, w)) == Returned(w)
  {
  }

  lemma FindIsInside(v: Option<Json>, k: string, value: Json)
    ensures Find(v, k) == Some(value) ==> v != Some(value)
  {
  }

  lemma ReadWritten(c: Setup, tables: Tables, s: string, k: string, text: string)
    requires s in tables && s != "" && k != "" && Normal(text) == text && Parse(c, text).Returned?
    ensures DirectValue(c, tables[s := tables[s][k := text]], s, k) == Parse(c, text).value
  {
  }
}
