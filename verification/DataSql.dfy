/** The driver's methods over their fields, and the loops of json_set. */
module DataSql {
  import opened Words
  import opened RowCache
  import opened RowCacheTheory
  import opened RowCacheMeaning
  import SplitJoin

  /** The first part of a key and whether another follows: a key that starts with a dot counts as one part. */
  function GetDotted(key: string): (string, bool) {
    var k := SplitJoin.Free(key, ".");
    if k == |key| || k == 0 then (key, false) else (key[..k], true)
  }

  lemma DotFreeIsOnePart(key: string)
    requires '.' !in key
    ensures GetDotted(key) == (key, false)
  {
    SplitJoin.FreeIs(key, |key|, ".");
  }

  function Restrict(f: map<string, Json>, keys: set<string>): map<string, Json> {
    map k | k in f && k in keys :: f[k]
  }

  /** An object onto an object: absent fields inserted, different ones replaced. */
  method MergeObjects(was: map<string, Json>, f: map<string, Json>) returns (t: map<string, Json>)
    ensures t == was + f
  {
    t := was;
    var rest := f.Keys;
    while rest != {}
      invariant rest <= f.Keys
      invariant t == was + Restrict(f, f.Keys - rest)
      decreases |rest|
    {
      var k :| k in rest;
      OneMoreField(was, f, rest, k);
      if k !in t {
        t := t[k := f[k]];
      } else if t[k] != f[k] {
        t := t[k := f[k]];
      }
      rest := rest - {k};
    }
    assert Restrict(f, f.Keys - rest) == f;
  }

  lemma OneMoreField(was: map<string, Json>, f: map<string, Json>, rest: set<string>, k: string)
    requires k in rest && rest <= f.Keys
    ensures was + Restrict(f, f.Keys - (rest - {k})) == (was + Restrict(f, f.Keys - rest))[k := f[k]]
    ensures Restrict(f, f.Keys - (rest - {k})) == Restrict(f, f.Keys - rest)[k := f[k]]
  {
  }

  /** What some of the fields of an object do to an array: the first object takes those that it has. */
  function IntoArray(items: seq<Json>, f: map<string, Json>): seq<Json> {
    var i := FirstObject(items);
    if i < |items| then items[i := Object(Refreshed(items[i].fields, f))] else items
  }

  lemma FirstObjectIs(items: seq<Json>, i: nat)
    requires i <= |items| && (forall j :: 0 <= j < i ==> !items[j].Object?) && (i < |items| ==> items[i].Object?)
    ensures FirstObject(items) == i
  {
    if i > 0 {
      FirstObjectIs(items[1..], i - 1);
    }
  }

  /** One field into an array: what the inner loop does, and whether it met an object. */
  method FieldIntoArray(was: seq<Json>, k: string, v: Json) returns (t: seq<Json>, replaced: bool)
    ensures t == IntoArray(was, map[k := v])
    ensures replaced <==> FirstObject(was) < |was|
  {
    t := was;
    var i := 0;
    replaced := false;
    while i < |t|
      invariant 0 <= i <= |t| && t == was
      invariant forall j :: 0 <= j < i ==> !was[j].Object?
      invariant !replaced
    {
      if t[i].Object? {
        FirstObjectIs(was, i);
        if k in t[i].fields && t[i].fields[k] != v {
          assert Refreshed(was[i].fields, map[k := v]) == was[i].fields[k := v];
          t := t[i := Object(t[i].fields[k := v])];
        } else {
          assert Refreshed(was[i].fields, map[k := v]) == was[i].fields;
        }
        return t, true;
      }
      i := i + 1;
    }
    FirstObjectIs(was, i);
  }

  lemma RefreshedTwice(g: map<string, Json>, f: map<string, Json>, done: set<string>, k: string)
    requires k in f && k !in done
    ensures Refreshed(Refreshed(g, Restrict(f, done)), map[k := f[k]]) == Refreshed(g, Restrict(f, done + {k}))
  {
  }

  lemma IntoArrayTwice(items: seq<Json>, f: map<string, Json>, done: set<string>, k: string)
    requires k in f && k !in done
    ensures IntoArray(IntoArray(items, Restrict(f, done)), map[k := f[k]]) == IntoArray(items, Restrict(f, done + {k}))
    ensures FirstObject(IntoArray(items, Restrict(f, done))) == FirstObject(items)
  {
    var i := FirstObject(items);
    if i < |items| {
      RefreshedTwice(items[i].fields, f, done, k);
    }
    FirstObjectIs(IntoArray(items, Restrict(f, done)), i);
  }

  lemma IntoArrayNothing(items: seq<Json>, f: map<string, Json>)
    ensures IntoArray(items, Restrict(f, {})) == items
  {
    var i := FirstObject(items);
    if i < |items| {
      assert Refreshed(items[i].fields, Restrict(f, {})) == items[i].fields;
    }
  }

  /** An object onto an array: its fields go into the first object, or together at the end where there is none. */
  method MergeIntoArray(items: seq<Json>, f: map<string, Json>) returns (r: Json)
    ensures Returned(r) == Merge(Array(items), Object(f))
  {
    var t := items;
    var tmp: map<string, Json> := map[];
    var rest := f.Keys;
    IntoArrayNothing(items, f);
    assert f.Keys - rest == {};
    while rest != {}
      invariant rest <= f.Keys
      invariant t == IntoArray(items, Restrict(f, f.Keys - rest))
      invariant tmp == if FirstObject(items) < |items| then map[] else Restrict(f, f.Keys - rest)
      decreases |rest|
    {
      var k :| k in rest;
      ghost var done := f.Keys - rest;
      var replaced;
      IntoArrayTwice(items, f, done, k);
      t, replaced := FieldIntoArray(t, k, f[k]);
      if !replaced {
        tmp := tmp[k := f[k]];
      }
      rest := rest - {k};
      assert f.Keys - rest == done + {k};
      assert Restrict(f, done + {k}) == Restrict(f, done)[k := f[k]];
    }
    assert Restrict(f, f.Keys - rest) == f;
    if tmp != map[] {
      t := t + [Object(tmp)];
    }
    r := Array(t);
  }

  /** json_set where there is a value already. */
  method JsonSet(was: Json, value: Json) returns (r: Outcome<Json>)
    ensures r == Merge(was, value)
    ensures IsMerge(was, value, r)
  {
    MergeIff(was, value, Merge(was, value));
    hide IsMerge;
    match value
    case Array(_) =>
      r := Returned(if was.Array? then Array(was.items + [value]) else value);
    case Object(f) =>
      if was.Object? {
        var t := MergeObjects(was.fields, f);
        r := Returned(Object(t));
      } else if was.Array? {
        var t := MergeIntoArray(was.items, f);
        r := Returned(t);
      } else {
        r := Threw;
      }
    case _ =>
      if was.Array? {
        r := Returned(if value in was.items then was else Array(was.items + [value]));
      } else {
        r := Returned(value);
      }
  }

  class Driver {
    const setup: Setup
    var tables: Tables
    var frames: map<string, string>
    var changed: bool

    function Now(): State
      reads this
    {
      State(tables, frames, changed)
    }

    /** Every frame agrees with its row, and every row is empty or JSON. */
    ghost predicate InStep()
      reads this
    {
      Coherent(setup, Now()) && Readable(setup, tables)
    }

    constructor (setup: Setup, tables: Tables)
      ensures this.setup == setup && Now() == State(tables, map[], false)
      ensures Coherent(setup, Now())
    {
      this.setup, this.tables, frames, changed := setup, tables, map[], false;
    }

    /** store_frame for a row, then rise for its storage. */
    method Refresh(storage: string, key: string, text: string)
      modifies this`frames
      ensures Now() == Store(setup, old(Now()), storage, key, text)
    {
      frames := frames[FrameKey(setup, storage, key) := text];
      frames := frames - {StorageKey(setup, storage)};
    }

    /** get of a string: the row's text, whatever is cached, and the table as it was. */
    method GetString(storage: string, key: string) returns (s: string)
      requires '.' !in key
      modifies this
      ensures (Now(), s) == Get(setup, old(Now()), storage, key)
      ensures storage != "" && key != "" && (old(changed) || FrameKey(setup, storage, key) !in old(frames))
              && storage in old(tables) && key in old(tables)[storage] ==>
        && s == Normal(old(tables)[storage][key]) && !changed
        && frames == old(frames)[FrameKey(setup, storage, key) := s] - {StorageKey(setup, storage)}
      ensures storage != "" && key != "" && !old(changed) && FrameKey(setup, storage, key) in old(frames) ==>
        s == old(frames)[FrameKey(setup, storage, key)] && Now() == old(Now())
      ensures TableName(storage) && old(InStep()) ==>
        InStep() && tables == old(tables) && s == DirectGet(tables, storage, key)
    {
      if TableName(storage) && InStep() {
        GetIsDirect(setup, Now(), storage, key);
      }
      hide TableName, InStep, Coherent, Readable, DirectGet;
      if storage == "" || key == "" {
        return "";
      }
      DotFreeIsOnePart(key);
      var (first, dotted) := GetDotted(key);
      var k := FrameKey(setup, storage, key);
      if !changed {
        if k in frames {
          return frames[k];
        }
      }
      if storage !in tables || first !in tables[storage] {
        return "";
      }
      s := Normal(tables[storage][first]);
      if s == "" {
        Refresh(storage, key, "");
        changed := false;
        return "";
      }
      Refresh(storage, key, s);
      changed := false;
    }

    /** get of JSON; `found` is its result, and `v` keeps the value `was` where nothing is assigned. Where it is true,
        `v` is the value of the row's text. */
    method GetValue(storage: string, key: string, was: Option<Json>)
      returns (found: Outcome<bool>, v: Option<Json>)
      requires '.' !in key
      modifies this
      ensures var (after, r) := GetJson(setup, old(Now()), storage, key);
              && Now() == after
              && found == (if r.Threw? then Threw else Returned(r.value.Some?))
              && v == (if r.Threw? then was else r.value.GetOr(was))
      ensures found != Returned(true) ==> v == was
      ensures storage != "" && key != "" && (old(changed) || FrameKey(setup, storage, key) !in old(frames))
              && storage in old(tables) && key in old(tables)[storage] ==>
        var text := Normal(old(tables)[storage][key]);
        var cached := old(frames)[FrameKey(setup, storage, key) := text] - {StorageKey(setup, storage)};
        if text == "" then found == Returned(false) && frames == cached && changed == old(changed)
        else if setup.codec.parse(text).None? then found == Returned(false) && Now() == old(Now())
        else found == Returned(true) && v == setup.codec.parse(text) && frames == cached && !changed
      ensures TableName(storage) && old(InStep()) ==>
        && InStep() && tables == old(tables)
        && (if found == Returned(true) then v else None) == DirectValue(setup, tables, storage, key)
    {
      if TableName(storage) && InStep() {
        GetJsonIsDirect(setup, Now(), storage, key);
      }
      hide TableName, InStep, Coherent, Readable, DirectValue;
      v := was;
      if storage == "" || key == "" {
        return Returned(false), v;
      }
      DotFreeIsOnePart(key);
      var (first, dotted) := GetDotted(key);
      var k := FrameKey(setup, storage, key);
      if !changed {
        if k in frames {
          var parsed := Parse(setup, frames[k]);
          if parsed.Threw? {
            return Threw, v;
          }
          return Returned(true), parsed.value;
        }
      }
      if storage !in tables || first !in tables[storage] {
        return Returned(false), v;
      }
      var s := Normal(tables[storage][first]);
      if s == "" {
        Refresh(storage, key, "");
        return Returned(false), v;
      }
      var parsed := Parse(setup, s);
      if parsed.Threw? {
        return Returned(false), v;
      }
      v := parsed.value;
      Refresh(storage, key, s);
      changed := false;
      return Returned(true), v;
    }

    /** set after its reads: nothing to do, a new row, or a merge over the old one. */
    method PutValue(storage: string, key: string, v: Option<Json>, value: Option<Json>) returns (r: Outcome<bool>)
      modifies this
      ensures (Now(), r) == Put(setup, old(Now()), storage, key, v, value)
      ensures tables != old(tables) ==>
        && changed && storage in tables && key in tables[storage]
        && frames == old(frames)[FrameKey(setup, storage, key) := tables[storage][key]] - {StorageKey(setup, storage)}
    {
      if Find(v, key) == value {
        return Returned(true);
      }
      var text;
      if v.None? || v.value.Null? {
        text := Print(setup, value);
        if storage !in tables || key in tables[storage] {
          return Returned(false);
        }
        tables := tables[storage := tables[storage][key := text]];
      } else {
        if v == value {
          return Returned(true);
        }
        if value.None? {
          text := "";
        } else {
          var merged := JsonSet(v.value, value.value);
          if merged.Threw? {
            return Threw;
          }
          text := Print(setup, Some(merged.value));
        }
        if storage !in tables {
          return Returned(false);
        }
        if key in tables[storage] {
          tables := tables[storage := tables[storage][key := text]];
        }
      }
      Refresh(storage, key, text);
      changed := true;
      return Returned(true);
    }

    /** set: it does to the tables what a driver without a cache does, unless it writes null. */
    method SetValue(storage: string, key: string, value: Option<Json>) returns (r: Outcome<bool>)
      requires '.' !in key
      modifies this
      ensures (Now(), r) == Set(setup, old(Now()), storage, key, value)
      ensures TableName(storage) && Good(setup) && old(InStep())
              && !PutsNull(setup, old(tables), storage, key, value) ==>
        InStep() && (tables, r) == DirectSet(setup, old(tables), storage, key, value)
    {
      ghost var st := Now();
      if TableName(storage) && Good(setup) && InStep() && !PutsNull(setup, tables, storage, key, value) {
        SetIsDirect(setup, st, storage, key, value);
      }
      hide TableName, InStep, Coherent, Readable, Good, PutsNull, DirectSet;
      if storage == "" || key == "" {
        return Returned(false);
      }
      var v: Option<Json> := None;
      var k := FrameKey(setup, storage, key);
      if !changed && k in frames && frames[k] != "" {
        var parsed := Parse(setup, frames[k]);
        if parsed.Threw? {
          return Threw;
        }
        v := parsed.value;
        if Find(v, key) == value {
          return Returned(true);
        }
      }
      var found;
      found, v := GetValue(storage, key, v);
      if found.Threw? {
        return Threw;
      }
      r := PutValue(storage, key, v, value);
      hide *;
    }

    /** erase: the row and its frame are gone, where the row had a value. */
    method EraseRow(storage: string, key: string) returns (r: Outcome<bool>)
      requires '.' !in key
      modifies this
      ensures (Now(), r) == Erase(setup, old(Now()), storage, key)
      ensures r == Returned(true) ==>
        changed && FrameKey(setup, storage, key) !in frames && storage in tables && key !in tables[storage]
      ensures TableName(storage) && old(InStep()) ==>
        InStep() && (tables, r) == DirectErase(setup, old(tables), storage, key)
    {
      if TableName(storage) && InStep() {
        EraseIsDirect(setup, Now(), storage, key);
      }
      hide TableName, InStep, Coherent, Readable, DirectErase;
      var s := GetString(storage, key);
      var v := Parse(setup, s);
      if v.Threw? {
        return Threw;
      }
      if v.value.None? || v.value.value.Null? {
        return Returned(false);
      }
      if storage !in tables {
        return Returned(false);
      }
      tables := tables[storage := tables[storage] - {key}];
      frames := frames - {FrameKey(setup, storage, key)};
      changed := true;
      return Returned(true);
    }

    /** create: there is a table afterwards. */
    method CreateTable(storage: string) returns (r: bool)
      modifies this
      ensures (Now(), r) == Create(setup, old(Now()), storage)
      ensures r <==> storage != ""
      ensures changed == old(changed)
      ensures r ==> frames == if StorageKey(setup, storage) in old(frames) then old(frames)
                              else old(frames)[StorageKey(setup, storage) := ""]
      ensures TableName(storage) && old(InStep()) ==>
        InStep() && (tables, r) == DirectCreate(old(tables), storage)
    {
      if TableName(storage) && InStep() {
        CreateIsDirect(setup, Now(), storage);
      }
      hide TableName, InStep, Coherent, Readable, DirectCreate;
      if storage == "" {
        return false;
      }
      if StorageKey(setup, storage) in frames {
        return true;
      }
      if storage !in tables {
        tables := tables[storage := map[]];
      }
      frames := frames[StorageKey(setup, storage) := ""];
      return true;
    }

    /** clear: the table is gone, and the whole cache. */
    method ClearTable(storage: string) returns (r: bool)
      modifies this
      ensures (Now(), r) == Clear(old(Now()), storage)
      ensures (r <==> storage != "") && (r ==> storage !in tables && frames == map[])
      ensures changed == old(changed)
      ensures TableName(storage) && old(InStep()) ==>
        InStep() && (tables, r) == DirectClear(old(tables), storage)
    {
      if TableName(storage) && InStep() {
        ClearIsDirect(setup, Now(), storage);
      }
      hide TableName, InStep, Coherent, Readable, DirectClear;
      if storage == "" {
        return false;
      }
      tables := tables - {storage};
      frames := map[];
      return true;
    }
  }
}
