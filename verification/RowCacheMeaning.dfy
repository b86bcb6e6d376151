/** What the driver's operations do to rows and frames, in terms of the rows and frames alone. */
module RowCacheMeaning {
  import opened Words
  import opened RowCache
  import opened RowCacheTheory

  /** The outcome of json_set on a value that exists: an exception for an object onto what is neither an object nor an
      array; otherwise a replacement, unless the old value is an array, or both are objects. */
  ghost predicate IsMerge(was: Json, value: Json, r: Outcome<Json>) {
    if value.Object? && !was.Object? && !was.Array? then r.Threw?
    else
      && r.Returned?
      && if was.Array? then r.value.Array? && IntoItems(was.items, value, r.value.items)
         else if was.Object? && value.Object? then r.value.Object? && United(was.fields, value.fields, r.value.fields)
         else r.value == value
  }

  /** The old and the new fields, a new one before an old one of the same name. */
  ghost predicate United(was: map<string, Json>, add: map<string, Json>, r: map<string, Json>) {
    && (forall k :: k in r <==> k in was || k in add)
    && (forall k :: k in add ==> r[k] == add[k])
    && (forall k :: k in was && k !in add ==> r[k] == was[k])
  }

  /** What an array becomes: an array is appended as one item, a scalar too unless it is there; an object gives the
      first object of the array the fields that both have, or is appended, if it has any, where there is none. */
  ghost predicate IntoItems(was: seq<Json>, value: Json, r: seq<Json>) {
    if value.Array? then r == was + [value]
    else if !value.Object? then r == if exists i :: 0 <= i < |was| && was[i] == value then was else was + [value]
    else if forall i :: 0 <= i < |was| ==> !was[i].Object? then
      r == if value.fields.Keys == {} then was else was + [value]
    else
      && |r| == |was|
      && forall i :: 0 <= i < |was| ==>
           if was[i].Object? && forall j :: 0 <= j < i ==> !was[j].Object? then
             r[i].Object? && Renewed(was[i].fields, value.fields, r[i].fields)
           else r[i] == was[i]
  }

  /** The same names as before, with the new value where there is one. */
  ghost predicate Renewed(was: map<string, Json>, add: map<string, Json>, r: map<string, Json>) {
    && (forall k :: k in r <==> k in was)
    && (forall k :: k in was ==> r[k] == if k in add then add[k] else was[k])
  }

  lemma UnitedIff(was: map<string, Json>, add: map<string, Json>, r: map<string, Json>)
    ensures United(was, add, r) <==> r == was + add
  {
    if United(was, add, r) {
      assert r.Keys == (was + add).Keys;
    }
  }

  lemma RenewedIff(was: map<string, Json>, add: map<string, Json>, r: map<string, Json>)
    ensures Renewed(was, add, r) <==> r == Refreshed(was, add)
  {
    if Renewed(was, add, r) {
      assert r.Keys == Refreshed(was, add).Keys;
    }
  }

  lemma FirstObjectOnly(items: seq<Json>, i: nat)
    requires i < |items|
    ensures i == FirstObject(items) <==> items[i].Object? && forall j :: 0 <= j < i ==> !items[j].Object?
  {
  }

  lemma IntoItemsIff(was: seq<Json>, f: map<string, Json>, r: seq<Json>)
    ensures IntoItems(was, Object(f), r) <==> Merge(Array(was), Object(f)) == Returned(Array(r))
  {
    var n := FirstObject(was);
    hide Refreshed, Renewed;
    if n < |was| {
      var g := was[n].fields;
      if |r| == |was| {
        if r[n].Object? {
          RenewedIff(g, f, r[n].fields);
        }
        RenewedIff(g, f, Refreshed(g, f));
        forall i | 0 <= i < |was|
          ensures i == n <==> was[i].Object? && forall j :: 0 <= j < i ==> !was[j].Object?
        {
          FirstObjectOnly(was, i);
        }
        assert r == was[n := Object(Refreshed(g, f))] <==>
               forall i :: 0 <= i < |was| ==> r[i] == if i == n then Object(Refreshed(g, f)) else was[i];
      }
    }
  }

  /** json_set on a value that exists ends like this and in no other way. */
  lemma MergeIff(was: Json, value: Json, r: Outcome<Json>)
    ensures IsMerge(was, value, r) <==> r == Merge(was, value)
  {
    if value.Object? && was.Array? {
      if r.Returned? && r.value.Array? {
        hide IntoItems;
        IntoItemsIff(was.items, value.fields, r.value.items);
      }
    } else if value.Object? && was.Object? {
      if r.Returned? && r.value.Object? {
        UnitedIff(was.fields, value.fields, r.value.fields);
      }
    }
  }

  /** The white space of the C locale. */
  predicate AllSpace(s: string) {
    forall i :: 0 <= i < |s| ==> s[i] in " \t\n\U{0B}\U{0C}\r"
  }

  /** A text that neither starts nor ends with white space. */
  predicate Tight(s: string) {
    s != "" ==> s[0] !in " \t\n\U{0B}\U{0C}\r" && s[|s| - 1] !in " \t\n\U{0B}\U{0C}\r"
  }

  lemma {:induction false} LeftTrimmed(a: string, s: string)
    requires AllSpace(a) && Tight(s)
    ensures TrimLeft(a + s) == s
  {
    if a != "" {
      assert (a + s)[1..] == a[1..] + s;
      LeftTrimmed(a[1..], s);
    } else {
      assert a + s == s;
    }
  }

  lemma {:induction false} RightTrimmed(s: string, b: string)
    requires AllSpace(b) && (s == "" || s[|s| - 1] !in " \t\n\U{0B}\U{0C}\r")
    ensures TrimRight(s + b) == s
    decreases |b|
  {
    if b != "" {
      var n := |b| - 1;
      assert (s + b)[|s + b| - 1] == b[n];
      assert (s + b)[..|s + b| - 1] == s + b[..n];
      RightTrimmed(s, b[..n]);
    } else {
      assert s + b == s;
    }
  }

  /** A row's text is what is stored between the white space at both ends, and nothing where that is null. */
  lemma NormalTrims(a: string, s: string, b: string)
    requires AllSpace(a) && Tight(s) && AllSpace(b)
    ensures Normal(a + s + b) == if s == "null" then "" else s
  {
    if s == "" {
      assert a + s + b == "" + (a + b);
      RightTrimmed("", a + b);
    } else {
      RightTrimmed(a + s, b);
      LeftTrimmed(a, s);
    }
  }

  /** A row as it is stored. */
  function Stored(tables: Tables, storage: string, key: string): Option<string> {
    if storage in tables && key in tables[storage] then Some(tables[storage][key]) else None
  }

  /** No table and no row but this one is made, lost or changed. */
  ghost predicate OnlyRow(tables: Tables, after: Tables, storage: string, key: string) {
    && (forall t :: t in after <==> t in tables)
    && (forall t, l :: !(t == storage && l == key) ==> Stored(after, t, l) == Stored(tables, t, l))
  }

  lemma OneRowWritten(tables: Tables, storage: string, key: string, text: string)
    requires storage in tables
    ensures var after := tables[storage := tables[storage][key := text]];
            OnlyRow(tables, after, storage, key) && Stored(after, storage, key) == Some(text)
  {
  }

  /** set, by the value that is there. It throws exactly for an object onto a scalar. It is false exactly for an empty
      name, and for a value onto an empty row or a missing table. Where it is true, the row had the value, or a field
      of its own name has it, or the row is written: the value where there was no row, the merged one over another. */
  lemma DirectSetEnds(c: Setup, tables: Tables, s: string, k: string, value: Json)
    ensures var (after, r) := DirectSet(c, tables, s, k, Some(value));
            var v := DirectValue(c, tables, s, k);
            var named := s != "" && k != "";
            var nothing := v == None || v == Some(Null);
            && (r == Threw <==> named && !nothing && value.Object? && !v.value.Object? && !v.value.Array?)
            && (r == Returned(false) <==> !named || (nothing && (s !in tables || Stored(tables, s, k).Some?)))
            && (r != Returned(true) ==> after == tables)
  {
    hide Print;
  }

  lemma DirectSetWrites(c: Setup, tables: Tables, s: string, k: string, value: Json)
    requires DirectSet(c, tables, s, k, Some(value)).1 == Returned(true)
    ensures var after := DirectSet(c, tables, s, k, Some(value)).0;
            var v := DirectValue(c, tables, s, k);
            if v == Some(value)
               || (v.Some? && v.value.Object? && k in v.value.fields && v.value.fields[k] == value) then
              after == tables
            else
              && OnlyRow(tables, after, s, k)
              && if v == None || v == Some(Null) then Stored(after, s, k) == Some(c.codec.write(value))
                 else exists w :: IsMerge(v.value, value, Returned(w)) && Stored(after, s, k) == Some(c.codec.write(w))
  {
    var v := DirectValue(c, tables, s, k);
    PresentValueHasRow(c, State(tables, map[], false), s, k);
    hide OnlyRow, IsMerge, DirectValue, Merge;
    if Find(v, k) != Some(value) && v != Some(value) {
      if v == None || v == Some(Null) {
        OneRowWritten(tables, s, k, Print(c, Some(value)));
      } else {
        var w := Merge(v.value, value).value;
        MergeIff(v.value, value, Returned(w));
        OneRowWritten(tables, s, k, Print(c, Some(w)));
      }
    }
  }

  /** An undefined value is no field of anything but such an object, whose row it empties. */
  lemma DirectUnset(c: Setup, tables: Tables, s: string, k: string)
    ensures var (after, r) := DirectSet(c, tables, s, k, None);
            var v := DirectValue(c, tables, s, k);
            var named := s != "" && k != "";
            && r == Returned(named)
            && if named && v.Some? && v.value.Object? && k in v.value.fields then
                 OnlyRow(tables, after, s, k) && Stored(after, s, k) == Some("")
               else after == tables
  {
    PresentValueHasRow(c, State(tables, map[], false), s, k);
    if s in tables {
      OneRowWritten(tables, s, k, "");
    }
    hide OnlyRow, DirectValue;
  }

  /** erase is true exactly where the row has a value other than null; then the row is gone and no other is touched. */
  lemma DirectEraseEnds(c: Setup, tables: Tables, s: string, k: string)
    ensures var (after, r) := DirectErase(c, tables, s, k);
            var v := DirectValue(c, tables, s, k);
            && r == Returned(v.Some? && v != Some(Null))
            && (if r == Returned(true) then OnlyRow(tables, after, s, k) && Stored(after, s, k) == None
                else after == tables)
  {
  }

  /** create is true for every name; then the table is there, an old one as it was and a new one empty. */
  lemma DirectCreateEnds(tables: Tables, s: string)
    ensures var (after, r) := DirectCreate(tables, s);
            && (r <==> s != "")
            && (forall t :: t in after <==> t in tables || (r && t == s))
            && (forall t, l :: Stored(after, t, l) == Stored(tables, t, l))
  {
  }

  /** clear is true for every name; then the table is gone with its rows, and no other is touched. */
  lemma DirectClearEnds(tables: Tables, s: string)
    ensures var (after, r) := DirectClear(tables, s);
            && (r <==> s != "")
            && (forall t :: t in after <==> t in tables && !(r && t == s))
            && (forall t, l :: Stored(after, t, l) == if r && t == s then None else Stored(tables, t, l))
  {
  }

  /** A row that was read is answered from its frame the next time, whatever the tables hold then. */
  lemma ReadIsCached(c: Setup, st: State, s: string, k: string, other: Tables)
    requires TableName(s) && s != "" && k != ""
    requires Stored(st.tables, s, k).Some? || (!st.changed && FrameOf(c, st, s, k).Some?)
    ensures var (after, text) := Get(c, st, s, k);
            Get(c, after.(tables := other), s, k) == (after.(tables := other), text)
  {
    var (after, text) := Get(c, st, s, k);
    if st.changed || FrameOf(c, st, s, k).None? {
      FramesOfStore(c, st, s, k, text, s, k);
    }
    hide FrameKey, StorageKey, Normal, TableName;
  }

  lemma ReadValueIsCached(c: Setup, st: State, s: string, k: string, other: Tables)
    requires TableName(s)
    ensures var (after, r) := GetJson(c, st, s, k);
            r.Returned? && r.value.Some? ==> GetJson(c, after.(tables := other), s, k) == (after.(tables := other), r)
  {
    if RowText(st.tables, s, k).Some? {
      FramesOfStore(c, st, s, k, RowText(st.tables, s, k).value, s, k);
    }
    hide FrameKey, StorageKey, Normal, TableName;
  }

  lemma ChangedReadsTable(c: Setup, st: State, t: string, l: string)
    requires st.changed || st.frames == map[]
    ensures Get(c, st, t, l).1 == DirectGet(st.tables, t, l)
  {
    hide FrameKey, StorageKey, Normal;
  }

  lemma SetRaisesFlag(c: Setup, st: State, s: string, k: string, value: Option<Json>)
    ensures Set(c, st, s, k, value).0.tables != st.tables ==> Set(c, st, s, k, value).0.changed
  {
    hide FrameKey, StorageKey, Normal, Parse, Merged, Find;
  }

  lemma EraseRaisesFlag(c: Setup, st: State, s: string, k: string)
    ensures Erase(c, st, s, k).1 == Returned(true) ==> Erase(c, st, s, k).0.changed
  {
    hide FrameKey, StorageKey, Get, Parse;
  }

  /** After a write, an erase or a clear no frame is trusted: every row is read from the tables, until one has been. */
  lemma WriteIsFresh(c: Setup, st: State, op: Op, t: string, l: string, other: Tables)
    requires match op
             case SetRow(_, _, _) => Step(c, st, op).0.tables != st.tables
             case EraseRow(_, _) => Step(c, st, op).1 == Done(Returned(true))
             case ClearTable(s) => s != ""
             case _ => false
    ensures Get(c, Step(c, st, op).0.(tables := other), t, l).1 == DirectGet(other, t, l)
  {
    hide Set, Erase, Get, DirectGet;
    match op {
      case SetRow(s, k, value) => SetRaisesFlag(c, st, s, k, value);
      case EraseRow(s, k) => EraseRaisesFlag(c, st, s, k);
      case _ =>
    }
    ChangedReadsTable(c, Step(c, st, op).0.(tables := other), t, l);
  }

  /** A table that was made is taken for granted the next time, until one of its rows is read or written. */
  lemma CreateIsCached(c: Setup, st: State, s: string, other: Tables)
    requires s != ""
    ensures var after := Create(c, st, s).0.(tables := other);
            Create(c, after, s) == (after, true)
  {
    hide StorageKey;
  }
}
