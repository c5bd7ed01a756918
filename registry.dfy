/**
  The in-memory registries of shortcut files and their mirror in the settings
  store: lookup and removal by display name, the meaning of loading a registry
  from the store, and the invariant that the list and the store agree.
*/
module Registry {
  import opened Wrappers
  import opened Settings
  import opened ShortcutFiles

  predicate HasName(entries: seq<ShortcutFileInfo>, name: string) {
    exists i :: 0 <= i < |entries| && entries[i].displayName == name
  }

  /** No two entries share a display name. */
  ghost predicate UniqueNames(entries: seq<ShortcutFileInfo>) {
    forall i, j :: 0 <= i < j < |entries| ==> entries[i].displayName != entries[j].displayName
  }

  /** The position of the first entry called `name`, if there is one. */
  function IndexOfName(entries: seq<ShortcutFileInfo>, name: string): (r: Option<nat>)
    ensures r.None? <==> !HasName(entries, name)
    ensures r.Some? ==> r.value < |entries| && entries[r.value].displayName == name
    ensures r.Some? ==> forall j :: 0 <= j < r.value ==> entries[j].displayName != name
  {
    if entries == [] then None
    else if entries[0].displayName == name then Some(0)
    else match IndexOfName(entries[1..], name)
      case None => assert forall j :: 1 <= j < |entries| ==> entries[j] == entries[1..][j - 1]; None
      case Some(i) => Some(i + 1)
  }

  /** The list with its first entry called `name` taken out (unchanged when there is none). */
  function RemoveFirstNamed(entries: seq<ShortcutFileInfo>, name: string): (r: seq<ShortcutFileInfo>)
    ensures IndexOfName(entries, name).None? ==> r == entries
    ensures IndexOfName(entries, name).Some? ==>
      var i := IndexOfName(entries, name).value; r == entries[..i] + entries[i + 1..]
  {
    if entries == [] then []
    else if entries[0].displayName == name then entries[1..]
    else
      IndexPastHead(entries, name);
      [entries[0]] + RemoveFirstNamed(entries[1..], name)
  }

  /** Past a head of another name, the first index of `name` is one more than in the tail. */
  lemma IndexPastHead(entries: seq<ShortcutFileInfo>, name: string)
    requires entries != [] && entries[0].displayName != name
    ensures var index := IndexOfName(entries[1..], name);
      && IndexOfName(entries, name) == (if index.None? then None else Some(index.value + 1))
      && (index.Some? ==> entries[..index.value + 1] == [entries[0]] + entries[1..][..index.value]
                          && entries[index.value + 2..] == entries[1..][index.value + 1..])
  {
  }

  /** The entries not called `name`, in their original order. */
  function WithoutName(entries: seq<ShortcutFileInfo>, name: string): (r: seq<ShortcutFileInfo>)
    ensures forall e :: e in r <==> e in entries && e.displayName != name
    ensures |r| <= |entries|
  {
    if entries == [] then []
    else (if entries[0].displayName == name then [] else [entries[0]]) + WithoutName(entries[1..], name)
  }

  /** Taking out the first entry called `name` leaves every other entry, in the same order. */
  lemma {:induction false} RemoveFirstKeepsOthers(entries: seq<ShortcutFileInfo>, name: string)
    ensures WithoutName(RemoveFirstNamed(entries, name), name) == WithoutName(entries, name)
  {
    if entries != [] && entries[0].displayName != name {
      var rest := RemoveFirstNamed(entries[1..], name);
      RemoveFirstKeepsOthers(entries[1..], name);
      assert ([entries[0]] + rest)[0] == entries[0];
      assert ([entries[0]] + rest)[1..] == rest;
    } else if entries != [] {
      var rest := entries[1..];
      if rest != [] && rest[0].displayName == name {
        assert WithoutName(rest, name) == WithoutName(rest[1..], name);
      }
    }
  }

  lemma UniqueTail(entries: seq<ShortcutFileInfo>)
    requires entries != [] && UniqueNames(entries)
    ensures UniqueNames(entries[1..])
  {
    var rest := entries[1..];
    forall i, j | 0 <= i < j < |rest| ensures rest[i].displayName != rest[j].displayName {
      assert rest[i] == entries[i + 1] && rest[j] == entries[j + 1];
    }
  }

  lemma UniqueCons(e: ShortcutFileInfo, entries: seq<ShortcutFileInfo>)
    requires UniqueNames(entries)
    requires forall x :: x in entries ==> x.displayName != e.displayName
    ensures UniqueNames([e] + entries)
  {
    var r := [e] + entries;
    forall i, j | 0 <= i < j < |r| ensures r[i].displayName != r[j].displayName {
      assert r[j] == entries[j - 1];
      if i > 0 {
        assert r[i] == entries[i - 1];
      }
    }
  }

  /** Filtering a list with unique names keeps its names unique. */
  lemma {:induction false} WithoutNameUnique(entries: seq<ShortcutFileInfo>, name: string)
    requires UniqueNames(entries)
    ensures UniqueNames(WithoutName(entries, name))
  {
    if entries != [] {
      var rest := entries[1..];
      UniqueTail(entries);
      WithoutNameUnique(rest, name);
      var tail := WithoutName(rest, name);
      forall x | x in tail ensures x.displayName != entries[0].displayName {
        var k :| 0 <= k < |rest| && rest[k] == x;
        assert entries[k + 1] == x;
      }
      UniqueCons(entries[0], tail);
    }
  }

  /** When names are unique, removing the first entry called `name` removes every such entry. */
  lemma {:induction false} RemoveFirstUnique(entries: seq<ShortcutFileInfo>, name: string)
    requires UniqueNames(entries)
    ensures RemoveFirstNamed(entries, name) == WithoutName(entries, name)
    ensures UniqueNames(RemoveFirstNamed(entries, name))
    ensures !HasName(RemoveFirstNamed(entries, name), name)
  {
    RemoveFirstIsFilter(entries, name);
    WithoutNameUnique(entries, name);
    var r := WithoutName(entries, name);
    forall j | 0 <= j < |r| ensures r[j].displayName != name {
      assert r[j] in r;
    }
  }

  lemma {:induction false} RemoveFirstIsFilter(entries: seq<ShortcutFileInfo>, name: string)
    requires UniqueNames(entries)
    ensures RemoveFirstNamed(entries, name) == WithoutName(entries, name)
  {
    if entries != [] {
      var rest := entries[1..];
      UniqueTail(entries);
      if entries[0].displayName == name {
        assert !HasName(rest, name) by {
          forall j | 0 <= j < |rest| ensures rest[j].displayName != name {
            assert rest[j] == entries[j + 1];
          }
        }
        WithoutNameAbsent(rest, name);
      } else {
        RemoveFirstIsFilter(rest, name);
      }
    }
  }

  /** Filtering out a name no entry has changes nothing. */
  lemma {:induction false} WithoutNameAbsent(entries: seq<ShortcutFileInfo>, name: string)
    requires !HasName(entries, name)
    ensures WithoutName(entries, name) == entries
  {
    if entries != [] {
      assert !HasName(entries[1..], name) by {
        forall j | 0 <= j < |entries| - 1 ensures entries[1..][j].displayName != name {
          assert entries[1..][j] == entries[j + 1];
        }
      }
      WithoutNameAbsent(entries[1..], name);
    }
  }

  /**
    Adding a record the way the user-shortcuts registry does (first drop the entry
    with the same display name, then append) keeps names unique, puts the record
    last, and keeps every other entry in the same relative order.
  */
  lemma AddKeepsNamesUnique(entries: seq<ShortcutFileInfo>, info: ShortcutFileInfo)
    requires UniqueNames(entries)
    ensures var added := RemoveFirstNamed(entries, info.displayName) + [info];
      && UniqueNames(added)
      && added[|added| - 1] == info
      && (forall i :: 0 <= i < |added| - 1 ==> added[i].displayName != info.displayName)
      && WithoutName(added, info.displayName) == WithoutName(entries, info.displayName)
  {
    var n := info.displayName;
    var removed := RemoveFirstNamed(entries, n);
    RemoveFirstUnique(entries, n);
    RemoveFirstKeepsOthers(entries, n);
    var added := removed + [info];
    WithoutNameAppend(removed, info, n);
  }

  lemma {:induction false} WithoutNameAppend(entries: seq<ShortcutFileInfo>, e: ShortcutFileInfo, name: string)
    requires e.displayName == name
    ensures WithoutName(entries + [e], name) == WithoutName(entries, name)
  {
    if entries == [] {
      assert WithoutName([e], name) == [] + WithoutName([e][1..], name);
    } else {
      assert (entries + [e])[1..] == entries[1..] + [e];
      WithoutNameAppend(entries[1..], e, name);
    }
  }

  // ---- The registry's mirror in the settings store ----

  /** The store holds, under `prefix`, a readable record agreeing with `e`. */
  ghost predicate Stored(s: Store, tf: TimeFormat, prefix: string, e: ShortcutFileInfo) {
    var r := ExtractShortcutsInfo(s, tf, prefix, e.displayName);
    r.Ok? && SameExceptTime(r.value, e)
  }

  /**
    The list and the store agree: names are unique and free of separators, every
    entry is stored under its own name, and every sub-collection of `prefix` is
    some entry's.
  */
  ghost predicate Mirrored(s: Store, tf: TimeFormat, prefix: string, entries: seq<ShortcutFileInfo>) {
    && UniqueNames(entries)
    && (forall i :: 0 <= i < |entries| ==> Separator !in entries[i].displayName && Stored(s, tf, prefix, entries[i]))
    && (forall n :: n in SubCollectionNames(s, prefix) ==> HasName(entries, n))
  }

  /**
    A store a registry can be loaded from consistently: the registry collection
    exists (or has no sub-collections), and each record's Name property is the
    name of the sub-collection it is stored in.
  */
  ghost predicate WellFormedRegistryStore(s: Store, tf: TimeFormat, prefix: string) {
    && (prefix in s || SubCollectionNames(s, prefix) == {})
    && forall n :: n in SubCollectionNames(s, prefix) ==>
         var r := ExtractShortcutsInfo(s, tf, prefix, n); r.Ok? ==> r.value.displayName == n
  }

  /**
    What loading the records under `collectionName` yields: `names` are the
    sub-collections visited, without repeats. A missing collection yields the
    empty list; a successful load visits every sub-collection and yields one record
    per sub-collection, in the order visited; a failed load stops at the first
    sub-collection that cannot be read and reports its error.
  */
  ghost predicate FetchedAs(s: Store, tf: TimeFormat, collectionName: string, names: seq<string>,
                            r: Result<seq<ShortcutFileInfo>, StoreError>) {
    && (forall i, j :: 0 <= i < j < |names| ==> names[i] != names[j])
    && (forall n :: n in names ==> n in SubCollectionNames(s, collectionName))
    && (!CollectionExists(s, collectionName) ==> names == [] && r == Ok([]))
    && (r.Ok? ==>
          && (CollectionExists(s, collectionName) ==>
                forall n :: n in SubCollectionNames(s, collectionName) ==> n in names)
          && |r.value| == |names|
          && forall i :: 0 <= i < |names| ==> ExtractShortcutsInfo(s, tf, collectionName, names[i]) == Ok(r.value[i]))
    && (r.Err? ==>
          && |names| > 0
          && ExtractShortcutsInfo(s, tf, collectionName, names[|names| - 1]) == Err(r.error)
          && forall i :: 0 <= i < |names| - 1 ==> ExtractShortcutsInfo(s, tf, collectionName, names[i]).Ok?)
  }

  /** Loading the records under `collectionName` from `s` may give `res`, for some order of the sub-collections. */
  ghost predicate Loads(s: Store, tf: TimeFormat, collectionName: string, res: Result<seq<ShortcutFileInfo>, StoreError>) {
    exists names :: FetchedAs(s, tf, collectionName, names, res)
  }

  /** Loading from a well-formed store gives a list that mirrors the store. */
  lemma FetchMirrors(s: Store, tf: TimeFormat, prefix: string, names: seq<string>, records: seq<ShortcutFileInfo>)
    requires FetchedAs(s, tf, prefix, names, Ok(records))
    requires WellFormedRegistryStore(s, tf, prefix)
    ensures Mirrored(s, tf, prefix, records)
  {
    forall i | 0 <= i < |records| ensures records[i].displayName == names[i] {
      assert names[i] in names;
    }
    forall i | 0 <= i < |records|
      ensures Separator !in records[i].displayName && Stored(s, tf, prefix, records[i])
    {
      assert names[i] in names;
    }
    forall n | n in SubCollectionNames(s, prefix) ensures HasName(records, n) {
      var i :| 0 <= i < |names| && names[i] == n;
      assert records[i].displayName == n;
    }
  }

  /** A stored record stays stored when its own collection is left as it was. */
  lemma StoredUnchanged(s: Store, s': Store, tf: TimeFormat, prefix: string, e: ShortcutFileInfo)
    requires Stored(s, tf, prefix, e)
    requires var path := Join(prefix, e.displayName); path in s' && s'[path] == s[path]
    ensures Stored(s', tf, prefix, e)
  {
    ExtractLocal(s, s', tf, prefix, e.displayName);
  }

  /**
    Loading a registry whose list and store agree gives the same records back,
    each loaded record matching an entry and each entry a loaded record (up to
    the last-write time and the order the store lists them in).
  */
  lemma ReloadAgrees(s: Store, tf: TimeFormat, prefix: string, entries: seq<ShortcutFileInfo>,
                     names: seq<string>, r: Result<seq<ShortcutFileInfo>, StoreError>)
    requires Mirrored(s, tf, prefix, entries)
    requires prefix in s || entries == []
    requires FetchedAs(s, tf, prefix, names, r)
    ensures r.Ok?
    ensures forall i :: 0 <= i < |r.value| ==> exists j :: 0 <= j < |entries| && SameExceptTime(r.value[i], entries[j])
    ensures forall j :: 0 <= j < |entries| ==> exists i :: 0 <= i < |r.value| && SameExceptTime(r.value[i], entries[j])
  {
    forall k | 0 <= k < |names| ensures ExtractShortcutsInfo(s, tf, prefix, names[k]).Ok? {
      assert names[k] in names;
      var j :| 0 <= j < |entries| && entries[j].displayName == names[k];
      assert Stored(s, tf, prefix, entries[j]);
    }
    forall i | 0 <= i < |r.value| ensures exists j :: 0 <= j < |entries| && SameExceptTime(r.value[i], entries[j]) {
      assert names[i] in names;
      var j :| 0 <= j < |entries| && entries[j].displayName == names[i];
      assert Stored(s, tf, prefix, entries[j]);
    }
    forall j | 0 <= j < |entries| ensures exists i :: 0 <= i < |r.value| && SameExceptTime(r.value[i], entries[j]) {
      var e := entries[j];
      assert Stored(s, tf, prefix, e);
      assert Readable(s, tf, Join(prefix, e.displayName));
      assert e.displayName in SubCollectionNames(s, prefix);
      var i :| 0 <= i < |names| && names[i] == e.displayName;
    }
  }

  /** Deleting another entry's collection leaves a stored, separator-free entry stored. */
  lemma DeleteKeepsEntry(s: Store, tf: TimeFormat, prefix: string, e: ShortcutFileInfo, name: string)
    requires Separator !in e.displayName && e.displayName != name
    requires Stored(s, tf, prefix, e)
    ensures Stored(DeleteCollection(s, Join(prefix, name)), tf, prefix, e)
  {
    var path := Join(prefix, e.displayName);
    assert Readable(s, tf, path);
    if Within(Join(prefix, name), path) {
      JoinWithin(prefix, e.displayName, name);
    }
    StoredUnchanged(s, DeleteCollection(s, Join(prefix, name)), tf, prefix, e);
  }

  /** After a deletion every remaining child collection still has an entry in the filtered list. */
  lemma DeleteKeepsChildren(s: Store, tf: TimeFormat, prefix: string, entries: seq<ShortcutFileInfo>, name: string)
    requires Mirrored(s, tf, prefix, entries)
    ensures forall m :: m in SubCollectionNames(DeleteCollection(s, Join(prefix, name)), prefix) ==>
      HasName(WithoutName(entries, name), m)
  {
    var s' := DeleteCollection(s, Join(prefix, name));
    var left := WithoutName(entries, name);
    forall m | m in SubCollectionNames(s', prefix) ensures HasName(left, m) {
      assert Join(prefix, m) in s && m != name;
      assert m in SubCollectionNames(s, prefix);
      var j :| 0 <= j < |entries| && entries[j].displayName == m;
      assert entries[j] in left;
      var k :| 0 <= k < |left| && left[k] == entries[j];
    }
  }

  /** Deleting an entry from the list and its collection from the store keeps the two in agreement. */
  lemma DeleteKeepsMirror(s: Store, tf: TimeFormat, prefix: string, entries: seq<ShortcutFileInfo>, name: string)
    requires Mirrored(s, tf, prefix, entries)
    ensures Mirrored(DeleteCollection(s, Join(prefix, name)), tf, prefix, RemoveFirstNamed(entries, name))
  {
    var s' := DeleteCollection(s, Join(prefix, name));
    var left := RemoveFirstNamed(entries, name);
    RemoveFirstUnique(entries, name);
    assert left == WithoutName(entries, name);
    forall i | 0 <= i < |left| ensures Separator !in left[i].displayName && Stored(s', tf, prefix, left[i]) {
      var e := left[i];
      assert e in entries && e.displayName != name;
      var j :| 0 <= j < |entries| && entries[j] == e;
      DeleteKeepsEntry(s, tf, prefix, e, name);
    }
    DeleteKeepsChildren(s, tf, prefix, entries, name);
  }

  /** Saving a record whose name the list does not have, and appending it, keeps the two in agreement. */
  lemma SaveKeepsMirror(s: Store, tf: TimeFormat, prefix: string, entries: seq<ShortcutFileInfo>, info: ShortcutFileInfo)
    requires FormattedTimesParse(tf)
    requires Mirrored(s, tf, prefix, entries)
    requires !HasName(entries, info.displayName) && Separator !in info.displayName
    ensures Mirrored(SaveShortcutFileInfo(s, tf, prefix, info), tf, prefix, entries + [info])
  {
    var s' := SaveShortcutFileInfo(s, tf, prefix, info);
    var added := entries + [info];
    var path := Join(prefix, info.displayName);
    forall i | 0 <= i < |added| ensures Separator !in added[i].displayName && Stored(s', tf, prefix, added[i]) {
      if i == |entries| {
        SaveThenExtract(s, tf, prefix, info);
      } else {
        var e := entries[i];
        assert Stored(s, tf, prefix, e);
        assert Join(prefix, e.displayName) != path by {
          assert Join(prefix, e.displayName)[|prefix| + 1..] == e.displayName;
        }
        ExtractLocal(s, s', tf, prefix, e.displayName);
      }
    }
    AncestorsOfJoin(prefix, info.displayName);
    forall m | m in SubCollectionNames(s', prefix) ensures HasName(added, m) {
      var q := Join(prefix, m);
      if q == path {
        assert m == info.displayName by { assert q[|prefix| + 1..] == m; }
        assert added[|entries|].displayName == m;
      } else if q in s {
        var j :| 0 <= j < |entries| && entries[j].displayName == m;
        assert added[j].displayName == m;
      }
    }
  }

  /**
    Adding a record the way the user-shortcuts registry does, in the list and in
    the store, keeps the two in agreement when the record's name has no separator.
  */
  lemma AddKeepsMirror(s: Store, tf: TimeFormat, prefix: string, entries: seq<ShortcutFileInfo>, info: ShortcutFileInfo)
    requires FormattedTimesParse(tf)
    requires Mirrored(s, tf, prefix, entries)
    requires Separator !in info.displayName
    ensures var n := info.displayName;
      var cleared := if HasName(entries, n) then DeleteCollection(s, Join(prefix, n)) else s;
      Mirrored(SaveShortcutFileInfo(cleared, tf, prefix, info), tf, prefix, RemoveFirstNamed(entries, n) + [info])
  {
    var n := info.displayName;
    var cleared := if HasName(entries, n) then DeleteCollection(s, Join(prefix, n)) else s;
    DeleteKeepsMirror(s, tf, prefix, entries, n);
    RemoveFirstUnique(entries, n);
    SaveKeepsMirror(cleared, tf, prefix, RemoveFirstNamed(entries, n), info);
  }

  /** Emptying the list and deleting the whole registry collection leaves them in agreement. */
  lemma ResetMirrors(s: Store, tf: TimeFormat, prefix: string)
    ensures Mirrored(DeleteCollection(s, prefix), tf, prefix, [])
  {
    forall m | m in SubCollectionNames(DeleteCollection(s, prefix), prefix) ensures false {
      assert Within(prefix, Join(prefix, m));
    }
  }
}
