/**
  The host's hierarchical, writable user-settings store, as a value.

  A collection is named by its path, whose levels are separated by a backslash
  ("UserShortcutsDefs\MyShortcuts"). Each collection holds named, typed properties.
  The store is a map from collection path to that collection's properties. The
  functions below give the host operations the extension relies on their meaning:
  creating a collection also creates every collection above it, deleting a
  collection deletes everything beneath it, the string getter fails on a missing
  or differently typed property, and the integer getters fall back to a default
  when the property is missing.
*/
module Settings {
  import opened Wrappers

  newtype int32 = x: int | -0x8000_0000 <= x < 0x8000_0000
  newtype int64 = x: int | -0x8000_0000_0000_0000 <= x < 0x8000_0000_0000_0000

  datatype Value = StringValue(str: string) | Int32Value(i32: int32) | Int64Value(i64: int64)

  type Properties = map<string, Value>
  type Store = map<string, Properties>

  /** Why a read from the store (or the data read from it) was rejected. */
  datatype StoreError =
    | MissingProperty(path: string, name: string)
    | WrongType(path: string, name: string)
    | BadTimestamp(path: string, text: string)

  const Separator: char := '\\'

  /** The path of the sub-collection `name` of `collection`. */
  function Join(collection: string, name: string): (path: string)
    ensures |path| == |collection| + 1 + |name|
    ensures path[..|collection|] == collection && path[|collection|] == Separator
    ensures path[|collection| + 1..] == name
  {
    collection + [Separator] + name
  }

  /** `path` is `root` itself or lies somewhere beneath it. */
  predicate Within(root: string, path: string) {
    path == root || (|root| < |path| && path[..|root|] == root && path[|root|] == Separator)
  }

  /** `path` is an immediate sub-collection of `collection`. */
  predicate IsChild(collection: string, path: string) {
    |collection| < |path| && path[..|collection|] == collection && path[|collection|] == Separator
    && Separator !in path[|collection| + 1..]
  }

  /** The collections above `path`, each a prefix of it that stops before a separator. */
  function Ancestors(path: string): set<string> {
    set i | 0 <= i < |path| && path[i] == Separator :: path[..i]
  }

  predicate CollectionExists(s: Store, path: string) {
    path in s
  }

  /** Creating a collection keeps every existing collection as it is and adds the missing ones, empty. */
  function CreateCollection(s: Store, path: string): (r: Store)
    ensures r.Keys == s.Keys + {path} + Ancestors(path)
    ensures forall k :: k in s ==> r[k] == s[k]
    ensures forall k :: k in r && k !in s ==> r[k] == map[]
  {
    map k | k in s.Keys + {path} + Ancestors(path) :: if k in s then s[k] else map[]
  }

  function SetValue(s: Store, path: string, name: string, v: Value): Store
    requires path in s
  {
    s[path := s[path][name := v]]
  }

  /** Deleting a collection removes it and every collection beneath it, and nothing else. */
  function DeleteCollection(s: Store, root: string): (r: Store)
    ensures forall k :: k in r <==> k in s && !Within(root, k)
    ensures forall k :: k in r ==> r[k] == s[k]
  {
    map k | k in s && !Within(root, k) :: s[k]
  }

  /** The names of the immediate sub-collections of `collection`. */
  function SubCollectionNames(s: Store, collection: string): (names: set<string>)
    ensures forall n :: n in names <==> Separator !in n && Join(collection, n) in s
  {
    var names := set k | k in s && IsChild(collection, k) :: k[|collection| + 1..];
    forall n | n in names ensures Separator !in n && Join(collection, n) in s {
      var k :| k in s && IsChild(collection, k) && n == k[|collection| + 1..];
      assert k == k[..|collection|] + [k[|collection|]] + k[|collection| + 1..];
    }
    forall n | Separator !in n && Join(collection, n) in s ensures n in names {
      var k := Join(collection, n);
      assert IsChild(collection, k) && k[|collection| + 1..] == n;
    }
    names
  }

  function GetString(s: Store, path: string, name: string): Result<string, StoreError> {
    if path in s && name in s[path] then
      if s[path][name].StringValue? then Ok(s[path][name].str) else Err(WrongType(path, name))
    else
      Err(MissingProperty(path, name))
  }

  function GetInt32(s: Store, path: string, name: string, default: int32): Result<int32, StoreError> {
    if path in s && name in s[path] then
      if s[path][name].Int32Value? then Ok(s[path][name].i32) else Err(WrongType(path, name))
    else
      Ok(default)
  }

  function GetInt64(s: Store, path: string, name: string, default: int64): Result<int64, StoreError> {
    if path in s && name in s[path] then
      if s[path][name].Int64Value? then Ok(s[path][name].i64) else Err(WrongType(path, name))
    else
      Ok(default)
  }

  /** The collections above a child of `collection` are `collection` and the ones above it. */
  lemma AncestorsOfJoin(collection: string, name: string)
    requires Separator !in name
    ensures forall a :: a in Ancestors(Join(collection, name)) ==> |a| <= |collection|
  {
    var p := Join(collection, name);
    forall a | a in Ancestors(p) ensures |a| <= |collection| {
      var i :| 0 <= i < |p| && p[i] == Separator && a == p[..i];
      assert i <= |collection| by {
        assert forall j :: |collection| < j < |p| ==> p[j] == name[j - |collection| - 1];
      }
    }
  }

  /** Two separator-free children of one collection never lie beneath each other unless they are the same. */
  lemma JoinWithin(collection: string, m: string, n: string)
    requires Separator !in m
    requires Within(Join(collection, n), Join(collection, m))
    ensures m == n
  {
    var pm, pn := Join(collection, m), Join(collection, n);
    if pm == pn {
      assert m == pm[|collection| + 1..] == pn[|collection| + 1..] == n;
    }
  }

  /** Two collections whose first letters differ have disjoint subtrees. */
  lemma DisjointRoots(a: string, b: string, k: string)
    requires |a| > 0 && |b| > 0 && a[0] != b[0]
    requires Within(a, k)
    ensures !Within(b, k)
  {
    assert k[0] == a[0] by {
      if k != a { assert k[..|a|] == a; }
    }
  }
}
