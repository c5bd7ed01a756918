/**
  The registry of user shortcut definitions and of imported keyboard-mapping
  (VSK) files. Each registry is a list loaded from the settings store on first
  use and then changed in place; every change is written through to the store,
  one record at a time.
*/
module UserShortcuts {
  import opened Wrappers
  import opened Settings
  import opened ShortcutFiles
  import opened Registry

  // Top-level collections of the store.
  const GeneralSettings: string := "GeneralSettings"
  const UserShortcutsDefs: string := "UserShortcutsDefs"
  const ImportedMappingSchemes: string := "ImportedMappingSchemes"
  const LastExtensionScanTimeProperty: string := "LastExtensionScanTime"

  class UserShortcutsManager {
    /** The user-scope settings store the registries are persisted in. */
    var store: Store
    /** None until the list has been loaded from the store. */
    var userShortcutsRegistry: Option<seq<ShortcutFileInfo>>
    var vskImportsRegistry: Option<seq<ShortcutFileInfo>>
    const timeFormat: TimeFormat

    /** The user-shortcuts list is loaded and agrees with its collection in the store. */
    ghost predicate UserShortcutsMirrored()
      reads this
    {
      && userShortcutsRegistry.Some?
      && FormattedTimesParse(timeFormat)
      && Mirrored(store, timeFormat, UserShortcutsDefs, userShortcutsRegistry.value)
    }

    constructor (userSettingsStore: Store, tf: TimeFormat)
      ensures store == userSettingsStore && timeFormat == tf
      ensures userShortcutsRegistry == None && vskImportsRegistry == None
    {
      store := userSettingsStore;
      timeFormat := tf;
      userShortcutsRegistry := None;
      vskImportsRegistry := None;
    }

    // ---- Records in the settings store ----

    /**
      Reads every record stored under `collectionName`, one per sub-collection, in
      the order the store lists them (which the model leaves open); `names` is that
      order.
    */
    method FetchShortcutFileInfo(collectionName: string)
      returns (r: Result<seq<ShortcutFileInfo>, StoreError>, ghost names: seq<string>)
      ensures FetchedAs(store, timeFormat, collectionName, names, r)
    {
      names := [];
      var shortcutFiles: seq<ShortcutFileInfo> := [];
      if CollectionExists(store, collectionName) {
        var all := SubCollectionNames(store, collectionName);
        var remaining := all;
        while remaining != {}
          invariant remaining <= all
          invariant forall n :: n in names ==> n in all && n !in remaining
          invariant forall n :: n in all ==> n in names || n in remaining
          invariant forall i, j :: 0 <= i < j < |names| ==> names[i] != names[j]
          invariant |shortcutFiles| == |names|
          invariant forall i :: 0 <= i < |names| ==>
                      ExtractShortcutsInfo(store, timeFormat, collectionName, names[i]) == Ok(shortcutFiles[i])
          decreases |remaining|
        {
          var shortcutDef :| shortcutDef in remaining;
          var info := ExtractShortcutsInfo(store, timeFormat, collectionName, shortcutDef);
          names := names + [shortcutDef];
          if info.Err? {
            return Err(info.error), names;
          }
          shortcutFiles := shortcutFiles + [info.value];
          remaining := remaining - {shortcutDef};
        }
      }
      return Ok(shortcutFiles), names;
    }

    /** Writes `info` under `collectionPrefix\<its display name>`. */
    method SaveShortcutFileInfoToSettingsStore(collectionPrefix: string, info: ShortcutFileInfo)
      modifies this`store
      ensures store == SaveShortcutFileInfo(old(store), timeFormat, collectionPrefix, info)
    {
      var collectionPath := Join(collectionPrefix, info.displayName);
      SaveInSteps(store, timeFormat, collectionPrefix, info);
      store := CreateCollection(store, collectionPath);
      store := SetValue(store, collectionPath, NameProperty, StringValue(info.displayName));
      store := SetValue(store, collectionPath, FilepathProperty, StringValue(info.filepath));
      store := SetValue(store, collectionPath, ExtensionNameProperty, StringValue(info.extensionName));
      store := SetValue(store, collectionPath, LastWriteTimeProperty, StringValue(timeFormat.format(info.lastWriteTime)));
      store := SetValue(store, collectionPath, FlagsProperty, Int32Value(info.notifyFlag));
    }

    // ---- User shortcut definitions ----

    /**
      The user-shortcuts list, read from the store on the first call only. A store
      that cannot be read leaves the list unloaded.
    */
    method GetUserShortcutsRegistry() returns (r: Result<seq<ShortcutFileInfo>, StoreError>)
      modifies this`userShortcutsRegistry
      ensures old(userShortcutsRegistry).Some? ==>
        r == Ok(old(userShortcutsRegistry).value) && userShortcutsRegistry == old(userShortcutsRegistry)
      ensures old(userShortcutsRegistry).None? ==>
        Loads(store, timeFormat, UserShortcutsDefs, r)
      ensures old(userShortcutsRegistry).None? ==>
        userShortcutsRegistry == if r.Ok? then Some(r.value) else None
      ensures (old(userShortcutsRegistry).None? && r.Ok? && FormattedTimesParse(timeFormat)
               && WellFormedRegistryStore(store, timeFormat, UserShortcutsDefs)) ==> UserShortcutsMirrored()
    {
      if userShortcutsRegistry.None? {
        var fetched, names := FetchShortcutFileInfo(UserShortcutsDefs);
        assert FetchedAs(store, timeFormat, UserShortcutsDefs, names, fetched);
        if fetched.Ok? {
          userShortcutsRegistry := Some(fetched.value);
          if FormattedTimesParse(timeFormat) && WellFormedRegistryStore(store, timeFormat, UserShortcutsDefs) {
            FetchMirrors(store, timeFormat, UserShortcutsDefs, names, fetched.value);
          }
        }
        return fetched;
      }
      return Ok(userShortcutsRegistry.value);
    }

    /** Some loaded user-shortcuts entry is called `shortcutsName`. */
    function HasUserShortcuts(shortcutsName: string): (b: bool)
      reads this
      requires userShortcutsRegistry.Some?
      ensures b <==> exists i :: 0 <= i < |userShortcutsRegistry.value|
                                 && userShortcutsRegistry.value[i].displayName == shortcutsName
    {
      IndexOfName(userShortcutsRegistry.value, shortcutsName).Some?
    }

    /** The first loaded user-shortcuts entry called `shortcutDefName`. */
    function GetUserShortcutsInfo(shortcutDefName: string): (info: ShortcutFileInfo)
      reads this
      requires userShortcutsRegistry.Some? && HasUserShortcuts(shortcutDefName)
      ensures info.displayName == shortcutDefName
      ensures exists i :: 0 <= i < |userShortcutsRegistry.value| && userShortcutsRegistry.value[i] == info
                && forall j :: 0 <= j < i ==> userShortcutsRegistry.value[j].displayName != shortcutDefName
    {
      var entries := userShortcutsRegistry.value;
      entries[IndexOfName(entries, shortcutDefName).value]
    }

    /**
      Takes the first entry called `shortcutDef` out of the list, if there is one,
      and deletes its collection from the store in any case.
    */
    method DeleteUserShortcutsDef(shortcutDef: string)
      requires userShortcutsRegistry.Some?
      modifies this`userShortcutsRegistry, this`store
      ensures userShortcutsRegistry == Some(RemoveFirstNamed(old(userShortcutsRegistry).value, shortcutDef))
      ensures store == DeleteCollection(old(store), Join(UserShortcutsDefs, shortcutDef))
      ensures Join(UserShortcutsDefs, shortcutDef) !in store
      ensures forall k :: k in old(store) && !Within(Join(UserShortcutsDefs, shortcutDef), k) ==>
                k in store && store[k] == old(store)[k]
      ensures old(UserShortcutsMirrored()) ==> UserShortcutsMirrored()
    {
      if HasUserShortcuts(shortcutDef) {
        var entries := userShortcutsRegistry.value;
        // List.Remove takes out the first entry equal to the one found, which is the one at its index.
        userShortcutsRegistry := Some(RemoveFirstNamed(entries, shortcutDef));
      }
      var collectionPath := Join(UserShortcutsDefs, shortcutDef);
      store := DeleteCollection(store, collectionPath);
      if old(UserShortcutsMirrored()) {
        DeleteKeepsMirror(old(store), timeFormat, UserShortcutsDefs, old(userShortcutsRegistry).value, shortcutDef);
      }
    }

    /**
      Adds a definition, first removing any entry with the same display name, and
      writes it to the store.
    */
    method AddUserShortcutsDef(info: ShortcutFileInfo)
      requires userShortcutsRegistry.Some?
      modifies this`userShortcutsRegistry, this`store
      ensures userShortcutsRegistry == Some(RemoveFirstNamed(old(userShortcutsRegistry).value, info.displayName) + [info])
      ensures var path := Join(UserShortcutsDefs, info.displayName);
        store == SaveShortcutFileInfo(
          if HasName(old(userShortcutsRegistry).value, info.displayName) then DeleteCollection(old(store), path)
          else old(store),
          timeFormat, UserShortcutsDefs, info)
      ensures var path := Join(UserShortcutsDefs, info.displayName);
        && (forall k :: k in old(store) && !Within(path, k) ==> k in store && store[k] == old(store)[k])
        && (forall k :: k in store && k !in old(store) ==> k == path || k in Ancestors(path))
      ensures UniqueNames(old(userShortcutsRegistry).value) ==>
        var entries := userShortcutsRegistry.value;
        && UniqueNames(entries)
        && entries[|entries| - 1] == info
        && WithoutName(entries, info.displayName) == WithoutName(old(userShortcutsRegistry).value, info.displayName)
      ensures old(UserShortcutsMirrored()) && Separator !in info.displayName ==> UserShortcutsMirrored()
    {
      if UniqueNames(userShortcutsRegistry.value) {
        AddKeepsNamesUnique(userShortcutsRegistry.value, info);
      }
      ReplaceFrame(store, timeFormat, UserShortcutsDefs, info, HasName(userShortcutsRegistry.value, info.displayName));
      if HasUserShortcuts(info.displayName) {
        DeleteUserShortcutsDef(info.displayName);
      }
      userShortcutsRegistry := Some(userShortcutsRegistry.value + [info]);
      UpdateShortcutsDefInSettingsStore(info);
      if old(UserShortcutsMirrored()) && Separator !in info.displayName {
        AddKeepsMirror(old(store), timeFormat, UserShortcutsDefs, old(userShortcutsRegistry).value, info);
      }
    }

    method UpdateShortcutsDefInSettingsStore(info: ShortcutFileInfo)
      modifies this`store
      ensures store == SaveShortcutFileInfo(old(store), timeFormat, UserShortcutsDefs, info)
    {
      SaveShortcutFileInfoToSettingsStore(UserShortcutsDefs, info);
    }

    /**
      Empties the list and deletes the whole user-shortcuts collection; the general
      settings and the imported mapping schemes are left alone.
    */
    method ResetUserShortcutsRegistry()
      requires userShortcutsRegistry.Some?
      modifies this`userShortcutsRegistry, this`store
      ensures userShortcutsRegistry == Some([])
      ensures store == DeleteCollection(old(store), UserShortcutsDefs)
      ensures forall k :: k in store ==> !Within(UserShortcutsDefs, k)
      ensures forall k :: k in old(store) && (Within(GeneralSettings, k) || Within(ImportedMappingSchemes, k)) ==>
                k in store && store[k] == old(store)[k]
      ensures FormattedTimesParse(timeFormat) ==> UserShortcutsMirrored()
    {
      userShortcutsRegistry := Some([]);
      store := DeleteCollection(store, UserShortcutsDefs);
      forall k | k in old(store) && (Within(GeneralSettings, k) || Within(ImportedMappingSchemes, k))
        ensures !Within(UserShortcutsDefs, k)
      {
        if Within(GeneralSettings, k) {
          DisjointRoots(GeneralSettings, UserShortcutsDefs, k);
        } else {
          DisjointRoots(ImportedMappingSchemes, UserShortcutsDefs, k);
        }
      }
      ResetMirrors(old(store), timeFormat, UserShortcutsDefs);
    }

    // ---- Imported keyboard-mapping schemes ----

    /** The imported-VSK list, read from the store on the first call only. */
    method GetVskImportsRegistry() returns (r: Result<seq<ShortcutFileInfo>, StoreError>)
      modifies this`vskImportsRegistry
      ensures old(vskImportsRegistry).Some? ==>
        r == Ok(old(vskImportsRegistry).value) && vskImportsRegistry == old(vskImportsRegistry)
      ensures old(vskImportsRegistry).None? ==>
        Loads(store, timeFormat, ImportedMappingSchemes, r)
      ensures old(vskImportsRegistry).None? ==>
        vskImportsRegistry == if r.Ok? then Some(r.value) else None
    {
      if vskImportsRegistry.None? {
        var fetched, names := FetchShortcutFileInfo(ImportedMappingSchemes);
        if fetched.Ok? {
          vskImportsRegistry := Some(fetched.value);
        }
        assert FetchedAs(store, timeFormat, ImportedMappingSchemes, names, fetched);
        return fetched;
      }
      return Ok(vskImportsRegistry.value);
    }

    /**
      Appends `info` to the imported-VSK list (loading it first if need be) with no
      check for duplicates, and overwrites its collection in the store. When the
      list cannot be loaded nothing is added or written.
    */
    method AddVskImportFile(info: ShortcutFileInfo) returns (r: Result<(), StoreError>)
      modifies this`vskImportsRegistry, this`store
      ensures r.Err? ==> store == old(store)
      ensures r.Err? ==> old(vskImportsRegistry).None? && vskImportsRegistry.None?
      ensures r.Ok? ==> vskImportsRegistry.Some?
      ensures r.Ok? && old(vskImportsRegistry).Some? ==>
        vskImportsRegistry.value == old(vskImportsRegistry).value + [info]
      ensures r.Ok? && old(vskImportsRegistry).None? ==>
        exists loaded :: Loads(old(store), timeFormat, ImportedMappingSchemes, Ok(loaded))
                         && vskImportsRegistry.value == loaded + [info]
      ensures r.Ok? ==> store == SaveShortcutFileInfo(old(store), timeFormat, ImportedMappingSchemes, info)
    {
      var registry := GetVskImportsRegistry();
      if registry.Err? {
        return Err(registry.error);
      }
      vskImportsRegistry := Some(registry.value + [info]);
      UpdateVskImportInfoInSettingsStore(info);
      return Ok(());
    }

    method UpdateVskImportInfoInSettingsStore(info: ShortcutFileInfo)
      modifies this`store
      ensures store == SaveShortcutFileInfo(old(store), timeFormat, ImportedMappingSchemes, info)
    {
      SaveShortcutFileInfoToSettingsStore(ImportedMappingSchemes, info);
    }

    // ---- Last extension scan time ----

    /** The time of the last scan of the extension directories; 0 when none was recorded. */
    function GetLastExtensionScanTime(): (r: Result<int64, StoreError>)
      reads this
      ensures GeneralSettings !in store || LastExtensionScanTimeProperty !in store[GeneralSettings] ==> r == Ok(0)
      ensures GeneralSettings in store && LastExtensionScanTimeProperty in store[GeneralSettings] ==>
        (r.Ok? <==> store[GeneralSettings][LastExtensionScanTimeProperty].Int64Value?)
      ensures r.Ok? && GeneralSettings in store && LastExtensionScanTimeProperty in store[GeneralSettings] ==>
        store[GeneralSettings][LastExtensionScanTimeProperty] == Int64Value(r.value)
    {
      GetInt64(store, GeneralSettings, LastExtensionScanTimeProperty, 0)
    }

    /** Records the scan time; only that property of the general settings changes. */
    method SetLastExtensionScanTime(updateTimestamp: int64)
      modifies this`store
      ensures GetLastExtensionScanTime() == Ok(updateTimestamp)
      ensures store.Keys == old(store).Keys + {GeneralSettings}
      ensures forall k :: k in old(store) && k != GeneralSettings ==> store[k] == old(store)[k]
      ensures store[GeneralSettings] ==
        (if GeneralSettings in old(store) then old(store)[GeneralSettings] else map[])
          [LastExtensionScanTimeProperty := Int64Value(updateTimestamp)]
    {
      var collectionPath := GeneralSettings;
      assert Ancestors(collectionPath) == {} by {
        forall i | 0 <= i < |collectionPath| ensures collectionPath[i] != Separator {
        }
      }
      store := CreateCollection(store, collectionPath);
      store := SetValue(store, collectionPath, LastExtensionScanTimeProperty, Int64Value(updateTimestamp));
    }
  }
}
