/**
  The menu command handlers: the query-status handlers that fill in the two
  dynamic menus and the Clear command, and the execute handlers of a
  user-shortcuts item and a mapping-scheme item. What the shell does with the
  command objects afterwards, and the settings import itself, are not modelled;
  the handlers' effect is the command's new state, the registry's new state, and
  what they hand on to the host.
*/
module Commands {
  import opened Wrappers
  import opened Settings
  import opened ShortcutFiles
  import opened Registry
  import opened UserShortcuts
  import opened MenuRules

  /** The state of a menu command the shell asks about before showing it. */
  class MenuCommand {
    var enabled: bool
    var visible: bool
    var checked: bool
    var text: string
    /** The id the shell matched this dynamic item against; 0 for the menu's root item. */
    var matchedCommandId: int32

    constructor (text: string, matchedCommandId: int32)
      ensures this.text == text && this.matchedCommandId == matchedCommandId
      ensures !enabled && !visible && !checked
    {
      this.text := text;
      this.matchedCommandId := matchedCommandId;
      enabled, visible, checked := false, false, false;
    }
  }

  /** How a query-status handler ended; the last two are exceptions in the original. */
  datatype QueryStatus = Updated | UnreadableRegistry(error: StoreError) | IndexOutOfRange(index: int32)

  /** What executing a user-shortcuts item led to. */
  datatype ExecuteOutcome =
    | ImportRequested(importFilePath: string)  // the file exists and is handed to the settings import
    | EntryRemoved                             // the file is missing and the user agreed to drop it
    | EntryKept                                // the file is missing and the user declined
    | NoSuchEntry(name: string)                // no entry has the item's name (an exception in the original)
    | RegistryError(error: StoreError)         // the registry could not be loaded (an exception in the original)

  class VSShortcutsManager {
    const userShortcutsManager: UserShortcutsManager
    /** The installed mapping schemes, listed on first use. */
    var mappingSchemes: Option<seq<string>>

    constructor (manager: UserShortcutsManager)
      ensures userShortcutsManager == manager && mappingSchemes == None
    {
      userShortcutsManager := manager;
      mappingSchemes := None;
    }

    // ---- User shortcuts menu ----

    /**
      Whether `commandId` is one of the user-shortcuts menu's item ids. An id below
      the menu's start id is rejected before the registry is asked for, so it is
      not loaded for such an id.
    */
    method IsValidUserShortcutsItem(commandId: int32) returns (r: Result<bool, StoreError>)
      modifies userShortcutsManager`userShortcutsRegistry
      ensures WrappingSub(commandId, DynamicUserShortcutsStartCmdId) < 0 ==>
        r == Ok(false) && userShortcutsManager.userShortcutsRegistry == old(userShortcutsManager.userShortcutsRegistry)
      ensures old(userShortcutsManager.userShortcutsRegistry).Some? ==>
        userShortcutsManager.userShortcutsRegistry == old(userShortcutsManager.userShortcutsRegistry)
      ensures WrappingSub(commandId, DynamicUserShortcutsStartCmdId) >= 0 ==>
        (r.Ok? <==> userShortcutsManager.userShortcutsRegistry.Some?)
      ensures (WrappingSub(commandId, DynamicUserShortcutsStartCmdId) >= 0
               && old(userShortcutsManager.userShortcutsRegistry).None?) ==>
        Loads(userShortcutsManager.store, userShortcutsManager.timeFormat, UserShortcutsDefs,
              if r.Ok? then Ok(userShortcutsManager.userShortcutsRegistry.value) else Err(r.error))
      ensures r.Ok? && userShortcutsManager.userShortcutsRegistry.Some? ==>
        r.value == MenuRules.IsValidUserShortcutsItem(commandId, |userShortcutsManager.userShortcutsRegistry.value|)
    {
      var itemRange := WrappingSub(commandId, DynamicUserShortcutsStartCmdId);
      if itemRange < 0 {
        return Ok(false);
      }
      var registry := userShortcutsManager.GetUserShortcutsRegistry();
      if registry.Err? {
        return Err(registry.error);
      }
      return Ok(MenuRules.IsValidUserShortcutsItem(commandId, |registry.value|));
    }

    /**
      Shows the user-shortcuts item only when there are user shortcuts, labels it
      with its entry's display name, and clears the matched id.
    */
    method OnBeforeQueryStatusUserShortcutsDynamicItem(matchedCommand: MenuCommand) returns (status: QueryStatus)
      modifies matchedCommand, userShortcutsManager`userShortcutsRegistry
      ensures old(userShortcutsManager.userShortcutsRegistry).Some? ==>
        userShortcutsManager.userShortcutsRegistry == old(userShortcutsManager.userShortcutsRegistry)
      ensures status.UnreadableRegistry? ==>
        userShortcutsManager.userShortcutsRegistry.None? && unchanged(matchedCommand)
      ensures !status.UnreadableRegistry? ==> userShortcutsManager.userShortcutsRegistry.Some?
      ensures old(userShortcutsManager.userShortcutsRegistry).None? ==>
        Loads(userShortcutsManager.store, userShortcutsManager.timeFormat, UserShortcutsDefs,
              if status.UnreadableRegistry? then Err(status.error) else Ok(userShortcutsManager.userShortcutsRegistry.value))
      ensures !status.UnreadableRegistry? ==>
        var entries := userShortcutsManager.userShortcutsRegistry.value;
        var index := MenuItemIndex(old(matchedCommand.matchedCommandId), DynamicUserShortcutsStartCmdId);
        && matchedCommand.enabled == (|entries| > 0)
        && matchedCommand.visible == (|entries| > 0)
        && matchedCommand.checked == old(matchedCommand.checked)
        && (status.IndexOutOfRange? <==> |entries| > 0 && !(0 <= index as int < |entries|))
        && (status.IndexOutOfRange? ==>
              (&& status.index == index
               && matchedCommand.text == old(matchedCommand.text)
               && matchedCommand.matchedCommandId == old(matchedCommand.matchedCommandId)))
        && (status == Updated ==>
              (&& matchedCommand.matchedCommandId == 0
               && matchedCommand.text == if |entries| > 0 then MenuTextWithAccelerator(entries[index].displayName)
                                         else old(matchedCommand.text)))
      ensures !status.UnreadableRegistry? &&
        (old(matchedCommand.matchedCommandId) == 0 ||
         MenuRules.IsValidUserShortcutsItem(old(matchedCommand.matchedCommandId),
                                            |userShortcutsManager.userShortcutsRegistry.value|))
        ==> status == Updated
    {
      var registry := userShortcutsManager.GetUserShortcutsRegistry();
      if registry.Err? {
        return UnreadableRegistry(registry.error);
      }
      var userShortcutsRegistry := registry.value;
      var userShortcutsExist := |userShortcutsRegistry| > 0;
      matchedCommand.enabled := userShortcutsExist;
      matchedCommand.visible := userShortcutsExist;
      if userShortcutsExist {
        var isRootItem := matchedCommand.matchedCommandId == 0;
        var menuItemIndex := if isRootItem then 0
                             else WrappingSub(matchedCommand.matchedCommandId, DynamicUserShortcutsStartCmdId);
        if !(0 <= menuItemIndex as int < |userShortcutsRegistry|) {
          return IndexOutOfRange(menuItemIndex);
        }
        matchedCommand.text := MenuTextWithAccelerator(userShortcutsRegistry[menuItemIndex].displayName);
      }
      matchedCommand.matchedCommandId := 0;
      if old(matchedCommand.matchedCommandId) != 0 &&
         MenuRules.IsValidUserShortcutsItem(old(matchedCommand.matchedCommandId), |userShortcutsRegistry|) {
        UserShortcutsIndexInRange(old(matchedCommand.matchedCommandId), |userShortcutsRegistry|);
      }
      return Updated;
    }

    /**
      Runs the user-shortcuts item the user picked. When its file still exists it
      is handed to the settings import; when it is missing and the user confirms
      (`confirmRemoval`), the entry is dropped from the registry and from the store.
      `existingFiles` stands for the files on disk; `loaded` is the registry as
      loaded before any removal.
    */
    method ExecuteUserShortcutsCommand(invokedCommand: MenuCommand, existingFiles: set<string>, confirmRemoval: bool)
      returns (outcome: ExecuteOutcome, ghost loaded: seq<ShortcutFileInfo>)
      modifies userShortcutsManager`userShortcutsRegistry, userShortcutsManager`store
      ensures var name := RemoveAccelerators(invokedCommand.text);
        && (outcome.RegistryError? <==> userShortcutsManager.userShortcutsRegistry.None?)
        && (outcome.RegistryError? ==> old(userShortcutsManager.userShortcutsRegistry).None?)
        && (old(userShortcutsManager.userShortcutsRegistry).Some? ==> loaded == old(userShortcutsManager.userShortcutsRegistry).value)
        && (old(userShortcutsManager.userShortcutsRegistry).None? ==>
              Loads(old(userShortcutsManager.store), userShortcutsManager.timeFormat, UserShortcutsDefs,
                    if outcome.RegistryError? then Err(outcome.error) else Ok(loaded)))
        && (outcome != EntryRemoved ==> userShortcutsManager.store == old(userShortcutsManager.store))
        && (outcome != EntryRemoved && !outcome.RegistryError? ==> userShortcutsManager.userShortcutsRegistry == Some(loaded))
        && (outcome.NoSuchEntry? ==> outcome.name == name && !HasName(loaded, name))
        && (outcome.ImportRequested? || outcome == EntryRemoved || outcome == EntryKept ==>
              IndexOfName(loaded, name).Some?
              && var entry := loaded[IndexOfName(loaded, name).value];
              && (outcome.ImportRequested? <==> entry.filepath in existingFiles)
              && (outcome.ImportRequested? ==> outcome.importFilePath == entry.filepath)
              && (outcome == EntryRemoved <==> entry.filepath !in existingFiles && confirmRemoval))
        && (outcome == EntryRemoved ==>
              && userShortcutsManager.userShortcutsRegistry == Some(RemoveFirstNamed(RemoveFirstNamed(loaded, name), name))
              && userShortcutsManager.store == DeleteCollection(old(userShortcutsManager.store), Join(UserShortcutsDefs, name)))
      ensures var name := RemoveAccelerators(invokedCommand.text);
        outcome == EntryRemoved && UniqueNames(loaded) ==>
          && !HasName(userShortcutsManager.userShortcutsRegistry.value, name)
          && Join(UserShortcutsDefs, name) !in userShortcutsManager.store
      ensures old(userShortcutsManager.UserShortcutsMirrored()) ==> userShortcutsManager.UserShortcutsMirrored()
    {
      // Drop the "&" accelerator marker to get back the display name.
      var shortcutDefName := RemoveAccelerators(invokedCommand.text);
      var registry := userShortcutsManager.GetUserShortcutsRegistry();
      if registry.Err? {
        return RegistryError(registry.error), [];
      }
      var userShortcutsRegistry := registry.value;
      loaded := userShortcutsRegistry;
      var index := IndexOfName(userShortcutsRegistry, shortcutDefName);
      if index.None? {
        return NoSuchEntry(shortcutDefName), loaded;
      }
      var userShortcutsDef := userShortcutsRegistry[index.value];
      var importFilePath := userShortcutsDef.filepath;
      if importFilePath !in existingFiles {
        if confirmRemoval {
          // The getter hands out the registry's own list, so this removal changes the registry.
          userShortcutsManager.userShortcutsRegistry := Some(RemoveFirstNamed(userShortcutsRegistry, shortcutDefName));
          userShortcutsManager.DeleteUserShortcutsDef(shortcutDefName);
          if UniqueNames(loaded) {
            RemoveFirstUnique(loaded, shortcutDefName);
          }
          if old(userShortcutsManager.UserShortcutsMirrored()) {
            RemoveFirstUnique(loaded, shortcutDefName);
            DeleteKeepsMirror(old(userShortcutsManager.store), userShortcutsManager.timeFormat, UserShortcutsDefs,
                              loaded, shortcutDefName);
          }
          return EntryRemoved, loaded;
        }
        return EntryKept, loaded;
      }
      return ImportRequested(importFilePath), loaded;
    }

    /** Shows and enables the Clear command exactly when there are user shortcuts. */
    method OnBeforeQueryStatusClearUserShortcuts(command: MenuCommand) returns (status: QueryStatus)
      modifies command`visible, command`enabled, userShortcutsManager`userShortcutsRegistry
      ensures status == Updated || status.UnreadableRegistry?
      ensures old(userShortcutsManager.userShortcutsRegistry).Some? ==>
        userShortcutsManager.userShortcutsRegistry == old(userShortcutsManager.userShortcutsRegistry)
      ensures status.UnreadableRegistry? ==>
        userShortcutsManager.userShortcutsRegistry.None? && unchanged(command)
      ensures status == Updated ==>
        (&& userShortcutsManager.userShortcutsRegistry.Some?
         && command.visible == (|userShortcutsManager.userShortcutsRegistry.value| > 0)
         && command.enabled == (|userShortcutsManager.userShortcutsRegistry.value| > 0))
      ensures old(userShortcutsManager.userShortcutsRegistry).None? ==>
        Loads(userShortcutsManager.store, userShortcutsManager.timeFormat, UserShortcutsDefs,
              if status.UnreadableRegistry? then Err(status.error) else Ok(userShortcutsManager.userShortcutsRegistry.value))
    {
      var registry := userShortcutsManager.GetUserShortcutsRegistry();
      if registry.Err? {
        return UnreadableRegistry(registry.error);
      }
      var hasShortcutDefs := |registry.value| > 0;
      command.visible := hasShortcutDefs;
      command.enabled := hasShortcutDefs;
      return Updated;
    }

    /** Forgets every user-shortcuts definition. */
    method ClearUserShortcuts()
      requires userShortcutsManager.userShortcutsRegistry.Some?
      modifies userShortcutsManager`userShortcutsRegistry, userShortcutsManager`store
      ensures userShortcutsManager.userShortcutsRegistry == Some([])
      ensures userShortcutsManager.store == DeleteCollection(old(userShortcutsManager.store), UserShortcutsDefs)
    {
      userShortcutsManager.ResetUserShortcutsRegistry();
    }

    // ---- Mapping schemes menu ----

    /** The installed schemes, taken from `installedSchemes` (the directory listing) on the first call only. */
    method GetMappingSchemes(installedSchemes: seq<string>) returns (schemes: seq<string>)
      modifies this`mappingSchemes
      ensures schemes == if old(mappingSchemes).Some? then old(mappingSchemes).value else installedSchemes
      ensures mappingSchemes == Some(schemes)
    {
      if mappingSchemes.None? {
        mappingSchemes := Some([]);
        // Fill the new, empty list with the listing.
        mappingSchemes := Some(mappingSchemes.value + installedSchemes);
      }
      return mappingSchemes.value;
    }

    /** Whether `commandId` is one of the mapping-scheme menu's item ids, "(Default)" included. */
    method IsValidMappingSchemeItem(commandId: int32, installedSchemes: seq<string>) returns (valid: bool)
      modifies this`mappingSchemes
      ensures mappingSchemes == Some(if old(mappingSchemes).Some? then old(mappingSchemes).value else installedSchemes)
      ensures valid == MenuRules.IsValidMappingSchemeItem(commandId, |mappingSchemes.value|)
    {
      var schemes := GetMappingSchemes(installedSchemes);
      return MenuRules.IsValidMappingSchemeItem(commandId, |schemes|);
    }

    method GetMappingSchemeName(itemIndex: int32, installedSchemes: seq<string>) returns (name: string)
      modifies this`mappingSchemes
      ensures mappingSchemes == Some(if old(mappingSchemes).Some? then old(mappingSchemes).value else installedSchemes)
      ensures name == MappingSchemeName(mappingSchemes.value, itemIndex)
    {
      var schemes := GetMappingSchemes(installedSchemes);
      if 0 <= itemIndex as int < |schemes| {
        schemes := GetMappingSchemes(installedSchemes);
        return schemes[itemIndex];
      }
      return DefaultMappingSchemeName;
    }

    /**
      Always shows the mapping-scheme item, labels it with its scheme, ticks it when
      that scheme is the selected one (`storedSchemeName` is the keyboard setting
      read from the host), and clears the matched id.
    */
    method OnBeforeQueryStatusMappingSchemeDynamicItem(matchedCommand: MenuCommand, installedSchemes: seq<string>,
                                                       storedSchemeName: Option<string>)
      modifies matchedCommand, this`mappingSchemes
      ensures mappingSchemes == Some(if old(mappingSchemes).Some? then old(mappingSchemes).value else installedSchemes)
      ensures matchedCommand.enabled && matchedCommand.visible
      ensures var name := MappingSchemeName(mappingSchemes.value,
                                            MenuItemIndex(old(matchedCommand.matchedCommandId), DynamicThemeStartCmdId));
        && matchedCommand.text == MenuTextWithAccelerator(name)
        && matchedCommand.checked == IsSelected(name, storedSchemeName)
      ensures matchedCommand.matchedCommandId == 0
    {
      matchedCommand.enabled := true;
      matchedCommand.visible := true;
      var isRootItem := matchedCommand.matchedCommandId == 0;
      var menuItemIndex := if isRootItem then 0 else WrappingSub(matchedCommand.matchedCommandId, DynamicThemeStartCmdId);
      var mappingSchemeName := GetMappingSchemeName(menuItemIndex, installedSchemes);
      matchedCommand.text := MenuTextWithAccelerator(mappingSchemeName);
      matchedCommand.checked := IsSelected(mappingSchemeName, storedSchemeName);
      matchedCommand.matchedCommandId := 0;
    }

    /**
      The keyboard SchemeName value written when the user picks a mapping-scheme
      item; for a name without path separators it is a value that selects that scheme.
    */
    method ExecuteMappingSchemeCommand(invokedCommand: MenuCommand) returns (schemeNameValue: string)
      ensures var name := RemoveAccelerators(invokedCommand.text);
        && (name == DefaultMappingSchemeName <==> schemeNameValue == "")
        && (name != DefaultMappingSchemeName ==> schemeNameValue == name + SchemeFileExtension)
        && ((forall i :: 0 <= i < |name| ==> !IsPathSeparator(name[i])) ==> IsSelected(name, Some(schemeNameValue)))
    {
      var mappingSchemeName := RemoveAccelerators(invokedCommand.text);
      schemeNameValue := SchemeNameValue(mappingSchemeName);
      if forall i :: 0 <= i < |mappingSchemeName| ==> !IsPathSeparator(mappingSchemeName[i]) {
        ChosenSchemeIsSelected(mappingSchemeName, mappingSchemeName);
      }
    }
  }
}
