# VSShortcutsManager: the shortcut registries and the menu rules, in Dafny

VSShortcutsManager is a Visual Studio extension. It keeps lists of keyboard-shortcut
definition files the user has imported and of imported keyboard-mapping (`.vsk`)
files, and it offers two dynamic menus: one for user shortcut definitions and one
for keyboard-mapping schemes. This project models two parts of it and proves
properties of that model.

**The registry manager** (`UserShortcutsManager`) holds two in-memory lists of
shortcut-file records. They are the user-shortcuts registry and the VSK-imports
registry.
- Each list is loaded from the user settings store the first time it is asked for.
- After that the list is changed in place.
- Every change is written through to the store. A record lives in the
  sub-collection `<registry>\<display name>` and is spread over five properties.
- The store also holds the time of the last extension scan.

**The command handlers** (`VSShortcutsManager`):
- the command-id ranges of the two dynamic menus, including the extra "(Default)"
  slot of the scheme menu;
- the slot a menu item stands for and the name it shows;
- the `&` accelerator marker and its removal;
- the handlers that show, label and tick menu items;
- the removal of a user-shortcuts entry whose file has gone missing;
- the setting value written for a chosen scheme, and the rule that decides
  whether a stored value selects a scheme.

Layout:
- `wrappers.dfy`: `Option` and `Result`.
- `settings.dfy`: the settings store as a value. It is a map from collection path
  to typed properties, with the host's operations as functions.
- `shortcut_files.dfy`: the record, how it is encoded in a collection, and how it
  is read back.
- `registry.dfy`: lookup and removal by display name. It also defines what loading
  a registry yields and the invariant that a list and its store collection agree.
- `user_shortcuts.dfy`: the `UserShortcutsManager` class.
- `menu_rules.dfy`: the pure menu rules.
- `commands.dfy`: the menu command objects and the `VSShortcutsManager` handlers.

Main points of the model:
- `int` in the source is `int32`. Command-id subtraction wraps around as in
  unchecked C# arithmetic (`MenuRules.WrappingSub`).
- `long` is `int64`.
- A registry field is `Option<seq<...>>`, where `None` is the source's
  not-yet-loaded `null`.
- A read from the store that would throw in the source returns `Err` here.

Both registries store each record under its display name
(`VSShortcutsManager/UserShortcutsManager.cs:86`). The user-shortcuts list is also
looked up by display name (`:140-149`).

## Model

| member | source | states |
|---|---|---|
| Settings.Join | VSShortcutsManager/UserShortcutsManager.cs:65 | A sub-collection path is the collection, one backslash, then the name; both parts can be recovered from it. |
| Settings.CreateCollection | VSShortcutsManager/UserShortcutsManager.cs:87 | Creating a collection keeps every existing collection. It adds the collection and each missing collection above it, empty. |
| Settings.DeleteCollection | VSShortcutsManager/UserShortcutsManager.cs:137 | Deleting a collection removes exactly it and everything beneath it, and keeps every other collection unchanged. |
| Settings.SubCollectionNames | VSShortcutsManager/UserShortcutsManager.cs:55 | A name is listed iff it has no separator and the collection's child of that name exists. |
| Settings.AncestorsOfJoin | VSShortcutsManager/UserShortcutsManager.cs:86-87 | Creating a record's collection only adds collections no longer than its registry collection. |
| Settings.JoinWithin | VSShortcutsManager/UserShortcutsManager.cs:136-137 | Deleting one record's collection never deletes another record's collection with a different, separator-free name. |
| Settings.DisjointRoots | VSShortcutsManager/UserShortcutsManager.cs:18-20 | Top-level collections whose names start differently (GeneralSettings, UserShortcutsDefs, ImportedMappingSchemes) have disjoint subtrees. |
| ShortcutFiles.ExtractShortcutsInfo | VSShortcutsManager/UserShortcutsManager.cs:63-81 | Reading succeeds iff the four string properties exist as strings, the time text parses, and Flags, if present, is an int. Each field then comes from its property, and a missing Flags reads as 0. |
| ShortcutFiles.SaveShortcutFileInfo | VSShortcutsManager/UserShortcutsManager.cs:83-93 | Saving creates the record's collection and those above it. It overlays the five encoded properties on what the collection held, leaves every other collection unchanged, and creates new ones empty. |
| ShortcutFiles.WriteFiveProperties | VSShortcutsManager/UserShortcutsManager.cs:88-92 | Setting the five properties one after another is the same as overlaying the record's encoding. |
| ShortcutFiles.SaveInSteps | VSShortcutsManager/UserShortcutsManager.cs:86-92 | The source's six store calls, one after another, produce exactly the saved store. |
| ShortcutFiles.ReplaceFrame | VSShortcutsManager/UserShortcutsManager.cs:109-119 | Deleting a record's old collection (or not) and saving it changes no collection outside that record's subtree. It adds only that collection and those above it. |
| ShortcutFiles.SaveThenExtract | VSShortcutsManager/UserShortcutsManager.cs:63-93 | Reading a record back from where it was saved succeeds iff its formatted time parses. It then returns the same display name, file path, extension name and notify flag, whatever else the store held. |
| ShortcutFiles.ExtractLocal | VSShortcutsManager/UserShortcutsManager.cs:65-71 | What is read for a record depends only on that record's own collection. |
| Registry.IndexOfName | VSShortcutsManager/UserShortcutsManager.cs:145-149 | It finds no index iff no entry has the name. The index found has the name, and no earlier entry does. |
| Registry.IndexPastHead | VSShortcutsManager/UserShortcutsManager.cs:147 | Past a head of another name, the first position of the name is one more than in the tail. |
| Registry.RemoveFirstNamed | VSShortcutsManager/UserShortcutsManager.cs:131-134 | With no entry of that name the list is unchanged; otherwise exactly the first such entry is cut out. |
| Registry.WithoutName | VSShortcutsManager/UserShortcutsManager.cs:108-113 | The filtered list holds exactly the entries with another name. |
| Registry.RemoveFirstKeepsOthers | VSShortcutsManager/UserShortcutsManager.cs:131-134 | Removing the first entry of a name keeps all entries of other names, in the same relative order. |
| Registry.WithoutNameUnique | VSShortcutsManager/UserShortcutsManager.cs:108-113 | Filtering a list with unique names keeps them unique. |
| Registry.RemoveFirstIsFilter | VSShortcutsManager/UserShortcutsManager.cs:131-134 | With unique names, removing the first entry of a name removes every entry of that name. |
| Registry.RemoveFirstUnique | VSShortcutsManager/UserShortcutsManager.cs:128-134 | With unique names, removal leaves a list with unique names and no entry of the removed name. |
| Registry.WithoutNameAbsent | VSShortcutsManager/UserShortcutsManager.cs:131-134 | Filtering out a name no entry has leaves the list unchanged. |
| Registry.AddKeepsNamesUnique | VSShortcutsManager/UserShortcutsManager.cs:106-115 | Replace-then-append keeps names unique. The new record is last and is the only entry with its name, and other entries keep their relative order. |
| Registry.WithoutNameAppend | VSShortcutsManager/UserShortcutsManager.cs:113 | Appending a record of the filtered name does not change the filtered list. |
| Registry.FetchMirrors | VSShortcutsManager/UserShortcutsManager.cs:50-61 | A successful load from a well-formed store gives a list that agrees with the store: unique names, every entry stored under its name, and an entry for every sub-collection. |
| Registry.ReloadAgrees | VSShortcutsManager/UserShortcutsManager.cs:50-93 | Loading a registry whose list agrees with the store always succeeds. Every loaded record matches some entry, and every entry matches some loaded record, up to the time. |
| Registry.StoredUnchanged | VSShortcutsManager/UserShortcutsManager.cs:63-81 | A stored record stays stored while its own collection is unchanged. |
| Registry.DeleteKeepsEntry | VSShortcutsManager/UserShortcutsManager.cs:136-137 | Deleting one record's collection leaves every differently named record stored. |
| Registry.DeleteKeepsChildren | VSShortcutsManager/UserShortcutsManager.cs:128-138 | After a deletion, every sub-collection that is left has an entry in the filtered list. |
| Registry.DeleteKeepsMirror | VSShortcutsManager/UserShortcutsManager.cs:128-138 | Removing an entry from the list and its collection from the store keeps the two in agreement. |
| Registry.SaveKeepsMirror | VSShortcutsManager/UserShortcutsManager.cs:113-119 | Appending a record with a new, separator-free name and saving it keeps list and store in agreement, given formatted times parse. |
| Registry.AddKeepsMirror | VSShortcutsManager/UserShortcutsManager.cs:106-115 | The user-shortcuts add (delete any namesake, append, save) keeps list and store in agreement when the name has no separator. |
| Registry.ResetMirrors | VSShortcutsManager/UserShortcutsManager.cs:122-126 | An empty list agrees with a store whose registry collection was deleted. |
| UserShortcuts.UserShortcutsManager.constructor | VSShortcutsManager/UserShortcutsManager.cs:30-34 | The manager starts on the given store with both registries unloaded. |
| UserShortcuts.UserShortcutsManager.FetchShortcutFileInfo | VSShortcutsManager/UserShortcutsManager.cs:50-61 | A missing collection yields an empty list. Otherwise every sub-collection is visited once and yields one record each, in the order visited. A failed read stops the load with that record's error. |
| UserShortcuts.UserShortcutsManager.SaveShortcutFileInfoToSettingsStore | VSShortcutsManager/UserShortcutsManager.cs:83-93 | The new store is the saved store. |
| UserShortcuts.UserShortcutsManager.GetUserShortcutsRegistry | VSShortcutsManager/UserShortcutsManager.cs:97-104 | Once loaded, the same list is returned and the store is not read. The first call loads it as fetching describes, and from a well-formed store the loaded list agrees with the store. |
| UserShortcuts.UserShortcutsManager.HasUserShortcuts | VSShortcutsManager/UserShortcutsManager.cs:140-143 | True iff some entry has the name. |
| UserShortcuts.UserShortcutsManager.GetUserShortcutsInfo | VSShortcutsManager/UserShortcutsManager.cs:145-149 | Returns an entry with the name, and no earlier entry has it. |
| UserShortcuts.UserShortcutsManager.DeleteUserShortcutsDef | VSShortcutsManager/UserShortcutsManager.cs:128-138 | Only the first entry of the name leaves the list. The record's collection is gone from the store, every collection outside it is unchanged, and list and store still agree. |
| UserShortcuts.UserShortcutsManager.AddUserShortcutsDef | VSShortcutsManager/UserShortcutsManager.cs:106-115 | The record replaces any namesake and is appended last. Only its own collection is written. With unique names before, names stay unique and other entries keep their order, and list and store still agree. |
| UserShortcuts.UserShortcutsManager.UpdateShortcutsDefInSettingsStore | VSShortcutsManager/UserShortcutsManager.cs:117-120 | Saves the record under UserShortcutsDefs. |
| UserShortcuts.UserShortcutsManager.ResetUserShortcutsRegistry | VSShortcutsManager/UserShortcutsManager.cs:122-126 | The list is empty and nothing under UserShortcutsDefs is left. GeneralSettings and ImportedMappingSchemes are unchanged, and list and store agree. |
| UserShortcuts.UserShortcutsManager.GetVskImportsRegistry | VSShortcutsManager/UserShortcutsManager.cs:153-161 | Loaded once from ImportedMappingSchemes, as fetching describes; later calls return the same list. |
| UserShortcuts.UserShortcutsManager.AddVskImportFile | VSShortcutsManager/UserShortcutsManager.cs:163-167 | The record is always appended, with no check for duplicates, to the loaded list. Its collection is overwritten with its values. |
| UserShortcuts.UserShortcutsManager.UpdateVskImportInfoInSettingsStore | VSShortcutsManager/UserShortcutsManager.cs:169-172 | Saves the record under ImportedMappingSchemes. |
| UserShortcuts.UserShortcutsManager.GetLastExtensionScanTime | VSShortcutsManager/UserShortcutsManager.cs:176-179 | 0 when no scan time is recorded. Otherwise the recorded 64-bit value, or an error if it has another type. |
| UserShortcuts.UserShortcutsManager.SetLastExtensionScanTime | VSShortcutsManager/UserShortcutsManager.cs:180-185 | Reading the scan time afterwards gives the value set. Only that property of GeneralSettings changes, and the collection is created if it was missing. |
| MenuRules.WrappingSub | VSShortcutsManager/VSShortcutsManager.cs:405 | 32-bit subtraction: the true difference when it fits, otherwise congruent to it modulo 2^32. |
| MenuRules.IsValidUserShortcutsItem | VSShortcutsManager/VSShortcutsManager.cs:405-406 | For any list shorter than 2^31 - 0x3A00 entries, an id is valid iff it lies in [0x3A00, 0x3A00 + count), the wrapped offset from the start id being in range. |
| MenuRules.IsValidMappingSchemeItem | VSShortcutsManager/VSShortcutsManager.cs:462-463 | An id is valid iff it lies in [0x2A00, 0x2A00 + count]: one more slot than schemes, for "(Default)". |
| MenuRules.MenuItemIndex | VSShortcutsManager/VSShortcutsManager.cs:424-425 | The root item (matched id 0) is slot 0. Any other is its offset from the menu's start id. |
| MenuRules.UserShortcutsIndexInRange | VSShortcutsManager/VSShortcutsManager.cs:424-428 | For a non-empty list, the root item and every valid item id name an existing entry. |
| MenuRules.MappingSchemeName | VSShortcutsManager/VSShortcutsManager.cs:487-498 | An in-range index gives that scheme, any other index gives "(Default)". |
| MenuRules.MappingSchemeSlots | VSShortcutsManager/VSShortcutsManager.cs:554-557 | Each valid scheme item id shows the scheme at its offset, and the slot just past the last scheme shows "(Default)". |
| MenuRules.MenuTextWithAccelerator | VSShortcutsManager/VSShortcutsManager.cs:565-569 | The text is "&" followed by the name. |
| MenuRules.RemoveAccelerators | VSShortcutsManager/VSShortcutsManager.cs:439 | The result has no "&". It equals the text when the text had none, and is strictly shorter otherwise. |
| MenuRules.RemoveAcceleratorsChar | VSShortcutsManager/VSShortcutsManager.cs:439 | A single "&" is dropped and any other single character is kept. |
| MenuRules.RemoveAcceleratorsConcat | VSShortcutsManager/VSShortcutsManager.cs:439 | Removal distributes over concatenation. With the single-character case, every character other than "&" is kept, in order. |
| MenuRules.MenuTextRoundTrip | VSShortcutsManager/VSShortcutsManager.cs:565-569 | Removing the markers from a menu text gives back its name iff the name has no "&". |
| MenuRules.SchemeNameValue | VSShortcutsManager/VSShortcutsManager.cs:541 | The value is empty exactly for "(Default)", and otherwise is the name followed by ".vsk". |
| MenuRules.FileName | VSShortcutsManager/VSShortcutsManager.cs:528 | The file name is the longest suffix of the path with no '\\', '/' or ':'. |
| MenuRules.FileNameIsTail | VSShortcutsManager/VSShortcutsManager.cs:528 | A separator-free tail that starts the path or follows a separator is the path's file name. |
| MenuRules.FoldString | VSShortcutsManager/VSShortcutsManager.cs:528 | Each character folded on its own, ASCII upper-case letters to lower case, with the length kept. |
| MenuRules.EqualsIgnoreCase | VSShortcutsManager/VSShortcutsManager.cs:528 | Two strings are equal ignoring case iff their folded forms are equal. Equal strings always are. |
| MenuRules.IsSelected | VSShortcutsManager/VSShortcutsManager.cs:512-534 | A missing keyboard key selects nothing, and an empty value selects exactly "(Default)". A non-empty value that selects a scheme ends, ignoring case, in the scheme's ".vsk" file, either at the start of the value or right after a separator. For a separator-free name the converse holds too. |
| MenuRules.SelectedByFileName | VSShortcutsManager/VSShortcutsManager.cs:528 | A file-name match means the value ends in that file. For a separator-free scheme name, ending in its file means a file-name match. |
| MenuRules.TailOfFile | VSShortcutsManager/VSShortcutsManager.cs:528 | A path that ends, ignoring case, in a separator-free file at a separator has that file as its file name, ignoring case. |
| MenuRules.PlainSchemeFile | VSShortcutsManager/VSShortcutsManager.cs:528 | A separator-free scheme name gives a separator-free ".vsk" file name. |
| MenuRules.FileNameOfPlainName | VSShortcutsManager/VSShortcutsManager.cs:528 | A name without separators is its own file name. |
| MenuRules.ChosenSchemeIsSelected | VSShortcutsManager/VSShortcutsManager.cs:522-541 | After writing the value for a separator-free scheme, the schemes read as selected are exactly those whose name matches it ignoring case, or only "(Default)" for the default. The chosen scheme is among them. |
| MenuRules.MenuChoiceSelectsScheme | VSShortcutsManager/VSShortcutsManager.cs:500-541 | Picking a scheme from its menu text writes a value that selects it, when its name has neither "&" nor a path separator. |
| Commands.MenuCommand.constructor | VSShortcutsManager/VSShortcutsManager.cs:415 | A command starts with the given text and matched id. |
| Commands.VSShortcutsManager.constructor | VSShortcutsManager/VSShortcutsManager.cs:60-63 | The handlers share the given registry manager, and the scheme list is not yet read. |
| Commands.VSShortcutsManager.IsValidUserShortcutsItem | VSShortcutsManager/VSShortcutsManager.cs:402-407 | An id below the start id gives false without loading the registry, as the short-circuit `&&` does. Otherwise the registry is loaded from the store if it was not, and the result is the id check against its length, or the load error. |
| Commands.VSShortcutsManager.OnBeforeQueryStatusUserShortcutsDynamicItem | VSShortcutsManager/VSShortcutsManager.cs:409-433 | On a first call the registry is what loading UserShortcutsDefs from the store gives. The item is enabled and visible iff the registry is non-empty, and then shows its entry's name after "&". The matched id is reset to 0. The root item and every valid id never index outside the list. |
| Commands.VSShortcutsManager.ExecuteUserShortcutsCommand | VSShortcutsManager/VSShortcutsManager.cs:435-453 | The list worked on is the loaded registry, loaded from the store on a first call. An existing file is handed to the import. A missing file with confirmation removes the first entry of that name twice and deletes its collection. With unique names, afterwards no entry and no collection has that name. Nothing else changes, and list and store still agree. |
| Commands.VSShortcutsManager.OnBeforeQueryStatusClearUserShortcuts | VSShortcutsManager/VSShortcutsManager.cs:207-213 | Clear is visible and enabled iff the user-shortcuts registry is non-empty. On a first call that registry is what loading UserShortcutsDefs from the store gives. |
| Commands.VSShortcutsManager.ClearUserShortcuts | VSShortcutsManager/VSShortcutsManager.cs:215-219 | The registry is empty and its collection deleted. |
| Commands.VSShortcutsManager.GetMappingSchemes | VSShortcutsManager/VSShortcutsManager.cs:466-479 | The directory listing is taken on the first call only, and later calls return the same list. |
| Commands.VSShortcutsManager.IsValidMappingSchemeItem | VSShortcutsManager/VSShortcutsManager.cs:457-464 | The scheme list is the cached one, or the directory listing on a first call. The result is the id check against its length. |
| Commands.VSShortcutsManager.GetMappingSchemeName | VSShortcutsManager/VSShortcutsManager.cs:487-498 | The name of the slot in the cached scheme list, or in the directory listing on a first call. |
| Commands.VSShortcutsManager.OnBeforeQueryStatusMappingSchemeDynamicItem | VSShortcutsManager/VSShortcutsManager.cs:544-563 | Always enabled and visible. The scheme list is the cached one, or the directory listing on a first call. The item shows its slot's scheme after "&", is ticked iff that scheme is selected, and the matched id is reset to 0. |
| Commands.VSShortcutsManager.ExecuteMappingSchemeCommand | VSShortcutsManager/VSShortcutsManager.cs:500-504 | The value written for the picked scheme. For a separator-free name, that value selects the scheme. |

## Left out

- Visual Studio host services are not modelled, because they are foreign APIs with no visible semantics: profile import, export and reset, the DTE property write, command posting, menu registration and the settings-store backup path.
  - The scheme value that would be written to the DTE is returned instead (`ExecuteMappingSchemeCommand`).
  - An existing file's import is reported as an `ImportRequested` outcome.
- Message boxes become parameters or are dropped: the removal confirmation is the `confirmRemoval` parameter, and informational messages are not modelled.
- File, directory and Windows-registry reads become parameters:
  - `File.Exists` is the `existingFiles` set;
  - the `.vsk` directory listing is `installedSchemes`;
  - the stored keyboard `SchemeName` is `storedSchemeName`, where `None` means a key is missing and `""` means the value is missing or empty.
- Date formatting and parsing of the last-write time are treated as an opaque `TimeFormat`, because the format constant belongs to `ShortcutFileInfo`, which is not part of this model.
- ShortcutFiles.SaveThenExtract: claims no round trip for the last-write time itself, only that it is whatever parsing its formatted text yields.
- Case-insensitive comparison folds ASCII letters only, because invariant-culture case folding of other letters is not modelled.
- `Path.GetFileName` is modelled on the `'\\'`, `'/'` and `':'` separators only. Its exception for invalid path characters is left out.
- `ShortcutsScanner`, `ShortcutsImport`, `VSPathUtils` and the `ShortcutFileInfo` class with its constructor are not part of this model. The rescan and reconciliation they perform is therefore not modelled.
- The handlers that create records (importing or saving shortcuts, and adding a file to the registry) are left out, because they depend on that constructor and on the host.
- The singleton `Instance` plumbing is not modelled; the handlers are given the manager.
- `null` strings are not modelled.
- UserShortcuts.UserShortcutsManager.FetchShortcutFileInfo: leaves the store's enumeration order open. Any order of the sub-collections is allowed, each visited once.
- UserShortcuts.UserShortcutsManager.AddUserShortcutsDef, DeleteUserShortcutsDef, HasUserShortcuts, GetUserShortcutsInfo and ResetUserShortcutsRegistry require the user-shortcuts registry to be loaded. The source dereferences the field directly and would throw a null reference exception otherwise. Commands.VSShortcutsManager.ClearUserShortcuts inherits this.
- A store read the source would let throw (missing or wrongly typed property, unparsable time) is an `Err` result here. A query handler that indexes outside the list reports `IndexOutOfRange`, and a missing entry in `ExecuteUserShortcutsCommand` reports `NoSuchEntry`.
- Commands.VSShortcutsManager.ExecuteUserShortcutsCommand removes the first entry of the name from the shared list twice: once directly, and once more inside `DeleteUserShortcutsDef`. With duplicate names this drops two entries. The model keeps this; with unique names the second removal changes nothing.
- Settings.Store: compares collection paths exactly, case included. The host keeps the user settings store in the Windows registry, whose key names compare without case. There, records named "Foo" and "foo" share one collection. `HasUserShortcuts` compares names exactly, so adding "foo" next to "Foo" keeps both entries. The agreement between list and store proved by Registry.AddKeepsMirror therefore holds on the host only when no two names differ just in case.
- Commands.VSShortcutsManager.GetMappingSchemes: the directory listing is a parameter that cannot fail. In the original, the empty list is cached before the listing fills it. A listing that throws therefore leaves an empty scheme list cached for every later call, and the model does not capture that.
