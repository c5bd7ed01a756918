/**
  Shortcut-file records and how one is written to, and read back from, the
  settings store. A record lives in the sub-collection `<prefix>\<display name>`
  and is spread over five properties: Name, Filepath, ExtensionName,
  LastWriteTime (the timestamp as text) and Flags (the notify flag).
*/
module ShortcutFiles {
  import opened Wrappers
  import opened Settings

  // Property names used inside each record's collection.
  const NameProperty: string := "Name"
  const FilepathProperty: string := "Filepath"
  const ExtensionNameProperty: string := "ExtensionName"
  const LastWriteTimeProperty: string := "LastWriteTime"
  const FlagsProperty: string := "Flags"

  /** A file's last-write time, kept as an opaque value. */
  type Timestamp = int

  /**
    How a timestamp is written as text and read back (a fixed date format and the
    platform's date parser). The model assumes nothing about how the two relate.
  */
  datatype TimeFormat = TimeFormat(format: Timestamp -> string, parse: string -> Option<Timestamp>)

  /** Every formatted timestamp can be parsed again. */
  ghost predicate FormattedTimesParse(tf: TimeFormat) {
    forall t :: tf.parse(tf.format(t)).Some?
  }

  datatype ShortcutFileInfo = ShortcutFileInfo(
    displayName: string,
    filepath: string,
    extensionName: string,
    lastWriteTime: Timestamp,
    notifyFlag: int32)

  /** The two records agree on everything except the last-write time. */
  predicate SameExceptTime(a: ShortcutFileInfo, b: ShortcutFileInfo) {
    a.displayName == b.displayName && a.filepath == b.filepath
    && a.extensionName == b.extensionName && a.notifyFlag == b.notifyFlag
  }

  /** The five properties a record is stored as. */
  function Encode(tf: TimeFormat, info: ShortcutFileInfo): Properties {
    map[
      NameProperty := StringValue(info.displayName),
      FilepathProperty := StringValue(info.filepath),
      ExtensionNameProperty := StringValue(info.extensionName),
      LastWriteTimeProperty := StringValue(tf.format(info.lastWriteTime)),
      FlagsProperty := Int32Value(info.notifyFlag)]
  }

  function ParseTimestamp(tf: TimeFormat, path: string, text: string): Result<Timestamp, StoreError> {
    match tf.parse(text)
    case Some(t) => Ok(t)
    case None => Err(BadTimestamp(path, text))
  }

  /** The collection at `path` holds every property a record needs, each of the right type. */
  predicate Readable(s: Store, tf: TimeFormat, path: string) {
    && path in s
    && (forall name :: name in {NameProperty, FilepathProperty, ExtensionNameProperty, LastWriteTimeProperty}
          ==> name in s[path] && s[path][name].StringValue?)
    && tf.parse(s[path][LastWriteTimeProperty].str).Some?
    && (FlagsProperty in s[path] ==> s[path][FlagsProperty].Int32Value?)
  }

  /**
    Reads the record stored under `collectionName\shortcutDef`. The string
    properties must be present; a missing Flags property reads as 0.
  */
  function ExtractShortcutsInfo(s: Store, tf: TimeFormat, collectionName: string, shortcutDef: string)
    : (r: Result<ShortcutFileInfo, StoreError>)
    ensures r.Ok? <==> Readable(s, tf, Join(collectionName, shortcutDef))
    ensures r.Ok? ==> var props := s[Join(collectionName, shortcutDef)];
      && NameProperty in props && props[NameProperty] == StringValue(r.value.displayName)
      && FilepathProperty in props && props[FilepathProperty] == StringValue(r.value.filepath)
      && ExtensionNameProperty in props && props[ExtensionNameProperty] == StringValue(r.value.extensionName)
      && LastWriteTimeProperty in props && props[LastWriteTimeProperty].StringValue?
      && tf.parse(props[LastWriteTimeProperty].str) == Some(r.value.lastWriteTime)
      && (if FlagsProperty in props then props[FlagsProperty] == Int32Value(r.value.notifyFlag)
          else r.value.notifyFlag == 0)
  {
    var path := Join(collectionName, shortcutDef);
    var filepath :- GetString(s, path, FilepathProperty);
    var name :- GetString(s, path, NameProperty);
    var extensionName :- GetString(s, path, ExtensionNameProperty);
    var timeText :- GetString(s, path, LastWriteTimeProperty);
    var lastWriteTime :- ParseTimestamp(tf, path, timeText);
    var flags :- GetInt32(s, path, FlagsProperty, 0);
    Ok(ShortcutFileInfo(name, filepath, extensionName, lastWriteTime, flags))
  }

  /**
    The store after a record has been saved under `collectionPrefix`: its collection
    (and every collection above it) exists, the five properties are overwritten, any
    other property already there is kept, and no other collection changes.
  */
  function SaveShortcutFileInfo(s: Store, tf: TimeFormat, collectionPrefix: string, info: ShortcutFileInfo)
    : (r: Store)
    ensures var path := Join(collectionPrefix, info.displayName);
      && r.Keys == s.Keys + {path} + Ancestors(path)
      && r[path] == (if path in s then s[path] else map[]) + Encode(tf, info)
      && (forall k :: k in s && k != path ==> r[k] == s[k])
      && (forall k :: k in r && k !in s && k != path ==> r[k] == map[])
  {
    var path := Join(collectionPrefix, info.displayName);
    var created := CreateCollection(s, path);
    created[path := created[path] + Encode(tf, info)]
  }

  /** Writing the five properties one at a time amounts to overlaying the record's encoding. */
  lemma WriteFiveProperties(props: Properties, tf: TimeFormat, info: ShortcutFileInfo)
    ensures props[NameProperty := StringValue(info.displayName)]
                 [FilepathProperty := StringValue(info.filepath)]
                 [ExtensionNameProperty := StringValue(info.extensionName)]
                 [LastWriteTimeProperty := StringValue(tf.format(info.lastWriteTime))]
                 [FlagsProperty := Int32Value(info.notifyFlag)]
         == props + Encode(tf, info)
  {
  }

  /** Creating the record's collection and then setting its five properties one by one is saving it. */
  lemma SaveInSteps(s: Store, tf: TimeFormat, collectionPrefix: string, info: ShortcutFileInfo)
    ensures var path := Join(collectionPrefix, info.displayName);
      var s0 := CreateCollection(s, path);
      var s1 := SetValue(s0, path, NameProperty, StringValue(info.displayName));
      var s2 := SetValue(s1, path, FilepathProperty, StringValue(info.filepath));
      var s3 := SetValue(s2, path, ExtensionNameProperty, StringValue(info.extensionName));
      var s4 := SetValue(s3, path, LastWriteTimeProperty, StringValue(tf.format(info.lastWriteTime)));
      var s5 := SetValue(s4, path, FlagsProperty, Int32Value(info.notifyFlag));
      s5 == SaveShortcutFileInfo(s, tf, collectionPrefix, info)
  {
    var path := Join(collectionPrefix, info.displayName);
    var s0 := CreateCollection(s, path);
    WriteFiveProperties(s0[path], tf, info);
  }

  /**
    Saving a record, after possibly deleting its old collection, changes no
    collection outside the record's own and adds only that one and those above it.
  */
  lemma ReplaceFrame(s: Store, tf: TimeFormat, collectionPrefix: string, info: ShortcutFileInfo, deleteFirst: bool)
    ensures var path := Join(collectionPrefix, info.displayName);
      var r := SaveShortcutFileInfo(if deleteFirst then DeleteCollection(s, path) else s, tf, collectionPrefix, info);
      && (forall k :: k in s && !Within(path, k) ==> k in r && r[k] == s[k])
      && (forall k :: k in r && k !in s ==> k == path || k in Ancestors(path))
  {
  }

  /** Whatever else the store held, the record read back from where it was saved agrees with it. */
  lemma SaveThenExtract(s: Store, tf: TimeFormat, collectionPrefix: string, info: ShortcutFileInfo)
    ensures var r := ExtractShortcutsInfo(SaveShortcutFileInfo(s, tf, collectionPrefix, info), tf,
                                          collectionPrefix, info.displayName);
      && (r.Ok? <==> tf.parse(tf.format(info.lastWriteTime)).Some?)
      && (r.Ok? ==> SameExceptTime(r.value, info)
                    && Some(r.value.lastWriteTime) == tf.parse(tf.format(info.lastWriteTime)))
  {
    var saved := SaveShortcutFileInfo(s, tf, collectionPrefix, info);
    var props := saved[Join(collectionPrefix, info.displayName)];
    assert props[NameProperty] == StringValue(info.displayName);
    assert props[FilepathProperty] == StringValue(info.filepath);
    assert props[ExtensionNameProperty] == StringValue(info.extensionName);
    assert props[LastWriteTimeProperty] == StringValue(tf.format(info.lastWriteTime));
    assert props[FlagsProperty] == Int32Value(info.notifyFlag);
  }

  /** What is read from a collection depends on that collection's properties alone. */
  lemma ExtractLocal(s: Store, s': Store, tf: TimeFormat, collectionName: string, shortcutDef: string)
    requires var path := Join(collectionName, shortcutDef);
      (path in s <==> path in s') && (path in s ==> s[path] == s'[path])
    ensures ExtractShortcutsInfo(s, tf, collectionName, shortcutDef)
         == ExtractShortcutsInfo(s', tf, collectionName, shortcutDef)
  {
  }
}
