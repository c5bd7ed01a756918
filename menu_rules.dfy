/**
  The pure rules behind the extension's two dynamic menus: which command ids
  belong to the user-shortcuts and mapping-scheme menus, which name each menu
  slot shows, the accelerator marker on menu text, the keyboard-scheme value
  written when a scheme is chosen, and when a stored value selects a scheme.
*/
module MenuRules {
  import opened Wrappers
  import opened Settings

  const DynamicThemeStartCmdId: int32 := 0x2A00
  const DynamicUserShortcutsStartCmdId: int32 := 0x3A00
  const DefaultMappingSchemeName: string := "(Default)"
  const Accelerator: char := '&'
  const SchemeFileExtension: string := ".vsk"

  /** 32-bit two's-complement subtraction, wrapping around on overflow. */
  function WrappingSub(a: int32, b: int32): (r: int32)
    ensures (r as int - (a as int - b as int)) % 0x1_0000_0000 == 0
    ensures -0x8000_0000 <= a as int - b as int < 0x8000_0000 ==> r as int == a as int - b as int
  {
    ((a as int - b as int + 0x8000_0000) % 0x1_0000_0000 - 0x8000_0000) as int32
  }

  // ---- Command-id ranges ----

  /**
    The command id addresses one of the `count` user-shortcuts slots. As long as
    the list is shorter than 2^31 - 0x3A00 entries, those are exactly the ids from
    the start id on, one per entry (a longer list would also admit ids that wrap
    around below the start).
  */
  predicate IsValidUserShortcutsItem(commandId: int32, count: nat): (valid: bool)
    ensures count <= 0x8000_0000 - DynamicUserShortcutsStartCmdId as int ==>
      (valid <==>
       DynamicUserShortcutsStartCmdId as int <= commandId as int < DynamicUserShortcutsStartCmdId as int + count)
  {
    var itemRange := WrappingSub(commandId, DynamicUserShortcutsStartCmdId);
    itemRange >= 0 && itemRange as int < count
  }

  /**
    The command id addresses one of the mapping-scheme slots: one per scheme plus
    "(Default)", so the start id through start + count.
  */
  predicate IsValidMappingSchemeItem(commandId: int32, count: nat): (valid: bool)
    ensures count < 0x8000_0000 - DynamicThemeStartCmdId as int ==>
      (valid <==> DynamicThemeStartCmdId as int <= commandId as int <= DynamicThemeStartCmdId as int + count)
  {
    var itemRange := WrappingSub(commandId, DynamicThemeStartCmdId);
    itemRange >= 0 && itemRange as int <= count
  }

  /**
    The slot a dynamic menu item stands for: the root item (matched id 0) is slot
    0, any other is its offset from the menu's start id.
  */
  function MenuItemIndex(matchedCommandId: int32, startCmdId: int32): (index: int32)
    ensures matchedCommandId == 0 ==> index == 0
    ensures matchedCommandId != 0 && -0x8000_0000 <= matchedCommandId as int - startCmdId as int < 0x8000_0000 ==>
      index as int == matchedCommandId as int - startCmdId as int
  {
    if matchedCommandId == 0 then 0 else WrappingSub(matchedCommandId, startCmdId)
  }

  /** Every valid user-shortcuts id, and the root item, names an existing entry. */
  lemma UserShortcutsIndexInRange(matchedCommandId: int32, count: nat)
    requires count > 0
    requires matchedCommandId == 0 || IsValidUserShortcutsItem(matchedCommandId, count)
    ensures 0 <= MenuItemIndex(matchedCommandId, DynamicUserShortcutsStartCmdId) as int < count
  {
  }

  // ---- Mapping-scheme names ----

  /** The scheme shown in a slot: an installed scheme, or "(Default)" past their end. */
  function MappingSchemeName(schemes: seq<string>, itemIndex: int32): (name: string)
    ensures 0 <= itemIndex as int < |schemes| ==> name == schemes[itemIndex]
    ensures !(0 <= itemIndex as int < |schemes|) ==> name == DefaultMappingSchemeName
  {
    if 0 <= itemIndex as int < |schemes| then schemes[itemIndex] else DefaultMappingSchemeName
  }

  /**
    Each valid mapping-scheme id shows the scheme at its offset, and the one just
    past the last scheme shows "(Default)".
  */
  lemma MappingSchemeSlots(schemes: seq<string>, commandId: int32)
    requires |schemes| < 0x8000_0000 - DynamicThemeStartCmdId as int
    requires commandId != 0 && IsValidMappingSchemeItem(commandId, |schemes|)
    ensures var offset := commandId as int - DynamicThemeStartCmdId as int;
      && 0 <= offset <= |schemes|
      && MappingSchemeName(schemes, MenuItemIndex(commandId, DynamicThemeStartCmdId))
         == if offset < |schemes| then schemes[offset] else DefaultMappingSchemeName
  {
  }

  // ---- Menu text ----

  /** "&" before the name, so its first letter becomes the accelerator key. */
  function MenuTextWithAccelerator(name: string): (text: string)
    ensures |text| == |name| + 1 && text[0] == Accelerator && text[1..] == name
  {
    [Accelerator] + name
  }

  /** The text with every "&" removed. */
  function RemoveAccelerators(text: string): (r: string)
    ensures Accelerator !in r
    ensures |r| <= |text|
    ensures Accelerator !in text ==> r == text
    ensures Accelerator in text ==> |r| < |text|
  {
    if text == [] then []
    else (if text[0] == Accelerator then [] else [text[0]]) + RemoveAccelerators(text[1..])
  }

  /** Removing the markers from a single character drops it exactly when it is "&". */
  lemma RemoveAcceleratorsChar(c: char)
    ensures RemoveAccelerators([c]) == if c == Accelerator then [] else [c]
  {
    assert [c][1..] == [];
  }

  /**
    Removing the markers works piece by piece; with the single-character case this
    says every character other than "&" is kept, in order.
  */
  lemma {:induction false} RemoveAcceleratorsConcat(a: string, b: string)
    ensures RemoveAccelerators(a + b) == RemoveAccelerators(a) + RemoveAccelerators(b)
  {
    if a != [] {
      assert (a + b)[0] == a[0] && (a + b)[1..] == a[1..] + b;
      RemoveAcceleratorsConcat(a[1..], b);
    } else {
      assert a + b == b;
    }
  }

  /** Taking the "&" markers off a menu text gives back its name exactly when the name has none of its own. */
  lemma MenuTextRoundTrip(name: string)
    ensures RemoveAccelerators(MenuTextWithAccelerator(name)) == name <==> Accelerator !in name
  {
    var text := MenuTextWithAccelerator(name);
    assert RemoveAccelerators(text) == RemoveAccelerators(name);
  }

  // ---- Choosing and recognising a keyboard-mapping scheme ----

  /** The value written to the SchemeName keyboard property when `name` is chosen. */
  function SchemeNameValue(name: string): (value: string)
    ensures name == DefaultMappingSchemeName <==> value == ""
    ensures name != DefaultMappingSchemeName ==> value == name + SchemeFileExtension
  {
    if name == DefaultMappingSchemeName then "" else name + SchemeFileExtension
  }

  /** The characters that end a directory or volume part of a path. */
  predicate IsPathSeparator(c: char) {
    c == '\\' || c == '/' || c == ':'
  }

  /** The file-name part of a path: what follows its last separator. */
  function FileName(path: string): (name: string)
    ensures |name| <= |path| && name == path[|path| - |name|..]
    ensures forall i :: 0 <= i < |name| ==> !IsPathSeparator(name[i])
    ensures |name| < |path| ==> IsPathSeparator(path[|path| - |name| - 1])
  {
    if path == [] then []
    else if IsPathSeparator(path[|path| - 1]) then []
    else FileName(path[..|path| - 1]) + [path[|path| - 1]]
  }

  /** ASCII letters folded to lower case; every other character as it is. */
  function FoldCase(c: char): char {
    if 'A' <= c <= 'Z' then (c as int - 'A' as int + 'a' as int) as char else c
  }

  /** The string with every ASCII letter folded to lower case. */
  function FoldString(s: string): (r: string)
    ensures |r| == |s| && forall i :: 0 <= i < |s| ==> r[i] == FoldCase(s[i])
  {
    seq(|s|, i requires 0 <= i < |s| => FoldCase(s[i]))
  }

  /** The two strings are equal once ASCII letters are folded to lower case. */
  predicate EqualsIgnoreCase(a: string, b: string): (equal: bool)
    ensures equal <==> FoldString(a) == FoldString(b)
    ensures a == b ==> equal
  {
    FoldedEqual(a, b);
    |a| == |b| && forall i :: 0 <= i < |a| ==> FoldCase(a[i]) == FoldCase(b[i])
  }

  lemma FoldedEqual(a: string, b: string)
    ensures FoldString(a) == FoldString(b) <==>
      |a| == |b| && forall i :: 0 <= i < |a| ==> FoldCase(a[i]) == FoldCase(b[i])
  {
    if FoldString(a) == FoldString(b) {
      forall i | 0 <= i < |a| ensures FoldCase(a[i]) == FoldCase(b[i]) {
        assert FoldString(a)[i] == FoldString(b)[i];
      }
    }
  }

  /**
    `file` ends `path` (ignoring case), either as the whole of it or right after
    a separator.
  */
  predicate EndsInFile(path: string, file: string) {
    && |file| <= |path|
    && EqualsIgnoreCase(file, path[|path| - |file|..])
    && (|file| == |path| || IsPathSeparator(path[|path| - |file| - 1]))
  }

  /** The file name of a path is the separator-free tail that follows a separator or starts the path. */
  lemma FileNameIsTail(path: string, n: nat)
    requires n <= |path|
    requires forall i :: |path| - n <= i < |path| ==> !IsPathSeparator(path[i])
    requires n == |path| || IsPathSeparator(path[|path| - n - 1])
    ensures FileName(path) == path[|path| - n..]
  {
  }

  /** Case folding neither makes nor unmakes a path separator. */
  lemma FoldKeepsSeparators(c: char)
    ensures IsPathSeparator(FoldCase(c)) <==> IsPathSeparator(c)
  {
  }

  /**
    Whether `name` is the selected scheme, given the stored SchemeName
    (`None` when the keyboard settings key is missing, "" when the value is
    missing or empty): an empty value selects only "(Default)"; any other value
    selects the scheme whose file name it ends in, ignoring case.
  */
  function IsSelected(name: string, storedSchemeName: Option<string>): (selected: bool)
    ensures storedSchemeName.None? ==> !selected
    ensures storedSchemeName == Some("") ==> (selected <==> name == DefaultMappingSchemeName)
    ensures storedSchemeName.Some? && storedSchemeName.value != "" && selected ==>
      EndsInFile(storedSchemeName.value, name + SchemeFileExtension)
    ensures (&& storedSchemeName.Some? && storedSchemeName.value != ""
             && (forall i :: 0 <= i < |name| ==> !IsPathSeparator(name[i]))
             && EndsInFile(storedSchemeName.value, name + SchemeFileExtension)) ==> selected
  {
    if storedSchemeName.Some? && storedSchemeName.value != "" then
      SelectedByFileName(name, storedSchemeName.value);
      EqualsIgnoreCase(name + SchemeFileExtension, FileName(storedSchemeName.value))
    else
    match storedSchemeName
    case None => false
    case Some(schemeName) =>
      if schemeName == "" then name == DefaultMappingSchemeName
      else EqualsIgnoreCase(name + SchemeFileExtension, FileName(schemeName))
  }

  /**
    A non-empty stored value whose file name matches `name.vsk` (ignoring case)
    ends in that file; for a separator-free name the converse holds too.
  */
  lemma SelectedByFileName(name: string, v: string)
    ensures EqualsIgnoreCase(name + SchemeFileExtension, FileName(v)) ==> EndsInFile(v, name + SchemeFileExtension)
    ensures ((forall i :: 0 <= i < |name| ==> !IsPathSeparator(name[i])) && EndsInFile(v, name + SchemeFileExtension))
            ==> EqualsIgnoreCase(name + SchemeFileExtension, FileName(v))
  {
    var file := name + SchemeFileExtension;
    var tail := FileName(v);
    if EqualsIgnoreCase(file, tail) {
      assert tail == v[|v| - |tail|..];
    }
    if (forall i :: 0 <= i < |name| ==> !IsPathSeparator(name[i])) && EndsInFile(v, file) {
      PlainSchemeFile(name);
      TailOfFile(v, file);
    }
  }

  /** A separator-free scheme name gives a separator-free scheme file name. */
  lemma PlainSchemeFile(name: string)
    requires forall i :: 0 <= i < |name| ==> !IsPathSeparator(name[i])
    ensures forall j :: 0 <= j < |name + SchemeFileExtension| ==> !IsPathSeparator((name + SchemeFileExtension)[j])
  {
    var file := name + SchemeFileExtension;
    forall j | 0 <= j < |file| ensures !IsPathSeparator(file[j]) {
      if j >= |name| {
        assert file[j] == SchemeFileExtension[j - |name|];
      } else {
        assert file[j] == name[j];
      }
    }
  }

  /** A path that ends in a separator-free file has exactly that file as its file name. */
  lemma TailOfFile(v: string, file: string)
    requires forall j :: 0 <= j < |file| ==> !IsPathSeparator(file[j])
    requires EndsInFile(v, file)
    ensures EqualsIgnoreCase(file, FileName(v))
  {
    var n := |file|;
    forall i | |v| - n <= i < |v| ensures !IsPathSeparator(v[i]) {
      var j := i - (|v| - n);
      assert FoldCase(file[j]) == FoldCase(v[|v| - n..][j]);
      FoldKeepsSeparators(file[j]);
      FoldKeepsSeparators(v[i]);
    }
    FileNameIsTail(v, n);
  }

  /** A separator-free name is its own file name. */
  lemma FileNameOfPlainName(name: string)
    requires forall i :: 0 <= i < |name| ==> !IsPathSeparator(name[i])
    ensures FileName(name) == name
  {
  }

  /**
    After choosing a separator-free scheme, exactly the schemes whose file name
    matches it (ignoring case) read as selected; in particular the chosen one.
  */
  lemma ChosenSchemeIsSelected(chosen: string, name: string)
    requires forall i :: 0 <= i < |chosen| ==> !IsPathSeparator(chosen[i])
    ensures IsSelected(name, Some(SchemeNameValue(chosen))) <==>
      if chosen == DefaultMappingSchemeName then name == DefaultMappingSchemeName
      else EqualsIgnoreCase(name + SchemeFileExtension, chosen + SchemeFileExtension)
    ensures IsSelected(chosen, Some(SchemeNameValue(chosen)))
  {
    if chosen != DefaultMappingSchemeName {
      var value := chosen + SchemeFileExtension;
      FileNameOfPlainName(value);
    }
  }

  /**
    Picking a scheme from its menu item writes a value that selects it, provided
    its name has neither "&" nor a path separator.
  */
  lemma MenuChoiceSelectsScheme(name: string)
    requires Accelerator !in name
    requires forall i :: 0 <= i < |name| ==> !IsPathSeparator(name[i])
    ensures IsSelected(name, Some(SchemeNameValue(RemoveAccelerators(MenuTextWithAccelerator(name)))))
  {
    MenuTextRoundTrip(name);
    ChosenSchemeIsSelected(name, name);
  }
}
