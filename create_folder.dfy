/** The create-folder screen's save handler: validate the typed name, load the
    `folders` collection, reject a duplicate name, append the new folder and write
    the whole collection back. */
module CreateFolder {
  import opened JsString
  import opened FolderRecord
  import opened AsyncStorage

  const FoldersKey: string := "folders"

  /** What the handler ends with (the alert it shows). */
  datatype Outcome = Ok | EmptyName | Duplicate | StorageError

  /** A run of the handler on given storage: its outcome, the storage calls it
      made, and the stored map afterwards. */
  datatype Run = Run(outcome: Outcome, accesses: seq<Access>, after: map<string, StoredValue>)

  /** What the handler holds after loading: a missing key or the empty text is the
      empty collection, a folder array is itself, anything else throws. */
  function ParseFolders(stored: Option<StoredValue>): (r: Option<seq<Folder>>)
    // only a text that is not a folder array throws
    ensures r.None? <==> stored == Some(Unparsable)
    // a missing key and the empty text both load as no folders
    ensures stored.None? || stored == Some(EmptyText) ==> r == Some([])
    ensures stored.Some? && stored.value.FolderArray? ==> r == Some(stored.value.folders)
  {
    match stored
    case None => Some([])
    case Some(EmptyText) => Some([])
    case Some(FolderArray(folders)) => Some(folders)
    case Some(Unparsable) => None
  }

  /** The folder collection the handler loads from the stored map, as the next load
      of the key reads it. */
  function Loaded(items: map<string, StoredValue>): Option<seq<Folder>> {
    ParseFolders(Lookup(items, FoldersKey))
  }

  /** The duplicate test: some stored name, lower-cased as it is, equals the typed
      name trimmed and lower-cased. */
  predicate NameTaken(folders: seq<Folder>, folderName: string)
  {
    exists i :: 0 <= i < |folders| && ToLower(folders[i].name) == ToLower(Trim(folderName))
  }

  /** A name is taken in a collection with one more folder exactly when it was taken
      before or the new folder's name matches it ignoring case. */
  lemma NameTakenAppend(folders: seq<Folder>, created: Folder, folderName: string)
    ensures NameTaken(folders + [created], folderName) <==>
              NameTaken(folders, folderName) || ToLower(created.name) == ToLower(Trim(folderName))
  {
    var saved := folders + [created];
    if NameTaken(folders, folderName) {
      var i :| 0 <= i < |folders| && ToLower(folders[i].name) == ToLower(Trim(folderName));
      assert saved[i] == folders[i];
    }
    if ToLower(created.name) == ToLower(Trim(folderName)) {
      assert saved[|folders|] == created;
    }
    if NameTaken(saved, folderName) {
      var i :| 0 <= i < |saved| && ToLower(saved[i].name) == ToLower(Trim(folderName));
      if i < |folders| {
        assert saved[i] == folders[i];
      }
    }
  }

  /** The record `handleSaveFolder` builds for a new folder. */
  function NewFolder(folderName: string, nowMillis: nat, nowIso: string): (f: Folder)
    // the name is the typed name trimmed: blank only for a blank entry, and with no
    // white space at either end
    ensures f.name == Trim(folderName) && f.id == GenerateUniqueId(nowMillis)
    ensures f.name == [] <==> AllWhiteSpace(folderName)
    ensures f.name != [] ==> !IsWhiteSpace(f.name[0]) && !IsWhiteSpace(f.name[|f.name| - 1])
    // the identifier is a digit string that reads back as the clock reading
    ensures f.id != [] && (forall k :: 0 <= k < |f.id| ==> IsDigit(f.id[k])) && ParseDecimal(f.id) == nowMillis
    ensures f.createdAt == nowIso
  {
    Folder(GenerateUniqueId(nowMillis), Trim(folderName), nowIso)
  }

  /** The handler as a function of the stored map, the storage faults, the typed
      name and the two clock readings. */
  function SaveFolderRun(before: map<string, StoredValue>, readFault: bool, writeFault: bool,
                         folderName: string, nowMillis: nat, nowIso: string): (r: Run)
    // a blank name is refused before storage is touched
    ensures r.outcome == EmptyName <==> Trim(folderName) == []
    ensures r.outcome == EmptyName ==> r.accesses == []
    // a duplicate is refused after the one read and before any write
    ensures r.outcome == Duplicate <==>
              Trim(folderName) != [] && !readFault &&
              Loaded(before).Some? &&
              NameTaken(Loaded(before).value, folderName)
    ensures r.outcome == Duplicate ==> r.accesses == [Read(FoldersKey)]
    // only a successful run changes storage, and never under another key
    ensures r.outcome != Ok ==> r.after == before
    ensures forall k :: k != FoldersKey ==> Lookup(r.after, k) == Lookup(before, k)
    // success appends exactly one folder, carrying the trimmed name and the clock readings
    ensures r.outcome == Ok ==>
              && Loaded(before).Some?
              && var current := Loaded(before).value;
              && FoldersKey in r.after && r.after[FoldersKey].FolderArray?
              && var saved := r.after[FoldersKey].folders;
              && |saved| == |current| + 1
              && saved[..|current|] == current
              && saved[|current|].name == Trim(folderName)
              && saved[|current|].id == GenerateUniqueId(nowMillis)
              && saved[|current|].createdAt == nowIso
              && !NameTaken(current, folderName)
              && r.accesses == [Read(FoldersKey), Write(FoldersKey, r.after[FoldersKey])]
    // success needs a valid new name, a readable collection and both storage calls to go through
    ensures r.outcome == Ok <==>
              Trim(folderName) != [] && !readFault && !writeFault &&
              Loaded(before).Some? &&
              !NameTaken(Loaded(before).value, folderName)
    ensures readFault && Trim(folderName) != [] ==>
              r.outcome == StorageError && r.accesses == [Read(FoldersKey)]
    // an unparsable collection throws after the one read, before any write
    ensures Trim(folderName) != [] && !readFault && Loaded(before).None? ==>
              r.outcome == StorageError && r.accesses == [Read(FoldersKey)]
    // a rejected write was attempted with the whole new collection
    ensures Trim(folderName) != [] && !readFault && writeFault &&
            Loaded(before).Some? &&
            !NameTaken(Loaded(before).value, folderName) ==>
              r.outcome == StorageError &&
              r.accesses == [Read(FoldersKey),
                             Write(FoldersKey, FolderArray(Loaded(before).value
                                                           + [NewFolder(folderName, nowMillis, nowIso)]))]
  {
    if Trim(folderName) == [] then
      Run(EmptyName, [], before)
    else if readFault then
      Run(StorageError, [Read(FoldersKey)], before)
    else
      match Loaded(before)
      case None => Run(StorageError, [Read(FoldersKey)], before)
      case Some(current) =>
        if NameTaken(current, folderName) then
          Run(Duplicate, [Read(FoldersKey)], before)
        else
          var saved := FolderArray(current + [NewFolder(folderName, nowMillis, nowIso)]);
          var accesses := [Read(FoldersKey), Write(FoldersKey, saved)];
          if writeFault then Run(StorageError, accesses, before)
          else Run(Ok, accesses, before[FoldersKey := saved])
  }

  /** The run on each path through the handler, one path per line. */
  lemma SaveFolderRunPaths(before: map<string, StoredValue>, readFault: bool, writeFault: bool,
                           folderName: string, nowMillis: nat, nowIso: string)
    ensures var r := SaveFolderRun(before, readFault, writeFault, folderName, nowMillis, nowIso);
            var loaded := Loaded(before);
            && (Trim(folderName) == [] ==> r == Run(EmptyName, [], before))
            && (Trim(folderName) != [] && (readFault || loaded.None?) ==>
                  r == Run(StorageError, [Read(FoldersKey)], before))
            && (Trim(folderName) != [] && !readFault && loaded.Some? && NameTaken(loaded.value, folderName) ==>
                  r == Run(Duplicate, [Read(FoldersKey)], before))
            && (Trim(folderName) != [] && !readFault && loaded.Some? && !NameTaken(loaded.value, folderName) ==>
                  var saved := FolderArray(loaded.value + [NewFolder(folderName, nowMillis, nowIso)]);
                  r == Run(if writeFault then StorageError else Ok, [Read(FoldersKey), Write(FoldersKey, saved)],
                           if writeFault then before else before[FoldersKey := saved]))
  {
  }

  /** `handleSaveFolder`, step by step against the storage object. */
  method HandleSaveFolder(store: KeyValueStore, folderName: string, nowMillis: nat, nowIso: string)
    returns (outcome: Outcome)
    modifies store`items, store`log
    ensures var r := SaveFolderRun(old(store.items), store.readFault, store.writeFault,
                                   folderName, nowMillis, nowIso);
            outcome == r.outcome && store.items == r.after && store.log == old(store.log) + r.accesses
  {
    SaveFolderRunPaths(store.items, store.readFault, store.writeFault, folderName, nowMillis, nowIso);
    if Trim(folderName) == [] {
      return EmptyName;
    }
    var ok, stored := store.GetItem(FoldersKey);
    if !ok {
      return StorageError;
    }
    var loaded := ParseFolders(stored);
    if loaded.None? {
      return StorageError;
    }
    var currentFolders := loaded.value;
    if NameTaken(currentFolders, folderName) {
      return Duplicate;
    }
    var newFolder := NewFolder(folderName, nowMillis, nowIso);
    currentFolders := currentFolders + [newFolder];
    ok := store.SetItem(FoldersKey, FolderArray(currentFolders));
    if !ok {
      return StorageError;
    }
    return Ok;
  }

  /** The first folder ever created is the whole collection afterwards. */
  lemma FirstFolderIsWholeCollection(before: map<string, StoredValue>, folderName: string,
                                     nowMillis: nat, nowIso: string)
    requires FoldersKey !in before
    requires Trim(folderName) != []
    ensures var r := SaveFolderRun(before, false, false, folderName, nowMillis, nowIso);
            r.outcome == Ok && Loaded(r.after) == Some([NewFolder(folderName, nowMillis, nowIso)])
  {
  }

  /** A stored empty text is falsy, so the handler treats it exactly like a missing
      key: the same outcome and the same collection written. */
  lemma EmptyTextActsAsMissingKey(before: map<string, StoredValue>, readFault: bool, writeFault: bool,
                                  folderName: string, nowMillis: nat, nowIso: string)
    ensures var withEmpty := SaveFolderRun(before[FoldersKey := EmptyText], readFault, writeFault,
                                           folderName, nowMillis, nowIso);
            var without := SaveFolderRun(before - {FoldersKey}, readFault, writeFault,
                                         folderName, nowMillis, nowIso);
            withEmpty.outcome == without.outcome && withEmpty.accesses == without.accesses
  {
    assert Loaded(before[FoldersKey := EmptyText]) == Loaded(before - {FoldersKey}) == Some([]);
  }

  /** Every stored name is trimmed and not blank. */
  predicate NamesTrimmed(folders: seq<Folder>) {
    forall i :: 0 <= i < |folders| ==> folders[i].name != [] && Trim(folders[i].name) == folders[i].name
  }

  /** No two stored names are equal once lower-cased. */
  predicate NamesDistinct(folders: seq<Folder>) {
    forall i, j :: 0 <= i < j < |folders| ==> ToLower(folders[i].name) != ToLower(folders[j].name)
  }

  /** Folder names as the screen keeps them: trimmed, not blank, and distinct once
      lower-cased. */
  predicate WellFormedFolders(folders: seq<Folder>) {
    NamesTrimmed(folders) && NamesDistinct(folders)
  }

  lemma AppendKeepsNamesTrimmed(current: seq<Folder>, created: Folder)
    requires NamesTrimmed(current)
    requires created.name != [] && Trim(created.name) == created.name
    ensures NamesTrimmed(current + [created])
  {
    var saved := current + [created];
    forall i | 0 <= i < |saved|
      ensures saved[i].name != [] && Trim(saved[i].name) == saved[i].name
    {
      if i < |current| {
        assert saved[i] == current[i];
      }
    }
  }

  lemma AppendKeepsNamesDistinct(current: seq<Folder>, created: Folder)
    requires NamesDistinct(current)
    requires forall i :: 0 <= i < |current| ==> ToLower(current[i].name) != ToLower(created.name)
    ensures NamesDistinct(current + [created])
  {
    var saved := current + [created];
    forall i, j | 0 <= i < j < |saved|
      ensures ToLower(saved[i].name) != ToLower(saved[j].name)
    {
      assert saved[i] == current[i];
      if j < |current| {
        assert saved[j] == current[j];
      }
    }
  }

  /** A successful create keeps the collection well formed. */
  lemma CreatePreservesWellFormed(before: map<string, StoredValue>, readFault: bool, writeFault: bool,
                                  folderName: string, nowMillis: nat, nowIso: string)
    requires Loaded(before).Some? && WellFormedFolders(Loaded(before).value)
    requires SaveFolderRun(before, readFault, writeFault, folderName, nowMillis, nowIso).outcome == Ok
    ensures var r := SaveFolderRun(before, readFault, writeFault, folderName, nowMillis, nowIso);
            Loaded(r.after).Some? && WellFormedFolders(Loaded(r.after).value)
  {
    var r := SaveFolderRun(before, readFault, writeFault, folderName, nowMillis, nowIso);
    var current := Loaded(before).value;
    var created := NewFolder(folderName, nowMillis, nowIso);
    assert Loaded(r.after) == Some(current + [created]);
    TrimIdempotent(folderName);
    AppendKeepsNamesTrimmed(current, created);
    AppendKeepsNamesDistinct(current, created);
  }

  /** Once a name is stored, creating it again, in any capitalisation and with any
      surrounding white space, is refused as a duplicate and writes nothing. */
  lemma CreateAgainIsDuplicate(before: map<string, StoredValue>, folderName: string, again: string,
                               nowMillis: nat, nowIso: string,
                               writeFault: bool, laterMillis: nat, laterIso: string)
    requires SaveFolderRun(before, false, false, folderName, nowMillis, nowIso).outcome == Ok
    requires ToLower(Trim(again)) == ToLower(Trim(folderName))
    requires Trim(again) != []
    ensures var first := SaveFolderRun(before, false, false, folderName, nowMillis, nowIso);
            var second := SaveFolderRun(first.after, false, writeFault, again, laterMillis, laterIso);
            second.outcome == Duplicate && second.after == first.after
  {
    var first := SaveFolderRun(before, false, false, folderName, nowMillis, nowIso);
    var saved := Loaded(first.after).value;
    assert ToLower(saved[|saved| - 1].name) == ToLower(Trim(again));
  }

  /** Identifiers come from the clock alone: two folders created in the same
      millisecond under different names get the same identifier. */
  lemma SameMillisecondIdsCollide(before: map<string, StoredValue>, a: string, b: string,
                                  nowMillis: nat, isoA: string, isoB: string)
    requires SaveFolderRun(before, false, false, a, nowMillis, isoA).outcome == Ok
    requires Trim(b) != []
    requires ToLower(Trim(b)) != ToLower(Trim(a))
    requires !NameTaken(Loaded(before).value, b)
    ensures var first := SaveFolderRun(before, false, false, a, nowMillis, isoA);
            var second := SaveFolderRun(first.after, false, false, b, nowMillis, isoB);
            var folders := Loaded(second.after).value;
            second.outcome == Ok && |folders| >= 2 &&
            folders[|folders| - 2].id == folders[|folders| - 1].id
  {
    var first := SaveFolderRun(before, false, false, a, nowMillis, isoA);
    var mid := Loaded(first.after).value;
    forall i | 0 <= i < |mid|
      ensures ToLower(mid[i].name) != ToLower(Trim(b))
    {
      if i < |mid| - 1 {
        assert mid[i] == Loaded(before).value[i];
      }
    }
  }

  /** Only the typed name is trimmed: a stored name that starts with white space
      never matches, whatever is typed. */
  lemma UntrimmedStoredNameNeverMatches(stored: Folder, typed: string)
    requires stored.name != [] && IsWhiteSpace(stored.name[0])
    ensures ToLower(stored.name) != ToLower(Trim(typed))
  {
    var t := Trim(typed);
    if t != [] {
      LowerCharKeepsNonWhiteSpace(t[0]);
      assert ToLower(t)[0] == LowerChar(t[0]);
      assert ToLower(stored.name)[0] == stored.name[0];
    }
  }

  /** White space typed around a name does not change the duplicate test. */
  lemma SurroundingSpaceIgnored(folders: seq<Folder>, folderName: string, lead: string, tail: string)
    requires AllWhiteSpace(lead) && AllWhiteSpace(tail)
    ensures NameTaken(folders, lead + Trim(folderName) + tail) <==> NameTaken(folders, folderName)
  {
    TrimPadded(lead, folderName, tail);
  }
}
