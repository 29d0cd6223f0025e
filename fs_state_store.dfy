/**
 * FsStateStore: a store of Gobblin States on a Hadoop file system. Each store is a directory under
 * the root, each table a SequenceFile in it whose name ends with the store's extension, and a table
 * name whose part after the last "-" is "current" resolves to the latest table of its family.
 */
module Metastore {
  import opened Wrappers
  import opened JavaLang
  import opened HadoopFs
  import opened StateStoreSpec

  /** The Preconditions.checkArgument failures, each an IllegalArgumentException. */
  datatype ArgumentProblem = EmptyStoreName | EmptyTableName | EmptyStateId | CurrentTableName

  /** The IOExceptions the store throws or lets through. */
  datatype IoProblem =
    | TableAlreadyExists  // create(store, table) on an existing file
    | CannotCreateTable   // putAll could not create its target file
    | WriteFailed         // a SequenceFile writer failed
    | RenameFailed        // moving the tmp file over the table failed

  datatype StoreError = IllegalArgument(argument: ArgumentProblem) | IOException(io: IoProblem)

  /** The first failing argument check of create(store, table), put, putAll and delete(store, table), in source order. */
  function TableArgumentProblem(ext: string, storeName: string, tableName: string): (r: Option<ArgumentProblem>)
    ensures r.None? <==> storeName != "" && tableName != "" && !IsCurrentFile(ext, tableName)
  {
    if storeName == "" then Some(EmptyStoreName)
    else if tableName == "" then Some(EmptyTableName)
    else if IsCurrentFile(ext, tableName) then Some(CurrentTableName)
    else None
  }

  /** The reader loop of get: records are read front to back until one has the wanted key. */
  method ScanForKey(records: Table, stateId: string) returns (r: Option<State>)
    ensures r.Some? <==> exists j :: 0 <= j < |records| && records[j].key == stateId
    ensures r == StateWithKey(records, stateId)
  {
    var i := 0;
    while i < |records|
      invariant 0 <= i <= |records|
      invariant forall j :: 0 <= j < i ==> records[j].key != stateId
    {
      if records[i].key == stateId {
        return Some(records[i].state);
      }
      i := i + 1;
    }
    return None;
  }

  /** The reader loop of getAll: every record's state, in file order. */
  method ReadStates(records: Table) returns (states: seq<State>)
    ensures |states| == |records|
    ensures forall j :: 0 <= j < |records| ==> states[j] == records[j].state
  {
    states := [];
    for i := 0 to |records|
      invariant |states| == i
      invariant forall j :: 0 <= j < i ==> states[j] == records[j].state
    {
      states := states + [records[i].state];
    }
  }

  class FsStateStore {
    const fs: FileSystem
    const useTmpFileForPut: bool
    const extension: string

    ghost predicate Valid()
      reads this, fs
    {
      fs.Valid() && StartsWith(extension, ".")
    }

    /** The tmp file is used unless the file system's URI scheme is one of the non-atomic schemes (a missing scheme is not). */
    constructor (fs: FileSystem, scheme: Option<string>, nonAtomicSchemes: set<string>, extension: string)
      requires fs.Valid()
      ensures Valid()
      ensures this.fs == fs
      ensures useTmpFileForPut <==> !(scheme.Some? && scheme.value in nonAtomicSchemes)
      ensures this.extension == NormalizeExtension(extension)
    {
      this.fs := fs;
      this.useTmpFileForPut := !(scheme.Some? && scheme.value in nonAtomicSchemes);
      this.extension := NormalizeExtension(extension);
    }

    /** putAll obtains its target: it exists already, or the store directory and then the file can be created. */
    ghost predicate TargetAvailable(stores: map<string, Directory>, storeName: string, target: string)
      reads this, fs
    {
      || FileContent(stores, storeName, target).Some?
      || ((storeName in stores || !fs.faults.mkdirsFails) && !fs.faults.createNewFileFails)
    }

    /** A writer accepts this many records. */
    predicate WritesAll(count: nat)
      reads this, fs
    {
      fs.faults.appendsBeforeFailure.None? || count <= fs.faults.appendsBeforeFailure.value
    }

    /** create(store): true when the store directory exists afterwards. */
    method Create(storeName: string) returns (r: Result<bool, StoreError>)
      requires Valid()
      modifies fs
      ensures Valid()
      ensures storeName == "" ==> r == Err(IllegalArgument(EmptyStoreName))
      ensures storeName != "" ==> r == Ok(storeName in old(fs.stores) || !fs.faults.mkdirsFails)
      ensures r.Ok? ==> (r.value <==> storeName in fs.stores)
      ensures fs.stores == if r == Ok(true) && storeName !in old(fs.stores)
                           then old(fs.stores)[storeName := EmptyDirectory] else old(fs.stores)
    {
      if storeName == "" {
        return Err(IllegalArgument(EmptyStoreName));
      }
      if storeName in fs.stores {
        return Ok(true);
      }
      var made := fs.Mkdirs(storeName);
      return Ok(made);
    }

    /**
     * create(store, table): makes the store if needed and then an empty table file; an existing
     * table file is an error, a failed mkdirs or createNewFile gives false.
     */
    method CreateTable(storeName: string, tableName: string) returns (r: Result<bool, StoreError>)
      requires Valid()
      modifies fs
      ensures Valid()
      ensures TableArgumentProblem(extension, storeName, tableName).Some? ==>
        r == Err(IllegalArgument(TableArgumentProblem(extension, storeName, tableName).value)) && fs.stores == old(fs.stores)
      ensures TableArgumentProblem(extension, storeName, tableName).None? ==>
        var n := NormalizeTableName(extension, tableName);
        && (storeName !in old(fs.stores) && fs.faults.mkdirsFails ==> r == Ok(false) && fs.stores == old(fs.stores))
        && (FileContent(old(fs.stores), storeName, n).Some? ==>
              r == Err(IOException(TableAlreadyExists)) && fs.stores == old(fs.stores))
        && (FileContent(old(fs.stores), storeName, n).None? && (storeName in old(fs.stores) || !fs.faults.mkdirsFails) ==>
              && r == Ok(!fs.faults.createNewFileFails)
              && fs.stores == (if r.value then old(fs.stores)[storeName := PutFile(old(fs.DirectoryOrEmpty(storeName)), n, [])]
                               else if storeName in old(fs.stores) then old(fs.stores)
                               else old(fs.stores)[storeName := EmptyDirectory]))
    {
      var problem := TableArgumentProblem(extension, storeName, tableName);
      if problem.Some? {
        return Err(IllegalArgument(problem.value));
      }
      if storeName !in fs.stores {
        var made := Create(storeName);
        if !made.value {
          return Ok(false);
        }
      }
      var tableFile := NormalizeTableName(extension, tableName);
      if FileContent(fs.stores, storeName, tableFile).Some? {
        return Err(IOException(TableAlreadyExists));
      }
      var created := fs.CreateNewFile(storeName, tableFile);
      return Ok(created);
    }

    /** exists(store, table): whether the name resolves to a file that exists. */
    method Exists(storeName: string, tableName: string) returns (r: Result<bool, StoreError>)
      requires Valid()
      ensures storeName == "" ==> r == Err(IllegalArgument(EmptyStoreName))
      ensures storeName != "" && tableName == "" ==> r == Err(IllegalArgument(EmptyTableName))
      ensures storeName != "" && tableName != "" ==>
        r == Ok(TableAt(fs.stores, storeName, TablePath(fs.stores, extension, storeName, tableName)).Some?)
    {
      if storeName == "" {
        return Err(IllegalArgument(EmptyStoreName));
      }
      if tableName == "" {
        return Err(IllegalArgument(EmptyTableName));
      }
      var tablePath := GetTablePath(storeName, tableName);
      return Ok(tablePath.Some? && FileContent(fs.stores, storeName, tablePath.value).Some?);
    }

    /** getTablePath. */
    method GetTablePath(storeName: string, tableName: string) returns (path: Option<string>)
      requires Valid() && tableName != ""
      ensures path == TablePath(fs.stores, extension, storeName, tableName)
    {
      var tableInfo := GetTableInfo(extension, tableName);
      if tableInfo.isCurrent {
        path := GetLatestStateFilePath(storeName, tableInfo.prefix);
      } else {
        path := Some(NormalizeTableName(extension, tableName));
      }
    }

    /**
     * getLatestStateFilePath: among the listed files of the store that start with prefix + "-" (any
     * file for an empty prefix) and end with the extension, the one that sorts last.
     */
    method GetLatestStateFilePath(storeName: string, tableNamePrefix: string) returns (r: Option<string>)
      requires Valid()
      ensures r == LatestStateFile(fs.stores, extension, storeName, tableNamePrefix)
      ensures r.None? <==> storeName !in fs.stores
                           || forall n :: n in fs.stores[storeName].files ==> !Accepts(tableNamePrefix, extension, n)
      ensures r.Some? ==>
        && storeName in fs.stores && r.value in fs.stores[storeName].files && Accepts(tableNamePrefix, extension, r.value)
        && forall n :: n in fs.stores[storeName].files && Accepts(tableNamePrefix, extension, n) ==> CompareTo(n, r.value) <= 0
    {
      LatestIsGreatestCandidate(fs.stores, extension, storeName, tableNamePrefix);
      if storeName !in fs.stores {
        return None;
      }
      var stateStoreFileStatuses := Candidates(fs.stores[storeName].listing, tableNamePrefix, extension);
      var latestStateFilePath: Option<string> := None;
      for i := 0 to |stateStoreFileStatuses|
        invariant latestStateFilePath == MaxName(stateStoreFileStatuses[..i])
      {
        var tableName := stateStoreFileStatuses[i];
        assert stateStoreFileStatuses[..i + 1][..i] == stateStoreFileStatuses[..i];
        if latestStateFilePath.None? {
          latestStateFilePath := Some(tableName);
        } else if CompareTo(tableName, latestStateFilePath.value) > 0 {
          latestStateFilePath := Some(tableName);
        }
      }
      assert stateStoreFileStatuses[..|stateStoreFileStatuses|] == stateStoreFileStatuses;
      return latestStateFilePath;
    }

    /** get(store, table, id): reads the resolved table front to back and returns the first state stored under id. */
    method Get(storeName: string, tableName: string, stateId: string) returns (r: Result<Option<State>, StoreError>)
      requires Valid()
      ensures storeName == "" ==> r == Err(IllegalArgument(EmptyStoreName))
      ensures storeName != "" && tableName == "" ==> r == Err(IllegalArgument(EmptyTableName))
      ensures storeName != "" && tableName != "" && stateId == "" ==> r == Err(IllegalArgument(EmptyStateId))
      ensures storeName != "" && tableName != "" && stateId != "" ==>
        r == Ok(GetSpec(fs.stores, extension, storeName, tableName, stateId))
    {
      if storeName == "" {
        return Err(IllegalArgument(EmptyStoreName));
      }
      if tableName == "" {
        return Err(IllegalArgument(EmptyTableName));
      }
      if stateId == "" {
        return Err(IllegalArgument(EmptyStateId));
      }
      var tablePath := GetTablePath(storeName, tableName);
      if tablePath.None? || FileContent(fs.stores, storeName, tablePath.value).None? {
        return Ok(None);
      }
      var found := ScanForKey(fs.stores[storeName].files[tablePath.value], stateId);
      return Ok(found);
    }

    /** getAll(store, table): every state of the resolved table, in file order; nothing when it does not exist. */
    method GetAll(storeName: string, tableName: string) returns (r: Result<seq<State>, StoreError>)
      requires Valid()
      ensures storeName == "" ==> r == Err(IllegalArgument(EmptyStoreName))
      ensures storeName != "" && tableName == "" ==> r == Err(IllegalArgument(EmptyTableName))
      ensures storeName != "" && tableName != "" ==> r == Ok(GetAllSpec(fs.stores, extension, storeName, tableName))
    {
      if storeName == "" {
        return Err(IllegalArgument(EmptyStoreName));
      }
      if tableName == "" {
        return Err(IllegalArgument(EmptyTableName));
      }
      var states: seq<State> := [];
      var tablePath := GetTablePath(storeName, tableName);
      if tablePath.None? || FileContent(fs.stores, storeName, tablePath.value).None? {
        return Ok(states);
      }
      states := ReadStates(fs.stores[storeName].files[tablePath.value]);
      assert states == StatesOf(fs.stores[storeName].files[tablePath.value]);
      return Ok(states);
    }

    /** getAll(store): getAll(store, name) for every file the store's listing returns, concatenated in listing order. */
    method GetAllInStore(storeName: string) returns (r: Result<seq<State>, StoreError>)
      requires Valid()
      ensures storeName == "" ==> r == Err(IllegalArgument(EmptyStoreName))
      ensures storeName != "" ==> r == Ok(GetAllInStoreSpec(fs.stores, extension, storeName))
    {
      if storeName == "" {
        return Err(IllegalArgument(EmptyStoreName));
      }
      var states: seq<State> := [];
      if storeName !in fs.stores {
        return Ok(states);
      }
      var listing := fs.stores[storeName].listing;
      assert "" !in listing;
      for i := 0 to |listing|
        invariant states == ReadEach(fs.stores, extension, storeName, listing[..i])
      {
        assert listing[..i + 1][..i] == listing[..i];
        var part := GetAll(storeName, listing[i]);
        states := states + part.value;
      }
      assert listing[..|listing|] == listing;
      return Ok(states);
    }

    /** getCurrent(store, id): get on the "current" table, that is on the latest table of any family. */
    method GetCurrent(storeName: string, stateId: string) returns (r: Result<Option<State>, StoreError>)
      requires Valid()
      ensures storeName == "" ==> r == Err(IllegalArgument(EmptyStoreName))
      ensures storeName != "" && stateId == "" ==> r == Err(IllegalArgument(EmptyStateId))
      ensures storeName != "" && stateId != "" ==>
        var latest := LatestStateFile(fs.stores, extension, storeName, "");
        var t := TableAt(fs.stores, storeName, latest);
        r == Ok(if t.None? then None
                else StateWithKey(t.value, stateId))
    {
      TablePathResolution(fs.stores, extension, storeName, CurrentFileName);
      LatestIsGreatestCandidate(fs.stores, extension, storeName, "");
      r := Get(storeName, CurrentFileName, stateId);
    }

    /** getAllCurrent(store): getAll on the "current" table, that is on the latest table of any family. */
    method GetAllCurrent(storeName: string) returns (r: Result<seq<State>, StoreError>)
      requires Valid()
      ensures storeName == "" ==> r == Err(IllegalArgument(EmptyStoreName))
      ensures storeName != "" ==>
        var latest := LatestStateFile(fs.stores, extension, storeName, "");
        var t := TableAt(fs.stores, storeName, latest);
        r == Ok(if t.None? then [] else StatesOf(t.value))
    {
      TablePathResolution(fs.stores, extension, storeName, CurrentFileName);
      LatestIsGreatestCandidate(fs.stores, extension, storeName, "");
      r := GetAll(storeName, CurrentFileName);
    }

    /** The "does not exist and cannot be created" test of putAll on its target file. */
    method OpenTarget(storeName: string, target: string) returns (ok: bool)
      requires Valid() && storeName != "" && target != ""
      requires !IsCurrentFile(extension, target) && NormalizeTableName(extension, target) == target
      modifies fs
      ensures Valid()
      ensures ok == TargetAvailable(old(fs.stores), storeName, target)
      ensures ok ==> FileContent(fs.stores, storeName, target).Some?
      ensures SameOtherStores(fs.stores, old(fs.stores), storeName)
      ensures SameOtherFiles(fs.stores, old(fs.stores), storeName, target, target)
    {
      if FileContent(fs.stores, storeName, target).Some? {
        return true;
      }
      var created := CreateTable(storeName, target);
      ok := created == Ok(true);
    }

    /** Opening a writer on the target and appending one (null-to-empty id, state) record per state, in order. */
    method WriteRecords(storeName: string, target: string, states: seq<State>) returns (ok: bool)
      requires Valid() && target != ""
      modifies fs
      ensures Valid()
      ensures ok == WritesAll(|states|)
      ensures FileContent(fs.stores, storeName, target)
           == Some(EntriesOf(if ok then states else states[..fs.faults.appendsBeforeFailure.value]))
      ensures SameOtherStores(fs.stores, old(fs.stores), storeName)
      ensures SameOtherFiles(fs.stores, old(fs.stores), storeName, target, target)
    {
      ghost var before := fs.stores;
      fs.CreateWriter(storeName, target);
      var i := 0;
      while i < |states|
        invariant 0 <= i <= |states|
        invariant fs.Valid()
        invariant WritesAll(i)
        invariant FileContent(fs.stores, storeName, target) == Some(EntriesOf(states[..i]))
        invariant SameOtherStores(fs.stores, before, storeName)
        invariant SameOtherFiles(fs.stores, before, storeName, target, target)
      {
        var e := Entry(NullToEmpty(states[i].id), states[i]);
        ghost var prev := fs.stores;
        ok := fs.Append(storeName, target, e);
        if !ok {
          assert fs.faults.appendsBeforeFailure.value == i;
          return;
        }
        FramesCompose(fs.stores, prev, before, storeName, target, target);
        EntriesOfSnoc(states, i);
        i := i + 1;
      }
      assert states[..|states|] == states;
      return true;
    }

    /**
     * putAll(store, table, states): writes the records to the tmp sibling of the table, or to the
     * table itself on a non-atomic file system, and then renames the tmp file over the table.
     */
    method PutAll(storeName: string, tableName: string, states: seq<State>) returns (r: Outcome<StoreError>)
      requires Valid()
      modifies fs
      ensures Valid()
      ensures TableArgumentProblem(extension, storeName, tableName).Some? ==>
        r == Fail(IllegalArgument(TableArgumentProblem(extension, storeName, tableName).value)) && fs.stores == old(fs.stores)
      ensures TableArgumentProblem(extension, storeName, tableName).None? ==>
        var n := NormalizeTableName(extension, tableName);
        var target := PutTarget(useTmpFileForPut, extension, tableName);
        && (!TargetAvailable(old(fs.stores), storeName, target) ==> r == Fail(IOException(CannotCreateTable)))
        && (TargetAvailable(old(fs.stores), storeName, target) && !WritesAll(|states|) ==> r == Fail(IOException(WriteFailed)))
        && (TargetAvailable(old(fs.stores), storeName, target) && WritesAll(|states|) ==>
              r == if useTmpFileForPut && fs.faults.renameFails then Fail(IOException(RenameFailed)) else Pass)
        && (r.Pass? ==> FileContent(fs.stores, storeName, n) == Some(EntriesOf(states)))
        && (r.Pass? && useTmpFileForPut ==> FileContent(fs.stores, storeName, target).None?)
        && (r.Fail? && useTmpFileForPut ==> FileContent(fs.stores, storeName, n) == FileContent(old(fs.stores), storeName, n))
        && (r == Fail(IOException(WriteFailed)) && !useTmpFileForPut ==>
              FileContent(fs.stores, storeName, n) == Some(EntriesOf(states[..fs.faults.appendsBeforeFailure.value])))
        && SameOtherFiles(fs.stores, old(fs.stores), storeName, n, target)
        && SameOtherStores(fs.stores, old(fs.stores), storeName)
    {
      var problem := TableArgumentProblem(extension, storeName, tableName);
      if problem.Some? {
        return Fail(IllegalArgument(problem.value));
      }
      var normalizedTableName := NormalizeTableName(extension, tableName);
      var tmpTableName := PutTarget(useTmpFileForPut, extension, tableName);
      PutTargetNotCurrent(useTmpFileForPut, extension, tableName);
      var available := OpenTarget(storeName, tmpTableName);
      if !available {
        return Fail(IOException(CannotCreateTable));
      }
      var written := WriteRecords(storeName, tmpTableName, states);
      if !written {
        return Fail(IOException(WriteFailed));
      }
      if useTmpFileForPut {
        var renamed := fs.Rename(storeName, tmpTableName, normalizedTableName);
        if !renamed {
          return Fail(IOException(RenameFailed));
        }
      }
      return Pass;
    }

    /** put(store, table, state): putAll with the one state. */
    method Put(storeName: string, tableName: string, state: State) returns (r: Outcome<StoreError>)
      requires Valid()
      modifies fs
      ensures Valid()
      ensures TableArgumentProblem(extension, storeName, tableName).Some? ==>
        r == Fail(IllegalArgument(TableArgumentProblem(extension, storeName, tableName).value)) && fs.stores == old(fs.stores)
      ensures TableArgumentProblem(extension, storeName, tableName).None? ==>
        var n := NormalizeTableName(extension, tableName);
        var target := PutTarget(useTmpFileForPut, extension, tableName);
        && (!TargetAvailable(old(fs.stores), storeName, target) ==> r == Fail(IOException(CannotCreateTable)))
        && (TargetAvailable(old(fs.stores), storeName, target) && !WritesAll(1) ==> r == Fail(IOException(WriteFailed)))
        && (TargetAvailable(old(fs.stores), storeName, target) && WritesAll(1) ==>
              r == if useTmpFileForPut && fs.faults.renameFails then Fail(IOException(RenameFailed)) else Pass)
        && (r.Pass? ==> FileContent(fs.stores, storeName, n) == Some([Entry(NullToEmpty(state.id), state)]))
        && (r.Pass? && useTmpFileForPut ==> FileContent(fs.stores, storeName, target).None?)
        && (r.Fail? && useTmpFileForPut ==> FileContent(fs.stores, storeName, n) == FileContent(old(fs.stores), storeName, n))
        && (r == Fail(IOException(WriteFailed)) && !useTmpFileForPut ==> FileContent(fs.stores, storeName, n) == Some([]))
        && SameOtherFiles(fs.stores, old(fs.stores), storeName, n, target)
        && SameOtherStores(fs.stores, old(fs.stores), storeName)
    {
      var problem := TableArgumentProblem(extension, storeName, tableName);
      if problem.Some? {
        return Fail(IllegalArgument(problem.value));
      }
      r := PutAll(storeName, tableName, [state]);
      assert EntriesOf([state]) == [Entry(NullToEmpty(state.id), state)];
    }

    /** delete(store, table): removes the table file if it exists. */
    method Delete(storeName: string, tableName: string) returns (r: Outcome<StoreError>)
      requires Valid()
      modifies fs
      ensures Valid()
      ensures TableArgumentProblem(extension, storeName, tableName).Some? ==>
        r == Fail(IllegalArgument(TableArgumentProblem(extension, storeName, tableName).value)) && fs.stores == old(fs.stores)
      ensures TableArgumentProblem(extension, storeName, tableName).None? ==>
        var n := NormalizeTableName(extension, tableName);
        && r == Pass
        && fs.stores == if FileContent(old(fs.stores), storeName, n).Some?
                        then old(fs.stores)[storeName := RemoveFile(old(fs.stores)[storeName], n)] else old(fs.stores)
    {
      var problem := TableArgumentProblem(extension, storeName, tableName);
      if problem.Some? {
        return Fail(IllegalArgument(problem.value));
      }
      TablePathResolution(fs.stores, extension, storeName, tableName);
      var tablePath := GetTablePath(storeName, tableName);
      if tablePath.Some? && FileContent(fs.stores, storeName, tablePath.value).Some? {
        fs.Delete(storeName, tablePath.value);
      }
      return Pass;
    }

    /** delete(store): removes the store directory and everything in it, if it exists. */
    method DeleteStore(storeName: string) returns (r: Outcome<StoreError>)
      requires Valid()
      modifies fs
      ensures Valid()
      ensures storeName == "" ==> r == Fail(IllegalArgument(EmptyStoreName)) && fs.stores == old(fs.stores)
      ensures storeName != "" ==> r == Pass && fs.stores == old(fs.stores) - {storeName}
    {
      if storeName == "" {
        return Fail(IllegalArgument(EmptyStoreName));
      }
      if storeName in fs.stores {
        fs.DeleteStore(storeName);
      } else {
        assert fs.stores - {storeName} == fs.stores;
      }
      return Pass;
    }
  }

  /** A putAll that succeeds is read back unchanged by getAll, and get(id) finds the first state with that id. */
  method PutAllThenRead(store: FsStateStore, storeName: string, tableName: string, states: seq<State>, id: string)
    returns (put: Outcome<StoreError>, all: Result<seq<State>, StoreError>, one: Result<Option<State>, StoreError>)
    requires store.Valid()
    requires TableArgumentProblem(store.extension, storeName, tableName).None? && id != ""
    modifies store.fs
    ensures store.Valid()
    ensures put.Pass? ==> all == Ok(states) && one == Ok(FirstWithId(states, id))
  {
    put := store.PutAll(storeName, tableName, states);
    all := store.GetAll(storeName, tableName);
    one := store.Get(storeName, tableName, id);
    if put.Pass? {
      ReadBackWrittenTable(store.fs.stores, store.extension, storeName, tableName, states, id);
    }
  }

  /** After delete(store, table), exists(store, table) is false. */
  method DeleteThenExists(store: FsStateStore, storeName: string, tableName: string)
    returns (deleted: Outcome<StoreError>, found: Result<bool, StoreError>)
    requires store.Valid()
    requires TableArgumentProblem(store.extension, storeName, tableName).None?
    modifies store.fs
    ensures store.Valid()
    ensures deleted == Pass && found == Ok(false)
  {
    deleted := store.Delete(storeName, tableName);
    found := store.Exists(storeName, tableName);
    DeletedTableIsAbsent(store.fs.stores, store.extension, storeName, tableName);
  }
}
