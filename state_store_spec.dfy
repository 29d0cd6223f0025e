/**
 * The pure part of FsStateStore: how a table name is normalised and parsed, how a "current" name is
 * resolved to the latest table of its family, and what a read returns, as functions of a snapshot
 * of the file system (a map from store name to directory).
 */
module StateStoreSpec {
  import opened Wrappers
  import opened JavaLang
  import opened HadoopFs

  const TmpFilePrefix: string := "_tmp_"
  const CurrentFileName: string := "current"
  const TablePrefixSeparator: char := '-'

  /** What a table name says about itself: the family prefix, and whether it names the current table. */
  datatype TableInfo = TableInfo(prefix: string, isCurrent: bool)

  /** normalizeExtension: the shortest string starting with "." that ends with the given extension. */
  function NormalizeExtension(extension: string): (r: string)
    ensures StartsWith(r, ".") && EndsWith(r, extension)
    ensures |r| <= |extension| + 1
  {
    if StartsWith(extension, ".") then extension else "." + extension
  }

  /** normalizeTableName: the table name followed by the extension, unless it ends with it already. */
  function NormalizeTableName(ext: string, tableName: string): (r: string)
    ensures EndsWith(r, ext) && StartsWith(r, tableName)
    ensures |r| <= |tableName| + |ext|
    ensures EndsWith(tableName, ext) ==> r == tableName
  {
    if EndsWith(tableName, ext) then tableName else tableName + ext
  }

  lemma NormalizeExtensionIdempotent(extension: string)
    ensures NormalizeExtension(NormalizeExtension(extension)) == NormalizeExtension(extension)
  {
  }

  lemma NormalizeTableNameIdempotent(ext: string, tableName: string)
    ensures NormalizeTableName(ext, NormalizeTableName(ext, tableName)) == NormalizeTableName(ext, tableName)
  {
  }

  /** The table name with one trailing extension removed, as getTableInfo does first. */
  function StripExtension(ext: string, tableName: string): string {
    if EndsWith(tableName, ext) then tableName[..|tableName| - |ext|] else tableName
  }

  /** "current" is spelt in lower-case ASCII letters: it holds no "-", ".", or "_". */
  lemma CurrentFileNameIsLowerCase()
    ensures forall i :: 0 <= i < |CurrentFileName| ==> 'a' <= CurrentFileName[i] <= 'z'
  {
    assert CurrentFileName == ['c', 'u', 'r', 'r', 'e', 'n', 't'];
  }

  /** A name whose position i holds a character that cannot fold to a lower-case letter is not "current". */
  lemma NotCurrentAt(name: string, i: nat)
    requires i < |name| && !('a' <= name[i] <= 'z') && !('A' <= name[i] <= 'Z')
    ensures !EqualsIgnoreCase(CurrentFileName, name)
  {
    CurrentFileNameIsLowerCase();
    if |name| == |CurrentFileName| {
      assert ToLowerAscii(name[i]) != ToLowerAscii(CurrentFileName[i]);
    }
  }

  /**
   * getTableInfo after the extension is stripped: a name is current when it is "current", or when
   * the text after its last "-" is; the prefix is the text before that "-".
   */
  function NameInfo(name: string): TableInfo {
    if EqualsIgnoreCase(CurrentFileName, name) then TableInfo("", true)
    else
      var suffixIndex := LastIndexOf(name, TablePrefixSeparator);
      if suffixIndex >= 0 then
        var prefix := if suffixIndex > 0 then name[..suffixIndex] else "";
        var suffix := if suffixIndex < |name| - 1 then name[suffixIndex + 1..] else "";
        TableInfo(prefix, EqualsIgnoreCase(CurrentFileName, suffix))
      else
        TableInfo("", false)
  }

  /** "current" in any case is current, with an empty prefix. */
  lemma NameInfoOfCurrent(name: string)
    requires EqualsIgnoreCase(name, CurrentFileName)
    ensures NameInfo(name) == TableInfo("", true)
  {
    EqualsIgnoreCaseSymmetric(CurrentFileName, name);
  }

  /** A name without "-" that is not "current" is not current, with an empty prefix. */
  lemma NameInfoWithoutSeparator(name: string)
    requires !EqualsIgnoreCase(name, CurrentFileName)
    requires forall j :: 0 <= j < |name| ==> name[j] != TablePrefixSeparator
    ensures NameInfo(name) == TableInfo("", false)
  {
    EqualsIgnoreCaseSymmetric(CurrentFileName, name);
    LastIndexOfAbsent(name, TablePrefixSeparator);
  }

  /**
   * A name whose last "-" is at k has the text before it as its prefix, and is current exactly when
   * the text after it is "current" in any case.
   */
  lemma NameInfoAtLastSeparator(name: string, k: nat)
    requires k < |name| && name[k] == TablePrefixSeparator
    requires forall j :: k < j < |name| ==> name[j] != TablePrefixSeparator
    ensures NameInfo(name) == TableInfo(name[..k], EqualsIgnoreCase(name[k + 1..], CurrentFileName))
  {
    NotCurrentAt(name, k);
    LastIndexOfAt(name, TablePrefixSeparator, k);
    EqualsIgnoreCaseSymmetric(CurrentFileName, name[k + 1..]);
  }

  /** getTableInfo: the information of the table name with one trailing extension stripped. */
  function GetTableInfo(ext: string, tableName: string): TableInfo
    requires tableName != ""
  {
    NameInfo(StripExtension(ext, tableName))
  }

  /** isCurrentFile. */
  predicate IsCurrentFile(ext: string, tableName: string)
    requires tableName != ""
  {
    GetTableInfo(ext, tableName).isCurrent
  }

  /** The last occurrence of c in p + s lies in s when c occurs in s, and otherwise in p. */
  lemma {:induction false} LastIndexOfConcat(p: string, s: string, c: char)
    ensures LastIndexOf(p + s, c) == if c in s then |p| + LastIndexOf(s, c) else LastIndexOf(p, c)
  {
    if |s| == 0 {
      assert p + s == p;
    } else if s[|s| - 1] != c {
      assert (p + s)[..|p + s| - 1] == p + s[..|s| - 1];
      LastIndexOfConcat(p, s[..|s| - 1], c);
      assert s == s[..|s| - 1] + [s[|s| - 1]];
    }
  }

  /** A name of the form prefix-version.ext parses to its prefix, and is current iff the version is "current". */
  lemma ParseVersionedName(ext: string, prefix: string, version: string)
    requires TablePrefixSeparator !in version
    ensures GetTableInfo(ext, prefix + "-" + version + ext)
         == TableInfo(prefix, EqualsIgnoreCase(version, CurrentFileName))
  {
    var t := prefix + "-" + version + ext;
    var name := prefix + "-" + version;
    assert t[|t| - |ext|..] == ext;
    assert StripExtension(ext, t) == name;
    assert name[|prefix|] == TablePrefixSeparator;
    NotCurrentAt(name, |prefix|);
    assert name == prefix + ("-" + version);
    LastIndexOfConcat("-", version, TablePrefixSeparator);
    LastIndexOfConcat(prefix, "-" + version, TablePrefixSeparator);
    assert name[|prefix| + 1..] == version;
  }

  /** Prefixing "_tmp_" to a name that is not current gives a name that is not current. */
  lemma TmpNameNotCurrent(name: string)
    requires !NameInfo(name).isCurrent
    ensures !NameInfo(TmpFilePrefix + name).isCurrent
  {
    var t := TmpFilePrefix + name;
    var k := LastIndexOf(name, TablePrefixSeparator);
    LastIndexOfMeaning(name, TablePrefixSeparator);
    if k >= 0 {
      NameInfoAtLastSeparator(name, k);
      assert t[|TmpFilePrefix| + k + 1..] == name[k + 1..];
      NameInfoAtLastSeparator(t, |TmpFilePrefix| + k);
    } else {
      NotCurrentAt(t, 0);
      EqualsIgnoreCaseSymmetric(CurrentFileName, t);
      assert TmpFilePrefix == ['_', 't', 'm', 'p', '_'];
      NameInfoWithoutSeparator(t);
    }
  }

  /** Stripping the extension of a normalised name gives the same name as stripping it from the original. */
  lemma StripNormalized(ext: string, tableName: string)
    ensures StripExtension(ext, NormalizeTableName(ext, tableName)) == StripExtension(ext, tableName)
  {
    if !EndsWith(tableName, ext) {
      var n := tableName + ext;
      assert n[|n| - |ext|..] == ext;
      assert n[..|n| - |ext|] == tableName;
    }
  }

  /** The name putAll first writes to: the tmp sibling of the normalised table, or the table itself. */
  function PutTarget(useTmpFileForPut: bool, ext: string, tableName: string): (r: string)
    requires tableName != ""
    ensures r != "" && EndsWith(r, ext)
    ensures r != NormalizeTableName(ext, tableName) <==> useTmpFileForPut
  {
    var normalized := NormalizeTableName(ext, tableName);
    if useTmpFileForPut then TmpFilePrefix + normalized else normalized
  }

  /**
   * putAll creates its target through create(store, target), which rejects current names; a table
   * name that is not current never yields a current target, so that check never fires.
   */
  lemma PutTargetNotCurrent(useTmpFileForPut: bool, ext: string, tableName: string)
    requires tableName != "" && !IsCurrentFile(ext, tableName)
    ensures !IsCurrentFile(ext, PutTarget(useTmpFileForPut, ext, tableName))
    ensures NormalizeTableName(ext, PutTarget(useTmpFileForPut, ext, tableName)) == PutTarget(useTmpFileForPut, ext, tableName)
  {
    var normalized := NormalizeTableName(ext, tableName);
    StripNormalized(ext, tableName);
    if useTmpFileForPut {
      var t := TmpFilePrefix + normalized;
      assert t[|t| - |ext|..] == normalized[|normalized| - |ext|..];
      assert StripExtension(ext, t) == TmpFilePrefix + StripExtension(ext, normalized);
      TmpNameNotCurrent(StripExtension(ext, normalized));
    }
  }

  /** The file names that listStatus keeps when looking for the latest table of a family. */
  predicate Accepts(prefix: string, ext: string, name: string) {
    (prefix == "" || StartsWith(name, prefix + "-")) && EndsWith(name, ext)
  }

  /** The listing filtered by Accepts, in listing order. */
  function Candidates(listing: seq<string>, prefix: string, ext: string): seq<string> {
    if |listing| == 0 then []
    else
      var rest := Candidates(listing[..|listing| - 1], prefix, ext);
      var last := listing[|listing| - 1];
      if Accepts(prefix, ext, last) then rest + [last] else rest
  }

  /** The candidates are exactly the accepted names of the listing. */
  lemma {:induction false} CandidatesMembership(listing: seq<string>, prefix: string, ext: string)
    ensures forall n :: n in Candidates(listing, prefix, ext) <==> n in listing && Accepts(prefix, ext, n)
  {
    if |listing| > 0 {
      CandidatesMembership(listing[..|listing| - 1], prefix, ext);
      assert listing == listing[..|listing| - 1] + [listing[|listing| - 1]];
    }
  }

  /** The name the selection loop ends with: it moves to a later name only when that name sorts strictly after it. */
  function MaxName(names: seq<string>): Option<string> {
    if |names| == 0 then None
    else
      var latest := MaxName(names[..|names| - 1]);
      var name := names[|names| - 1];
      if latest.None? || CompareTo(name, latest.value) > 0 then Some(name) else latest
  }

  /** The selection loop finds a greatest name, and finds one whenever there is a name. */
  lemma {:induction false} MaxNameIsGreatest(names: seq<string>)
    ensures MaxName(names).None? <==> |names| == 0
    ensures MaxName(names).Some? ==>
      MaxName(names).value in names && forall n :: n in names ==> CompareTo(n, MaxName(names).value) <= 0
  {
    if |names| > 0 {
      var init := names[..|names| - 1];
      var name := names[|names| - 1];
      assert names == init + [name];
      MaxNameIsGreatest(init);
      var latest := MaxName(init);
      var m := MaxName(names).value;
      CompareToZero(m, m);
      forall n | n in names
        ensures CompareTo(n, m) <= 0
      {
        if n in init && latest.Some? && m == name && CompareTo(n, m) > 0 {
          CompareToTransitive(n, name, latest.value);
        }
      }
    }
  }

  /** getLatestStateFilePath: the greatest accepted name in the store's listing, or None. */
  function LatestStateFile(stores: map<string, Directory>, ext: string, store: string, prefix: string): Option<string> {
    if store !in stores then None else MaxName(Candidates(stores[store].listing, prefix, ext))
  }

  /**
   * The latest table of a family is the lexicographically greatest listed name that starts with
   * prefix + "-" (any name when the prefix is empty) and ends with the extension; there is none
   * when the store is absent or no name qualifies.
   */
  lemma LatestIsGreatestCandidate(stores: map<string, Directory>, ext: string, store: string, prefix: string)
    ensures var r := LatestStateFile(stores, ext, store, prefix);
      && (r.None? <==> store !in stores || forall n :: n in stores[store].listing ==> !Accepts(prefix, ext, n))
      && (r.Some? ==>
            && store in stores && r.value in stores[store].listing && Accepts(prefix, ext, r.value)
            && forall n :: n in stores[store].listing && Accepts(prefix, ext, n) ==> CompareTo(n, r.value) <= 0)
  {
    if store in stores {
      var c := Candidates(stores[store].listing, prefix, ext);
      CandidatesMembership(stores[store].listing, prefix, ext);
      MaxNameIsGreatest(c);
      if |c| > 0 {
        assert c[0] in c;
      }
    }
  }

  /** getTablePath: the latest table of the family for a current name, otherwise the normalised name. */
  function TablePath(stores: map<string, Directory>, ext: string, store: string, tableName: string): Option<string>
    requires tableName != ""
  {
    var info := GetTableInfo(ext, tableName);
    if info.isCurrent then LatestStateFile(stores, ext, store, info.prefix)
    else Some(NormalizeTableName(ext, tableName))
  }

  /** A name that is not current resolves to itself, normalised; "current" resolves to the latest table of any family. */
  lemma TablePathResolution(stores: map<string, Directory>, ext: string, store: string, tableName: string)
    requires StartsWith(ext, ".") && tableName != ""
    ensures !IsCurrentFile(ext, tableName) ==> TablePath(stores, ext, store, tableName) == Some(NormalizeTableName(ext, tableName))
    ensures TablePath(stores, ext, store, CurrentFileName) == LatestStateFile(stores, ext, store, "")
  {
    CurrentFileNameIsLowerCase();
    if |ext| <= |CurrentFileName| {
      assert CurrentFileName[|CurrentFileName| - |ext|..][0] != ext[0];
    }
    assert EqualsIgnoreCase(CurrentFileName, CurrentFileName);
  }

  /** The table a resolved name stands for, if that file exists. */
  function TableAt(stores: map<string, Directory>, store: string, path: Option<string>): Option<Table> {
    if path.Some? then FileContent(stores, store, path.value) else None
  }

  /** Strings.nullToEmpty. */
  function NullToEmpty(s: Option<string>): string {
    if s.Some? then s.value else ""
  }

  /** The records putAll writes for the given states, in iteration order. */
  function EntriesOf(states: seq<State>): (r: Table)
    ensures |r| == |states|
  {
    seq(|states|, i requires 0 <= i < |states| => Entry(NullToEmpty(states[i].id), states[i]))
  }

  lemma EntriesOfSnoc(states: seq<State>, i: nat)
    requires i < |states|
    ensures EntriesOf(states[..i + 1]) == EntriesOf(states[..i]) + [Entry(NullToEmpty(states[i].id), states[i])]
  {
    assert states[..i + 1][..i] == states[..i];
  }

  /** The states of a table, in file order. */
  function StatesOf(t: Table): seq<State> {
    seq(|t|, i requires 0 <= i < |t| => t[i].state)
  }

  /** The index of the first record whose key is id, or -1 when no record has that key. */
  function FirstIndexOfKey(t: Table, id: string): (r: int)
    ensures -1 <= r < |t|
    ensures r == -1 <==> forall i :: 0 <= i < |t| ==> t[i].key != id
    ensures 0 <= r ==> t[r].key == id && forall i :: 0 <= i < r ==> t[i].key != id
  {
    if |t| == 0 then -1
    else if t[0].key == id then 0
    else
      var r := FirstIndexOfKey(t[1..], id);
      if r < 0 then -1 else r + 1
  }

  /** The state of the first record whose key is id, if any. */
  function StateWithKey(t: Table, id: string): Option<State> {
    var k := FirstIndexOfKey(t, id);
    if k < 0 then None else Some(t[k].state)
  }

  /** get: the first state stored under the given id in the resolved table, or None. */
  function GetSpec(stores: map<string, Directory>, ext: string, store: string, tableName: string, id: string): Option<State>
    requires tableName != ""
  {
    match TableAt(stores, store, TablePath(stores, ext, store, tableName))
    case None => None
    case Some(t) => StateWithKey(t, id)
  }

  /** getAll(store, table): every state of the resolved table in on-disk order, or nothing. */
  function GetAllSpec(stores: map<string, Directory>, ext: string, store: string, tableName: string): seq<State>
    requires tableName != ""
  {
    match TableAt(stores, store, TablePath(stores, ext, store, tableName))
    case None => []
    case Some(t) => StatesOf(t)
  }

  /** The per-file results of getAll(store, name) for the given names, concatenated in order. */
  function ReadEach(stores: map<string, Directory>, ext: string, store: string, names: seq<string>): seq<State>
    requires "" !in names
  {
    if |names| == 0 then []
    else ReadEach(stores, ext, store, names[..|names| - 1]) + GetAllSpec(stores, ext, store, names[|names| - 1])
  }

  /** getAll(store): every file of the listing read through getAll(store, name), in listing order. */
  function GetAllInStoreSpec(stores: map<string, Directory>, ext: string, store: string): seq<State>
    requires store in stores ==> "" !in stores[store].listing
  {
    if store !in stores then [] else ReadEach(stores, ext, store, stores[store].listing)
  }

  /** Reading a store that does not exist finds nothing and is not an error. */
  lemma AbsentStoreReadsNothing(stores: map<string, Directory>, ext: string, store: string, tableName: string, id: string)
    requires store !in stores && tableName != ""
    ensures GetSpec(stores, ext, store, tableName, id) == None
    ensures GetAllSpec(stores, ext, store, tableName) == []
    ensures GetAllInStoreSpec(stores, ext, store) == []
  {
  }

  /** The first state of a sequence whose (null-to-empty) id is the given id: an independent reference for get. */
  function FirstWithId(states: seq<State>, id: string): Option<State> {
    if |states| == 0 then None
    else if NullToEmpty(states[0].id) == id then Some(states[0])
    else FirstWithId(states[1..], id)
  }

  lemma {:induction false} FirstIndexOfWrittenKey(states: seq<State>, id: string)
    ensures StateWithKey(EntriesOf(states), id) == FirstWithId(states, id)
  {
    if |states| > 0 {
      FirstIndexOfWrittenKey(states[1..], id);
      var e := EntriesOf(states);
      var e' := EntriesOf(states[1..]);
      assert e[1..] == e';
    }
  }

  /**
   * Round trip: once a non-current table holds what putAll wrote for some states, getAll returns
   * exactly those states in order, and get(id) returns the first of them whose id is id.
   */
  lemma ReadBackWrittenTable(stores: map<string, Directory>, ext: string, store: string, tableName: string,
                             states: seq<State>, id: string)
    requires StartsWith(ext, ".") && tableName != "" && !IsCurrentFile(ext, tableName)
    requires FileContent(stores, store, NormalizeTableName(ext, tableName)) == Some(EntriesOf(states))
    ensures GetAllSpec(stores, ext, store, tableName) == states
    ensures GetSpec(stores, ext, store, tableName, id) == FirstWithId(states, id)
  {
    TablePathResolution(stores, ext, store, tableName);
    assert StatesOf(EntriesOf(states)) == states;
    FirstIndexOfWrittenKey(states, id);
  }

  /** After the normalised file of a non-current table is gone, exists reports false and reads find nothing. */
  lemma DeletedTableIsAbsent(stores: map<string, Directory>, ext: string, store: string, tableName: string)
    requires StartsWith(ext, ".") && tableName != "" && !IsCurrentFile(ext, tableName)
    requires FileContent(stores, store, NormalizeTableName(ext, tableName)).None?
    ensures TableAt(stores, store, TablePath(stores, ext, store, tableName)).None?
    ensures GetAllSpec(stores, ext, store, tableName) == []
  {
    TablePathResolution(stores, ext, store, tableName);
  }

  /**
   * With an empty prefix every file ending with the extension competes for "current", including a
   * tmp file left behind by a failed put: here "_tmp_Job-2.state" wins over "Job-1.state",
   * because '_' sorts after 'J'.
   */
  lemma TmpFileCanBeCurrent()
    ensures var stores := map["s" := Directory(["Job-1.state", "_tmp_Job-2.state"],
                                               map["Job-1.state" := [], "_tmp_Job-2.state" := []])];
      TablePath(stores, ".state", "s", CurrentFileName) == Some("_tmp_Job-2.state")
  {
    var stores := map["s" := Directory(["Job-1.state", "_tmp_Job-2.state"],
                                       map["Job-1.state" := [], "_tmp_Job-2.state" := []])];
    TablePathResolution(stores, ".state", "s", "x");
    var l := stores["s"].listing;
    assert EndsWith("Job-1.state", ".state") by {
      assert "Job-1.state"[|"Job-1.state"| - 6..] == ".state";
    }
    assert EndsWith("_tmp_Job-2.state", ".state") by {
      assert "_tmp_Job-2.state"[|"_tmp_Job-2.state"| - 6..] == ".state";
    }
    assert l[..1] == ["Job-1.state"] && l[..1][..0] == [];
    assert Candidates(l[..1][..0], "", ".state") == [];
    assert Candidates(l[..1], "", ".state") == ["Job-1.state"];
    assert Candidates(l, "", ".state") == ["Job-1.state", "_tmp_Job-2.state"];
    var c := ["Job-1.state", "_tmp_Job-2.state"];
    assert c[..1] == ["Job-1.state"] && c[..1][..0] == [];
    assert MaxName(c[..1]) == Some("Job-1.state");
    assert CompareTo("_tmp_Job-2.state", "Job-1.state") > 0;
    assert MaxName(c) == Some("_tmp_Job-2.state");
  }
}
