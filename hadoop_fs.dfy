/**
 * The part of a Hadoop FileSystem that the state store uses, as an abstract tree: each store is a
 * directory holding files, and each file is a SequenceFile of (key, state) pairs. Failures of the
 * underlying storage are not random here: the file system is built with the faults it exhibits.
 */
module HadoopFs {
  import opened Wrappers
  import opened Sequences

  /** A Gobblin State: an id that may be unset, and its properties (the serialized payload). */
  datatype State = State(id: Option<string>, properties: map<string, string>)

  /** One (Text key, State value) record of a SequenceFile. */
  datatype Entry = Entry(key: string, state: State)

  type Table = seq<Entry>

  /** A directory: the order in which listStatus returns its files, and their contents. */
  datatype Directory = Directory(listing: seq<string>, files: map<string, Table>) {
    ghost predicate WellFormed() {
      && Distinct(listing)
      && (forall n :: n in listing <==> n in files)
      && "" !in files
    }
  }

  const EmptyDirectory := Directory([], map[])

  /** The directory with file n set to t; a new file goes to the end of the listing. */
  function PutFile(d: Directory, n: string, t: Table): (r: Directory)
    requires d.WellFormed() && n != ""
    ensures r.WellFormed()
    ensures r.files == d.files[n := t]
  {
    Directory(if n in d.files then d.listing else d.listing + [n], d.files[n := t])
  }

  /** The directory without file n. */
  function RemoveFile(d: Directory, n: string): (r: Directory)
    requires d.WellFormed()
    ensures r.WellFormed()
    ensures r.files == d.files - {n}
  {
    Directory(Without(d.listing, n), d.files - {n})
  }

  /** The content of file n of store s, or None when the store or the file is absent. */
  function FileContent(stores: map<string, Directory>, s: string, n: string): Option<Table> {
    if s in stores && n in stores[s].files then Some(stores[s].files[n]) else None
  }

  /** Every store other than the given one is the same in both snapshots. */
  ghost predicate SameOtherStores(a: map<string, Directory>, b: map<string, Directory>, store: string) {
    forall s :: s != store ==> (s in a <==> s in b) && (s in a ==> a[s] == b[s])
  }

  /** The files of the given store other than the named ones are the same in both snapshots. */
  ghost predicate SameOtherFiles(a: map<string, Directory>, b: map<string, Directory>, store: string, n1: string, n2: string) {
    forall m :: m != n1 && m != n2 ==> FileContent(a, store, m) == FileContent(b, store, m)
  }

  /** Two steps that each keep the other stores and files keep them together. */
  lemma FramesCompose(a: map<string, Directory>, b: map<string, Directory>, c: map<string, Directory>,
                      s: string, n1: string, n2: string)
    requires SameOtherStores(a, b, s) && SameOtherStores(b, c, s)
    requires SameOtherFiles(a, b, s, n1, n2) && SameOtherFiles(b, c, s, n1, n2)
    ensures SameOtherStores(a, c, s) && SameOtherFiles(a, c, s, n1, n2)
  {
  }

  /** The failures this file system exhibits. */
  datatype Faults = Faults(
    mkdirsFails: bool,                // mkdirs returns false
    createNewFileFails: bool,         // createNewFile returns false
    appendsBeforeFailure: Option<nat>, // a writer throws on the append after this many records
    renameFails: bool)                // rename throws

  const NoFaults := Faults(false, false, None, false)

  class FileSystem {
    var stores: map<string, Directory>
    const faults: Faults

    ghost predicate Valid()
      reads this
    {
      forall s :: s in stores ==> stores[s].WellFormed()
    }

    constructor (faults: Faults)
      ensures Valid() && stores == map[] && this.faults == faults
    {
      stores := map[];
      this.faults := faults;
    }

    function DirectoryOrEmpty(s: string): Directory
      reads this
    {
      if s in stores then stores[s] else EmptyDirectory
    }

    /** mkdirs on a store directory. */
    method Mkdirs(s: string) returns (ok: bool)
      requires Valid()
      modifies this
      ensures Valid()
      ensures ok == !faults.mkdirsFails
      ensures stores == if ok && s !in old(stores) then old(stores)[s := EmptyDirectory] else old(stores)
    {
      ok := !faults.mkdirsFails;
      if ok && s !in stores {
        stores := stores[s := EmptyDirectory];
      }
    }

    /** createNewFile: makes an empty file, and its parent directory, if the file is absent. */
    method CreateNewFile(s: string, n: string) returns (ok: bool)
      requires Valid() && n != ""
      modifies this
      ensures Valid()
      ensures ok == (!faults.createNewFileFails && FileContent(old(stores), s, n).None?)
      ensures stores == if ok then old(stores)[s := PutFile(old(DirectoryOrEmpty(s)), n, [])] else old(stores)
      ensures ok ==> FileContent(stores, s, n) == Some([])
      ensures SameOtherStores(stores, old(stores), s) && SameOtherFiles(stores, old(stores), s, n, n)
    {
      ok := !faults.createNewFileFails && FileContent(stores, s, n).None?;
      if ok {
        stores := stores[s := PutFile(DirectoryOrEmpty(s), n, [])];
      }
    }

    /** Opening a SequenceFile writer: the file is created, or truncated if it exists. */
    method CreateWriter(s: string, n: string)
      requires Valid() && n != ""
      modifies this
      ensures Valid()
      ensures stores == old(stores)[s := PutFile(old(DirectoryOrEmpty(s)), n, [])]
      ensures FileContent(stores, s, n) == Some([])
      ensures SameOtherStores(stores, old(stores), s) && SameOtherFiles(stores, old(stores), s, n, n)
    {
      stores := stores[s := PutFile(DirectoryOrEmpty(s), n, [])];
    }

    /** Writer.append of one record to the end of file n. */
    method Append(s: string, n: string, e: Entry) returns (ok: bool)
      requires Valid() && n != "" && FileContent(stores, s, n).Some?
      modifies this
      ensures Valid()
      ensures ok == !(faults.appendsBeforeFailure.Some?
                      && |old(stores)[s].files[n]| >= faults.appendsBeforeFailure.value)
      ensures stores == if ok then old(stores)[s := PutFile(old(stores)[s], n, old(stores)[s].files[n] + [e])]
                        else old(stores)
      ensures FileContent(stores, s, n) == Some(if ok then old(stores)[s].files[n] + [e] else old(stores)[s].files[n])
      ensures SameOtherStores(stores, old(stores), s) && SameOtherFiles(stores, old(stores), s, n, n)
    {
      ok := !(faults.appendsBeforeFailure.Some? && |stores[s].files[n]| >= faults.appendsBeforeFailure.value);
      if ok {
        stores := stores[s := PutFile(stores[s], n, stores[s].files[n] + [e])];
      }
    }

    /** Renaming file src to dst within store s; a successful rename replaces dst. */
    method Rename(s: string, src: string, dst: string) returns (ok: bool)
      requires Valid() && FileContent(stores, s, src).Some? && dst != "" && src != dst
      modifies this
      ensures Valid()
      ensures ok == !faults.renameFails
      ensures stores == if ok then old(stores)[s := PutFile(RemoveFile(old(stores)[s], src), dst, old(stores)[s].files[src])]
                        else old(stores)
      ensures ok ==> FileContent(stores, s, dst) == Some(old(stores)[s].files[src]) && FileContent(stores, s, src).None?
      ensures SameOtherStores(stores, old(stores), s) && SameOtherFiles(stores, old(stores), s, src, dst)
    {
      ok := !faults.renameFails;
      if ok {
        stores := stores[s := PutFile(RemoveFile(stores[s], src), dst, stores[s].files[src])];
      }
    }

    /** delete(path, false) on a file. */
    method Delete(s: string, n: string)
      requires Valid()
      modifies this
      ensures Valid()
      ensures stores == if s in old(stores) then old(stores)[s := RemoveFile(old(stores)[s], n)] else old(stores)
    {
      if s in stores {
        stores := stores[s := RemoveFile(stores[s], n)];
      }
    }

    /** delete(path, true) on a store directory. */
    method DeleteStore(s: string)
      requires Valid()
      modifies this
      ensures Valid()
      ensures stores == old(stores) - {s}
    {
      stores := stores - {s};
    }
  }
}
