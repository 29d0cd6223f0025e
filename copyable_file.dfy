/**
 * CopyableFile and its Builder: a file to copy from an origin file system to a destination path,
 * with the owner, group and permission the copy and its ancestor directories should get. build()
 * fills every field left unset from the origin file and the copy configuration.
 */
module Copy {
  import opened Wrappers

  /** The attributes a copy may preserve that build() consults. */
  datatype PreserveOption = Owner | Group | Permission

  /** PreserveAttributes: the preserved options; preserve(o) is membership. */
  type PreserveAttributes = set<PreserveOption>

  /** An FsPermission, by its mode bits. */
  datatype FsPermission = FsPermission(mode: nat)

  /** What a copied path should be owned by and permitted as; None stands for null. */
  datatype OwnerAndPermission = OwnerAndPermission(owner: Option<string>, group: Option<string>, fsPermission: Option<FsPermission>)

  /** A Hadoop Path: an optional scheme and authority, and a rooted or relative sequence of names. */
  datatype Path = Path(scheme: Option<string>, authority: Option<string>, isAbsolute: bool, names: seq<string>)

  /** The FileStatus of the origin file. */
  datatype FileStatus = FileStatus(path: Path, owner: string, group: string, permission: FsPermission, modificationTime: int)

  /**
   * The origin file system as build() reads it: the owner, group and permission of each directory,
   * as getFileStatus returns them through the copy context's cache, and the result of
   * getFileChecksum for each file, None standing for null. A path missing from a map throws.
   */
  datatype OriginFileSystem = OriginFileSystem(
    directories: map<seq<string>, OwnerAndPermission>,
    checksums: map<seq<string>, Option<seq<bv8>>>)

  /** The part of the CopyConfiguration that builders read. */
  datatype CopyConfiguration = CopyConfiguration(preserve: PreserveAttributes, targetGroup: Option<string>)

  /** The IOExceptions build() throws. */
  datatype CopyError =
    | DestinationNotAbsolute(destination: Path)
    | AncestorStatusFailed(directory: seq<string>)
    | ChecksumFailed(file: seq<string>)

  /** A built CopyableFile. */
  datatype CopyableFile = CopyableFile(
    origin: FileStatus,
    destination: Path,
    destinationOwnerAndPermission: OwnerAndPermission,
    ancestorsOwnerAndPermission: seq<OwnerAndPermission>,
    checksum: seq<bv8>,
    preserve: PreserveAttributes,
    fileSet: string,
    originTimestamp: int,
    upstreamTimestamp: int,
    additionalMetadata: Option<map<string, string>>)
  {
    /** getFileStatus: the status of the origin file. */
    function GetFileStatus(): FileStatus {
      origin
    }
  }

  /** The owner, group and permission that FileStatus reports for the origin file. */
  function StatusOwnerAndPermission(status: FileStatus): OwnerAndPermission {
    OwnerAndPermission(Some(status.owner), Some(status.group), Some(status.permission))
  }

  /**
   * The group a copy gets: the source's when GROUP is preserved, otherwise the configured target
   * group, otherwise null.
   */
  function ChosenGroup(preserve: PreserveAttributes, sourceGroup: Option<string>, targetGroup: Option<string>): Option<string> {
    if Group in preserve then sourceGroup
    else if targetGroup.Some? then Some(targetGroup.value)
    else None
  }

  /**
   * The owner, group and permission of a copy of something owned and permitted as source: each
   * attribute is kept when it is preserved, and otherwise left null, except the group as above.
   */
  function Replicated(source: OwnerAndPermission, preserve: PreserveAttributes, targetGroup: Option<string>): OwnerAndPermission {
    OwnerAndPermission(
      if Owner in preserve then source.owner else None,
      ChosenGroup(preserve, source.group, targetGroup),
      if Permission in preserve then source.fsPermission else None)
  }

  /** Preserving every attribute copies them as they are. */
  lemma ReplicatedKeepsAll(source: OwnerAndPermission, targetGroup: Option<string>)
    ensures Replicated(source, {Owner, Group, Permission}, targetGroup) == source
  {
  }

  /** Preserving nothing leaves only the target group. */
  lemma ReplicatedKeepsNothing(source: OwnerAndPermission, targetGroup: Option<string>)
    ensures Replicated(source, {}, targetGroup) == OwnerAndPermission(None, targetGroup, None)
  {
  }

  /**
   * What replicateOwnerAndPermission computes for a path with the given names: one entry per
   * ancestor directory, deepest first down to the root, each replicated from the directory's own
   * owner and permission; the deepest ancestor whose status cannot be read makes it throw.
   */
  function AncestorEntries(fs: OriginFileSystem, names: seq<string>, preserve: PreserveAttributes, targetGroup: Option<string>)
    : Result<seq<OwnerAndPermission>, CopyError>
  {
    if |names| == 0 then Ok([])
    else
      var parent := names[..|names| - 1];
      if parent !in fs.directories then Err(AncestorStatusFailed(parent))
      else
        match AncestorEntries(fs, parent, preserve, targetGroup)
        case Err(e) => Err(e)
        case Ok(rest) => Ok([Replicated(fs.directories[parent], preserve, targetGroup)] + rest)
  }

  /**
   * The ancestor entries exist exactly when every ancestor's status can be read; then there is one
   * per ancestor, and entry k belongs to the ancestor k + 1 levels up, whose names are the first
   * |names| - 1 - k names of the path.
   */
  lemma {:induction false} AncestorEntriesMeaning(fs: OriginFileSystem, names: seq<string>, preserve: PreserveAttributes,
                                                   targetGroup: Option<string>)
    ensures var r := AncestorEntries(fs, names, preserve, targetGroup);
      && (r.Ok? <==> forall k :: 0 <= k < |names| ==> names[..k] in fs.directories)
      && (r.Ok? ==>
            && |r.value| == |names|
            && forall k :: 0 <= k < |names| ==>
                 r.value[k] == Replicated(fs.directories[names[..|names| - 1 - k]], preserve, targetGroup))
  {
    if |names| > 0 {
      var parent := names[..|names| - 1];
      AncestorEntriesMeaning(fs, parent, preserve, targetGroup);
      assert forall k :: 0 <= k < |parent| ==> parent[..k] == names[..k];
      var r := AncestorEntries(fs, names, preserve, targetGroup);
      if r.Ok? {
        var rest := AncestorEntries(fs, parent, preserve, targetGroup).value;
        forall k | 0 <= k < |names|
          ensures r.value[k] == Replicated(fs.directories[names[..|names| - 1 - k]], preserve, targetGroup)
        {
          if k > 0 {
            assert r.value[k] == rest[k - 1];
            assert parent[..|parent| - 1 - (k - 1)] == names[..|names| - 1 - k];
          }
        }
      }
    }
  }

  /** The prefix entries put before the rest of a result, when there is a rest. */
  function Prefixed(entries: seq<OwnerAndPermission>, rest: Result<seq<OwnerAndPermission>, CopyError>)
    : Result<seq<OwnerAndPermission>, CopyError>
  {
    match rest
    case Ok(more) => Ok(entries + more)
    case Err(e) => Err(e)
  }

  /** getFileChecksum of the file: a null checksum becomes the empty byte array. */
  function ChecksumOf(fs: OriginFileSystem, names: seq<string>): (r: Result<seq<bv8>, CopyError>)
    ensures r.Ok? <==> names in fs.checksums
    ensures names in fs.checksums && fs.checksums[names].None? ==> r == Ok([])
  {
    if names !in fs.checksums then Err(ChecksumFailed(names))
    else if fs.checksums[names].None? then Ok([])
    else Ok(fs.checksums[names].value)
  }

  /** A zero timestamp stands for unset and becomes the modification time. */
  function TimestampOrDefault(timestamp: int, modificationTime: int): (r: int)
    ensures timestamp != 0 ==> r == timestamp
    ensures timestamp == 0 ==> r == modificationTime
  {
    if timestamp == 0 then modificationTime else timestamp
  }

  /** CopyableFile.Builder: every field may be set before build(), which infers the ones left unset. */
  class Builder {
    const configuration: CopyConfiguration
    const originFs: OriginFileSystem
    var origin: FileStatus
    var destination: Path
    var destinationOwnerAndPermission: Option<OwnerAndPermission>
    var ancestorsOwnerAndPermission: Option<seq<OwnerAndPermission>>
    var checksum: Option<seq<bv8>>
    var preserve: PreserveAttributes
    var fileSet: Option<string>
    var originTimestamp: int
    var upstreamTimestamp: int
    var additionalMetadata: Option<map<string, string>>

    /** fromOriginAndDestination: a builder with the origin, the destination and the configuration's preserve flags. */
    constructor FromOriginAndDestination(originFs: OriginFileSystem, origin: FileStatus, destination: Path,
                                         configuration: CopyConfiguration)
      ensures this.originFs == originFs && this.origin == origin && this.destination == destination
      ensures this.configuration == configuration && preserve == configuration.preserve
      ensures destinationOwnerAndPermission == None && ancestorsOwnerAndPermission == None && checksum == None
      ensures fileSet == None && originTimestamp == 0 && upstreamTimestamp == 0 && additionalMetadata == None
    {
      this.originFs := originFs;
      this.origin := origin;
      this.destination := destination;
      this.configuration := configuration;
      preserve := configuration.preserve;
      destinationOwnerAndPermission := None;
      ancestorsOwnerAndPermission := None;
      checksum := None;
      fileSet := None;
      originTimestamp := 0;
      upstreamTimestamp := 0;
      additionalMetadata := None;
    }

    /**
     * replicateOwnerAndPermission(originFs, path, preserve): walks up from the path, without its
     * scheme and authority, to the root, replicating each ancestor directory's owner and permission.
     */
    method ReplicateOwnerAndPermission(fs: OriginFileSystem, path: Path) returns (r: Result<seq<OwnerAndPermission>, CopyError>)
      requires path.isAbsolute
      ensures r == AncestorEntries(fs, path.names, preserve, configuration.targetGroup)
    {
      var entries: seq<OwnerAndPermission> := [];
      var current := path.names;
      ghost var all := AncestorEntries(fs, current, preserve, configuration.targetGroup);
      assert all.Ok? ==> [] + all.value == all.value;
      while |current| > 0
        invariant AncestorEntries(fs, path.names, preserve, configuration.targetGroup)
               == Prefixed(entries, AncestorEntries(fs, current, preserve, configuration.targetGroup))
        decreases |current|
      {
        var parent := current[..|current| - 1];
        if parent !in fs.directories {
          return Err(AncestorStatusFailed(parent));
        }
        var entry := Replicated(fs.directories[parent], preserve, configuration.targetGroup);
        ghost var rest := AncestorEntries(fs, parent, preserve, configuration.targetGroup);
        assert rest.Ok? ==> entries + ([entry] + rest.value) == (entries + [entry]) + rest.value;
        entries := entries + [entry];
        current := parent;
      }
      assert entries + [] == entries;
      r := Ok(entries);
    }

    /** The owner, group and permission build() gives the destination when they are unset. */
    method FillDestinationOwnerAndPermission()
      modifies this`destinationOwnerAndPermission
      ensures destinationOwnerAndPermission
           == Some(if old(destinationOwnerAndPermission).Some? then old(destinationOwnerAndPermission).value
                   else Replicated(StatusOwnerAndPermission(origin), preserve, configuration.targetGroup))
    {
      if destinationOwnerAndPermission.None? {
        var owner := if Owner in preserve then Some(origin.owner) else None;
        var group: Option<string> := None;
        if Group in preserve {
          group := Some(origin.group);
        } else if configuration.targetGroup.Some? {
          group := Some(configuration.targetGroup.value);
        }
        var permission := if Permission in preserve then Some(origin.permission) else None;
        destinationOwnerAndPermission := Some(OwnerAndPermission(owner, group, permission));
      }
    }

    /** The ancestors' entries build() records when they are unset, or the exception computing them throws. */
    method FillAncestorsOwnerAndPermission() returns (r: Outcome<CopyError>)
      requires origin.path.isAbsolute
      modifies this`ancestorsOwnerAndPermission
      ensures var ancestors := AncestorEntries(originFs, origin.path.names, preserve, configuration.targetGroup);
        if old(ancestorsOwnerAndPermission).Some? then r == Pass && ancestorsOwnerAndPermission == old(ancestorsOwnerAndPermission)
        else if ancestors.Err? then r == Fail(ancestors.error) && ancestorsOwnerAndPermission == None
        else r == Pass && ancestorsOwnerAndPermission == Some(ancestors.value)
    {
      r := Pass;
      if ancestorsOwnerAndPermission.None? {
        var ancestors := ReplicateOwnerAndPermission(originFs, origin.path);
        if ancestors.Err? {
          return Fail(ancestors.error);
        }
        ancestorsOwnerAndPermission := Some(ancestors.value);
      }
    }

    /** The checksum build() records when it is unset, or the exception reading it throws. */
    method FillChecksum() returns (r: Outcome<CopyError>)
      modifies this`checksum
      ensures var sum := ChecksumOf(originFs, origin.path.names);
        if old(checksum).Some? then r == Pass && checksum == old(checksum)
        else if sum.Err? then r == Fail(sum.error) && checksum == None
        else r == Pass && checksum == Some(sum.value)
    {
      r := Pass;
      if checksum.None? {
        var names := origin.path.names;
        if names !in originFs.checksums {
          return Fail(ChecksumFailed(names));
        }
        var checksumTmp := originFs.checksums[names];
        checksum := Some(if checksumTmp.None? then [] else checksumTmp.value);
      }
    }

    /** The file set and the two timestamps build() gives when they are unset. */
    method FillFileSetAndTimestamps()
      modifies this`fileSet, this`originTimestamp, this`upstreamTimestamp
      ensures fileSet == Some(if old(fileSet).Some? then old(fileSet).value else "")
      ensures originTimestamp == TimestampOrDefault(old(originTimestamp), origin.modificationTime)
      ensures upstreamTimestamp == TimestampOrDefault(old(upstreamTimestamp), origin.modificationTime)
    {
      if fileSet.None? {
        fileSet := Some("");
      }
      if originTimestamp == 0 {
        originTimestamp := origin.modificationTime;
      }
      if upstreamTimestamp == 0 {
        upstreamTimestamp := origin.modificationTime;
      }
    }

    /**
     * build(): throws when the destination is not absolute; otherwise fills, in this order, the
     * destination's owner and permission, the ancestors' entries, the checksum, the file set and
     * the two timestamps, each only when unset, and returns the CopyableFile of the fields. An
     * exception on the way leaves the fields filled before it.
     */
    method Build() returns (r: Result<CopyableFile, CopyError>)
      requires origin.path.isAbsolute
      modifies this
      ensures origin == old(origin) && destination == old(destination) && preserve == old(preserve)
      ensures additionalMetadata == old(additionalMetadata)
      ensures !destination.isAbsolute ==> r == Err(DestinationNotAbsolute(destination)) && unchanged(this)
      ensures destination.isAbsolute ==>
        var owner := if old(destinationOwnerAndPermission).Some? then old(destinationOwnerAndPermission).value
                     else Replicated(StatusOwnerAndPermission(origin), preserve, configuration.targetGroup);
        var ancestors := if old(ancestorsOwnerAndPermission).Some? then Ok(old(ancestorsOwnerAndPermission).value)
                         else AncestorEntries(originFs, origin.path.names, preserve, configuration.targetGroup);
        var sum := if old(checksum).Some? then Ok(old(checksum).value) else ChecksumOf(originFs, origin.path.names);
        && destinationOwnerAndPermission == Some(owner)
        && (ancestors.Err? ==>
              && r == Err(ancestors.error)
              && ancestorsOwnerAndPermission == old(ancestorsOwnerAndPermission) && checksum == old(checksum)
              && fileSet == old(fileSet) && originTimestamp == old(originTimestamp)
              && upstreamTimestamp == old(upstreamTimestamp))
        && (ancestors.Ok? ==> ancestorsOwnerAndPermission == Some(ancestors.value))
        && (ancestors.Ok? && sum.Err? ==>
              && r == Err(sum.error) && checksum == old(checksum)
              && fileSet == old(fileSet) && originTimestamp == old(originTimestamp)
              && upstreamTimestamp == old(upstreamTimestamp))
        && (ancestors.Ok? && sum.Ok? ==>
              && checksum == Some(sum.value)
              && fileSet == Some(if old(fileSet).Some? then old(fileSet).value else "")
              && originTimestamp == TimestampOrDefault(old(originTimestamp), origin.modificationTime)
              && upstreamTimestamp == TimestampOrDefault(old(upstreamTimestamp), origin.modificationTime)
              && r == Ok(CopyableFile(origin, destination, owner, ancestors.value, sum.value, preserve,
                                      fileSet.value, originTimestamp, upstreamTimestamp, additionalMetadata))
              && r.value.GetFileStatus() == origin)
    {
      if !destination.isAbsolute {
        return Err(DestinationNotAbsolute(destination));
      }
      FillDestinationOwnerAndPermission();
      var ancestors := FillAncestorsOwnerAndPermission();
      if ancestors.Fail? {
        return Err(ancestors.error);
      }
      var sum := FillChecksum();
      if sum.Fail? {
        return Err(sum.error);
      }
      FillFileSetAndTimestamps();
      r := Ok(CopyableFile(origin, destination, destinationOwnerAndPermission.value, ancestorsOwnerAndPermission.value,
                           checksum.value, preserve, fileSet.value, originTimestamp, upstreamTimestamp, additionalMetadata));
    }
  }
}
