/**
 * JobLockFactory: picks the JobLock implementation named by the job.lock.type property, falling back
 * to FileBasedJobLock when the key is unset or the class cannot be loaded, and initialises it.
 * Class.forName is modelled as a lookup in the table of JobLock classes the runtime holds.
 */
module LockFactory {
  import opened Wrappers
  import opened Locks

  /** The lock-type configuration key. */
  const JobLockType: string := "job.lock.type"

  const FileBasedJobLockClassName: string := "gobblin.runtime.locks.FileBasedJobLock"
  const ZookeeperBasedJobLockClassName: string := "gobblin.runtime.locks.ZookeeperBasedJobLock"
  /** FileBasedJobLock.class.getSimpleName(), the default of the lookup. */
  const FileBasedJobLockSimpleName: string := "FileBasedJobLock"

  /** The JobLock classes that can be loaded and instantiated. */
  datatype LockClass = FileBasedJobLockClass | ZookeeperBasedJobLockClass

  /** Class.forName followed by newInstance: None stands for ClassNotFoundException. */
  function ForName(className: string): (r: Option<LockClass>)
    ensures r == Some(FileBasedJobLockClass) <==> className == FileBasedJobLockClassName
    ensures r == Some(ZookeeperBasedJobLockClass) <==> className == ZookeeperBasedJobLockClassName
  {
    if className == FileBasedJobLockClassName then Some(FileBasedJobLockClass)
    else if className == ZookeeperBasedJobLockClassName then Some(ZookeeperBasedJobLockClass)
    else None
  }

  /** The class getJobLock instantiates. */
  function SelectLockClass(properties: Properties): LockClass {
    if JobLockType in properties then
      match ForName(GetProperty(properties, JobLockType, FileBasedJobLockSimpleName))
      case Some(c) => c
      case None => FileBasedJobLockClass
    else FileBasedJobLockClass
  }

  /**
   * The ZooKeeper lock is chosen exactly when job.lock.type names its class; every other value, and
   * no value at all, selects the file-based lock, so selection never fails.
   */
  lemma SelectionFallsBack(properties: Properties)
    ensures SelectLockClass(properties) == ZookeeperBasedJobLockClass
        <==> JobLockType in properties && properties[JobLockType] == ZookeeperBasedJobLockClassName
    ensures JobLockType !in properties ==> SelectLockClass(properties) == FileBasedJobLockClass
    ensures JobLockType in properties && ForName(properties[JobLockType]).None? ==>
      SelectLockClass(properties) == FileBasedJobLockClass
  {
  }

  /**
   * A FileBasedJobLock, whose own behaviour is not part of this model: it records each call of
   * initialize with its arguments.
   */
  class FileBasedJobLock {
    var initializations: seq<(Properties, Listener)>

    constructor ()
      ensures initializations == []
    {
      initializations := [];
    }

    method Initialize(properties: Properties, listener: Listener) returns (r: Outcome<LockError>)
      modifies this
      ensures r == Pass && initializations == old(initializations) + [(properties, listener)]
    {
      initializations := initializations + [(properties, listener)];
      r := Pass;
    }
  }

  /** A JobLock of one of the two implementations. */
  datatype JobLock = FileBased(file: FileBasedJobLock) | ZookeeperBased(zookeeper: ZookeeperBasedJobLock)

  /**
   * getJobLock: a new lock of the selected class, initialised once with the given properties and
   * listener. Only a failure of that initialisation comes out as an exception; the steps of
   * initialize that ran before it keep their effect on the process's registry.
   */
  method GetJobLock(properties: Properties, listener: Listener, registry: LockRegistry)
    returns (r: Result<JobLock, LockError>)
    requires registry.Valid()
    modifies registry
    ensures registry.Valid()
    ensures SelectLockClass(properties) == FileBasedJobLockClass ==>
      && r.Ok? && r.value.FileBased? && fresh(r.value.file)
      && r.value.file.initializations == [(properties, listener)]
      && unchanged(registry)
    ensures SelectLockClass(properties) == ZookeeperBasedJobLockClass ==>
      var shared := Shared(old(registry.framework), old(registry.reaper));
      var reaperStartFails := registry.coordinator.reaperStartFails;
      var outcome := InitializeOutcome(properties, shared, reaperStartFails);
      var timeout := GetLong(properties, LocksAcquireTimeoutMilliseconds, LocksAcquireTimeoutMillisecondsDefault);
      var path := LockPathOf(JobNameOf(properties));
      && (outcome.Fail? ==> r == Err(outcome.error))
      && (timeout.Err? || path.Err? ==> unchanged(registry))
      && (timeout.Ok? && path.Ok? ==>
            && (registry.listeners, registry.paths)
               == RegisterIfAbsent(old(registry.listeners), old(registry.paths), path.value, listener)
            && Shared(registry.framework, registry.reaper) == EnsureShared(shared, properties, reaperStartFails).0)
      && (outcome.Pass? ==>
            && r.Ok? && r.value.ZookeeperBased? && fresh(r.value.zookeeper)
            && r.value.zookeeper.registry == registry && r.value.zookeeper.Valid()
            && r.value.zookeeper.lockAcquireTimeoutMilliseconds == timeout.value
            && r.value.zookeeper.lockPath == Some(path.value)
            && r.value.zookeeper.lock.Some? && r.value.zookeeper.lock.value.path == path.value
            && !r.value.zookeeper.lock.value.acquired)
  {
    var lockClass := SelectLockClass(properties);
    match lockClass
    case FileBasedJobLockClass =>
      var jobLock := new FileBasedJobLock();
      var _ := jobLock.Initialize(properties, listener);
      r := Ok(FileBased(jobLock));
    case ZookeeperBasedJobLockClass =>
      var jobLock := new ZookeeperBasedJobLock(registry);
      var initialized := jobLock.Initialize(properties, listener);
      if initialized.Fail? {
        return Err(initialized.error);
      }
      r := Ok(ZookeeperBased(jobLock));
  }
}
