/**
 * ZookeeperBasedJobLock: a job lock held as a Curator semaphore mutex on the node /locks/<job name>.
 * Every lock of a process shares three pieces of process-wide state: the Curator framework, the
 * reaper of abandoned lock nodes, and the registry of lock event listeners keyed by lock path. The
 * model passes that state explicitly, as a LockRegistry object, and runs every call to completion
 * before the next one starts.
 */
module Locks {
  import opened Wrappers
  import opened JavaLang
  import opened Sequences

  /** java.util.Properties: string keys mapped to string values. */
  type Properties = map<string, string>

  /** The job-name configuration key. */
  const JobNameKey: string := "job.name"

  const LocksRootPath: string := "/locks"
  const LocksChildReaperLeaderPath: string := "/services/locksChildReaper"
  const LocksChildReaperThresholdSecondsDefault: int := 300
  const LocksAcquireTimeoutMillisecondsDefault: int := 5000
  const ConnectionTimeoutSecondsDefault: int := 30
  const SessionTimeoutSecondsDefault: int := 180
  const RetryBackoffSecondsDefault: int := 1
  const MaxRetryCountDefault: int := 10

  const LocksChildReaperThresholdSeconds: string := "zookeeper.locks.reaper.threshold.seconds"
  const LocksAcquireTimeoutMilliseconds: string := "zookeeper.locks.acquire.timeout.milliseconds"
  const ConnectionString: string := "zookeeper.connection.string"
  const ConnectionTimeoutSeconds: string := "zookeeper.connection.timeout.seconds"
  const SessionTimeoutSeconds: string := "zookeeper.session.timeout.seconds"
  const RetryBackoffSeconds: string := "zookeeper.retry.backoff.seconds"
  const MaxRetryCount: string := "zookeeper.retry.count.max"

  /** A failure the ZooKeeper client reports, such as a lost connection. */
  datatype ZooKeeperError = ConnectionLoss

  /** What a JobLockException wraps: a ZooKeeper failure, or the NullPointerException of a lock used before initialize. */
  datatype Cause = ZooKeeper(error: ZooKeeperError) | NullPointer

  /** The exceptions that escape the lock's methods. */
  datatype LockError =
    | NumberFormatException(input: string)   // Integer.parseInt or Long.parseLong rejected the text
    | NullPointerException                   // a missing job name, or a lock used before initialize
    | InvalidPathException(input: string)    // the lock path holds a NUL character
    | JobLockException(message: string, reason: Cause)
    | IOException(cause: LockError)

  /** The result of a call that may wait: it returned the value, or it is still waiting. */
  datatype Wait<+T> = Done(value: T) | Waiting

  /** Properties.getProperty(key, defaultValue). */
  function GetProperty(properties: Properties, key: string, defaultValue: string): string {
    if key in properties then properties[key] else defaultValue
  }

  /** getInt: the property parsed by Integer.parseInt, the default printed in decimal when it is unset. */
  function GetInt(properties: Properties, key: string, defaultValue: int): (r: Result<int, LockError>)
    ensures r.Ok? ==> Int32Min <= r.value <= Int32Max
  {
    var text := GetProperty(properties, key, IntToString(defaultValue));
    match ParseInt(text)
    case Some(v) => Ok(v)
    case None => Err(NumberFormatException(text))
  }

  /** getLong: the property parsed by Long.parseLong, the default printed in decimal when it is unset. */
  function GetLong(properties: Properties, key: string, defaultValue: int): (r: Result<int, LockError>)
    ensures r.Ok? ==> Int64Min <= r.value <= Int64Max
  {
    var text := GetProperty(properties, key, IntToString(defaultValue));
    match ParseLong(text)
    case Some(v) => Ok(v)
    case None => Err(NumberFormatException(text))
  }

  /** getMilliseconds: getInt of a number of seconds, times 1000 in 32-bit int arithmetic. */
  function GetMilliseconds(properties: Properties, key: string, defaultValue: int): (r: Result<int, LockError>)
    ensures r.Ok? <==> GetInt(properties, key, defaultValue).Ok?
    ensures r.Ok? ==> Int32Min <= r.value <= Int32Max
  {
    match GetInt(properties, key, defaultValue)
    case Ok(seconds) => Ok(WrapInt32(seconds * 1000))
    case Err(e) => Err(e)
  }

  /** An unset int property reads as its default. */
  lemma GetIntOfUnset(properties: Properties, key: string, defaultValue: int)
    requires key !in properties && Int32Min <= defaultValue <= Int32Max
    ensures GetInt(properties, key, defaultValue) == Ok(defaultValue)
  {
    ParseOfToString(defaultValue, Int32Min, Int32Max);
  }

  /** An unset long property reads as its default. */
  lemma GetLongOfUnset(properties: Properties, key: string, defaultValue: int)
    requires key !in properties && Int64Min <= defaultValue <= Int64Max
    ensures GetLong(properties, key, defaultValue) == Ok(defaultValue)
  {
    ParseOfToString(defaultValue, Int64Min, Int64Max);
  }

  /** A property set to the decimal text of an int reads as that int, whatever the default. */
  lemma GetIntOfSet(properties: Properties, key: string, defaultValue: int, v: int)
    requires key in properties && properties[key] == IntToString(v) && Int32Min <= v <= Int32Max
    ensures GetInt(properties, key, defaultValue) == Ok(v)
  {
    ParseOfToString(v, Int32Min, Int32Max);
  }

  /** Up to 2147483 seconds, getMilliseconds is the exact number of milliseconds. */
  lemma GetMillisecondsExact(properties: Properties, key: string, defaultValue: int, seconds: int)
    requires GetInt(properties, key, defaultValue) == Ok(seconds) && -2147483 <= seconds <= 2147483
    ensures GetMilliseconds(properties, key, defaultValue) == Ok(seconds * 1000)
  {
  }

  /** Beyond that the product wraps around, and the milliseconds are not the seconds times 1000. */
  lemma GetMillisecondsOverflow(properties: Properties, key: string, defaultValue: int, seconds: int)
    requires GetInt(properties, key, defaultValue) == Ok(seconds) && seconds > 2147483
    ensures GetMilliseconds(properties, key, defaultValue).Ok?
    ensures GetMilliseconds(properties, key, defaultValue).value != seconds * 1000
  {
  }

  /** What the shared CuratorFramework is built with. */
  datatype CuratorSettings = CuratorSettings(
    connectString: Option<string>,
    connectionTimeoutMs: int,
    sessionTimeoutMs: int,
    retryBaseSleepTimeMs: int,
    maxRetries: int)

  /** What the ChildReaper of abandoned lock nodes is built with. */
  datatype ReaperSettings = ReaperSettings(path: string, leaderPath: string, thresholdMs: int)

  /**
   * The framework settings read from the properties, in the order the builder reads them, or the
   * NumberFormatException of the first number that does not parse.
   */
  function CuratorSettingsOf(properties: Properties): Result<CuratorSettings, LockError> {
    var connectString := if ConnectionString in properties then Some(properties[ConnectionString]) else None;
    match GetMilliseconds(properties, ConnectionTimeoutSeconds, ConnectionTimeoutSecondsDefault)
    case Err(e) => Err(e)
    case Ok(connectionTimeout) =>
      match GetMilliseconds(properties, SessionTimeoutSeconds, SessionTimeoutSecondsDefault)
      case Err(e) => Err(e)
      case Ok(sessionTimeout) =>
        match GetMilliseconds(properties, RetryBackoffSeconds, RetryBackoffSecondsDefault)
        case Err(e) => Err(e)
        case Ok(backoff) =>
          match GetInt(properties, MaxRetryCount, MaxRetryCountDefault)
          case Err(e) => Err(e)
          case Ok(retries) => Ok(CuratorSettings(connectString, connectionTimeout, sessionTimeout, backoff, retries))
  }

  /** The reaper settings read from the properties. */
  function ReaperSettingsOf(properties: Properties): Result<ReaperSettings, LockError> {
    match GetMilliseconds(properties, LocksChildReaperThresholdSeconds, LocksChildReaperThresholdSecondsDefault)
    case Err(e) => Err(e)
    case Ok(threshold) => Ok(ReaperSettings(LocksRootPath, LocksChildReaperLeaderPath, threshold))
  }

  /**
   * With none of its number keys set, the framework gets the connect string as given, a 30 s
   * connection timeout, a 180 s session timeout, a 1 s retry backoff and 10 retries, and the
   * reaper a 300 s threshold.
   */
  lemma DefaultSettings(properties: Properties)
    requires ConnectionTimeoutSeconds !in properties
    requires SessionTimeoutSeconds !in properties && RetryBackoffSeconds !in properties
    requires MaxRetryCount !in properties && LocksChildReaperThresholdSeconds !in properties
    ensures var connectString := if ConnectionString in properties then Some(properties[ConnectionString]) else None;
      CuratorSettingsOf(properties) == Ok(CuratorSettings(connectString, 30000, 180000, 1000, 10))
    ensures ReaperSettingsOf(properties) == Ok(ReaperSettings("/locks", "/services/locksChildReaper", 300000))
  {
    GetIntOfUnset(properties, ConnectionTimeoutSeconds, ConnectionTimeoutSecondsDefault);
    GetIntOfUnset(properties, SessionTimeoutSeconds, SessionTimeoutSecondsDefault);
    GetIntOfUnset(properties, RetryBackoffSeconds, RetryBackoffSecondsDefault);
    GetIntOfUnset(properties, MaxRetryCount, MaxRetryCountDefault);
    GetIntOfUnset(properties, LocksChildReaperThresholdSeconds, LocksChildReaperThresholdSecondsDefault);
  }

  /** With its key unset, the acquire timeout of tryLock is 5000 ms. */
  lemma DefaultAcquireTimeout(properties: Properties)
    requires LocksAcquireTimeoutMilliseconds !in properties
    ensures GetLong(properties, LocksAcquireTimeoutMilliseconds, LocksAcquireTimeoutMillisecondsDefault) == Ok(5000)
  {
    GetLongOfUnset(properties, LocksAcquireTimeoutMilliseconds, LocksAcquireTimeoutMillisecondsDefault);
  }

  /**
   * The normal form of a Unix path text: each run of "/" becomes one "/", and a trailing "/" is
   * dropped; pending says that a "/" has been read and not yet written.
   */
  function CollapseSlashes(s: string, pending: bool): string {
    if |s| == 0 then ""
    else if s[0] == '/' then CollapseSlashes(s[1..], true)
    else (if pending then "/" else "") + [s[0]] + CollapseSlashes(s[1..], false)
  }

  /** No "/" follows another. */
  predicate NoDoubleSlash(p: string) {
    forall i :: 0 <= i < |p| - 1 ==> p[i] != '/' || p[i + 1] != '/'
  }

  lemma {:induction false} CollapseSlashesNormal(s: string, pending: bool)
    ensures var r := CollapseSlashes(s, pending);
      NoDoubleSlash(r) && (|r| > 0 ==> r[|r| - 1] != '/')
  {
    if |s| > 0 {
      CollapseSlashesNormal(s[1..], s[0] == '/');
    }
  }

  /** Text without "/" is written as it is, after the pending "/". */
  lemma {:induction false} CollapsePlainPrefix(p: string, t: string, pending: bool)
    requires p != "" && forall i :: 0 <= i < |p| ==> p[i] != '/'
    ensures CollapseSlashes(p + t, pending) == (if pending then "/" else "") + p + CollapseSlashes(t, false)
  {
    assert (p + t)[1..] == p[1..] + t;
    if |p| > 1 {
      CollapsePlainPrefix(p[1..], t, false);
    }
  }

  /** The lock root is written as it is, after which the job name is normalised on its own. */
  lemma CollapseUnderRoot(name: string)
    ensures CollapseSlashes(LocksRootPath + "/" + name, false) == LocksRootPath + CollapseSlashes(name, true)
  {
    assert LocksRootPath + "/" + name == "/" + ("locks" + ("/" + name));
    assert ("/" + ("locks" + ("/" + name)))[1..] == "locks" + ("/" + name);
    CollapsePlainPrefix("locks", "/" + name, true);
    assert ("/" + name)[1..] == name;
  }

  /**
   * Paths.get("/locks", jobName).toString() on a Unix file system: a null job name throws
   * NullPointerException, an empty one adds nothing, and the joined text must hold no NUL.
   */
  function LockPathOf(jobName: Option<string>): (r: Result<string, LockError>)
    ensures r.Ok? ==> StartsWith(r.value, LocksRootPath)
  {
    match jobName
    case None => Err(NullPointerException)
    case Some(name) =>
      var input := if name == "" then LocksRootPath else LocksRootPath + "/" + name;
      if '\0' in input then Err(InvalidPathException(input))
      else
        CollapseUnderRoot(name);
        Ok(if name == "" then LocksRootPath else LocksRootPath + CollapseSlashes(name, true))
  }

  /** A lock path has no repeated and no trailing "/". */
  lemma LockPathNormal(jobName: Option<string>)
    requires LockPathOf(jobName).Ok?
    ensures var p := LockPathOf(jobName).value;
      NoDoubleSlash(p) && p[|p| - 1] != '/'
  {
    var name := jobName.value;
    if name != "" {
      CollapseSlashesNormal(name, true);
      var t := CollapseSlashes(name, true);
      var p := LocksRootPath + t;
      forall i | 0 <= i < |p| - 1
        ensures p[i] != '/' || p[i + 1] != '/'
      {
        if i >= |LocksRootPath| {
          assert p[i] == t[i - |LocksRootPath|] && p[i + 1] == t[i + 1 - |LocksRootPath|];
        }
      }
    }
  }

  /** A job name without "/" or NUL locks the path "/locks/" + its name. */
  lemma LockPathOfPlainName(name: string)
    requires name != "" && forall i :: 0 <= i < |name| ==> name[i] != '/' && name[i] != '\0'
    ensures LockPathOf(Some(name)) == Ok("/locks/" + name)
  {
    var input := LocksRootPath + "/" + name;
    forall i | 0 <= i < |input|
      ensures input[i] != '\0'
    {
      if i >= |LocksRootPath| + 1 {
        assert input[i] == name[i - |LocksRootPath| - 1];
      }
    }
    assert '\0' !in input;
    CollapsePlainPrefix(name, "", true);
    assert name + "" == name;
    assert CollapseSlashes(name, true) == "/" + name;
    assert LockPathOf(Some(name)) == Ok(LocksRootPath + CollapseSlashes(name, true));
    assert LocksRootPath + "/" == "/locks/";
    assert LocksRootPath + ("/" + name) == (LocksRootPath + "/") + name;
  }

  /** The connection states Curator reports to a ConnectionStateListener. */
  datatype ConnectionState = Connected | Suspended | Reconnected | Lost | ReadOnly

  /** A JobLockEventListener, by identity; onLost is its only callback used here. */
  datatype Listener = Listener(id: nat)

  /**
   * The ZooKeeper ensemble as the lock mutexes see it: the mutex holding the node of each lock
   * path, whether the client is connected, and whether the next start of a reaper's leader
   * election fails.
   */
  class Coordinator {
    var holders: map<string, SemaphoreMutex>
    var connected: bool
    var reaperStartFails: bool

    constructor (reaperStartFails: bool)
      ensures holders == map[] && connected && this.reaperStartFails == reaperStartFails
    {
      holders := map[];
      connected := true;
      this.reaperStartFails := reaperStartFails;
    }

    /** The connection drops or comes back; the nodes stay as they are. */
    method SetConnected(connected: bool)
      modifies this
      ensures this.connected == connected && holders == old(holders) && reaperStartFails == old(reaperStartFails)
    {
      this.connected := connected;
    }

    /** Whether a reaper started from now on fails to start; the nodes and the connection stay. */
    method SetReaperStartFails(fails: bool)
      modifies this
      ensures reaperStartFails == fails && holders == old(holders) && connected == old(connected)
    {
      reaperStartFails := fails;
    }
  }

  /**
   * Curator's InterProcessSemaphoreMutex on one path: a lease on a single-holder semaphore, not
   * re-entrant. acquired is whether this mutex holds the lease (isAcquiredInThisProcess).
   */
  class SemaphoreMutex {
    const coordinator: Coordinator
    const path: string
    var acquired: bool

    ghost predicate Valid()
      reads this, coordinator
    {
      acquired ==> path in coordinator.holders && coordinator.holders[path] == this
    }

    constructor (coordinator: Coordinator, path: string)
      ensures this.coordinator == coordinator && this.path == path && !acquired
    {
      this.coordinator := coordinator;
      this.path := path;
      acquired := false;
    }

    /**
     * acquire(): takes the node when it is free. While any mutex holds it, this one included, the
     * call waits; a lost connection makes it throw.
     */
    method Acquire() returns (r: Wait<Outcome<ZooKeeperError>>)
      requires Valid()
      modifies this, coordinator
      ensures Valid() && coordinator.connected == old(coordinator.connected)
      ensures !old(coordinator.connected) ==>
        r == Done(Fail(ConnectionLoss)) && acquired == old(acquired) && coordinator.holders == old(coordinator.holders)
      ensures old(coordinator.connected) && path in old(coordinator.holders) ==>
        r == Waiting && acquired == old(acquired) && coordinator.holders == old(coordinator.holders)
      ensures old(coordinator.connected) && path !in old(coordinator.holders) ==>
        r == Done(Pass) && acquired && coordinator.holders == old(coordinator.holders)[path := this]
    {
      if !coordinator.connected {
        return Done(Fail(ConnectionLoss));
      }
      if path in coordinator.holders {
        return Waiting;
      }
      coordinator.holders := coordinator.holders[path := this];
      acquired := true;
      r := Done(Pass);
    }

    /**
     * acquire(time, MILLISECONDS): as acquire, except that a held node makes the call return false
     * once the wait is over, since nothing else runs meanwhile.
     */
    method AcquireWithin(timeoutMs: int) returns (r: Result<bool, ZooKeeperError>)
      requires Valid()
      modifies this, coordinator
      ensures Valid() && coordinator.connected == old(coordinator.connected)
      ensures !old(coordinator.connected) ==>
        r == Err(ConnectionLoss) && acquired == old(acquired) && coordinator.holders == old(coordinator.holders)
      ensures old(coordinator.connected) && path in old(coordinator.holders) ==>
        r == Ok(false) && acquired == old(acquired) && coordinator.holders == old(coordinator.holders)
      ensures old(coordinator.connected) && path !in old(coordinator.holders) ==>
        r == Ok(true) && acquired && coordinator.holders == old(coordinator.holders)[path := this]
    {
      if !coordinator.connected {
        return Err(ConnectionLoss);
      }
      if path in coordinator.holders {
        return Ok(false);
      }
      coordinator.holders := coordinator.holders[path := this];
      acquired := true;
      r := Ok(true);
    }

    /**
     * release(): gives the lease up and deletes the node. With the connection lost the deletion
     * throws and the node stays, though the mutex no longer counts itself as holding it.
     */
    method Release() returns (r: Outcome<ZooKeeperError>)
      requires Valid() && acquired
      modifies this, coordinator
      ensures Valid() && !acquired && coordinator.connected == old(coordinator.connected)
      ensures old(coordinator.connected) ==> r == Pass && coordinator.holders == old(coordinator.holders) - {path}
      ensures !old(coordinator.connected) ==> r == Fail(ConnectionLoss) && coordinator.holders == old(coordinator.holders)
    {
      acquired := false;
      if !coordinator.connected {
        return Fail(ConnectionLoss);
      }
      coordinator.holders := coordinator.holders - {path};
      r := Pass;
    }
  }

  /** The shared framework and reaper of a process, null until they are made. */
  datatype Shared = Shared(framework: Option<CuratorSettings>, reaper: Option<ReaperSettings>)

  /**
   * ensureCuratorFrameworkExists: makes the framework when there is none, then the reaper when
   * there is none; a reaper that fails to start is dropped and the failure swallowed. A number
   * that does not parse ends the step with its NumberFormatException.
   */
  function EnsureShared(s: Shared, properties: Properties, reaperStartFails: bool): (r: (Shared, Outcome<LockError>))
    ensures s.framework.Some? ==> r.0.framework == s.framework
    ensures s.reaper.Some? ==> r.0.reaper == s.reaper
    ensures r.1.Pass? ==> r.0.framework.Some?
    ensures s.reaper.None? && r.0.reaper.Some? ==> !reaperStartFails && ReaperSettingsOf(properties) == Ok(r.0.reaper.value)
    ensures s.framework.None? && r.0.framework.Some? ==> CuratorSettingsOf(properties) == Ok(r.0.framework.value)
    ensures r.1.Fail? ==> r.1.error.NumberFormatException?
    ensures r.1.Pass? <==>
      (s.framework.Some? || CuratorSettingsOf(properties).Ok?) && (s.reaper.Some? || ReaperSettingsOf(properties).Ok?)
    ensures s.framework.None? && CuratorSettingsOf(properties).Err? ==> r == (s, Fail(CuratorSettingsOf(properties).error))
    ensures s.framework.None? && CuratorSettingsOf(properties).Ok? ==> r.0.framework == Some(CuratorSettingsOf(properties).value)
    ensures s.reaper.None? && r.1.Pass? ==>
      r.0.reaper == if reaperStartFails then None else Some(ReaperSettingsOf(properties).value)
  {
    var framework := if s.framework.Some? then Ok(s.framework.value) else CuratorSettingsOf(properties);
    match framework
    case Err(e) => (s, Fail(e))
    case Ok(f) =>
      if s.reaper.Some? then (Shared(Some(f), s.reaper), Pass)
      else
        match ReaperSettingsOf(properties)
        case Err(e) => (Shared(Some(f), None), Fail(e))
        case Ok(reaper) => (Shared(Some(f), if reaperStartFails then None else Some(reaper)), Pass)
  }

  /**
   * Once the framework and the reaper exist, a later initialisation reuses both, whatever its
   * properties.
   */
  lemma EnsureSharedReuses(s: Shared, properties: Properties, reaperStartFails: bool)
    requires s.framework.Some? && s.reaper.Some?
    ensures EnsureShared(s, properties, reaperStartFails) == (s, Pass)
  {
  }

  /**
   * After one call that succeeds, a later call keeps the framework whatever its properties, and
   * keeps a reaper that started. A reaper is missing afterwards only because its start failed, and
   * the later call retries it, with its own properties and its own start outcome.
   */
  lemma EnsureSharedOnce(s: Shared, p1: Properties, p2: Properties, f1: bool, f2: bool)
    requires EnsureShared(s, p1, f1).1.Pass?
    ensures var s1 := EnsureShared(s, p1, f1).0;
      var s2 := EnsureShared(s1, p2, f2);
      && s1.framework.Some? && s2.0.framework == s1.framework
      && (s1.reaper.Some? ==> s2 == (s1, Pass))
      && (s1.reaper.None? ==> s.reaper.None? && f1)
      && (s1.reaper.None? && ReaperSettingsOf(p2).Ok? ==>
            s2.1 == Pass && s2.0.reaper == if f2 then None else Some(ReaperSettingsOf(p2).value))
      && (s1.reaper.None? && ReaperSettingsOf(p2).Err? ==> s2 == (s1, Fail(ReaperSettingsOf(p2).error)))
  {
  }

  /** The job name initialize reads, null when it is unset. */
  function JobNameOf(properties: Properties): Option<string> {
    if JobNameKey in properties then Some(properties[JobNameKey]) else None
  }

  /**
   * What initialize returns: the first exception of reading the acquire timeout, building the lock
   * path and ensuring the shared framework, in that order.
   */
  function InitializeOutcome(properties: Properties, s: Shared, reaperStartFails: bool): (r: Outcome<LockError>)
    ensures r.Pass? ==> LockPathOf(JobNameOf(properties)).Ok?
    ensures JobNameKey !in properties ==> r.Fail?
  {
    var timeout := GetLong(properties, LocksAcquireTimeoutMilliseconds, LocksAcquireTimeoutMillisecondsDefault);
    var path := LockPathOf(JobNameOf(properties));
    if timeout.Err? then Fail(timeout.error)
    else if path.Err? then Fail(path.error)
    else EnsureShared(s, properties, reaperStartFails).1
  }

  /**
   * The statics of ZookeeperBasedJobLock, for one process: the shared framework and reaper, and the
   * lock event listeners keyed by lock path; paths fixes one iteration order, that of registration.
   */
  class LockRegistry {
    const coordinator: Coordinator
    var framework: Option<CuratorSettings>
    var reaper: Option<ReaperSettings>
    var paths: seq<string>
    var listeners: map<string, Listener>

    ghost predicate Valid()
      reads this
    {
      Distinct(paths) && forall p :: p in listeners <==> p in paths
    }

    constructor (coordinator: Coordinator)
      ensures Valid() && this.coordinator == coordinator
      ensures framework == None && reaper == None && paths == [] && listeners == map[]
    {
      this.coordinator := coordinator;
      framework := None;
      reaper := None;
      paths := [];
      listeners := map[];
    }

    /** putIfAbsent: a path already registered keeps its listener. */
    method PutIfAbsent(path: string, listener: Listener) returns (previous: Option<Listener>)
      requires Valid()
      modifies this
      ensures Valid() && framework == old(framework) && reaper == old(reaper)
      ensures path in old(listeners) ==>
        previous == Some(old(listeners)[path]) && listeners == old(listeners) && paths == old(paths)
      ensures path !in old(listeners) ==>
        previous == None && listeners == old(listeners)[path := listener] && paths == old(paths) + [path]
    {
      if path in listeners {
        return Some(listeners[path]);
      }
      listeners := listeners[path := listener];
      paths := paths + [path];
      previous := None;
    }

    /** remove: the path is no longer registered, and no other path changes. */
    method Remove(path: string) returns (previous: Option<Listener>)
      requires Valid()
      modifies this
      ensures Valid() && framework == old(framework) && reaper == old(reaper)
      ensures previous == if path in old(listeners) then Some(old(listeners)[path]) else None
      ensures listeners == old(listeners) - {path} && paths == Without(old(paths), path)
    {
      previous := if path in listeners then Some(listeners[path]) else None;
      listeners := listeners - {path};
      paths := Without(paths, path);
    }

    /** ensureCuratorFrameworkExists, on the shared state of this process. */
    method EnsureCuratorFrameworkExists(properties: Properties) returns (r: Outcome<LockError>)
      requires Valid()
      modifies this
      ensures Valid() && paths == old(paths) && listeners == old(listeners)
      ensures (Shared(framework, reaper), r)
           == EnsureShared(Shared(old(framework), old(reaper)), properties, coordinator.reaperStartFails)
    {
      if framework.None? {
        var settings := CuratorSettingsOf(properties);
        if settings.Err? {
          return Fail(settings.error);
        }
        framework := Some(settings.value);
      }
      if reaper.None? {
        var settings := ReaperSettingsOf(properties);
        if settings.Err? {
          return Fail(settings.error);
        }
        if !coordinator.reaperStartFails {
          reaper := Some(settings.value);
        }
      }
      r := Pass;
    }

    /**
     * The connection state listener of the shared framework: on LOST or SUSPENDED it calls onLost
     * on every registered listener, once per registered path, in registration order; on any other
     * state it calls none. Before the framework exists no listener is attached. The result is the
     * sequence of listeners called.
     */
    method OnConnectionStateChanged(state: ConnectionState) returns (calls: seq<Listener>)
      requires Valid()
      ensures framework.Some? && (state == Lost || state == Suspended) ==>
        |calls| == |paths| && forall i :: 0 <= i < |paths| ==> calls[i] == listeners[paths[i]]
      ensures framework.None? || !(state == Lost || state == Suspended) ==> calls == []
    {
      calls := [];
      if framework.Some? && (state == Lost || state == Suspended) {
        for i := 0 to |paths|
          invariant |calls| == i
          invariant forall j :: 0 <= j < i ==> calls[j] == listeners[paths[j]]
        {
          calls := calls + [listeners[paths[i]]];
        }
      }
    }
  }

  /** A job lock backed by a Curator semaphore mutex on the node of the job's lock path. */
  /** The lock path as string concatenation prints it: "null" before initialize has set it. */
  function LockPathText(lockPath: Option<string>): string {
    if lockPath.Some? then lockPath.value else "null"
  }

  /** putIfAbsent on the listeners and their registration order. */
  function RegisterIfAbsent(listeners: map<string, Listener>, paths: seq<string>, path: string, listener: Listener)
    : (map<string, Listener>, seq<string>)
  {
    if path in listeners then (listeners, paths) else (listeners[path := listener], paths + [path])
  }

  class ZookeeperBasedJobLock {
    const registry: LockRegistry
    var lockPath: Option<string>
    var lockAcquireTimeoutMilliseconds: int
    var lock: Option<SemaphoreMutex>

    ghost function Mutexes(): set<object>
      reads this
    {
      if lock.Some? then {lock.value} else {}
    }

    ghost predicate Valid()
      reads this, registry, registry.coordinator, Mutexes()
    {
      && registry.Valid()
      && (lock.Some? ==> lockPath.Some? && lock.value.coordinator == registry.coordinator && lock.value.Valid())
    }

    /** A lock before initialize: no path, no mutex, a zero timeout. */
    constructor (registry: LockRegistry)
      requires registry.Valid()
      ensures Valid() && this.registry == registry
      ensures lockPath == None && lock == None && lockAcquireTimeoutMilliseconds == 0
    {
      this.registry := registry;
      lockPath := None;
      lockAcquireTimeoutMilliseconds := 0;
      lock := None;
    }

    /**
     * initialize: reads the acquire timeout, sets the lock path from the job name, registers the
     * listener under it unless a listener is registered there already, makes sure the shared
     * framework exists, and creates the mutex. Each step that throws ends the call.
     */
    method Initialize(properties: Properties, listener: Listener) returns (r: Outcome<LockError>)
      requires Valid()
      modifies this, registry
      ensures Valid()
      ensures r == InitializeOutcome(properties, Shared(old(registry.framework), old(registry.reaper)),
                                     registry.coordinator.reaperStartFails)
      ensures var timeout := GetLong(properties, LocksAcquireTimeoutMilliseconds, LocksAcquireTimeoutMillisecondsDefault);
        var path := LockPathOf(JobNameOf(properties));
        var shared := EnsureShared(Shared(old(registry.framework), old(registry.reaper)), properties,
                                   registry.coordinator.reaperStartFails);
        && (timeout.Err? ==>
              && r == Fail(timeout.error)
              && lockAcquireTimeoutMilliseconds == old(lockAcquireTimeoutMilliseconds)
              && lockPath == old(lockPath) && lock == old(lock) && unchanged(registry))
        && (timeout.Ok? && path.Err? ==>
              && r == Fail(path.error)
              && lockAcquireTimeoutMilliseconds == timeout.value
              && lockPath == old(lockPath) && lock == old(lock) && unchanged(registry))
        && (timeout.Ok? && path.Ok? ==>
              && lockAcquireTimeoutMilliseconds == timeout.value
              && lockPath == Some(path.value)
              && (path.value in old(registry.listeners) ==>
                    registry.listeners == old(registry.listeners) && registry.paths == old(registry.paths))
              && (path.value !in old(registry.listeners) ==>
                    registry.listeners == old(registry.listeners)[path.value := listener]
                    && registry.paths == old(registry.paths) + [path.value])
              && Shared(registry.framework, registry.reaper) == shared.0
              && (shared.1.Fail? ==> r == shared.1 && lock == old(lock))
              && (shared.1.Pass? ==>
                    r == Pass && lock.Some? && fresh(lock.value) && lock.value.path == path.value && !lock.value.acquired))
    {
      var jobName := JobNameOf(properties);
      var timeout := GetLong(properties, LocksAcquireTimeoutMilliseconds, LocksAcquireTimeoutMillisecondsDefault);
      if timeout.Err? {
        return Fail(timeout.error);
      }
      lockAcquireTimeoutMilliseconds := timeout.value;
      var path := LockPathOf(jobName);
      if path.Err? {
        return Fail(path.error);
      }
      lockPath := Some(path.value);
      var _ := registry.PutIfAbsent(path.value, listener);
      r := registry.EnsureCuratorFrameworkExists(properties);
      if r.Fail? {
        return;
      }
      var mutex := new SemaphoreMutex(registry.coordinator, path.value);
      lock := Some(mutex);
    }

    /** lock(): acquires the mutex, waiting while it is held; a failure names the lock path. */
    method Lock() returns (r: Wait<Outcome<LockError>>)
      requires Valid()
      modifies Mutexes(), registry.coordinator
      ensures Valid() && registry.coordinator.connected == old(registry.coordinator.connected)
      ensures lock.None? ==> r == Done(Fail(JobLockException("Failed to acquire lock " + LockPathText(lockPath), NullPointer)))
      ensures lock.Some? && !old(registry.coordinator.connected) ==>
        r == Done(Fail(JobLockException("Failed to acquire lock " + lockPath.value, ZooKeeper(ConnectionLoss))))
        && lock.value.acquired == old(lock.value.acquired) && registry.coordinator.holders == old(registry.coordinator.holders)
      ensures lock.Some? && old(registry.coordinator.connected) && lock.value.path in old(registry.coordinator.holders) ==>
        r == Waiting && lock.value.acquired == old(lock.value.acquired) && registry.coordinator.holders == old(registry.coordinator.holders)
      ensures lock.Some? && old(registry.coordinator.connected) && lock.value.path !in old(registry.coordinator.holders) ==>
        r == Done(Pass) && lock.value.acquired
        && registry.coordinator.holders == old(registry.coordinator.holders)[lock.value.path := lock.value]
    {
      if lock.None? {
        return Done(Fail(JobLockException("Failed to acquire lock " + LockPathText(lockPath), NullPointer)));
      }
      var acquired := lock.value.Acquire();
      match acquired
      case Waiting => r := Waiting;
      case Done(Pass) => r := Done(Pass);
      case Done(Fail(e)) => r := Done(Fail(JobLockException("Failed to acquire lock " + lockPath.value, ZooKeeper(e))));
    }

    /** tryLock(): acquires the mutex within the configured timeout; false when it is held. */
    method TryLock() returns (r: Result<bool, LockError>)
      requires Valid()
      modifies Mutexes(), registry.coordinator
      ensures Valid() && registry.coordinator.connected == old(registry.coordinator.connected)
      ensures lock.None? ==> r == Err(JobLockException("Failed to acquire lock " + LockPathText(lockPath), NullPointer))
      ensures lock.Some? && !old(registry.coordinator.connected) ==>
        r == Err(JobLockException("Failed to acquire lock " + lockPath.value, ZooKeeper(ConnectionLoss)))
        && lock.value.acquired == old(lock.value.acquired) && registry.coordinator.holders == old(registry.coordinator.holders)
      ensures lock.Some? && old(registry.coordinator.connected) && lock.value.path in old(registry.coordinator.holders) ==>
        r == Ok(false) && lock.value.acquired == old(lock.value.acquired) && registry.coordinator.holders == old(registry.coordinator.holders)
      ensures lock.Some? && old(registry.coordinator.connected) && lock.value.path !in old(registry.coordinator.holders) ==>
        r == Ok(true) && lock.value.acquired
        && registry.coordinator.holders == old(registry.coordinator.holders)[lock.value.path := lock.value]
    {
      if lock.None? {
        return Err(JobLockException("Failed to acquire lock " + LockPathText(lockPath), NullPointer));
      }
      var acquired := lock.value.AcquireWithin(lockAcquireTimeoutMilliseconds);
      match acquired
      case Ok(b) => r := Ok(b);
      case Err(e) => r := Err(JobLockException("Failed to acquire lock " + lockPath.value, ZooKeeper(e)));
    }

    /** unlock(): releases the mutex when this lock holds it, and does nothing otherwise. */
    method Unlock() returns (r: Outcome<LockError>)
      requires Valid()
      modifies Mutexes(), registry.coordinator
      ensures Valid() && registry.coordinator.connected == old(registry.coordinator.connected)
      ensures lock.None? ==> r == Fail(NullPointerException)
      ensures lock.Some? && !old(lock.value.acquired) ==>
        r == Pass && lock.value.acquired == old(lock.value.acquired) && registry.coordinator.holders == old(registry.coordinator.holders)
      ensures lock.Some? && old(lock.value.acquired) ==> !lock.value.acquired
      ensures lock.Some? && old(lock.value.acquired) && old(registry.coordinator.connected) ==>
        r == Pass && registry.coordinator.holders == old(registry.coordinator.holders) - {lock.value.path}
      ensures lock.Some? && old(lock.value.acquired) && !old(registry.coordinator.connected) ==>
        r == Fail(JobLockException("Failed to release lock " + lockPath.value, ZooKeeper(ConnectionLoss)))
        && registry.coordinator.holders == old(registry.coordinator.holders)
    {
      if lock.None? {
        return Fail(NullPointerException);
      }
      if lock.value.acquired {
        var released := lock.value.Release();
        if released.Fail? {
          return Fail(JobLockException("Failed to release lock " + lockPath.value, ZooKeeper(released.error)));
        }
      }
      r := Pass;
    }

    /** isLocked(): whether this lock's mutex holds its node. */
    method IsLocked() returns (r: Result<bool, LockError>)
      requires Valid()
      ensures lock.None? ==> r == Err(NullPointerException)
      ensures lock.Some? ==> r == Ok(lock.value.acquired)
    {
      if lock.None? {
        return Err(NullPointerException);
      }
      r := Ok(lock.value.acquired);
    }

    /**
     * close(): unlocks, then always removes the lock path from the registry; a JobLockException of
     * unlock comes out wrapped in an IOException. With no lock path, the removal itself throws
     * NullPointerException.
     */
    method Close() returns (r: Outcome<LockError>)
      requires Valid()
      modifies Mutexes(), registry.coordinator, registry
      ensures Valid()
      ensures lock.Some? && old(lock.value.acquired) ==> !lock.value.acquired
      ensures lock.Some? && old(lock.value.acquired) && old(registry.coordinator.connected) ==>
        registry.coordinator.holders == old(registry.coordinator.holders) - {lock.value.path}
      ensures lockPath.None? ==> r == Fail(NullPointerException) && unchanged(registry)
      ensures lockPath.Some? ==>
        && registry.listeners == old(registry.listeners) - {lockPath.value}
        && registry.paths == Without(old(registry.paths), lockPath.value)
        && registry.framework == old(registry.framework) && registry.reaper == old(registry.reaper)
      ensures lockPath.Some? && lock.None? ==> r == Fail(NullPointerException)
      ensures lockPath.Some? && lock.Some? && (!old(lock.value.acquired) || old(registry.coordinator.connected)) ==> r == Pass
      ensures lockPath.Some? && lock.Some? && old(lock.value.acquired) && !old(registry.coordinator.connected) ==>
        r == Fail(IOException(JobLockException("Failed to release lock " + lockPath.value, ZooKeeper(ConnectionLoss))))
    {
      var unlocked := Unlock();
      if lockPath.None? {
        return Fail(NullPointerException);
      }
      var _ := registry.Remove(lockPath.value);
      r := if unlocked.Fail? && unlocked.error.JobLockException? then Fail(IOException(unlocked.error)) else unlocked;
    }
  }

  /** The ensemble the lock scenarios below connect to. */
  const ScenarioConnectString := "localhost:2181"
  /** The framework settings of the scenarios: the default numbers, over that ensemble. */
  const ScenarioCuratorSettings := CuratorSettings(Some(ScenarioConnectString), 30000, 180000, 1000, 10)
  const DefaultReaperSettings := ReaperSettings("/locks", "/services/locksChildReaper", 300000)

  /**
   * A lock of the given job made and initialised in a process, with only the connect string and
   * the job name configured; the process has no shared framework yet, or the one this builds. The
   * reaper is set unless it is missing and its start fails.
   */
  method InitializedLock(process: LockRegistry, jobName: string, listener: Listener)
    returns (l: ZookeeperBasedJobLock, init: Outcome<LockError>)
    requires process.Valid()
    requires jobName != "" && forall i :: 0 <= i < |jobName| ==> jobName[i] != '/' && jobName[i] != '\0'
    requires process.framework == None || process.framework == Some(ScenarioCuratorSettings)
    requires process.reaper == None || process.reaper == Some(DefaultReaperSettings)
    modifies process
    ensures init == Pass && fresh(l) && l.registry == process && l.Valid()
    ensures l.lockPath == Some("/locks/" + jobName) && l.lockAcquireTimeoutMilliseconds == 5000
    ensures l.lock.Some? && fresh(l.lock.value) && l.lock.value.path == "/locks/" + jobName && !l.lock.value.acquired
    ensures process.framework == Some(ScenarioCuratorSettings)
    ensures process.reaper ==
      if old(process.reaper).None? && process.coordinator.reaperStartFails then None else Some(DefaultReaperSettings)
    ensures "/locks/" + jobName in old(process.listeners) ==>
      process.listeners == old(process.listeners) && process.paths == old(process.paths)
    ensures "/locks/" + jobName !in old(process.listeners) ==>
      process.listeners == old(process.listeners)["/locks/" + jobName := listener]
      && process.paths == old(process.paths) + ["/locks/" + jobName]
  {
    var properties := map[ConnectionString := ScenarioConnectString, JobNameKey := jobName];
    DefaultSettings(properties);
    DefaultAcquireTimeout(properties);
    LockPathOfPlainName(jobName);
    l := new ZookeeperBasedJobLock(process);
    init := l.Initialize(properties, listener);
  }

  /**
   * Two processes sharing one ensemble, each with an initialised lock on the same job: two distinct
   * mutexes on one node, neither held.
   */
  method TwoProcessesOnOneJob() returns (ensemble: Coordinator, a: ZookeeperBasedJobLock, b: ZookeeperBasedJobLock)
    ensures a.Valid() && b.Valid() && a.registry.coordinator == ensemble && b.registry.coordinator == ensemble
    ensures a.lock.Some? && b.lock.Some? && a.lock.value != b.lock.value && a.lock.value.path == b.lock.value.path
    ensures !a.lock.value.acquired && !b.lock.value.acquired
    ensures ensemble.connected && ensemble.holders == map[]
    ensures fresh(ensemble) && fresh(a.lock.value) && fresh(b.lock.value)
  {
    ensemble := new Coordinator(false);
    var processA := new LockRegistry(ensemble);
    var processB := new LockRegistry(ensemble);
    var initA, initB;
    a, initA := InitializedLock(processA, "job", Listener(1));
    b, initB := InitializedLock(processB, "job", Listener(2));
  }

  /**
   * Two processes lock the same job through one ensemble: while the first holds the lock the
   * second's tryLock returns false, and once the first unlocks the second's tryLock succeeds.
   */
  method ExclusionAcrossProcesses()
    returns (first: Wait<Outcome<LockError>>, blocked: Result<bool, LockError>,
             released: Outcome<LockError>, taken: Result<bool, LockError>)
    ensures first == Done(Pass) && blocked == Ok(false) && released == Pass && taken == Ok(true)
  {
    var ensemble, a, b := TwoProcessesOnOneJob();
    first := a.Lock();
    blocked := b.TryLock();
    released := a.Unlock();
    taken := b.TryLock();
  }

  /**
   * Two locks of one process on different jobs: a lost connection calls each one's listener once,
   * and a reconnection calls none.
   */
  method LossReachesEveryLock() returns (lost: seq<Listener>, regained: seq<Listener>)
    ensures multiset(lost) == multiset{Listener(1), Listener(2)}
    ensures regained == []
  {
    var ensemble := new Coordinator(false);
    var process := new LockRegistry(ensemble);
    var a, initA := InitializedLock(process, "jobA", Listener(1));
    assert "/locks/" + "jobA" == "/locks/jobA";
    assert "/locks/" + "jobB" == "/locks/jobB";
    var b, initB := InitializedLock(process, "jobB", Listener(2));
    lost := process.OnConnectionStateChanged(Lost);
    assert lost == [Listener(1), Listener(2)];
    regained := process.OnConnectionStateChanged(Reconnected);
  }

  /**
   * A second lock of the same job in one process keeps the first lock's listener registered and
   * reuses the shared framework.
   */
  method SameJobTwiceInOneProcess() returns (registered: Option<Listener>, reused: bool)
    ensures registered == Some(Listener(1)) && reused
  {
    var ensemble := new Coordinator(false);
    var process := new LockRegistry(ensemble);
    var path := "/locks/job";
    assert "/locks/" + "job" == path;
    var a, initA := InitializedLock(process, "job", Listener(1));
    var framework := process.framework;
    var b, initB := InitializedLock(process, "job", Listener(2));
    registered := if path in process.listeners then Some(process.listeners[path]) else None;
    reused := process.framework == framework;
  }

  /**
   * A reaper whose start failed is retried: the first lock of a process comes up without a reaper,
   * and the next initialisation, once the start succeeds, sets it.
   */
  method ReaperStartRetried() returns (first: Outcome<LockError>, missing: bool, second: Outcome<LockError>, started: bool)
    ensures first == Pass && missing && second == Pass && started
  {
    var ensemble := new Coordinator(true);
    var process := new LockRegistry(ensemble);
    var a, b;
    a, first := InitializedLock(process, "jobA", Listener(1));
    missing := process.reaper.None?;
    ensemble.SetReaperStartFails(false);
    b, second := InitializedLock(process, "jobB", Listener(2));
    started := process.reaper == Some(DefaultReaperSettings);
  }

  /**
   * close() after the connection is lost while the lock is held: the release failure comes out as
   * an IOException, and the listener is deregistered all the same.
   */
  method CloseAfterConnectionLoss() returns (closed: Outcome<LockError>, registered: bool)
    ensures closed == Fail(IOException(JobLockException("Failed to release lock /locks/job", ZooKeeper(ConnectionLoss))))
    ensures !registered
  {
    var ensemble := new Coordinator(false);
    var process := new LockRegistry(ensemble);
    var path := "/locks/job";
    assert "/locks/" + "job" == path;
    assert "Failed to release lock " + path == "Failed to release lock /locks/job";
    var a, init := InitializedLock(process, "job", Listener(1));
    assert a.lockPath == Some(path) && a.lock.value.path == path && path !in ensemble.holders;
    var locked := a.Lock();
    assert a.lock.value.acquired;
    ensemble.SetConnected(false);
    assert a.Valid() && a.lockPath == Some(path);
    closed := a.Close();
    assert process.listeners == map[];
    registered := path in process.listeners;
  }
}
