/**
 * The validating constructors of ServerConfiguration in the trunk snapshot,
 * the one the startup code builds: an array of internal (backdoor) ports and
 * a private/public flag. The port check is the one of ServerConfig.
 */
module TrunkServerConfig {
  import opened Wrappers
  import opened TypeCatalogue
  import Checks = ServerConfig

  datatype Configuration = Configuration(
    numberOfClientThreadsPerReceiver: int,
    maxSizeOfWaitingList: int,
    listeningPorts: seq<int>,
    internalPorts: seq<int>,
    isPrivateServer: bool,
    key: int,
    wd: Option<string>)

  /**
   * The private constructor. A `null` array is `None`: a null listening array
   * is refused by name, a null internal array fails with a null pointer when
   * its for-each starts. `wdExists` is whether `new File(wd).exists()` and
   * `tmpDir` is the `java.io.tmpdir` property.
   */
  function Make(listeningPorts: Option<seq<int>>, internalPorts: Option<seq<int>>, threadsPerReceiver: int, maxSizeOfWaitingList: int,
                isPrivateServer: bool, key: int, wd: Option<string>, wdExists: bool, tmpDir: string): (r: Result<Configuration, JavaException>)
    ensures r.Ok? <==> 0 <= threadsPerReceiver <= Checks.MaxClientThreads && listeningPorts.Some? && Checks.AllValidPorts(listeningPorts.value) &&
                       internalPorts.Some? && Checks.AllValidPorts(internalPorts.value)
    ensures !(0 <= threadsPerReceiver <= Checks.MaxClientThreads) ==> r == Err(InvalidParameter(Checks.ThreadCountMessage))
    ensures 0 <= threadsPerReceiver <= Checks.MaxClientThreads && listeningPorts.None? ==> r == Err(InvalidParameter(Checks.NullPortsMessage))
    ensures 0 <= threadsPerReceiver <= Checks.MaxClientThreads && listeningPorts.Some? && !Checks.AllValidPorts(listeningPorts.value) ==>
      r == Err(InvalidParameter(Checks.PortMessage("listening")))
    ensures 0 <= threadsPerReceiver <= Checks.MaxClientThreads && listeningPorts.Some? && Checks.AllValidPorts(listeningPorts.value) && internalPorts.None? ==>
      r == Err(NullPointer)
    ensures 0 <= threadsPerReceiver <= Checks.MaxClientThreads && listeningPorts.Some? && Checks.AllValidPorts(listeningPorts.value) &&
            internalPorts.Some? && !Checks.AllValidPorts(internalPorts.value) ==>
      r == Err(InvalidParameter(Checks.PortMessage("internal")))
    ensures r.Ok? ==>
      r.value.numberOfClientThreadsPerReceiver == threadsPerReceiver &&
      r.value.maxSizeOfWaitingList == Checks.Clamped(maxSizeOfWaitingList) &&
      r.value.listeningPorts == listeningPorts.value && r.value.internalPorts == internalPorts.value &&
      r.value.isPrivateServer == isPrivateServer && r.value.key == key &&
      r.value.wd == (if !isPrivateServer then None else if wd.Some? && wdExists then wd else Some(tmpDir))
  {
    if threadsPerReceiver < 0 || threadsPerReceiver > Checks.MaxClientThreads then Err(InvalidParameter(Checks.ThreadCountMessage))
    else if listeningPorts.None? then Err(InvalidParameter(Checks.NullPortsMessage))
    else if Checks.CheckPorts(listeningPorts.value, "listening").Some? then Err(Checks.CheckPorts(listeningPorts.value, "listening").value)
    else if internalPorts.None? then Err(NullPointer)
    else if Checks.CheckPorts(internalPorts.value, "internal").Some? then Err(Checks.CheckPorts(internalPorts.value, "internal").value)
    else
      var workingDirectory := if isPrivateServer then (if wd.None? || !wdExists then Some(tmpDir) else wd) else None;
      Ok(Configuration(threadsPerReceiver, Checks.Clamped(maxSizeOfWaitingList), listeningPorts.value, internalPorts.value,
                       isPrivateServer, key, workingDirectory))
  }

  /** The public constructor: a server that is not private and has no working directory. */
  function Public(threadsPerReceiver: int, maxSizeOfWaitingList: int, listeningPorts: Option<seq<int>>, internalPorts: Option<seq<int>>, key: int)
    : (r: Result<Configuration, JavaException>)
    ensures r.Ok? <==> 0 <= threadsPerReceiver <= Checks.MaxClientThreads && listeningPorts.Some? && Checks.AllValidPorts(listeningPorts.value) &&
                       internalPorts.Some? && Checks.AllValidPorts(internalPorts.value)
    ensures r.Ok? ==>
      !r.value.isPrivateServer && r.value.wd == None && r.value.key == key &&
      r.value.numberOfClientThreadsPerReceiver == threadsPerReceiver && r.value.maxSizeOfWaitingList == Checks.Clamped(maxSizeOfWaitingList)
  {
    Make(listeningPorts, internalPorts, threadsPerReceiver, maxSizeOfWaitingList, false, key, None, false, "")
  }

  /** The private constructor: one thread per receiver, no waiting list, the given directory if it exists, else the temporary one. */
  function Private(listeningPorts: Option<seq<int>>, internalPorts: Option<seq<int>>, key: int, wd: Option<string>, wdExists: bool, tmpDir: string)
    : (r: Result<Configuration, JavaException>)
    ensures r.Ok? <==> listeningPorts.Some? && Checks.AllValidPorts(listeningPorts.value) && internalPorts.Some? && Checks.AllValidPorts(internalPorts.value)
    ensures r.Ok? ==>
      r.value.isPrivateServer && r.value.numberOfClientThreadsPerReceiver == 1 && r.value.maxSizeOfWaitingList == 0 &&
      r.value.key == key && r.value.wd == (if wd.Some? && wdExists then wd else Some(tmpDir))
  {
    Make(listeningPorts, internalPorts, 1, 0, true, key, wd, wdExists, tmpDir)
  }
}
