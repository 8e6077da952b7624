/**
 * The validating constructors of ServerConfiguration (the snapshot with one
 * internal port and a local/public flag). A configuration is an immutable
 * value: every field is final and set once by the private constructor.
 */
module ServerConfig {
  import opened Wrappers
  import opened TypeCatalogue

  const MinPort := 1024
  const MaxPort := 65535
  const MaxClientThreads := 10

  const ThreadCountMessage := "Number of client threads should be between 1 and 10!"
  const NullPortsMessage := "The listeningPorts argument cannot be set to null!"

  /** The message of checkPort, naming the kind of port. */
  function PortMessage(portType: string): string {
    "The " + portType + " port must be between 1024 and 65535 (or can be 0 for a random port)!"
  }

  /** A port the configuration accepts: 0 (any free port) or one in 1024..65535. */
  predicate ValidPort(port: int) {
    port == 0 || MinPort <= port <= MaxPort
  }

  /** checkPort: an InvalidParameterException naming the kind of port unless the port is valid. */
  function CheckPort(port: int, portType: string): (r: Option<JavaException>)
    ensures r.None? <==> ValidPort(port)
    ensures r.Some? ==> r.value == InvalidParameter(PortMessage(portType))
  {
    if port != 0 && (port < MinPort || port > MaxPort) then Some(InvalidParameter(PortMessage(portType))) else None
  }

  /** The for-each over a port array: the first port checkPort refuses ends construction. */
  function CheckPorts(ports: seq<int>, portType: string): (r: Option<JavaException>)
    ensures r.None? <==> forall k :: 0 <= k < |ports| ==> ValidPort(ports[k])
    ensures r.Some? ==> r.value == InvalidParameter(PortMessage(portType))
  {
    if ports == [] then None
    else
      match CheckPort(ports[0], portType)
      case Some(e) => Some(e)
      case None =>
        var rest := CheckPorts(ports[1..], portType);
        assert forall k :: 1 <= k < |ports| ==> ports[k] == ports[1..][k - 1];
        rest
  }

  /** Every port of the array is valid. */
  predicate AllValidPorts(ports: seq<int>) {
    forall k :: 0 <= k < |ports| ==> ValidPort(ports[k])
  }

  /** The waiting-list size as stored: a negative size becomes 0. */
  function Clamped(size: int): (r: int)
    ensures r >= 0 && (size >= 0 ==> r == size)
  {
    if size < 0 then 0 else size
  }

  datatype Configuration = Configuration(
    numberOfClientThreads: int,
    maxSizeOfWaitingList: int,
    listeningPorts: seq<int>,
    internalPort: int,
    isLocal: bool,
    key: int,
    wd: Option<string>)

  /**
   * The private constructor. A `null` array is `None`; `wdExists` is whether
   * `new File(wd).exists()` and `tmpDir` is the `java.io.tmpdir` property.
   * The checks run in source order: thread count, null ports, each listening
   * port, the internal port.
   */
  function Make(listeningPorts: Option<seq<int>>, internalPort: int, numberOfClientThreads: int, maxSizeOfWaitingList: int,
                isLocal: bool, key: int, wd: Option<string>, wdExists: bool, tmpDir: string): (r: Result<Configuration, JavaException>)
    ensures r.Ok? <==> 0 <= numberOfClientThreads <= MaxClientThreads && listeningPorts.Some? &&
                       AllValidPorts(listeningPorts.value) && ValidPort(internalPort)
    ensures !(0 <= numberOfClientThreads <= MaxClientThreads) ==> r == Err(InvalidParameter(ThreadCountMessage))
    ensures 0 <= numberOfClientThreads <= MaxClientThreads && listeningPorts.None? ==> r == Err(InvalidParameter(NullPortsMessage))
    ensures 0 <= numberOfClientThreads <= MaxClientThreads && listeningPorts.Some? && !AllValidPorts(listeningPorts.value) ==>
      r == Err(InvalidParameter(PortMessage("listening")))
    ensures 0 <= numberOfClientThreads <= MaxClientThreads && listeningPorts.Some? && AllValidPorts(listeningPorts.value) && !ValidPort(internalPort) ==>
      r == Err(InvalidParameter(PortMessage("internal")))
    ensures r.Ok? ==>
      r.value.numberOfClientThreads == numberOfClientThreads &&
      r.value.maxSizeOfWaitingList == Clamped(maxSizeOfWaitingList) &&
      r.value.listeningPorts == listeningPorts.value && r.value.internalPort == internalPort &&
      r.value.isLocal == isLocal && r.value.key == key &&
      r.value.wd == (if !isLocal then None else if wd.Some? && wdExists then wd else Some(tmpDir))
  {
    if numberOfClientThreads < 0 || numberOfClientThreads > MaxClientThreads then Err(InvalidParameter(ThreadCountMessage))
    else if listeningPorts.None? then Err(InvalidParameter(NullPortsMessage))
    else if CheckPorts(listeningPorts.value, "listening").Some? then Err(CheckPorts(listeningPorts.value, "listening").value)
    else if CheckPort(internalPort, "internal").Some? then Err(CheckPort(internalPort, "internal").value)
    else
      var workingDirectory := if isLocal then (if wd.None? || !wdExists then Some(tmpDir) else wd) else None;
      Ok(Configuration(numberOfClientThreads, Clamped(maxSizeOfWaitingList), listeningPorts.value, internalPort, isLocal, key, workingDirectory))
  }

  /** The public constructor: not local, key -1 and no working directory. */
  function Public(numberOfClientThreads: int, maxSizeOfWaitingList: int, listeningPorts: Option<seq<int>>, internalPort: int): (r: Result<Configuration, JavaException>)
    ensures r.Ok? <==> 0 <= numberOfClientThreads <= MaxClientThreads && listeningPorts.Some? &&
                       AllValidPorts(listeningPorts.value) && ValidPort(internalPort)
    ensures r.Ok? ==>
      !r.value.isLocal && r.value.key == -1 && r.value.wd == None &&
      r.value.numberOfClientThreads == numberOfClientThreads && r.value.maxSizeOfWaitingList == Clamped(maxSizeOfWaitingList)
  {
    Make(listeningPorts, internalPort, numberOfClientThreads, maxSizeOfWaitingList, false, -1, None, false, "")
  }

  /** The local constructor: one client thread, no waiting list, the given directory if it exists, else the temporary one. */
  function Local(listeningPorts: Option<seq<int>>, internalPort: int, key: int, wd: Option<string>, wdExists: bool, tmpDir: string): (r: Result<Configuration, JavaException>)
    ensures r.Ok? <==> listeningPorts.Some? && AllValidPorts(listeningPorts.value) && ValidPort(internalPort)
    ensures r.Ok? ==>
      r.value.isLocal && r.value.numberOfClientThreads == 1 && r.value.maxSizeOfWaitingList == 0 &&
      r.value.key == key && r.value.wd == (if wd.Some? && wdExists then wd else Some(tmpDir))
  {
    Make(listeningPorts, internalPort, 1, 0, true, key, wd, wdExists, tmpDir)
  }

  /** The bound on client threads admits 0, although its message asks for 1 to 10. */
  lemma ZeroThreadsAccepted(waiting: int)
    ensures Public(0, waiting, Some([]), 0).Ok?
    ensures Public(0, waiting, Some([]), 0).value.numberOfClientThreads == 0
    ensures Public(-1, waiting, Some([]), 0) == Err(InvalidParameter(ThreadCountMessage))
  {
  }
}
