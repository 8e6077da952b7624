/**
 * The JavaLocalGatewayServer of the trunk snapshot: a one-to-one server with
 * a single REnvironment given at construction, a back door on the internal
 * port, and a client thread that reads the objects of its client in the local
 * dialect. A close requests shutdown; once the connection is closed or lost,
 * a server that shuts down on a closed connection requests shutdown and the
 * thread stops. The queue of waiting clients, the call receivers and the
 * shutdown itself belong to AbstractServer, which is not part of this model:
 * a client thread's work on one client is the method `Session`, a shutdown
 * request the flag `shutdownRequested`, and the call of the inherited
 * shutdown is recorded in `superShutdown`.
 */
module LocalGatewayServer {
  import opened Wrappers
  import opened JavaText
  import opened TypeCatalogue
  import opened Codec
  import opened Environment
  import opened GatewayProtocol
  import opened Discovery
  import opened ControlChannel
  import Config = ServerConfig

  class Server {
    const configuration: Config.Configuration
    /** The one environment every request of the client is processed in. */
    const translator: REnvironment
    /** Whether the server shuts down once its client is gone. */
    const shutdownOnClosedConnection: bool
    /** The listener on the internal port. */
    const backdoorThread: BackDoorThread
    var bypassShutdownForTesting: bool
    /** requestShutdown was called. */
    var shutdownRequested: bool
    /** The code the inherited shutdown was called with, if it was. */
    var superShutdown: Option<int>

    ghost predicate Valid()
      reads this, translator, backdoorThread
    {
      translator.Valid() && backdoorThread.Valid()
    }

    /** The public constructor: a server that shuts down when its connection is lost, its back door on the internal port. */
    constructor(configuration: Config.Configuration, translator: REnvironment)
      requires translator.Valid()
      ensures Valid() && this.configuration == configuration && this.translator == translator
      ensures shutdownOnClosedConnection
      ensures fresh(backdoorThread) && backdoorThread.port == configuration.internalPort && backdoorThread.running && backdoorThread.log == []
      ensures !bypassShutdownForTesting && !shutdownRequested && superShutdown == None
    {
      this.configuration := configuration;
      this.translator := translator;
      shutdownOnClosedConnection := true;
      backdoorThread := new BackDoorThread(configuration.internalPort);
      bypassShutdownForTesting := false;
      shutdownRequested := false;
      superShutdown := None;
    }

    /** The hidden constructor: as the public one, with the shutdown on a closed connection chosen by the caller. */
    constructor ForTesting(configuration: Config.Configuration, translator: REnvironment, shutdownOnClosedConnection: bool)
      requires translator.Valid()
      ensures Valid() && this.configuration == configuration && this.translator == translator
      ensures this.shutdownOnClosedConnection == shutdownOnClosedConnection
      ensures fresh(backdoorThread) && backdoorThread.port == configuration.internalPort && backdoorThread.running && backdoorThread.log == []
      ensures !bypassShutdownForTesting && !shutdownRequested && superShutdown == None
    {
      this.configuration := configuration;
      this.translator := translator;
      this.shutdownOnClosedConnection := shutdownOnClosedConnection;
      backdoorThread := new BackDoorThread(configuration.internalPort);
      bypassShutdownForTesting := false;
      shutdownRequested := false;
      superShutdown := None;
    }

    /**
     * The end of a conversation: a close requests shutdown; once the
     * connection is closed or lost, a server that shuts down on a closed
     * connection requests shutdown and the thread leaves its loop
     * (`threadEnds`). A conversation still open has none of these effects yet.
     */
    method Conclude(ending: Ending) returns (threadEnds: bool)
      modifies this
      ensures shutdownRequested == (old(shutdownRequested) || ending == Closed || (ending != Open && shutdownOnClosedConnection))
      ensures threadEnds == (ending != Open && shutdownOnClosedConnection)
      ensures bypassShutdownForTesting == old(bypassShutdownForTesting) && superShutdown == old(superShutdown)
    {
      threadEnds := false;
      if ending == Closed {
        shutdownRequested := true;
      }
      if ending != Open && shutdownOnClosedConnection {
        shutdownRequested := true;
        threadEnds := true;
      }
    }

    /**
     * One client served by the client thread: the conversation in the local
     * dialect on the server's environment, then Conclude.
     */
    method Session(requests: seq<Incoming>)
      returns (replies: seq<Reply>, ending: Ending, threadEnds: bool,
               ghost outcomes: seq<Result<Answer, JavaException>>, ghost trail: seq<EnvState>)
      requires Valid()
      modifies this, translator
      ensures Valid()
      ensures Conversation(Local, translator.host, translator.cat, requests, old(StateOf(translator)), StateOf(translator),
                           replies, ending, outcomes, trail)
      ensures shutdownRequested == (old(shutdownRequested) || ending == Closed || (ending != Open && shutdownOnClosedConnection))
      ensures threadEnds == (ending != Open && shutdownOnClosedConnection)
      ensures bypassShutdownForTesting == old(bypassShutdownForTesting) && superShutdown == old(superShutdown)
    {
      replies, ending, outcomes, trail := Serve(translator, Local, requests);
      threadEnds := Conclude(ending);
    }

    /**
     * shutdown: a back door still alive is stopped with a soft exit; then,
     * unless bypassed for testing, the inherited shutdown runs with the code.
     */
    method Shutdown(shutdownCode: int)
      requires Valid()
      modifies this, backdoorThread
      ensures Valid() && !backdoorThread.running
      ensures old(backdoorThread.running) ==>
        backdoorThread.log == old(backdoorThread.log) + [Acknowledged, ListenerClosed, ClientClosed] && !backdoorThread.listening
      ensures !old(backdoorThread.running) ==> backdoorThread.log == old(backdoorThread.log) && backdoorThread.listening == old(backdoorThread.listening)
      ensures superShutdown == if bypassShutdownForTesting then old(superShutdown) else Some(shutdownCode)
      ensures shutdownRequested == old(shutdownRequested) && bypassShutdownForTesting == old(bypassShutdownForTesting)
    {
      if backdoorThread.running {
        backdoorThread.SoftExitCall();
      }
      if bypassShutdownForTesting {
        return;
      }
      superShutdown := Some(shutdownCode);
    }

    /**
     * createFileInfoForLocalServer, given the file separator and the ports
     * the back door and the call receivers are bound to: without a working
     * directory the trim fails with a null pointer; otherwise
     * `key;backdoorPort;listeningPorts` is written directly, with no lock.
     */
    method CreateFileInfoForLocalServer(separator: string, backdoorPort: int, receiverPorts: seq<int>)
      returns (r: Result<seq<FileAction>, JavaException>)
      ensures configuration.wd.None? <==> r == Err(NullPointer)
      ensures r.Ok? ==> r.value == PlainPublication(DiscoveryPath(configuration.wd.value, separator),
                                                    LocalContent(configuration.key, backdoorPort, receiverPorts))
    {
      if configuration.wd.None? {
        return Err(NullPointer);
      }
      var filename := DiscoveryPath(configuration.wd.value, separator);
      var realizedListeningPorts := RealizedListeningPorts(receiverPorts);
      var outputStr := Discovery.Fields(IntToString(configuration.key), IntToString(backdoorPort), realizedListeningPorts);
      return Ok([WriteFile(filename, outputStr)]);
    }
  }
}
