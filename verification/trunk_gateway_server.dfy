/**
 * The JavaGatewayServer of the trunk snapshot. It keeps the environments and
 * the client-thread record of the main source tree's server, but a close
 * requests shutdown whatever the kind of server, the discovery file is
 * written without a lock, and its shutdown first stops the back door with a
 * soft exit and can be bypassed for testing. The back door and the shutdown
 * itself belong to AbstractServer, which is not part of this model: the back
 * door is taken to be the BackDoorThread of ControlChannel, and the call of
 * the inherited shutdown is recorded in `superShutdown`.
 */
module TrunkGatewayServer {
  import opened Wrappers
  import opened JavaText
  import opened TypeCatalogue
  import opened Codec
  import opened Environment
  import opened GatewayProtocol
  import opened Discovery
  import opened ControlChannel
  import Config = TrunkServerConfig
  import GatewayServer

  type Address = GatewayServer.Address
  type Worker = GatewayServer.Worker

  class Server {
    const host: Host
    const cat: Catalogue
    const configuration: Config.Configuration
    /** Set from the configuration: a private server shuts down once its client is gone. */
    const shutdownOnClosedConnection: bool
    /** The listener on the internal port. */
    const backdoorThread: BackDoorThread
    var translators: map<Address, REnvironment>
    var whoIsWorkingForWho: map<Worker, Address>
    var shutdownRequested: bool
    var bypassShutdownForTesting: bool
    /** The code the inherited shutdown was called with, if it was. */
    var superShutdown: Option<int>

    ghost predicate Valid()
      reads this, translators.Values, backdoorThread
    {
      HostWellFormed(host) && WellFormed(cat) && backdoorThread.Valid() &&
      shutdownOnClosedConnection == configuration.isPrivateServer &&
      forall a :: a in translators ==> translators[a].Valid() && translators[a].host == host && translators[a].cat == cat
    }

    /**
     * The constructor: the REnvironment and the main instance it is given
     * play no part; no client yet, the back door listening, and shutdown on
     * a closed connection exactly for a private server.
     */
    constructor(host: Host, cat: Catalogue, configuration: Config.Configuration, backdoorPort: int)
      requires HostWellFormed(host) && WellFormed(cat)
      ensures Valid() && this.host == host && this.cat == cat && this.configuration == configuration
      ensures shutdownOnClosedConnection == configuration.isPrivateServer
      ensures fresh(backdoorThread) && backdoorThread.port == backdoorPort && backdoorThread.running && backdoorThread.log == []
      ensures translators == map[] && whoIsWorkingForWho == map[] && !shutdownRequested
      ensures !bypassShutdownForTesting && superShutdown == None
    {
      this.host := host;
      this.cat := cat;
      this.configuration := configuration;
      shutdownOnClosedConnection := configuration.isPrivateServer;
      backdoorThread := new BackDoorThread(backdoorPort);
      translators := map[];
      whoIsWorkingForWho := map[];
      shutdownRequested := false;
      bypassShutdownForTesting := false;
      superShutdown := None;
    }

    /** registerClient: the environment of the address, a new empty one for an address not seen before. */
    method RegisterClient(clientAddress: Address) returns (env: REnvironment)
      requires Valid()
      modifies this
      ensures Valid() && clientAddress in translators && env == translators[clientAddress]
      ensures clientAddress in old(translators) ==> translators == old(translators)
      ensures clientAddress !in old(translators) ==>
        fresh(env) && translators == old(translators)[clientAddress := env] && env.buckets == map[] && env.nextAddress == 0
      ensures whoIsWorkingForWho == old(whoIsWorkingForWho) && shutdownRequested == old(shutdownRequested)
      ensures bypassShutdownForTesting == old(bypassShutdownForTesting) && superShutdown == old(superShutdown)
    {
      if clientAddress !in translators {
        var created := new REnvironment(host, cat);
        translators := translators[clientAddress := created];
      }
      env := translators[clientAddress];
    }

    /** The start of a client: its environment registered and the client thread recorded as working for it. */
    method Enroll(worker: Worker, clientAddress: Address) returns (translator: REnvironment)
      requires Valid()
      modifies this
      ensures Valid() && translator.Valid() && translator.host == host && translator.cat == cat
      ensures clientAddress in old(translators) ==> translator == old(translators)[clientAddress]
      ensures clientAddress !in old(translators) ==> fresh(translator) && translator.buckets == map[] && translator.nextAddress == 0
      ensures translators == old(translators)[clientAddress := translator]
      ensures whoIsWorkingForWho == old(whoIsWorkingForWho)[worker := clientAddress] && shutdownRequested == old(shutdownRequested)
      ensures bypassShutdownForTesting == old(bypassShutdownForTesting) && superShutdown == old(superShutdown)
    {
      translator := RegisterClient(clientAddress);
      whoIsWorkingForWho := whoIsWorkingForWho[worker := clientAddress];
    }

    /**
     * The end of a conversation: a close applies AfterClose and requests
     * shutdown on any server; once the connection is closed or lost, a
     * server that shuts down on a closed connection requests shutdown and
     * the thread leaves its loop (`threadEnds`).
     */
    method Conclude(worker: Worker, clientAddress: Address, ending: Ending) returns (threadEnds: bool)
      requires Valid()
      modifies this
      ensures Valid()
      ensures ending == Closed ==>
        (translators, whoIsWorkingForWho) == GatewayServer.AfterClose(old(translators), old(whoIsWorkingForWho), worker, clientAddress)
      ensures ending != Closed ==> translators == old(translators) && whoIsWorkingForWho == old(whoIsWorkingForWho)
      ensures shutdownRequested == (old(shutdownRequested) || ending == Closed || (ending != Open && shutdownOnClosedConnection))
      ensures threadEnds == (ending != Open && shutdownOnClosedConnection)
      ensures bypassShutdownForTesting == old(bypassShutdownForTesting) && superShutdown == old(superShutdown)
    {
      threadEnds := false;
      if ending == Closed {
        var after := GatewayServer.AfterClose(translators, whoIsWorkingForWho, worker, clientAddress);
        translators, whoIsWorkingForWho := after.0, after.1;
        shutdownRequested := true;
      }
      if ending != Open && shutdownOnClosedConnection {
        shutdownRequested := true;
        threadEnds := true;
      }
    }

    /**
     * A client enrolled and its conversation in the gateway dialect held on
     * its environment, up to the close, the lost connection or the last
     * request; nothing of the server but the client's records changes.
     */
    method Attend(worker: Worker, clientAddress: Address, requests: seq<Incoming>)
      returns (replies: seq<Reply>, ending: Ending,
               ghost env: REnvironment, ghost before: EnvState, ghost outcomes: seq<Result<Answer, JavaException>>, ghost trail: seq<EnvState>)
      requires Valid()
      modifies this, translators.Values
      ensures Valid()
      ensures clientAddress in old(translators) ==> env == old(translators)[clientAddress] && before == old(StateOf(env))
      ensures clientAddress !in old(translators) ==> fresh(env) && before == EnvState(map[], 0)
      ensures Conversation(Gateway, host, cat, requests, before, StateOf(env), replies, ending, outcomes, trail)
      ensures translators == old(translators)[clientAddress := env] && whoIsWorkingForWho == old(whoIsWorkingForWho)[worker := clientAddress]
      ensures shutdownRequested == old(shutdownRequested)
    {
      var translator := Enroll(worker, clientAddress);
      env, before := translator, StateOf(translator);
      assert translators[clientAddress] == translator;
      replies, ending, outcomes, trail := Hold(translator, requests);
    }

    /** The conversation of a client on its environment, in the gateway dialect; the server stays valid. */
    method Hold(env: REnvironment, requests: seq<Incoming>)
      returns (replies: seq<Reply>, ending: Ending, ghost outcomes: seq<Result<Answer, JavaException>>, ghost trail: seq<EnvState>)
      requires Valid() && env in translators.Values
      modifies env
      ensures Valid()
      ensures Conversation(Gateway, host, cat, requests, old(StateOf(env)), StateOf(env), replies, ending, outcomes, trail)
    {
      replies, ending, outcomes, trail := Serve(env, Gateway, requests);
      forall a | a in translators
        ensures translators[a].Valid()
      {
        assert translators[a] in old(translators.Values);
      }
    }

    /** One client served by a client thread: Attend, then Conclude. */
    method Session(worker: Worker, clientAddress: Address, requests: seq<Incoming>)
      returns (replies: seq<Reply>, ending: Ending, threadEnds: bool,
               ghost env: REnvironment, ghost before: EnvState, ghost outcomes: seq<Result<Answer, JavaException>>, ghost trail: seq<EnvState>)
      requires Valid()
      modifies this, translators.Values
      ensures Valid()
      ensures clientAddress in old(translators) ==> env == old(translators)[clientAddress] && before == old(StateOf(env))
      ensures clientAddress !in old(translators) ==> fresh(env) && before == EnvState(map[], 0)
      ensures Conversation(Gateway, host, cat, requests, before, StateOf(env), replies, ending, outcomes, trail)
      ensures ending == Closed ==>
        (translators, whoIsWorkingForWho) ==
          GatewayServer.AfterClose(old(translators)[clientAddress := env], old(whoIsWorkingForWho)[worker := clientAddress], worker, clientAddress)
      ensures ending != Closed ==>
        translators == old(translators)[clientAddress := env] && whoIsWorkingForWho == old(whoIsWorkingForWho)[worker := clientAddress]
      ensures shutdownRequested == (old(shutdownRequested) || ending == Closed || (ending != Open && shutdownOnClosedConnection))
      ensures threadEnds == (ending != Open && shutdownOnClosedConnection)
    {
      replies, ending, env, before, outcomes, trail := Attend(worker, clientAddress, requests);
      threadEnds := Conclude(worker, clientAddress, ending);
    }

    /**
     * shutdown: a back door still alive is stopped with a soft exit; then,
     * unless bypassed for testing, the inherited shutdown runs with the code.
     */
    method Shutdown(shutdownCode: int)
      requires Valid()
      modifies this, backdoorThread
      ensures Valid() && !backdoorThread.running
      ensures old(backdoorThread.running) ==>
        backdoorThread.log == old(backdoorThread.log) + [Acknowledged, ListenerClosed, ClientClosed] && !backdoorThread.listening
      ensures !old(backdoorThread.running) ==> backdoorThread.log == old(backdoorThread.log) && backdoorThread.listening == old(backdoorThread.listening)
      ensures superShutdown == if bypassShutdownForTesting then old(superShutdown) else Some(shutdownCode)
      ensures translators == old(translators) && whoIsWorkingForWho == old(whoIsWorkingForWho)
      ensures shutdownRequested == old(shutdownRequested) && bypassShutdownForTesting == old(bypassShutdownForTesting)
    {
      if backdoorThread.running {
        backdoorThread.SoftExitCall();
      }
      if bypassShutdownForTesting {
        return;
      }
      superShutdown := Some(shutdownCode);
    }

    /**
     * createFileInfoForLocalServer, given the file separator and the bound
     * ports: without a working directory the trim fails with a null
     * pointer; otherwise the content is written directly, with no lock.
     */
    method CreateFileInfoForLocalServer(separator: string, backdoorPort: int, gcPort: int, receiverPorts: seq<int>)
      returns (r: Result<seq<FileAction>, JavaException>)
      ensures configuration.wd.None? <==> r == Err(NullPointer)
      ensures r.Ok? ==> r.value == PlainPublication(DiscoveryPath(configuration.wd.value, separator),
                                                    GatewayContent(configuration.key, backdoorPort, gcPort, receiverPorts))
    {
      if configuration.wd.None? {
        return Err(NullPointer);
      }
      var filename := DiscoveryPath(configuration.wd.value, separator);
      var realizedListeningPorts := RealizedListeningPorts(receiverPorts);
      var outputStr := Discovery.Fields(IntToString(configuration.key), IntToString(backdoorPort) + PortSplitter + IntToString(gcPort), realizedListeningPorts);
      return Ok([WriteFile(filename, outputStr)]);
    }
  }
}
