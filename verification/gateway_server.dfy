/**
 * The JavaGatewayServer of the main source tree: one REnvironment per client
 * address, shared by the client threads that serve that address, the record
 * of which client thread works for which address, the shutdown taken on a
 * close or a lost connection, and the discovery file of a local server. The
 * call receivers, the queue of waiting clients and the shutdown itself
 * belong to AbstractServer, which is not part of this model: a client
 * thread's work on one client is the method `Session`, and a shutdown
 * request is the flag `shutdownRequested`.
 */
module GatewayServer {
  import opened Wrappers
  import opened JavaText
  import opened TypeCatalogue
  import opened Codec
  import opened Environment
  import opened GatewayProtocol
  import opened Discovery
  import Config = TrunkServerConfig

  /** The address of a client (an InetAddress). */
  type Address = string
  /** A client thread, by its worker id. */
  type Worker = nat

  /**
   * The bookkeeping after a close: the client thread stops working for its
   * address, and the environment of the address is dropped unless another
   * client thread still works for it (a test on the values of the map).
   */
  function AfterClose<E>(translators: map<Address, E>, workers: map<Worker, Address>, worker: Worker, addr: Address): (r: (map<Address, E>, map<Worker, Address>))
    ensures r.1 == workers - {worker}
    ensures forall a :: a in r.0 <==> a in translators && (a != addr || addr in r.1.Values)
    ensures forall a :: a in r.0 ==> r.0[a] == translators[a]
  {
    var rest := workers - {worker};
    (if addr in rest.Values then translators else translators - {addr}, rest)
  }

  /** The last client thread of an address to close drops its environment; any other keeps it for the others. */
  lemma LastCloseDropsEnvironment<E>(translators: map<Address, E>, workers: map<Worker, Address>, worker: Worker, other: Worker, addr: Address)
    requires addr in translators && worker in workers && workers[worker] == addr
    ensures (forall w :: w in workers && w != worker ==> workers[w] != addr) ==> addr !in AfterClose(translators, workers, worker, addr).0
    ensures other in workers && other != worker && workers[other] == addr ==>
      addr in AfterClose(translators, workers, worker, addr).0 && AfterClose(translators, workers, worker, addr).0[addr] == translators[addr]
  {
    var rest := workers - {worker};
    if other in workers && other != worker && workers[other] == addr {
      assert rest[other] == addr;
    }
  }

  class Server {
    /** The reflection oracles and the catalogue every environment works with. */
    const host: Host
    const cat: Catalogue
    const configuration: Config.Configuration
    /** Set from the configuration: a private server shuts down once its client is gone. */
    const shutdownOnClosedConnection: bool
    /** One environment per client address. */
    var translators: map<Address, REnvironment>
    /** The address each busy client thread works for. */
    var whoIsWorkingForWho: map<Worker, Address>
    /** requestShutdown was called. */
    var shutdownRequested: bool

    ghost predicate Valid()
      reads this, translators.Values
    {
      HostWellFormed(host) && WellFormed(cat) &&
      shutdownOnClosedConnection == configuration.isPrivateServer &&
      forall a :: a in translators ==> translators[a].Valid() && translators[a].host == host && translators[a].cat == cat
    }

    /** isPrivate, as the configuration says. */
    predicate IsPrivate() {
      configuration.isPrivateServer
    }

    /** The constructor: no client yet, and shutdown on a closed connection exactly for a private server. */
    constructor(host: Host, cat: Catalogue, configuration: Config.Configuration)
      requires HostWellFormed(host) && WellFormed(cat)
      ensures Valid() && this.host == host && this.cat == cat && this.configuration == configuration
      ensures shutdownOnClosedConnection == configuration.isPrivateServer
      ensures translators == map[] && whoIsWorkingForWho == map[] && !shutdownRequested
    {
      this.host := host;
      this.cat := cat;
      this.configuration := configuration;
      shutdownOnClosedConnection := configuration.isPrivateServer;
      translators := map[];
      whoIsWorkingForWho := map[];
      shutdownRequested := false;
    }

    /** registerClient: the environment of the address, a new empty one for an address not seen before. */
    method RegisterClient(clientAddress: Address) returns (env: REnvironment)
      requires Valid()
      modifies this
      ensures Valid() && clientAddress in translators && env == translators[clientAddress]
      ensures clientAddress in old(translators) ==> translators == old(translators)
      ensures clientAddress !in old(translators) ==>
        fresh(env) && translators == old(translators)[clientAddress := env] && env.buckets == map[] && env.nextAddress == 0
      ensures whoIsWorkingForWho == old(whoIsWorkingForWho) && shutdownRequested == old(shutdownRequested)
    {
      if clientAddress !in translators {
        var created := new REnvironment(host, cat);
        translators := translators[clientAddress := created];
      }
      env := translators[clientAddress];
    }

    /** The start of a client: its environment registered and the client thread recorded as working for it. */
    method Enroll(worker: Worker, clientAddress: Address) returns (translator: REnvironment)
      requires Valid()
      modifies this
      ensures Valid() && translator.Valid() && translator.host == host && translator.cat == cat
      ensures clientAddress in old(translators) ==> translator == old(translators)[clientAddress]
      ensures clientAddress !in old(translators) ==> fresh(translator) && translator.buckets == map[] && translator.nextAddress == 0
      ensures translators == old(translators)[clientAddress := translator]
      ensures whoIsWorkingForWho == old(whoIsWorkingForWho)[worker := clientAddress] && shutdownRequested == old(shutdownRequested)
    {
      translator := RegisterClient(clientAddress);
      whoIsWorkingForWho := whoIsWorkingForWho[worker := clientAddress];
    }

    /**
     * The end of a conversation: a close applies AfterClose and, on a
     * private server, requests shutdown; once the connection is closed or
     * lost, a server that shuts down on a closed connection requests
     * shutdown and the thread leaves its loop (`threadEnds`). A
     * conversation still open has none of these effects yet.
     */
    method Conclude(worker: Worker, clientAddress: Address, ending: Ending) returns (threadEnds: bool)
      requires Valid()
      modifies this
      ensures Valid()
      ensures ending == Closed ==>
        (translators, whoIsWorkingForWho) == AfterClose(old(translators), old(whoIsWorkingForWho), worker, clientAddress)
      ensures ending != Closed ==> translators == old(translators) && whoIsWorkingForWho == old(whoIsWorkingForWho)
      ensures shutdownRequested == (old(shutdownRequested) || (ending == Closed && IsPrivate()) || (ending != Open && shutdownOnClosedConnection))
      ensures threadEnds == (ending != Open && shutdownOnClosedConnection)
    {
      threadEnds := false;
      if ending == Closed {
        var after := AfterClose(translators, whoIsWorkingForWho, worker, clientAddress);
        translators, whoIsWorkingForWho := after.0, after.1;
        if IsPrivate() {
          shutdownRequested := true;
        }
      }
      if ending != Open && shutdownOnClosedConnection {
        shutdownRequested := true;
        threadEnds := true;
      }
    }

    /**
     * A client enrolled and its conversation in the gateway dialect held on
     * its environment, up to the close, the lost connection or the last
     * request; nothing of the server but the client's records changes.
     */
    method Attend(worker: Worker, clientAddress: Address, requests: seq<Incoming>)
      returns (replies: seq<Reply>, ending: Ending,
               ghost env: REnvironment, ghost before: EnvState, ghost outcomes: seq<Result<Answer, JavaException>>, ghost trail: seq<EnvState>)
      requires Valid()
      modifies this, translators.Values
      ensures Valid()
      ensures clientAddress in old(translators) ==> env == old(translators)[clientAddress] && before == old(StateOf(env))
      ensures clientAddress !in old(translators) ==> fresh(env) && before == EnvState(map[], 0)
      ensures Conversation(Gateway, host, cat, requests, before, StateOf(env), replies, ending, outcomes, trail)
      ensures translators == old(translators)[clientAddress := env] && whoIsWorkingForWho == old(whoIsWorkingForWho)[worker := clientAddress]
      ensures shutdownRequested == old(shutdownRequested)
    {
      var translator := Enroll(worker, clientAddress);
      env, before := translator, StateOf(translator);
      assert translators[clientAddress] == translator;
      replies, ending, outcomes, trail := Hold(translator, requests);
    }

    /** The conversation of a client on its environment, in the gateway dialect; the server stays valid. */
    method Hold(env: REnvironment, requests: seq<Incoming>)
      returns (replies: seq<Reply>, ending: Ending, ghost outcomes: seq<Result<Answer, JavaException>>, ghost trail: seq<EnvState>)
      requires Valid() && env in translators.Values
      modifies env
      ensures Valid()
      ensures Conversation(Gateway, host, cat, requests, old(StateOf(env)), StateOf(env), replies, ending, outcomes, trail)
    {
      replies, ending, outcomes, trail := Serve(env, Gateway, requests);
      forall a | a in translators
        ensures translators[a].Valid()
      {
        assert translators[a] in old(translators.Values);
      }
    }

    /** One client served by a client thread (the body of its outer loop): Attend, then Conclude. */
    method Session(worker: Worker, clientAddress: Address, requests: seq<Incoming>)
      returns (replies: seq<Reply>, ending: Ending, threadEnds: bool,
               ghost env: REnvironment, ghost before: EnvState, ghost outcomes: seq<Result<Answer, JavaException>>, ghost trail: seq<EnvState>)
      requires Valid()
      modifies this, translators.Values
      ensures Valid()
      ensures clientAddress in old(translators) ==> env == old(translators)[clientAddress] && before == old(StateOf(env))
      ensures clientAddress !in old(translators) ==> fresh(env) && before == EnvState(map[], 0)
      ensures Conversation(Gateway, host, cat, requests, before, StateOf(env), replies, ending, outcomes, trail)
      ensures ending == Closed ==>
        (translators, whoIsWorkingForWho) ==
          AfterClose(old(translators)[clientAddress := env], old(whoIsWorkingForWho)[worker := clientAddress], worker, clientAddress)
      ensures ending != Closed ==>
        translators == old(translators)[clientAddress := env] && whoIsWorkingForWho == old(whoIsWorkingForWho)[worker := clientAddress]
      ensures shutdownRequested == (old(shutdownRequested) || (ending == Closed && IsPrivate()) || (ending != Open && shutdownOnClosedConnection))
      ensures threadEnds == (ending != Open && shutdownOnClosedConnection)
    {
      replies, ending, env, before, outcomes, trail := Attend(worker, clientAddress, requests);
      threadEnds := Conclude(worker, clientAddress, ending);
    }

    /**
     * createFileInfoForLocalServer, given the file separator and the ports
     * the back door, the garbage-collection receiver and the call receivers
     * are bound to: without a working directory (a public configuration)
     * the trim fails with a null pointer; otherwise an empty lock file is
     * written, then the content, then the lock file is deleted.
     */
    method CreateFileInfoForLocalServer(separator: string, backdoorPort: int, gcPort: int, receiverPorts: seq<int>)
      returns (r: Result<seq<FileAction>, JavaException>)
      ensures configuration.wd.None? <==> r == Err(NullPointer)
      ensures r.Ok? ==> r.value == LockedPublication(DiscoveryPath(configuration.wd.value, separator),
                                                     GatewayContent(configuration.key, backdoorPort, gcPort, receiverPorts))
    {
      if configuration.wd.None? {
        return Err(NullPointer);
      }
      var filename := DiscoveryPath(configuration.wd.value, separator);
      var realizedListeningPorts := RealizedListeningPorts(receiverPorts);
      var outputStr := Discovery.Fields(IntToString(configuration.key), IntToString(backdoorPort) + PortSplitter + IntToString(gcPort), realizedListeningPorts);
      return Ok([WriteFile(filename + LockSuffix, ""), WriteFile(filename, outputStr), DeleteFile(filename + LockSuffix)]);
    }
  }

  /** isPublicServerRunning: whether the last server constructed is public; false when there is none. */
  function IsPublicServerRunning(instance: Server?): (r: bool)
    ensures r <==> instance != null && !instance.configuration.isPrivateServer
  {
    instance != null && !instance.IsPrivate()
  }
}
