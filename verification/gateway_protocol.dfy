/**
 * The conversation a client thread of the gateway servers holds with one
 * client: each object read from the socket is turned into a request result
 * (processRequest), and each result into a reply, a close or the end of a
 * lost connection (the body of the client thread's inner loop). The three
 * servers differ only in how processRequest treats Strings and
 * ClientRequest objects; the bookkeeping after a close is shared.
 */
module GatewayProtocol {
  import opened Wrappers
  import opened JavaText
  import opened TypeCatalogue
  import opened Codec
  import opened ObjectRegistry
  import opened Requests
  import opened Environment

  /** The name of `ClientRequest.closeConnection`. */
  const CloseConnection := "closeConnection"
  /** The prefix of a request carrying the client's send time in milliseconds. */
  const TimePrefix := "time"

  /** An object read from the client socket. */
  datatype Incoming =
    | Text(s: string)                   // a String
    | ClientRequestObject(name: string) // a constant of the ClientRequest enum
    | OtherObject                       // any other object
    | Unreadable(message: string)       // readObject threw an IOException

  /** Which processRequest reads the objects: the two JavaGatewayServer snapshots, or the JavaLocalGatewayServer. */
  datatype Dialect = Gateway | Local

  /** The exception a JavaGatewayException wraps: the target of an InvocationTargetException, or the exception itself. */
  datatype Nested = Target(target: Throwable) | Raised(cause: JavaException)

  /** What the server writes back to the client. */
  datatype Reply =
    | Done                               // ServerReply.Done
    | ClosingConnection                  // ServerReply.ClosingConnection
    | Echo(answer: Answer)               // the result itself
    | GatewayException(nested: Nested)   // a JavaGatewayException

  /** What the client thread does with one result. */
  datatype Reaction = Send(reply: Reply) | Closing | Lost

  /** How a conversation stands after the objects read so far. */
  datatype Ending = Open | Closed | ConnectionLost

  /** The registry of an REnvironment and the address of its next instance. */
  datatype EnvState = EnvState(buckets: Buckets, nextAddress: nat)

  function StateOf(env: REnvironment): EnvState
    reads env
  {
    EnvState(env.buckets, env.nextAddress)
  }

  // ---------------------------------------------------------------------------
  // processRequest
  // ---------------------------------------------------------------------------

  /**
   * A String request past the close check: a `time` prefix must be followed
   * by a long (the elapsed time is only logged), then processCode runs.
   */
  ghost predicate Timed(host: Host, cat: Catalogue, before: EnvState, request: string, r: Result<Answer, JavaException>, after: EnvState)
    requires WellFormed(cat)
  {
    if StartsWith(request, TimePrefix) && ParseLong(request[|TimePrefix|..]).None? then
      r == Err(NumberFormat(request[|TimePrefix|..])) && after == before
    else
      Processes(host, cat, before.buckets, before.nextAddress, request, r, after.buckets, after.nextAddress)
  }

  /**
   * processRequest in each dialect: the gateway servers answer a String
   * whose trimmed value is `closeConnection` with the close constant and
   * leave the environment alone, where the local server hands every String
   * to processCode; the local server returns ClientRequest objects
   * unchanged, where the gateway servers return null for them as for any
   * other non-String.
   */
  ghost predicate Handles(d: Dialect, host: Host, cat: Catalogue, before: EnvState, incoming: Incoming,
                          r: Result<Answer, JavaException>, after: EnvState)
    requires WellFormed(cat)
  {
    match incoming
    case Text(s) =>
      if d == Gateway && Trim(s) == CloseConnection then r == Ok(Request(CloseConnection)) && after == before
      else Timed(host, cat, before, s, r, after)
    case ClientRequestObject(name) => r == (if d == Gateway then Ok(NoAnswer) else Ok(Request(name))) && after == before
    case OtherObject => r == Ok(NoAnswer) && after == before
    case Unreadable(message) => r == Err(Transport(message)) && after == before
  }

  /** processRequest: the object read is handled by the environment of the client thread. */
  method ProcessRequest(env: REnvironment, d: Dialect, incoming: Incoming) returns (r: Result<Answer, JavaException>)
    requires env.Valid()
    modifies env
    ensures env.Valid()
    ensures Handles(d, env.host, env.cat, old(StateOf(env)), incoming, r, StateOf(env))
  {
    match incoming
    case Unreadable(message) =>
      return Err(Transport(message));
    case OtherObject =>
      return Ok(NoAnswer);
    case ClientRequestObject(name) =>
      if d == Gateway {
        return Ok(NoAnswer);
      }
      return Ok(Request(name));
    case Text(request) =>
      if d == Gateway && Trim(request) == CloseConnection {
        return Ok(Request(CloseConnection));
      }
      if StartsWith(request, TimePrefix) {
        var startMillisec := ParseLong(request[|TimePrefix|..]);
        if startMillisec.None? {
          return Err(NumberFormat(request[|TimePrefix|..]));
        }
      }
      r := env.ProcessCode(request);
  }

  /** A handler that records its results answers with wrappers or with an exception, never with a ClientRequest constant. */
  lemma AnswersAreNotNamed(host: Host, b: Buckets, vs: seq<JValue>, error: Option<JavaException>, always: bool,
                           r: Result<Answer, JavaException>, b': Buckets)
    requires Answers(host, b, vs, error, always, r, b')
    ensures r.Ok? ==> !r.value.Request?
  {
    var trail: seq<Buckets>, ws: seq<ParameterWrapper> :|
      RecordsAlong(host, trail, vs, ws, always) && trail[0] == b && trail[|vs|] == b' && r == Finish(error, ws);
  }

  /** Neither construction, method calls nor field accesses answer with a ClientRequest constant. */
  lemma HandlersAreNotNamed(host: Host, cat: Catalogue, b: Buckets, addr: nat, parts: seq<string>,
                            r: Result<Answer, JavaException>, b': Buckets, addr': nat)
    requires WellFormed(cat)
    requires ConstructionOutcome(host, cat, b, addr, parts, r, b', addr') ||
             MethodOutcome(host, cat, b, parts, r, b') || FieldOutcome(host, cat, b, parts, r, b')
    ensures r.Ok? ==> !r.value.Request?
  {
    if ConstructionOutcome(host, cat, b, addr, parts, r, b', addr') {
      var plan := ConstructionPlanOf(host, cat, b, parts);
      if plan.Ok? {
        var run := ConstructionRun(host, cat, plan.value, addr);
        AnswersAreNotNamed(host, b, run.values, run.error, true, r, b');
      }
    } else if MethodOutcome(host, cat, b, parts, r, b') {
      var plan := MethodPlanOf(host, cat, b, parts);
      if plan.Ok? {
        var run := Outcomes(host, plan.value.met, plan.value.targets, plan.value.params, plan.value.calls, 0);
        AnswersAreNotNamed(host, b, NonNull(run.values), run.error, false, r, b');
      }
    } else {
      var plan := FieldPlanOf(host, cat, b, parts);
      if plan.Ok? && plan.value.params == [] {
        var run := FieldReads(host, plan.value.field, plan.value.targets, 0);
        AnswersAreNotNamed(host, b, NonNull(run.values), run.error, false, r, b');
      }
    }
  }

  /**
   * processCode answers with a ClientRequest constant only through its last
   * branch: the request routed nowhere else, and the constant is named by
   * the whole request.
   */
  lemma NamedOnlyByUnknownRequest(host: Host, cat: Catalogue, b: Buckets, addr: nat, request: string,
                                  r: Result<Answer, JavaException>, b': Buckets, addr': nat)
    requires WellFormed(cat) && Processes(host, cat, b, addr, request, r, b', addr')
    requires r.Ok? && r.value.Request?
    ensures r.value.name == request && request in cat.clientRequests
    ensures Split(request, MainSplitter) != [] && Route(Split(request, MainSplitter)[0]) == Other
  {
    var parts := Split(request, MainSplitter);
    if parts != [] && Route(parts[0]) in {Construct, CallMethod, AccessField} {
      HandlersAreNotNamed(host, cat, b, addr, parts, r, b', addr');
    }
  }

  /** `closeConnection` is already trimmed and is not a timed request. */
  lemma CloseNameIsPlain()
    ensures Trim(CloseConnection) == CloseConnection && !StartsWith(CloseConnection, TimePrefix)
  {
    assert CloseConnection[0] == 'c' && CloseConnection[|CloseConnection| - 1] == 'n';
    assert TrimStart(CloseConnection) == CloseConnection;
  }

  /** `closeConnection` holds no `/`, so split on `/;` leaves it whole. */
  lemma CloseNameSplitsWhole()
    ensures Split(CloseConnection, MainSplitter) == [CloseConnection]
  {
    assert MainSplitter[0] !in CloseConnection;
    SplitJoin([CloseConnection], MainSplitter);
  }

  /** `closeConnection` matches no handler code: it starts with `cl`, not with the construction code `co`. */
  lemma CloseNameRoutesNowhere()
    ensures Route(CloseConnection) == Other
  {
    assert CloseConnection[1] == 'l';
    assert !StartsWith(CloseConnection, ConstructCode);
  }

  /** processCode answers with the close constant exactly for the String `closeConnection`, and only when the constant exists. */
  lemma ProcessesClosesOnName(host: Host, cat: Catalogue, b: Buckets, addr: nat, request: string,
                              r: Result<Answer, JavaException>, b': Buckets, addr': nat)
    requires WellFormed(cat) && Processes(host, cat, b, addr, request, r, b', addr')
    ensures r == Ok(Request(CloseConnection)) <==> request == CloseConnection && CloseConnection in cat.clientRequests
    ensures r == Ok(Request(CloseConnection)) ==> b' == b && addr' == addr
  {
    if r.Ok? && r.value.Request? {
      NamedOnlyByUnknownRequest(host, cat, b, addr, request, r, b', addr');
    }
    if request == CloseConnection {
      CloseNameSplitsWhole();
      CloseNameRoutesNowhere();
    }
  }

  /**
   * What closes a conversation. In the gateway servers: a String whose
   * trimmed value is `closeConnection`. In the local server: the String
   * `closeConnection` itself (untrimmed, and only when the ClientRequest
   * constant exists) or the closeConnection object.
   */
  predicate CloseRequest(d: Dialect, cat: Catalogue, incoming: Incoming) {
    match incoming
    case Text(s) =>
      if d == Gateway then Trim(s) == CloseConnection
      else s == CloseConnection && CloseConnection in cat.clientRequests
    case ClientRequestObject(name) => d == Local && name == CloseConnection
    case OtherObject => false
    case Unreadable(_) => false
  }

  /** A handled object closes the conversation exactly when it is a close request, and a close leaves the environment as it was. */
  lemma ClosesExactlyOnCloseRequest(d: Dialect, host: Host, cat: Catalogue, before: EnvState, incoming: Incoming,
                                    r: Result<Answer, JavaException>, after: EnvState)
    requires WellFormed(cat) && Handles(d, host, cat, before, incoming, r, after)
    ensures React(r) == Closing <==> CloseRequest(d, cat, incoming)
    ensures React(r) == Closing ==> after == before
  {
    match incoming
    case Text(s) =>
      TextCloseRequest(d, cat, s);
      if !(d == Gateway && Trim(s) == CloseConnection) {
        TimedClosesOnName(host, cat, before, s, r, after);
      }
    case _ =>
  }

  /** A String past the gateway's trimmed check is a close request only in the local dialect, and only as the exact name. */
  lemma TextCloseRequest(d: Dialect, cat: Catalogue, s: string)
    ensures d == Gateway && Trim(s) == CloseConnection ==> CloseRequest(d, cat, Text(s))
    ensures !(d == Gateway && Trim(s) == CloseConnection) ==>
      (CloseRequest(d, cat, Text(s)) <==> s == CloseConnection && CloseConnection in cat.clientRequests)
  {
    CloseNameIsPlain();
  }

  /** Past the close check, a String closes exactly when processCode is given `closeConnection` and the constant exists. */
  lemma TimedClosesOnName(host: Host, cat: Catalogue, before: EnvState, s: string, r: Result<Answer, JavaException>, after: EnvState)
    requires WellFormed(cat) && Timed(host, cat, before, s, r, after)
    ensures r == Ok(Request(CloseConnection)) <==> s == CloseConnection && CloseConnection in cat.clientRequests
    ensures r == Ok(Request(CloseConnection)) ==> after == before
  {
    CloseNameIsPlain();
    if !(StartsWith(s, TimePrefix) && ParseLong(s[|TimePrefix|..]).None?) {
      ProcessesClosesOnName(host, cat, before.buckets, before.nextAddress, s, r, after.buckets, after.nextAddress);
    }
  }

  /** Only the gateway servers trim: a close String padded with a blank closes there and not in the local server. */
  lemma PaddedCloseByDialect(host: Host, cat: Catalogue, before: EnvState,
                             rg: Result<Answer, JavaException>, ag: EnvState, rl: Result<Answer, JavaException>, al: EnvState)
    requires WellFormed(cat)
    requires Handles(Gateway, host, cat, before, Text(" " + CloseConnection), rg, ag)
    requires Handles(Local, host, cat, before, Text(" " + CloseConnection), rl, al)
    ensures React(rg) == Closing && React(rl) != Closing
  {
    PaddedCloseTrims();
    ClosesExactlyOnCloseRequest(Gateway, host, cat, before, Text(" " + CloseConnection), rg, ag);
    ClosesExactlyOnCloseRequest(Local, host, cat, before, Text(" " + CloseConnection), rl, al);
  }

  /** Trimming `closeConnection` padded with a leading blank gives the name back. */
  lemma PaddedCloseTrims()
    ensures Trim(" " + CloseConnection) == CloseConnection
  {
    var s := " " + CloseConnection;
    CloseNameIsPlain();
    assert s[1..] == CloseConnection;
    assert TrimStart(s) == CloseConnection;
  }

  // ---------------------------------------------------------------------------
  // The reply
  // ---------------------------------------------------------------------------

  /**
   * The reply decision: null is answered Done, the close sentinel closes the
   * connection, any other result is sent back as it is; an IOException means
   * the connection was lost (no reply), an InvocationTargetException is
   * answered with its target wrapped, any other exception wrapped itself.
   */
  function React(r: Result<Answer, JavaException>): (reaction: Reaction)
    ensures reaction == Closing <==> r == Ok(Request(CloseConnection))
    ensures reaction == Lost <==> r.Err? && r.error.Transport?
    ensures reaction == Send(Done) <==> r == Ok(NoAnswer)
    ensures r.Ok? && reaction.Send? && reaction.reply != Done ==> reaction.reply == Echo(r.value)
    ensures r.Err? && reaction.Send? ==> reaction.reply.GatewayException?
  {
    match r
    case Ok(answer) =>
      if answer == NoAnswer then Send(Done)
      else if answer == Request(CloseConnection) then Closing
      else Send(Echo(answer))
    case Err(e) =>
      match e
      case Transport(_) => Lost
      case InvocationTarget(t) => Send(GatewayException(Target(t)))
      case _ => Send(GatewayException(Raised(e)))
  }

  /** The reply tells the client which result it stands for: only lost connections are alike. */
  lemma ReactionDeterminesOutcome(r1: Result<Answer, JavaException>, r2: Result<Answer, JavaException>)
    requires React(r1) == React(r2) && React(r1) != Lost
    ensures r1 == r2
  {
    match r1
    case Ok(_) =>
    case Err(e) =>
      if e.InvocationTarget? {
        assert React(r2) == Send(GatewayException(Target(e.target)));
      }
  }

  /** What a reaction writes on the socket. */
  function Written(reaction: Reaction): (r: seq<Reply>)
    ensures |r| <= 1
    ensures r == [] <==> reaction == Lost
  {
    match reaction
    case Send(reply) => [reply]
    case Closing => [ClosingConnection]
    case Lost => []
  }

  /** The replies written for the results, in order. */
  function Replies(outcomes: seq<Result<Answer, JavaException>>): (r: seq<Reply>)
    ensures |r| <= |outcomes|
  {
    if outcomes == [] then []
    else Replies(outcomes[..|outcomes| - 1]) + Written(React(outcomes[|outcomes| - 1]))
  }

  /** A close ends the conversation, and so does a lost connection; any reply keeps it open. */
  function EndingOf(reaction: Reaction): Ending {
    match reaction
    case Send(_) => Open
    case Closing => Closed
    case Lost => ConnectionLost
  }

  /** The conversation is open until a result closes it or loses it. */
  function EndOf(outcomes: seq<Result<Answer, JavaException>>): (r: Ending)
    ensures r == Open <==> outcomes == [] || React(outcomes[|outcomes| - 1]).Send?
  {
    if outcomes == [] then Open else EndingOf(React(outcomes[|outcomes| - 1]))
  }

  /**
   * The first |outcomes| objects of `requests` were handled one after the
   * other, the environment going through `trail`.
   */
  ghost predicate Handled(d: Dialect, host: Host, cat: Catalogue, requests: seq<Incoming>,
                          outcomes: seq<Result<Answer, JavaException>>, trail: seq<EnvState>)
    requires WellFormed(cat)
  {
    |outcomes| <= |requests| && |trail| == |outcomes| + 1 &&
    forall k {:trigger outcomes[k]} :: 0 <= k < |outcomes| ==> Handles(d, host, cat, trail[k], requests[k], outcomes[k], trail[k + 1])
  }

  /** Every result but the last was answered, so the conversation went on after it. */
  predicate AnsweredBeforeLast(outcomes: seq<Result<Answer, JavaException>>) {
    forall k :: 0 <= k < |outcomes| - 1 ==> React(outcomes[k]).Send?
  }

  /** A conversation over `requests`: handled so far, and stopped early only on a close or a lost connection. */
  ghost predicate Converses(d: Dialect, host: Host, cat: Catalogue, requests: seq<Incoming>,
                            outcomes: seq<Result<Answer, JavaException>>, trail: seq<EnvState>)
    requires WellFormed(cat)
  {
    Handled(d, host, cat, requests, outcomes, trail) && AnsweredBeforeLast(outcomes) &&
    (EndOf(outcomes) == Open ==> |outcomes| == |requests|)
  }

  /** Handling the next object extends what was handled. */
  lemma HandledStep(d: Dialect, host: Host, cat: Catalogue, requests: seq<Incoming>,
                    outcomes: seq<Result<Answer, JavaException>>, trail: seq<EnvState>, r: Result<Answer, JavaException>, after: EnvState)
    requires WellFormed(cat) && Handled(d, host, cat, requests, outcomes, trail)
    requires |outcomes| < |requests| && Handles(d, host, cat, trail[|outcomes|], requests[|outcomes|], r, after)
    ensures Handled(d, host, cat, requests, outcomes + [r], trail + [after])
  {
    var outcomes', trail' := outcomes + [r], trail + [after];
    forall k | 0 <= k < |outcomes'|
      ensures Handles(d, host, cat, trail'[k], requests[k], outcomes'[k], trail'[k + 1])
    {
      if k < |outcomes| {
        assert outcomes'[k] == outcomes[k] && trail'[k] == trail[k] && trail'[k + 1] == trail[k + 1];
      } else {
        assert outcomes'[k] == r && trail'[k] == trail[k] && trail'[k + 1] == after;
      }
    }
  }

  /** A result after an answered one keeps every result but the last answered. */
  lemma AnsweredStep(outcomes: seq<Result<Answer, JavaException>>, r: Result<Answer, JavaException>)
    requires AnsweredBeforeLast(outcomes) && EndOf(outcomes) == Open
    ensures AnsweredBeforeLast(outcomes + [r])
  {
    var outcomes' := outcomes + [r];
    forall k | 0 <= k < |outcomes'| - 1
      ensures React(outcomes'[k]).Send?
    {
      assert outcomes'[k] == outcomes[k];
    }
  }

  /** A whole conversation: the objects read, what was written back and how it ended, from the state `before` to the state `after`. */
  ghost predicate Conversation(d: Dialect, host: Host, cat: Catalogue, requests: seq<Incoming>, before: EnvState, after: EnvState,
                               replies: seq<Reply>, ending: Ending, outcomes: seq<Result<Answer, JavaException>>, trail: seq<EnvState>)
    requires WellFormed(cat)
  {
    Converses(d, host, cat, requests, outcomes, trail) && trail[0] == before && trail[|outcomes|] == after &&
    replies == Replies(outcomes) && ending == EndOf(outcomes)
  }

  /**
   * The inner loop of a client thread: while the socket is open, read an
   * object, handle it and write the reply; a close writes ClosingConnection
   * and leaves the loop, a lost connection closes the socket without reply.
   */
  method Serve(env: REnvironment, d: Dialect, requests: seq<Incoming>)
    returns (replies: seq<Reply>, ending: Ending, ghost outcomes: seq<Result<Answer, JavaException>>, ghost trail: seq<EnvState>)
    requires env.Valid()
    modifies env
    ensures env.Valid()
    ensures Conversation(d, env.host, env.cat, requests, old(StateOf(env)), StateOf(env), replies, ending, outcomes, trail)
  {
    replies, ending, outcomes, trail := [], Open, [], [StateOf(env)];
    var i := 0;
    while i < |requests| && ending == Open
      invariant i == |outcomes|
      invariant env.Valid() && Handled(d, env.host, env.cat, requests, outcomes, trail) && AnsweredBeforeLast(outcomes)
      invariant trail[0] == old(StateOf(env)) && trail[|outcomes|] == StateOf(env)
      invariant replies == Replies(outcomes) && ending == EndOf(outcomes)
      decreases |requests| - i
    {
      var r := ProcessRequest(env, d, requests[i]);
      var reaction := React(r);
      replies := replies + Written(reaction);
      ending := EndingOf(reaction);
      HandledStep(d, env.host, env.cat, requests, outcomes, trail, r, StateOf(env));
      AnsweredStep(outcomes, r);
      assert (outcomes + [r])[..i] == outcomes;
      outcomes := outcomes + [r];
      trail := trail + [StateOf(env)];
      i := i + 1;
    }
  }
}
