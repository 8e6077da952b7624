/**
 * The back door of the local gateway server (BackDoorThread): a listener on
 * the internal port that acknowledges every call, ends the whole process on
 * `emergencyShutdown` and ends its own loop on `softExit`. The sockets become
 * the calls the listener accepts and the events it produces.
 */
module ControlChannel {
  import opened Wrappers

  const EmergencyShutdown := "emergencyShutdown"
  const SoftExit := "softExit"
  /** The status the process exits with on an emergency shutdown. */
  const EmergencyStatus := 1

  /**
   * One turn of the listener: accept threw, or a client connected and sent
   * an object, given by its `toString` (`None` when nothing could be read).
   */
  datatype ControlCall = AcceptFailed | Connected(command: Option<string>)

  /** What the listener does that can be observed from outside. */
  datatype ControlEvent =
    | Acknowledged          // ServerReply.CallAccepted written to the client
    | ClientClosed          // the client socket closed in the finally block
    | ListenerClosed        // the server socket of the back door closed
    | SystemExit(status: int)

  /** The calls that end the loop: the two commands the listener knows. */
  predicate Stops(call: ControlCall) {
    call == Connected(Some(EmergencyShutdown)) || call == Connected(Some(SoftExit))
  }

  /**
   * One turn of run: a connected client is acknowledged first; an emergency
   * shutdown exits the process before the finally block can close the
   * client; a soft exit closes the listener, then the client; anything
   * else, including an unreadable request, only closes the client.
   */
  function Events(call: ControlCall): (r: seq<ControlEvent>)
    ensures call.AcceptFailed? <==> r == []
    ensures call.Connected? ==> r[0] == Acknowledged
    ensures ClientClosed in r <==> call.Connected? && call.command != Some(EmergencyShutdown)
    ensures ListenerClosed in r <==> call == Connected(Some(SoftExit))
    ensures SystemExit(EmergencyStatus) in r <==> call == Connected(Some(EmergencyShutdown))
    ensures call == Connected(Some(EmergencyShutdown)) ==> r[|r| - 1] == SystemExit(EmergencyStatus)
  {
    match call
    case AcceptFailed => []
    case Connected(command) =>
      if command == Some(EmergencyShutdown) then [Acknowledged, SystemExit(EmergencyStatus)]
      else if command == Some(SoftExit) then [Acknowledged, ListenerClosed, ClientClosed]
      else [Acknowledged, ClientClosed]
  }

  /** No call of the sequence ends the loop. */
  predicate NoStop(calls: seq<ControlCall>) {
    forall k :: 0 <= k < |calls| ==> !Stops(calls[k])
  }

  /** How many calls the loop takes: all of them, or up to and including the first that stops it. */
  function Served(calls: seq<ControlCall>): (n: nat)
    ensures NoStop(calls) ==> n == |calls|
    ensures !NoStop(calls) ==> 0 < n <= |calls| && Stops(calls[n - 1]) && NoStop(calls[..n - 1])
  {
    if calls == [] then 0
    else if Stops(calls[0]) then 1
    else
      var n := 1 + Served(calls[1..]);
      assert forall k :: 1 <= k < |calls| ==> calls[k] == calls[1..][k - 1];
      assert !NoStop(calls) ==> calls[..n - 1] == [calls[0]] + calls[1..][..n - 2];
      n
  }

  /** The events of the calls the loop takes, in order. */
  function Trace(calls: seq<ControlCall>): seq<ControlEvent> {
    if calls == [] then []
    else Events(calls[0]) + (if Stops(calls[0]) then [] else Trace(calls[1..]))
  }

  /** Calls that do not stop the loop are taken one after the other: their events are followed by those of the rest. */
  lemma {:induction false} TraceOfPrefix(p: seq<ControlCall>, q: seq<ControlCall>)
    requires NoStop(p)
    ensures Trace(p + q) == Trace(p) + Trace(q)
    ensures Served(p + q) == |p| + Served(q)
    decreases |p|
  {
    if p != [] {
      assert (p + q)[0] == p[0] && !Stops(p[0]);
      assert (p + q)[1..] == p[1..] + q;
      assert NoStop(p[1..]) by {
        forall k | 0 <= k < |p[1..]| ensures !Stops(p[1..][k]) {
          assert p[1..][k] == p[k + 1];
        }
      }
      TraceOfPrefix(p[1..], q);
      Associative(Events(p[0]), Trace(p[1..]), Trace(q));
    } else {
      assert p + q == q;
    }
  }

  /**
   * The first stopping call ends the listener: whatever comes after it is
   * never accepted, and the events end with those of that call.
   */
  lemma StopEndsTrace(p: seq<ControlCall>, call: ControlCall, q: seq<ControlCall>)
    requires NoStop(p) && Stops(call)
    ensures Trace(p + [call] + q) == Trace(p) + Events(call)
    ensures Served(p + [call] + q) == |p| + 1
  {
    assert p + [call] + q == p + ([call] + q);
    TraceOfPrefix(p, [call] + q);
  }

  /** A soft exit is acknowledged, closes the listener and then its client, and nothing follows it. */
  lemma SoftExitEndsListener(p: seq<ControlCall>, q: seq<ControlCall>)
    requires NoStop(p)
    ensures Trace(p + [Connected(Some(SoftExit))] + q) == Trace(p) + [Acknowledged, ListenerClosed, ClientClosed]
  {
    StopEndsTrace(p, Connected(Some(SoftExit)), q);
  }

  /** An emergency shutdown is acknowledged and exits with status 1; its client is never closed by the listener. */
  lemma EmergencyExitSkipsClose(p: seq<ControlCall>, q: seq<ControlCall>)
    requires NoStop(p)
    ensures Trace(p + [Connected(Some(EmergencyShutdown))] + q) == Trace(p) + [Acknowledged, SystemExit(EmergencyStatus)]
  {
    StopEndsTrace(p, Connected(Some(EmergencyShutdown)), q);
  }

  /** One turn taken from the calls still waiting. */
  lemma TraceUnfold(calls: seq<ControlCall>, i: nat)
    requires i < |calls|
    ensures Trace(calls[i..]) == Events(calls[i]) + (if Stops(calls[i]) then [] else Trace(calls[i + 1..]))
    ensures Served(calls[i..]) == if Stops(calls[i]) then 1 else 1 + Served(calls[i + 1..])
  {
    assert calls[i..][0] == calls[i] && calls[i..][1..] == calls[i + 1..];
  }

  /**
   * The listener after `served` turns of run on `calls`, started with the
   * events `start`: while it runs, the events still to come are those of the
   * remaining calls; once stopped, the last call taken stopped it.
   */
  ghost predicate Between(calls: seq<ControlCall>, served: nat, running: bool, listening: bool,
                          start: seq<ControlEvent>, log: seq<ControlEvent>)
  {
    served <= |calls| &&
    (running ==>
      listening && NoStop(calls[..served]) &&
      log + Trace(calls[served..]) == start + Trace(calls) && Served(calls) == served + Served(calls[served..])) &&
    (!running ==>
      0 < served && Stops(calls[served - 1]) && log == start + Trace(calls) && Served(calls) == served &&
      listening == (calls[served - 1] != Connected(Some(SoftExit))))
  }

  /** A turn of the loop keeps the listener between its start and its end. */
  lemma BetweenStep(calls: seq<ControlCall>, served: nat, start: seq<ControlEvent>, log: seq<ControlEvent>)
    requires served < |calls| && Between(calls, served, true, true, start, log)
    ensures var call := calls[served];
      Between(calls, served + 1, !Stops(call), call != Connected(Some(SoftExit)), start, log + Events(call))
  {
    TraceUnfold(calls, served);
    if Stops(calls[served]) {
      StoppingStep(calls, served, start, log);
    } else {
      RunningStep(calls, served, start, log);
    }
  }

  /** The turn that stops the loop: its events are the last ones. */
  lemma StoppingStep(calls: seq<ControlCall>, served: nat, start: seq<ControlEvent>, log: seq<ControlEvent>)
    requires served < |calls| && Stops(calls[served])
    requires log + Trace(calls[served..]) == start + Trace(calls) && Served(calls) == served + Served(calls[served..])
    requires Trace(calls[served..]) == Events(calls[served]) && Served(calls[served..]) == 1
    ensures Between(calls, served + 1, false, calls[served] != Connected(Some(SoftExit)), start, log + Events(calls[served]))
  {
  }

  /** A turn that does not stop the loop: the events still to come are those of the calls after it. */
  lemma RunningStep(calls: seq<ControlCall>, served: nat, start: seq<ControlEvent>, log: seq<ControlEvent>)
    requires served < |calls| && !Stops(calls[served]) && NoStop(calls[..served])
    requires log + Trace(calls[served..]) == start + Trace(calls) && Served(calls) == served + Served(calls[served..])
    requires Trace(calls[served..]) == Events(calls[served]) + Trace(calls[served + 1..])
    requires Served(calls[served..]) == 1 + Served(calls[served + 1..])
    ensures Between(calls, served + 1, true, true, start, log + Events(calls[served]))
  {
    var call := calls[served];
    Associative(log, Events(call), Trace(calls[served + 1..]));
    var taken := calls[..served + 1];
    assert NoStop(taken) by {
      forall k | 0 <= k < |taken| ensures !Stops(taken[k]) {
        if k < served {
          assert taken[k] == calls[..served][k];
        }
      }
    }
  }

  /** Concatenation of event sequences is associative. */
  lemma Associative(a: seq<ControlEvent>, b: seq<ControlEvent>, c: seq<ControlEvent>)
    ensures (a + b) + c == a + (b + c)
  {
  }

  /** When the loop ends, the listener has taken what Served and Trace say. */
  lemma BetweenDone(calls: seq<ControlCall>, served: nat, running: bool, listening: bool,
                    start: seq<ControlEvent>, log: seq<ControlEvent>)
    requires Between(calls, served, running, listening, start, log) && (served == |calls| || !running)
    ensures served == Served(calls) && log == start + Trace(calls) && running == NoStop(calls)
    ensures listening == (NoStop(calls) || calls[served - 1] != Connected(Some(SoftExit)))
  {
    if running {
      RanOut(calls, served, start, log);
    } else {
      StoppedAt(calls, served);
    }
  }

  /** All the calls were taken without a stop. */
  lemma RanOut(calls: seq<ControlCall>, served: nat, start: seq<ControlEvent>, log: seq<ControlEvent>)
    requires served == |calls| && NoStop(calls[..served])
    requires log + Trace(calls[served..]) == start + Trace(calls) && Served(calls) == served + Served(calls[served..])
    ensures served == Served(calls) && log == start + Trace(calls) && NoStop(calls)
  {
    assert calls[..served] == calls;
    assert calls[served..] == [];
    Associative(log, [], []);
  }

  /** A call that stops the loop was taken. */
  lemma StoppedAt(calls: seq<ControlCall>, served: nat)
    requires 0 < served <= |calls| && Stops(calls[served - 1])
    ensures !NoStop(calls)
  {
  }

  /** The listener thread and the server socket it accepts on. */
  class BackDoorThread {
    const port: int
    /** The server socket is open. */
    var listening: bool
    /** The thread is alive: run has not left its loop and the process has not exited. */
    var running: bool
    /** What the listener has done so far. */
    var log: seq<ControlEvent>

    /** The listener only stops listening by leaving its loop. */
    predicate Valid()
      reads this
    {
      running ==> listening
    }

    /** The constructor opens the server socket on the port and starts the thread. */
    constructor(port: int)
      ensures Valid() && this.port == port
      ensures listening && running && log == []
    {
      this.port := port;
      listening := true;
      running := true;
      log := [];
    }

    /** One turn of the loop of run. */
    method Step(call: ControlCall)
      requires Valid() && running
      modifies this
      ensures Valid()
      ensures log == old(log) + Events(call)
      ensures running == !Stops(call)
      ensures listening == (call != Connected(Some(SoftExit)))
    {
      match call {
        case AcceptFailed =>
        case Connected(command) =>
          log := log + [Acknowledged];
          if command == Some(EmergencyShutdown) {
            log := log + [SystemExit(EmergencyStatus)];
            running := false;
            return;
          }
          if command == Some(SoftExit) {
            listening := false;
            log := log + [ListenerClosed];
            running := false;
          }
          log := log + [ClientClosed];
      }
    }

    /** run: the turns of the loop until a call stops it or the calls run out. */
    method Run(calls: seq<ControlCall>) returns (served: nat)
      requires Valid() && running
      modifies this
      ensures Valid()
      ensures served == Served(calls)
      ensures log == old(log) + Trace(calls)
      ensures running == NoStop(calls)
      ensures listening == (NoStop(calls) || calls[served - 1] != Connected(Some(SoftExit)))
    {
      served := 0;
      while served < |calls| && running
        invariant Valid() && Between(calls, served, running, listening, old(log), log)
        decreases |calls| - served
      {
        BetweenStep(calls, served, old(log), log);
        Step(calls[served]);
        served := served + 1;
      }
      BetweenDone(calls, served, running, listening, old(log), log);
    }

    /**
     * softExit, as the server calls it while the thread is alive: it
     * connects to the back door and sends `softExit`, so the listener takes
     * one more call, which stops it.
     */
    method SoftExitCall()
      requires Valid() && running
      modifies this
      ensures Valid() && !running && !listening
      ensures log == old(log) + [Acknowledged, ListenerClosed, ClientClosed]
    {
      Step(Connected(Some(SoftExit)));
    }
  }
}
