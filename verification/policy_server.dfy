/** The Flash policy server's own lifecycle: opening and binding the listening
    channel (`startFlashPolicyServer`), the acceptor task's loop, and shutdown
    (`stopFlashPolicyServer`). Threads, the executor and `Future` are replaced
    by tagged outcomes. */
module PolicyServer {
  import opened Wrappers
  import opened JavaText
  import opened AbstractTransport
  import opened PolicyProtocol

  const ThreadThrewMessage: string := "Server thread threw an exception"
  const NotStoppedMessage: string := "Server acceptor thread has not stopped."
  const MisunderstoodIOMessage: string := "Server should not throw a misunderstood IOException"

  /** The listening channel: opened, and possibly bound to an address. */
  datatype Listener = Unbound | Bound(host: string, port: int)

  /** The two fields of the server: the listening channel (null is `None`) and
      whether an acceptor task was submitted. */
  datatype Server = Server(listener: Option<Listener>, acceptor: bool)

  const NoServer: Server := Server(None, false)

  /** The step of `startFlashPolicyServer` whose I/O fails, if any. */
  datatype SocketFault = NoFault | OpenFails | ReuseAddressFails | BindFails | BlockingModeFails

  /** `new InetSocketAddress(host, port)` accepts ports 0 to 65535 only. */
  predicate ValidPort(port: int)
  {
    0 <= port <= 0xFFFF
  }

  /** `startFlashPolicyServer`: open the channel (stored at once), enable address
      reuse, build the address, bind, set blocking mode, then submit the acceptor.
      A failed step throws `IOException`, except an out-of-range port, which makes
      the address constructor throw `IllegalArgumentException`. */
  function Start(server: Server, host: string, port: int, fault: SocketFault): (r: Step<Server>)
    ensures r.state.acceptor <==> server.acceptor || r.thrown.None?
    ensures r.thrown.None? <==> fault.NoFault? && ValidPort(port)
    ensures r.thrown.None? ==> r.state.listener == Some(Bound(host, port))
    ensures r.thrown == Some(IllegalArgument) <==> !fault.OpenFails? && !fault.ReuseAddressFails? && !ValidPort(port)
    ensures r.thrown.Some? ==> r.thrown.value.IO? || r.thrown.value == IllegalArgument
    ensures fault.OpenFails? ==> r.state == server
  {
    if fault.OpenFails? then Step(server, Some(IO("open")))
    else
      var unbound := server.(listener := Some(Unbound));
      if fault.ReuseAddressFails? then Step(unbound, Some(IO("setReuseAddress")))
      else if !ValidPort(port) then Step(unbound, Some(IllegalArgument))
      else if fault.BindFails? then Step(unbound, Some(IO("bind")))
      else
        var bound := server.(listener := Some(Bound(host, port)));
        if fault.BlockingModeFails? then Step(bound, Some(IO("configureBlocking")))
        else Step(bound.(acceptor := true), None)
  }

  /** What the acceptor observes at the head of each turn of its loop. */
  datatype AcceptEvent =
    | Accepted(input: seq<ReadValue>, faults: ConnectionFaults)  // a client connected
    | InterruptObserved                                          // the task's interrupt flag is set
    | ChannelClosed                                              // accept threw ClosedChannelException
    | AcceptFailed(reason: string)                               // accept threw another IOException

  /** How the acceptor task stands: still looping, returned normally, or ended by
      an exception. */
  datatype AcceptorStatus = Running | Returned | Threw(exc: Throwable)

  /** The connections handed to their own tasks, in accept order, and the status. */
  datatype AcceptRun = AcceptRun(served: seq<Served>, status: AcceptorStatus)

  /** The acceptor's loop over the events it meets. Each accepted connection is
      given its own task at once; the loop returns normally when it sees its
      interrupt flag or a closed channel, and turns any other accept failure into
      an `IllegalStateException` carrying the `IOException`. */
  function AcceptLoop(domain: Option<string>, ports: Option<string>, lineSeparator: string,
                      events: seq<AcceptEvent>): (r: AcceptRun)
    ensures |r.served| <= |events|
    ensures forall i :: 0 <= i < |r.served| ==>
      events[i].Accepted? && r.served[i] == ServeConnection(domain, ports, lineSeparator, events[i].input, events[i].faults)
    ensures r.status.Running? <==> forall i :: 0 <= i < |events| ==> events[i].Accepted?
    ensures r.status.Running? ==> |r.served| == |events|
    ensures !r.status.Running? ==> |r.served| < |events| && !events[|r.served|].Accepted?
    ensures r.status.Returned? <==> |r.served| < |events| && events[|r.served|] in {InterruptObserved, ChannelClosed}
    ensures r.status.Threw? ==>
      events[|r.served|].AcceptFailed?
      && r.status.exc == IllegalState(Some(MisunderstoodIOMessage), Some(IO(events[|r.served|].reason)))
  {
    if |events| == 0 then AcceptRun([], Running)
    else
      match events[0]
      case Accepted(input, faults) =>
        var rest := AcceptLoop(domain, ports, lineSeparator, events[1..]);
        AcceptRun([ServeConnection(domain, ports, lineSeparator, input, faults)] + rest.served, rest.status)
      case InterruptObserved => AcceptRun([], Returned)
      case ChannelClosed => AcceptRun([], Returned)
      case AcceptFailed(reason) =>
        AcceptRun([], Threw(IllegalState(Some(MisunderstoodIOMessage), Some(IO(reason)))))
  }

  /** What waiting on the acceptor's `Future` yields: it finished normally, it
      failed with an exception (`ExecutionException`), the waiting thread was
      interrupted, or `get` returned yet `isDone()` is false. */
  datatype WaitOutcome = Finished | Failed(cause: Throwable) | Interrupted | NotDone

  /** `get()` on the acceptor's `Future` once its task has stopped. */
  function Await(status: AcceptorStatus): (w: WaitOutcome)
    requires !status.Running?
    ensures w.Finished? <==> status.Returned?
    ensures status.Threw? ==> w == Failed(status.exc)
  {
    match status
    case Returned => Finished
    case Threw(e) => Failed(e)
  }

  datatype Action = CloseListener | AwaitAcceptor

  /** What shutdown did, in order, the exception it threw, and whether it set
      the calling thread's interrupt flag. */
  datatype Shutdown = Shutdown(actions: seq<Action>, thrown: Option<Throwable>, interruptFlag: bool)

  /** `stopFlashPolicyServer`: close the listening channel if there is one (a
      failing close is ignored), then, if an acceptor was submitted, wait for it
      and turn anything but a normal finish into an `IllegalStateException`. */
  function Stop(server: Server, wait: WaitOutcome): (r: Shutdown)
    ensures server.listener.Some? <==> CloseListener in r.actions
    ensures server.listener.Some? ==> r.actions[0] == CloseListener
    ensures server.acceptor <==> AwaitAcceptor in r.actions
    ensures forall i, j :: 0 <= i < j < |r.actions| ==> r.actions[i] != r.actions[j]
    ensures !server.acceptor ==> r.thrown.None? && !r.interruptFlag
    ensures server.acceptor ==> (r.thrown.None? <==> wait.Finished?)
    ensures server.acceptor && wait.Failed? ==>
      r.thrown == Some(IllegalState(Some(ThreadThrewMessage), Some(wait.cause)))
    ensures server.acceptor && wait.Interrupted? ==> r.thrown == Some(IllegalState(None, None))
    ensures server.acceptor && wait.NotDone? ==> r.thrown == Some(IllegalState(Some(NotStoppedMessage), None))
    ensures r.interruptFlag <==> server.acceptor && wait.Interrupted?
  {
    var closing := if server.listener.Some? then [CloseListener] else [];
    if !server.acceptor then Shutdown(closing, None, false)
    else
      var actions := closing + [AwaitAcceptor];
      match wait
      case Finished => Shutdown(actions, None, false)
      case Interrupted => Shutdown(actions, Some(IllegalState(None, None)), true)
      case Failed(cause) => Shutdown(actions, Some(IllegalState(Some(ThreadThrewMessage), Some(cause))), false)
      case NotDone => Shutdown(actions, Some(IllegalState(Some(NotStoppedMessage), None)), false)
  }

  /** Once the listening channel is closed, the acceptor's next accept fails
      with a closed channel, so its loop stops whatever it accepted before; and
      if it accepted only connections until then, it returns normally. */
  lemma {:induction false} ClosingStopsAcceptor(domain: Option<string>, ports: Option<string>, lineSeparator: string,
                                               before: seq<AcceptEvent>)
    ensures !AcceptLoop(domain, ports, lineSeparator, before + [ChannelClosed]).status.Running?
    ensures (forall i :: 0 <= i < |before| ==> before[i].Accepted?) ==>
      AcceptLoop(domain, ports, lineSeparator, before + [ChannelClosed]) ==
      AcceptRun(AcceptLoop(domain, ports, lineSeparator, before).served, Returned)
    decreases |before|
  {
    var events := before + [ChannelClosed];
    assert events[|events| - 1] == ChannelClosed;
    if |before| > 0 && before[0].Accepted? {
      assert events[1..] == before[1..] + [ChannelClosed];
      ClosingStopsAcceptor(domain, ports, lineSeparator, before[1..]);
    }
  }

  /** An acceptor that only accepted connections before its channel was closed
      lets shutdown return normally. */
  lemma CleanShutdown(server: Server, domain: Option<string>, ports: Option<string>, lineSeparator: string,
                      before: seq<AcceptEvent>)
    requires forall i :: 0 <= i < |before| ==> before[i].Accepted?
    ensures var run := AcceptLoop(domain, ports, lineSeparator, before + [ChannelClosed]);
      !run.status.Running? && Stop(server, Await(run.status)).thrown.None?
  {
    ClosingStopsAcceptor(domain, ports, lineSeparator, before);
  }

  /** An accept that fails for a reason other than closure reaches the caller of
      shutdown as an `IllegalStateException` whose cause is the acceptor's own
      `IllegalStateException`, itself caused by the `IOException`. */
  lemma AcceptFailureSurfacesAtShutdown(server: Server, domain: Option<string>, ports: Option<string>,
                                        lineSeparator: string, before: seq<AcceptEvent>, reason: string)
    requires server.acceptor
    requires forall i :: 0 <= i < |before| ==> before[i].Accepted?
    ensures var run := AcceptLoop(domain, ports, lineSeparator, before + [AcceptFailed(reason)]);
      !run.status.Running? &&
      Stop(server, Await(run.status)).thrown ==
        Some(IllegalState(Some(ThreadThrewMessage), Some(IllegalState(Some(MisunderstoodIOMessage), Some(IO(reason))))))
  {
    var events := before + [AcceptFailed(reason)];
    var run := AcceptLoop(domain, ports, lineSeparator, events);
    assert !events[|events| - 1].Accepted?;
    assert |run.served| == |before|;
  }
}
