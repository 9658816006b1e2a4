/** FlashSocketTransport's lifecycle: its `init()` hook, run through the
    AbstractTransport template, reads the policy-server settings and the
    WebSocket delegate, insists on the delegate, and starts the policy server
    only when host, domain and ports are all configured; `destroy()` stops it. */
module FlashSocket {
  import opened Wrappers
  import opened AbstractTransport
  import opened PolicyProtocol
  import opened PolicyServer

  const ClassName: string := "com.glines.socketio.server.transport.FlashSocketTransport"
  const ParamPolicyDomain: string := "flashPolicyDomain"
  const ParamPolicyServerHost: string := "flashPolicyServerHost"
  const ParamPolicyServerPort: string := "flashPolicyServerPort"
  const ParamPolicyPorts: string := "flashPolicyPorts"
  const DefaultPolicyServerPort: int := 843
  const NoDelegateMessage: string := "No WebSocket transport available for this transport: " + ClassName

  /** The WebSocket transport requests are handed to. */
  datatype Delegate = Delegate(name: string)

  /** The lookups of the scoped configuration (`getString`, `getInt` without its
      default, `getWebSocketTransport`); how they resolve is not part of this model. */
  datatype ConfigSource = ConfigSource(
    getString: (SocketIOConfig, string) -> Option<string>,
    getInt: (SocketIOConfig, string) -> Option<int>,
    webSocketTransport: SocketIOConfig -> Option<Delegate>)

  /** The four policy-server fields. */
  datatype PolicySettings = PolicySettings(domain: Option<string>, ports: Option<string>, host: Option<string>, port: int)

  /** The state of a FlashSocketTransport. */
  datatype FlashTransport = FlashTransport(
    base: AbstractTransport.Transport,
    settings: PolicySettings,
    delegate: Option<Delegate>,
    server: Server)

  /** The policy server runs only when all three strings are present. */
  predicate Configured(s: PolicySettings)
  {
    s.host.Some? && s.domain.Some? && s.ports.Some?
  }

  /** A freshly constructed transport: null references, a zero port, no server. */
  function CreateFlash(typeLabel: string): (f: FlashTransport)
    ensures f.base == AbstractTransport.Create(typeLabel)
    ensures f.delegate.None? && f.server == NoServer && !Configured(f.settings)
  {
    FlashTransport(AbstractTransport.Create(typeLabel), PolicySettings(None, None, None, 0), None, NoServer)
  }

  /** The four settings as `init()` reads them; an absent port means 843. */
  function ReadSettings(config: SocketIOConfig, source: ConfigSource): (s: PolicySettings)
    ensures s.domain == source.getString(config, ParamPolicyDomain)
    ensures s.ports == source.getString(config, ParamPolicyPorts)
    ensures s.host == source.getString(config, ParamPolicyServerHost)
    ensures source.getInt(config, ParamPolicyServerPort).None? ==> s.port == DefaultPolicyServerPort
    ensures source.getInt(config, ParamPolicyServerPort).Some? ==> s.port == source.getInt(config, ParamPolicyServerPort).value
  {
    var port := match source.getInt(config, ParamPolicyServerPort)
      case None => DefaultPolicyServerPort
      case Some(p) => p;
    PolicySettings(
      source.getString(config, ParamPolicyDomain),
      source.getString(config, ParamPolicyPorts),
      source.getString(config, ParamPolicyServerHost),
      port)
  }

  /** The `init()` hook. It reads its settings through `getConfig()`, which is
      null (a null dereference) unless the template set it first. The fields are
      stored before the delegate check, so they stay set when it throws. An
      `IOException` from starting the server is swallowed; an
      `IllegalArgumentException` from a port out of range is not. */
  function InitHook(f: FlashTransport, source: ConfigSource, fault: SocketFault): Step<FlashTransport>
  {
    match f.base.config
    case None => Step(f, Some(NullPointer))
    case Some(config) =>
      var settings := ReadSettings(config, source);
      var g := f.(settings := settings, delegate := source.webSocketTransport(config));
      if g.delegate.None? then Step(g, Some(TransportInitialization(NoDelegateMessage)))
      else if Configured(settings) then
        var started := Start(g.server, settings.host.value, settings.port, fault);
        var thrown := if started.thrown.Some? && started.thrown.value.IO? then None else started.thrown;
        Step(g.(server := started.state), thrown)
      else Step(g, None)
  }

  /** `init(ServletConfig)` of a FlashSocketTransport: the template's two stores,
      then the hook above. */
  function InitFlash(f: FlashTransport, servletConfig: ServletConfig, source: ConfigSource, fault: SocketFault): (r: Step<FlashTransport>)
    ensures r.state.base == Configure(f.base, servletConfig)
    ensures r.thrown != Some(NullPointer)
    ensures var config := SocketIOConfig(servletConfig, f.base.typeLabel);
      && r.state.settings == ReadSettings(config, source)
      && r.state.delegate == source.webSocketTransport(config)
    ensures r.state.delegate.None? ==>
      r.thrown == Some(TransportInitialization(NoDelegateMessage)) && r.state.server == f.server
    ensures r.state.delegate.Some? && !Configured(r.state.settings) ==>
      r.thrown.None? && r.state.server == f.server
    ensures r.thrown.Some? ==> r.thrown.value.TransportInitialization? || r.thrown.value == IllegalArgument
    ensures r.thrown == Some(IllegalArgument) ==>
      r.state.delegate.Some? && Configured(r.state.settings) && !ValidPort(r.state.settings.port)
    ensures r.state.delegate.Some? && Configured(r.state.settings) && fault.NoFault? && ValidPort(r.state.settings.port) ==>
      && r.thrown.None?
      && r.state.server.acceptor
      && r.state.server.listener == Some(Bound(r.state.settings.host.value, r.state.settings.port))
    ensures r.state.server.acceptor && !f.server.acceptor ==> Configured(r.state.settings)
    ensures r.state.server.acceptor && !f.server.acceptor ==> fault.NoFault? && ValidPort(r.state.settings.port)
  {
    InitHook(f.(base := Configure(f.base, servletConfig)), source, fault)
  }

  /** `destroy()`: stops the policy server. */
  function Destroy(f: FlashTransport, wait: WaitOutcome): (r: Shutdown)
    ensures f.server == NoServer ==> r == Shutdown([], None, false)
  {
    Stop(f.server, wait)
  }

  /** A transport whose `init` failed for want of a delegate started nothing, so
      destroying it closes nothing and throws nothing. */
  lemma DestroyAfterFailedInit(typeLabel: string, servletConfig: ServletConfig, source: ConfigSource,
                               fault: SocketFault, wait: WaitOutcome)
    requires source.webSocketTransport(SocketIOConfig(servletConfig, typeLabel)).None?
    ensures var r := InitFlash(CreateFlash(typeLabel), servletConfig, source, fault);
      r.thrown == Some(TransportInitialization(NoDelegateMessage)) && Destroy(r.state, wait) == Shutdown([], None, false)
  {
  }

  /** A configured transport whose policy server failed to start throws nothing
      from `init` unless the port is out of range; either way no acceptor runs,
      and `destroy` only closes the listener (if `open` got that far) and
      returns normally, whatever waiting would have yielded. */
  lemma DestroyAfterFailedStart(typeLabel: string, servletConfig: ServletConfig, source: ConfigSource,
                                fault: SocketFault, wait: WaitOutcome)
    requires var config := SocketIOConfig(servletConfig, typeLabel);
      && source.webSocketTransport(config).Some?
      && Configured(ReadSettings(config, source))
      && !(fault.NoFault? && ValidPort(ReadSettings(config, source).port))
    ensures var r := InitFlash(CreateFlash(typeLabel), servletConfig, source, fault);
      && !r.state.server.acceptor
      && (r.thrown.None? || r.thrown == Some(IllegalArgument))
      && (r.thrown == Some(IllegalArgument) <==>
            !fault.OpenFails? && !fault.ReuseAddressFails? && !ValidPort(r.state.settings.port))
      && Destroy(r.state, wait) == Shutdown(if fault.OpenFails? then [] else [CloseListener], None, false)
  {
  }

  /** A policy server started by `init` knows its domain and ports, so every
      connection that meets no I/O failure is answered with the policy document,
      whatever the client sent. */
  lemma RunningServerAlwaysReplies(typeLabel: string, servletConfig: ServletConfig, source: ConfigSource,
                                   fault: SocketFault, lineSeparator: string, input: seq<JavaText.ReadValue>)
    requires InitFlash(CreateFlash(typeLabel), servletConfig, source, fault).state.server.acceptor
    ensures var f := InitFlash(CreateFlash(typeLabel), servletConfig, source, fault).state;
      ServeConnection(f.settings.domain, f.settings.ports, lineSeparator, input, NoFaults)
        == Served(Some(PolicyDocument(f.settings.domain, f.settings.ports, lineSeparator)), 2)
  {
    var f := InitFlash(CreateFlash(typeLabel), servletConfig, source, fault).state;
    assert Configured(f.settings);
    assert ShouldReply(ReadRequest(input).buffer, f.settings.domain, f.settings.ports);
  }

  /** The whole life of a fully configured transport: `init` starts the server,
      its acceptor serves whatever connects, `destroy` closes the channel first,
      the acceptor returns, and `destroy` returns normally. */
  lemma FullLifecycle(typeLabel: string, servletConfig: ServletConfig, source: ConfigSource,
                      lineSeparator: string, connections: seq<AcceptEvent>)
    requires var config := SocketIOConfig(servletConfig, typeLabel);
      && source.webSocketTransport(config).Some?
      && Configured(ReadSettings(config, source))
      && ValidPort(ReadSettings(config, source).port)
    requires forall i :: 0 <= i < |connections| ==> connections[i].Accepted?
    ensures var r := InitFlash(CreateFlash(typeLabel), servletConfig, source, NoFault);
      var s := r.state.settings;
      var run := AcceptLoop(s.domain, s.ports, lineSeparator, connections + [ChannelClosed]);
      && r.thrown.None?
      && run.status == Returned
      && |run.served| == |connections|
      && (forall i :: 0 <= i < |connections| && connections[i].faults == NoFaults ==>
            run.served[i].reply == Some(PolicyDocument(s.domain, s.ports, lineSeparator)))
      && Destroy(r.state, Await(run.status)) == Shutdown([CloseListener, AwaitAcceptor], None, false)
  {
    var r := InitFlash(CreateFlash(typeLabel), servletConfig, source, NoFault);
    var s := r.state.settings;
    ClosingStopsAcceptor(s.domain, s.ports, lineSeparator, connections);
    var run := AcceptLoop(s.domain, s.ports, lineSeparator, connections + [ChannelClosed]);
    assert run.served == AcceptLoop(s.domain, s.ports, lineSeparator, connections).served;
    forall i | 0 <= i < |connections| && connections[i].faults == NoFaults
      ensures run.served[i].reply == Some(PolicyDocument(s.domain, s.ports, lineSeparator))
    {
      RunningServerAlwaysReplies(typeLabel, servletConfig, source, NoFault, lineSeparator, connections[i].input);
    }
  }
}
