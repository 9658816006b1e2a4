/** The transport lifecycle framework (AbstractTransport): a transport stores the
    servlet configuration, derives the configuration scoped to its type label,
    then runs its own `init()` hook; handlers are produced only through the
    injected handler provider, with the session already attached.

    Objects are modelled as immutable values: an operation returns the new
    state, and an operation that may throw returns the state it leaves behind
    together with the exception it raised, if any. */
module AbstractTransport {
  import opened Wrappers

  /** The Java exceptions the core raises or catches. `IO` stands for any
      `IOException` that is not a `ClosedChannelException`. */
  datatype Throwable =
    | TransportInitialization(message: string)
    | IllegalState(detail: Option<string>, cause: Option<Throwable>)
    | IllegalArgument
    | NullPointer
    | IO(reason: string)

  /** The host's servlet configuration; its contents are read only through the
      scoped configuration below. */
  datatype ServletConfig = ServletConfig(initParameters: map<string, string>)

  /** `new ServletBasedSocketIOConfig(servletConfig, typeLabel)`: a configuration view
      scoped to one transport type. How it resolves keys is not part of this model. */
  datatype SocketIOConfig = SocketIOConfig(servlet: ServletConfig, transportLabel: string)

  datatype Provider = Provider(id: nat)
  datatype Session = Session(id: nat)
  datatype HandlerClass = HandlerClass(name: string)

  /** A transport handler as seen by the transport: its identity and the session
      bound to it by `setSession`. */
  datatype Handler = Handler(id: nat, session: Option<Session>)

  /** `TransportHandlerProvider.get(type, transportType)`: a lookup this model does
      not interpret. `None` is a null handler. */
  type ProviderLookup = (Provider, HandlerClass, string) -> Option<Handler>

  /** The state of an AbstractTransport: its type label (`getType().toString()`),
      and the three fields, each null (`None`) until set. */
  datatype Transport = Transport(
    typeLabel: string,
    servletConfig: Option<ServletConfig>,
    config: Option<SocketIOConfig>,
    provider: Option<Provider>)

  /** The state an operation leaves behind and the exception it threw, if any. */
  datatype Step<S> = Step(state: S, thrown: Option<Throwable>)

  /** A freshly constructed transport of the given type: every field is null. */
  function Create(typeLabel: string): (t: Transport)
    ensures t.typeLabel == typeLabel
    ensures t.servletConfig.None? && t.config.None? && t.provider.None?
  {
    Transport(typeLabel, None, None, None)
  }

  /** The first two statements of `init(ServletConfig)`: store the servlet
      configuration and derive the configuration scoped by this type's label. */
  function Configure(t: Transport, servletConfig: ServletConfig): (r: Transport)
    ensures r.servletConfig == Some(servletConfig)
    ensures r.config == Some(SocketIOConfig(servletConfig, t.typeLabel))
    ensures r.typeLabel == t.typeLabel && r.provider == t.provider
  {
    t.(servletConfig := Some(servletConfig), config := Some(SocketIOConfig(servletConfig, t.typeLabel)))
  }

  /** The default `init()` hook: does nothing and throws nothing. */
  function DefaultInitHook(t: Transport): Step<Transport>
  {
    Step(t, None)
  }

  /** The default `destroy()`: does nothing. */
  function DefaultDestroy(t: Transport): Transport
  {
    t
  }

  /** `init(ServletConfig)` of a transport that keeps the default hook. */
  function Init(t: Transport, servletConfig: ServletConfig): (r: Step<Transport>)
    ensures r.thrown.None?
    ensures r.state.servletConfig == Some(servletConfig)
    ensures r.state.config == Some(SocketIOConfig(servletConfig, t.typeLabel))
    ensures r.state.typeLabel == t.typeLabel && r.state.provider == t.provider
  {
    DefaultInitHook(Configure(t, servletConfig))
  }

  /** `newHandler(type, session)`: asks the provider for a handler of the given
      class for this transport's type, binds the session to it and returns that
      handler. A missing provider or a null handler fails with a null dereference. */
  function NewHandler(t: Transport, handlerClass: HandlerClass, session: Session, get: ProviderLookup): (r: Result<Handler, Throwable>)
    ensures t.provider.None? ==> r == Failure(NullPointer)
    ensures t.provider.Some? && get(t.provider.value, handlerClass, t.typeLabel).None? ==> r == Failure(NullPointer)
    ensures t.provider.Some? && get(t.provider.value, handlerClass, t.typeLabel).Some? ==> r.Success?
    ensures r.Success? ==>
      && t.provider.Some?
      && get(t.provider.value, handlerClass, t.typeLabel).Some?
      && r.value.id == get(t.provider.value, handlerClass, t.typeLabel).value.id
      && r.value.session == Some(session)
  {
    match t.provider
    case None => Failure(NullPointer)
    case Some(p) =>
      match get(p, handlerClass, t.typeLabel)
      case None => Failure(NullPointer)
      case Some(h) => Success(SetSession(h, session))
  }

  /** `AbstractTransportHandler.setSession`: stores the session. */
  function SetSession(h: Handler, session: Session): Handler
  {
    h.(session := Some(session))
  }

  /** `toString()`: the type label. */
  function ToString(t: Transport): string
  {
    t.typeLabel
  }

  /** `setTransportHandlerProvider(p)`: `None` stores null. */
  function SetTransportHandlerProvider(t: Transport, p: Option<Provider>): (r: Transport)
    ensures r.provider == p
    ensures r.(provider := t.provider) == t
  {
    t.(provider := p)
  }

  /** A handler made by a transport that has a provider always carries the
      requested session, and nothing else about the provider's handler changes. */
  lemma NewHandlerAttachesSession(t: Transport, handlerClass: HandlerClass, session: Session, get: ProviderLookup)
    requires t.provider.Some?
    requires get(t.provider.value, handlerClass, t.typeLabel).Some?
    ensures var h := get(t.provider.value, handlerClass, t.typeLabel).value;
      NewHandler(t, handlerClass, session, get) == Success(h.(session := Some(session)))
  {
  }

  /** The string form of a transport is its type label at every point of its
      life: construction, `init`, provider injection and `destroy`. */
  lemma ToStringIsTypeLabel(typeLabel: string, servletConfig: ServletConfig, p: Option<Provider>)
    ensures ToString(Create(typeLabel)) == typeLabel
    ensures ToString(Init(Create(typeLabel), servletConfig).state) == typeLabel
    ensures ToString(SetTransportHandlerProvider(Init(Create(typeLabel), servletConfig).state, p)) == typeLabel
    ensures ToString(DefaultDestroy(Init(Create(typeLabel), servletConfig).state)) == typeLabel
  {
  }

  /** With the default hooks, `init` then `destroy` leaves the configured state
      untouched, and a provider injected before `init` survives it. */
  lemma DefaultHooksChangeNothing(t: Transport, servletConfig: ServletConfig)
    ensures DefaultInitHook(t) == Step(t, None)
    ensures DefaultDestroy(t) == t
    ensures DefaultDestroy(Init(t, servletConfig).state) == Configure(t, servletConfig)
  {
  }
}
