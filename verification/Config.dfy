/** Validation of the configuration, and what its arithmetic buys the relay stack. */
module Config {
  import opened Sequences
  import opened Endpoint
  import opened EndpointText
  import R = Relay
  import C = Connection
  import Process
  import Protocol

  const MAX_CONFIGURABLE_FRAME_BYTES := 16 * 1024 * 1024
  const MAX_CONFIGURABLE_CONNECTIONS := 16 * 1024
  const MAX_CONFIGURABLE_PENDING_REQUESTS := 16 * 1024
  const MAX_CONFIGURABLE_CONCURRENT_BROADCASTS := 1024
  const MAX_CONFIGURABLE_IN_FLIGHT_BROADCAST_BYTES := 128 * 1024 * 1024

  datatype RelayMode = Reject | SocksElectrum

  datatype Cli = Cli(
    listen: SocketAddr,
    upstream: Endpoint,
    relayMode: RelayMode,
    relayEndpoint: Option<Endpoint>,
    socks5Proxy: SocketAddr,
    maxConnections: nat,
    maxConcurrentBroadcasts: nat,
    maxPendingRequests: nat,
    maxFrameBytes: nat,
    connectTimeoutSeconds: nat,
    relayTimeoutSeconds: nat,
    allowNonLoopbackListen: bool)

  datatype Config = Config(
    listen: SocketAddr,
    upstream: Endpoint,
    relayMode: RelayMode,
    relayEndpoint: Option<Endpoint>,
    socks5Proxy: SocketAddr,
    maxConnections: nat,
    maxConcurrentBroadcasts: nat,
    maxPendingRequests: nat,
    maxFrameBytes: nat,
    connectTimeoutSeconds: nat,
    relayTimeoutSeconds: nat)

  /** Multiplication of machine words that reports overflow. */
  function CheckedMul(a: nat, b: nat): Option<nat> {
    if a * b <= R.USIZE_MAX then Some(a * b) else None
  }

  predicate RelayRouteAccepted(lib: Library, cli: Cli) {
    cli.relayMode == SocksElectrum ==>
      && cli.relayEndpoint.Some?
      && !SameTarget(lib, cli.relayEndpoint.value, cli.upstream)
      && !CouldTargetListener(lib, cli.relayEndpoint.value, cli.listen)
      && !CouldTargetListener(lib, Endpoint(lib.printIp(cli.socks5Proxy.ip), cli.socks5Proxy.port), cli.listen)
  }

  function TryFrom(lib: Library, cli: Cli): Option<Config> {
    if cli.listen.port == 0 then None
    else if !IsLoopback(cli.listen.ip) && !cli.allowNonLoopbackListen then None
    else if !Valid(lib, cli.upstream) then None
    else if CouldTargetListener(lib, cli.upstream, cli.listen) then None
    else if cli.socks5Proxy.port == 0 then None
    else if cli.relayEndpoint.Some? && !Valid(lib, cli.relayEndpoint.value) then None
    else if !(1 <= cli.maxConnections <= MAX_CONFIGURABLE_CONNECTIONS) then None
    else if !(1 <= cli.maxConcurrentBroadcasts <= MAX_CONFIGURABLE_CONCURRENT_BROADCASTS) then None
    else if !(1 <= cli.maxPendingRequests <= MAX_CONFIGURABLE_PENDING_REQUESTS) then None
    else if !(1024 <= cli.maxFrameBytes <= MAX_CONFIGURABLE_FRAME_BYTES) then None
    else match CheckedMul(cli.maxConcurrentBroadcasts, cli.maxFrameBytes)
      case None => None
      case Some(bytes) =>
        if bytes > MAX_CONFIGURABLE_IN_FLIGHT_BROADCAST_BYTES then None
        else if cli.connectTimeoutSeconds == 0 || cli.relayTimeoutSeconds == 0 then None
        else if !RelayRouteAccepted(lib, cli) then None
        else Some(Config(cli.listen, cli.upstream, cli.relayMode, cli.relayEndpoint, cli.socks5Proxy,
            cli.maxConnections,
                         cli.maxConcurrentBroadcasts, cli.maxPendingRequests, cli.maxFrameBytes,
                         cli.connectTimeoutSeconds, cli.relayTimeoutSeconds))
  }

  /** The product never overflows once its factors are in range, so that error is never reported. */
  lemma BudgetProductNeverOverflows(broadcasts: nat, frameBytes: nat)
    requires broadcasts <= MAX_CONFIGURABLE_CONCURRENT_BROADCASTS && frameBytes <= MAX_CONFIGURABLE_FRAME_BYTES
    ensures CheckedMul(broadcasts, frameBytes).Some?
  {
    R.MultiplyMonotone(broadcasts, frameBytes, MAX_CONFIGURABLE_FRAME_BYTES);
  }

  /** Two spellings of an optional endpoint, both valid and naming the same target. */
  predicate Respelled(lib: Library, a: Option<Endpoint>, b: Option<Endpoint>) {
    a.Some? == b.Some? && (a.Some? ==> Valid(lib, a.value) && Valid(lib, b.value) && SameTarget(lib, a.value, b.value))
  }

  /** Acceptance depends on the endpoints only through the targets they name: respelling the upstream
      and the relay endpoint, validly and with the same targets, changes nothing. */
  lemma SpellingDoesNotMatter(lib: Library, cli: Cli, upstream: Endpoint, relay: Option<Endpoint>)
    requires Sane(lib) && Respelled(lib, Some(upstream), Some(cli.upstream)) && Respelled(lib, relay, cli.relayEndpoint)
    ensures TryFrom(lib, cli).Some? <==> TryFrom(lib, cli.(upstream := upstream, relayEndpoint := relay)).Some?
  {
    hide Sane, Valid, SameTarget, CouldTargetListener, CheckedMul;
    ListenerCheckRespectsTargets(lib, upstream, cli.upstream, cli.listen);
    SameTargetIsKeyEquality(lib, upstream, cli.upstream);
    if relay.Some? {
      var other := cli.relayEndpoint.value;
      ListenerCheckRespectsTargets(lib, relay.value, other, cli.listen);
      SameTargetIsKeyEquality(lib, relay.value, other);
      SameTargetIsKeyEquality(lib, relay.value, upstream);
      SameTargetIsKeyEquality(lib, other, cli.upstream);
    }
  }

  /** What was asked for is what is configured: every route and every limit of an accepted configuration
      is the one given. */
  lemma ConfiguredAsAsked(lib: Library, cli: Cli)
    requires TryFrom(lib, cli).Some?
    ensures var c := TryFrom(lib, cli).value;
            && c.listen == cli.listen && c.upstream == cli.upstream && c.relayEndpoint == cli.relayEndpoint
            && c.relayMode == cli.relayMode && c.socks5Proxy == cli.socks5Proxy
            && c.maxConnections == cli.maxConnections && c.maxPendingRequests == cli.maxPendingRequests
            && c.maxConcurrentBroadcasts == cli.maxConcurrentBroadcasts && c.maxFrameBytes == cli.maxFrameBytes
            && c.connectTimeoutSeconds == cli.connectTimeoutSeconds && c.relayTimeoutSeconds == cli.relayTimeoutSeconds
  {
    hide Valid, CouldTargetListener, RelayRouteAccepted, CheckedMul;
  }

  /** The routes of an accepted configuration itself: one that relays at all relays to an endpoint that is
      not its query upstream, and neither of these nor its SOCKS proxy leads back to its listener, whatever
      spelling is used for them. */
  lemma AcceptedRoutesAreSeparate(lib: Library, cli: Cli, upstream: Endpoint, relay: Endpoint, proxy: Endpoint)
    requires Sane(lib) && TryFrom(lib, cli).Some? && TryFrom(lib, cli).value.relayMode == SocksElectrum
    requires var c := TryFrom(lib, cli).value;
             && SameTarget(lib, upstream, c.upstream)
             && (c.relayEndpoint.Some? ==> SameTarget(lib, relay, c.relayEndpoint.value))
             && SameTarget(lib, proxy, Endpoint(lib.printIp(c.socks5Proxy.ip), c.socks5Proxy.port))
    ensures var c := TryFrom(lib, cli).value;
            && c.relayEndpoint.Some? && !SameTarget(lib, relay, upstream)
            && !CouldTargetListener(lib, upstream, c.listen) && !CouldTargetListener(lib, relay, c.listen)
            && !CouldTargetListener(lib, proxy, c.listen)
  {
    hide Sane, Valid, SameTarget, CouldTargetListener, CheckedMul;
    ConfiguredAsAsked(lib, cli);
    ListenerCheckRespectsTargets(lib, upstream, cli.upstream, cli.listen);
    ListenerCheckRespectsTargets(lib, relay, cli.relayEndpoint.value, cli.listen);
    ListenerCheckRespectsTargets(lib, proxy, Endpoint(lib.printIp(cli.socks5Proxy.ip), cli.socks5Proxy.port),
        cli.listen);
    SameTargetIsKeyEquality(lib, upstream, cli.upstream);
    SameTargetIsKeyEquality(lib, relay, cli.relayEndpoint.value);
    SameTargetIsKeyEquality(lib, relay, upstream);
    SameTargetIsKeyEquality(lib, cli.relayEndpoint.value, cli.upstream);
  }

  // ---------------------------------------------------------------- what is accepted

  /** Where an endpoint leads, by port and kind of host. */
  predicate LeadsTo(target: (Port, HostClass), listener: SocketAddr) {
    target.0 == listener.port && ClassCouldTarget(target.1, listener.ip)
  }

  function AddressTarget(a: SocketAddr): (Port, HostClass) {
    (a.port, if IsLoopback(a.ip) then ThisMachine else Address(a.ip))
  }

  /** As many broadcasts as allowed, each as long as allowed or shorter, fit in 128 MiB. */
  ghost predicate EveryLoadFits(broadcasts: nat, frameBytes: nat) {
    forall calls: nat, bytes: nat | calls <= broadcasts && bytes <= frameBytes :: calls * bytes <= 134_217_728
  }

  ghost predicate SafeRoutes(lib: Library, cli: Cli) {
    && !LeadsTo(TargetKey(lib, cli.upstream), cli.listen)
    && (cli.relayMode == SocksElectrum ==>
          && cli.relayEndpoint.Some?
          && TargetKey(lib, cli.relayEndpoint.value) != TargetKey(lib, cli.upstream)
          && !LeadsTo(TargetKey(lib, cli.relayEndpoint.value), cli.listen)
          && !LeadsTo(AddressTarget(cli.socks5Proxy), cli.listen))
  }

  lemma AddressKey(lib: Library, a: SocketAddr)
    requires Sane(lib)
    ensures TargetKey(lib, Endpoint(lib.printIp(a.ip), a.port)) == AddressTarget(a)
  {
    hide Sane;
    PrintInverted(lib, a.ip);
    AddressNormalizesToItself(lib, Endpoint(lib.printIp(a.ip), a.port));
  }

  lemma RoutesExact(lib: Library, cli: Cli)
    requires Sane(lib)
    ensures SafeRoutes(lib, cli) <==>
              !CouldTargetListener(lib, cli.upstream, cli.listen) && RelayRouteAccepted(lib, cli)
  {
    hide Sane, SameTarget, CouldTargetListener, TargetKey, ClassCouldTarget;
    ListenerCheckByClass(lib, cli.upstream, cli.listen);
    var proxy := Endpoint(lib.printIp(cli.socks5Proxy.ip), cli.socks5Proxy.port);
    ListenerCheckByClass(lib, proxy, cli.listen);
    AddressKey(lib, cli.socks5Proxy);
    if cli.relayEndpoint.Some? {
      ListenerCheckByClass(lib, cli.relayEndpoint.value, cli.listen);
      SameTargetIsKeyEquality(lib, cli.relayEndpoint.value, cli.upstream);
    }
  }

  lemma LoadsExact(broadcasts: nat, frameBytes: nat)
    ensures EveryLoadFits(broadcasts, frameBytes) <==> broadcasts * frameBytes <= 134_217_728
  {
    if broadcasts * frameBytes <= 134_217_728 {
      forall calls: nat, bytes: nat | calls <= broadcasts && bytes <= frameBytes ensures calls * bytes <= 134_217_728 {
        R.MultiplyMonotone(calls, bytes, frameBytes);
        R.MultiplyMonotone(frameBytes, calls, broadcasts);
      }
    }
  }

  /** A configuration is accepted exactly when its ports are set, a listener others can reach was asked for,
      its endpoints can be connected to, its limits are in their ranges, every load they admit fits in 128 MiB, and its
      routes are safe in terms of the targets they name. No overflow is ever reported. */
  lemma AcceptedExactlyWhenSafe(lib: Library, cli: Cli)
    requires Sane(lib)
    ensures TryFrom(lib, cli).Some? <==>
              && cli.listen.port != 0 && cli.socks5Proxy.port != 0
              && (IsLoopback(cli.listen.ip) || cli.allowNonLoopbackListen)
              && Addressable(lib, cli.upstream)
              && (cli.relayEndpoint.Some? ==> Addressable(lib, cli.relayEndpoint.value))
              && 1 <= cli.maxConnections <= 16_384 && 1 <= cli.maxPendingRequests <= 16_384
              && 1 <= cli.maxConcurrentBroadcasts <= 1_024 && 1_024 <= cli.maxFrameBytes <= 16_777_216
              && EveryLoadFits(cli.maxConcurrentBroadcasts, cli.maxFrameBytes)
              && cli.connectTimeoutSeconds > 0 && cli.relayTimeoutSeconds > 0
              && SafeRoutes(lib, cli)
  {
    hide Sane, Valid, Addressable, CouldTargetListener, RelayRouteAccepted, SafeRoutes, EveryLoadFits;
    ValidExactly(lib, cli.upstream);
    if cli.relayEndpoint.Some? { ValidExactly(lib, cli.relayEndpoint.value); }
    RoutesExact(lib, cli);
    LoadsExact(cli.maxConcurrentBroadcasts, cli.maxFrameBytes);
    if cli.maxConcurrentBroadcasts <= 1_024 && cli.maxFrameBytes <= 16_777_216 {
      BudgetProductNeverOverflows(cli.maxConcurrentBroadcasts, cli.maxFrameBytes);
    }
  }

  // ---------------------------------------------------------------- the configured process

  /** The limits the relay stack is built with. */
  function RelayLimits(config: Config): R.Limits {
    R.Limits(config.maxConcurrentBroadcasts, MAX_CONFIGURABLE_IN_FLIGHT_BROADCAST_BYTES)
  }

  /** Connections set up from the configuration, with whatever bytes their peers send. */
  ghost predicate Configured(config: Config, envs: seq<C.Env>) {
    forall c | 0 <= c < |envs| ::
      && envs[c].maxFrameBytes == config.maxFrameBytes
      && envs[c].maxPendingRequests == config.maxPendingRequests
      && Protocol.DecodingNeverGrows(envs[c].parseRequest)
  }

  /** Under any accepted configuration, in every run of any number of connections: no broadcast is ever
      refused for want of payload permits or because its length does not fit 32 bits. Only the request
      limit and the shutdown gate can refuse one. */
  lemma AcceptedConfigNeverRefusesPayload(lib: Library, cli: Cli, envs: seq<C.Env>, events: seq<Process.Event>)
    requires TryFrom(lib, cli).Some? && Configured(TryFrom(lib, cli).value, envs)
    requires Process.Run(envs, Process.Init(envs, RelayLimits(TryFrom(lib, cli).value)), events).Some?
    ensures var limits := RelayLimits(TryFrom(lib, cli).value);
            var t := Process.Run(envs, Process.Init(envs, limits), events).value;
            && t.relay.log.noPayload == 0 && t.relay.log.tooLarge == 0
            && Total(t.relay.calls, R.FlightWeight()) <= cli.maxConcurrentBroadcasts
            && Total(t.relay.calls, R.FlightPayload()) <= MAX_CONFIGURABLE_IN_FLIGHT_BROADCAST_BYTES
  {
    hide Process.Run, Process.Step, Protocol.DecodingNeverGrows, Valid, CouldTargetListener, RelayRouteAccepted,
        Process.Linked, Process.ConnectionKept;
    var config := TryFrom(lib, cli).value;
    var limits := RelayLimits(config);
    var s := Process.Init(envs, limits);
    Process.KeptInitially(envs, limits);
    Process.KeptReachable(envs, limits, events);
    Process.PayloadBudgetNeverBinds(envs, limits, s, events, config.maxFrameBytes);
    R.FlightInState(limits, Process.Run(envs, s, events).value.relay);
  }
}
