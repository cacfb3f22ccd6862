/**
 What an ingress operation does, told from what it is given: the settings that are committed afterwards, the
 answer, and what serves them.
 */
module IngressEffects {
  import opened Wrappers
  import opened Ingress

  /** MCP settings can be read: there are some, or the first ones can be drawn and committed. */
  predicate Finds(s: State, env: Env) {
    env.mcpRead && (s.mcpFile.Some? || (env.firstToken.Some? && env.firstCommit == Committed))
  }

  function Found(s: State, env: Env): McpSettings
    requires Finds(s, env)
  {
    if s.mcpFile.Some? then s.mcpFile.value else McpSettings(false, env.firstToken.value)
  }

  lemma ReadingFinds(s: State, env: Env)
    ensures var (read, mcp) := ReadMcp(s, env);
            && (mcp.Some? <==> Finds(s, env))
            && (Finds(s, env) ==> mcp == Some(Found(s, env)) && read == s.(mcpFile := mcp))
  {
  }

  /** An MCP operation leaves the host and all of the tunnel alone. */
  predicate SameTunnelSide(s: State, t: State) {
    t.tunnelFile == s.tunnelFile && t.host == s.host && t.tunnel == s.tunnel && t.tunnelFailed == s.tunnelFailed
  }

  predicate SameMcpSide(s: State, t: State) {
    t.mcpFile == s.mcpFile && t.host == s.host && t.listener == s.listener && t.listenerFailed == s.listenerFailed
  }

  // ---- the listener ----

  /**
   The listener for some settings: none while they are disabled or there is no host; the one that runs, with the
   new token if it takes it; or a fresh one, if one can be started.
   */
  ghost predicate Serves(running: Option<string>, t: State, settings: McpSettings, env: Env) {
    if !settings.enabled || t.host.None? then t.listener.None? && !t.listenerFailed
    else if (if running.Some? then running.value == settings.token || env.retokens else env.listens) then
      t.listener == Some((Listener(t.host.value, settings.token, true), settings.token))
    else t.listener.None? && t.listenerFailed
  }

  function RunningToken(s: State): Option<string> {
    if Listening(s) then Some(s.listener.value.0.token) else None
  }

  lemma ReconcilingServes(s: State, settings: McpSettings, env: Env)
    requires Held(s)
    ensures var t := ReconcileListener(s, WhenEnabled(settings.enabled, settings.token), env);
            Serves(RunningToken(s), t, settings, env) && SameTunnelSide(s, t) && t.mcpFile == s.mcpFile
  {
  }

  lemma CommittingServes(s: State, settings: McpSettings, changed: bool, env: Env)
    requires Held(s) && (!changed ==> s.mcpFile == Some(settings))
    ensures var (t, reply) := CommitAndListen(s, settings, changed, env);
            && SameTunnelSide(s, t)
            && if changed && env.commit != Committed then
                 reply == Failing(IoError) && t == s.(mcpFile := if env.commit == Unwritten then s.mcpFile else Some(settings))
               else
                 && reply.McpStatus? && reply.enabled == settings.enabled && t.mcpFile == Some(settings)
                 && Serves(RunningToken(s), t, settings, env)
  {
    ReconcilingServes(if changed then WriteMcp(s, settings, env.commit) else s, settings, env);
  }

  /** Enabling commits just that, answers with it, and serves it; it fails exactly if it cannot read or commit. */
  lemma EnablingDoesAsAsked(s: State, enabled: bool, env: Env)
    requires Held(s)
    ensures var (t, reply) := Step(s, McpSetEnabled(enabled), env);
            && SameTunnelSide(s, t)
            && if !Finds(s, env) || (Found(s, env).enabled != enabled && env.commit != Committed) then
                 reply == Failing(IoError) && t.listener == s.listener
               else
                 var settings := McpSettings(enabled, Found(s, env).token);
                 && reply.McpStatus? && reply.enabled == enabled && t.mcpFile == Some(settings)
                 && Serves(RunningToken(s), t, settings, env)
  {
    ReadingFinds(s, env);
    ReadingKeeps(s, env);
    if Finds(s, env) {
      CommittingServes(s.(mcpFile := Some(Found(s, env))), Found(s, env).(enabled := enabled), Found(s, env).enabled != enabled, env);
    }
  }

  /** Rotating commits the drawn token and nothing else, and serves it if MCP is enabled. */
  lemma RotatingDoesAsAsked(s: State, env: Env)
    requires Held(s)
    ensures var (t, reply) := Step(s, McpRotate, env);
            && SameTunnelSide(s, t)
            && if !Finds(s, env) || env.token.None? || env.commit != Committed then
                 reply == Failing(IoError) && t.listener == s.listener
               else
                 var settings := McpSettings(Found(s, env).enabled, env.token.value);
                 && reply.McpStatus? && reply.enabled == settings.enabled && t.mcpFile == Some(settings)
                 && Serves(RunningToken(s), t, settings, env)
  {
    ReadingFinds(s, env);
    ReadingKeeps(s, env);
    if Finds(s, env) && env.token.Some? {
      CommittingServes(s.(mcpFile := Some(Found(s, env))), Found(s, env).(token := env.token.value), true, env);
    }
  }

  /** A failed commit leaves the settings that were found, unless the new ones were written after all. */
  lemma FailedCommitLeaves(s: State, op: Op, env: Env)
    requires Held(s) && Finds(s, env) && env.commit != Committed
    requires op.McpSetEnabled? || (op.McpRotate? && env.token.Some?)
    ensures var found := Found(s, env);
            var asked := if op.McpRotate? then McpSettings(found.enabled, env.token.value) else McpSettings(op.enabled, found.token);
            Step(s, op, env).0.mcpFile == Some(if env.commit == Unsynced then asked else if asked == found then asked else found)
  {
    ReadingFinds(s, env);
  }

  // ---- the tunnel ----

  /** The tunnel for some settings: none, the held one if it has their id and key and was not refused, or a fresh one. */
  ghost predicate Tunnels(held: Option<Tunnel>, t: State, settings: TunnelSettings, env: Env) {
    if !settings.enabled || t.host.None? then t.tunnel.None? && !t.tunnelFailed
    else if held.Some? && held.value.id == settings.id && held.value.key == settings.key && held.value.native != Refused then
      t.tunnel.Some? && t.tunnel.value.0 == held.value
    else if env.connects then
      t.tunnel.Some? && t.tunnel.value.0 == Tunnel(t.host.value, settings.id, settings.key, Connecting, 0)
    else t.tunnel.None? && t.tunnelFailed
  }

  function HeldTunnel(s: State): Option<Tunnel> {
    if s.tunnel.Some? then Some(s.tunnel.value.0) else None
  }

  lemma ReconcilingTunnels(s: State, settings: TunnelSettings, env: Env)
    requires Held(s)
    ensures var t := ReconcileTunnel(s, WhenEnabled(settings.enabled, settings), env);
            Tunnels(HeldTunnel(s), t, settings, env) && SameMcpSide(s, t) && t.tunnelFile == s.tunnelFile
  {
  }

  /** The first call in the file once an operation has answered: the one there was, or the one the tunnel delivered. */
  function FirstCall(t: State, before: Option<nat>, env: Env): Option<nat> {
    if before.None? && t.tunnel.Some? && t.tunnel.value.0.lastCall > 0 && env.callCommit != Unwritten then
      Some(t.tunnel.value.0.lastCall)
    else before
  }

  lemma CommittingTunnels(s: State, settings: TunnelSettings, changed: bool, env: Env)
    requires Held(s) && (!changed ==> s.tunnelFile == Some(settings))
    ensures var (t, reply) := CommitAndApply(s, settings, changed, env);
            && SameMcpSide(s, t)
            && if changed && env.commit != Committed then
                 reply == Failing(IoError) && t == s.(tunnelFile := if env.commit == Unwritten then s.tunnelFile else Some(settings))
               else
                 && reply.TunnelStatus? && reply.configured && reply.enabled == settings.enabled
                 && t.tunnelFile == Some(settings.(firstCall := FirstCall(t, settings.firstCall, env)))
                 && Tunnels(HeldTunnel(s), t, settings, env)
  {
    if !changed || env.commit == Committed {
      var written := s.(tunnelFile := Some(settings));
      ReconcilingTunnels(written, settings, env);
      ReportingKeeps(ReconcileTunnel(written, WhenEnabled(settings.enabled, settings), env), settings, env);
    }
  }

  lemma ReportingKeeps(s: State, settings: TunnelSettings, env: Env)
    requires s.tunnelFile == Some(settings)
    ensures var (t, reply) := ReportTunnel(s, Some(settings), env);
            && t == s.(tunnelFile := Some(settings.(firstCall := FirstCall(s, settings.firstCall, env))))
            && reply.TunnelStatus? && reply.configured && reply.enabled == settings.enabled
  {
  }

  /** The answer to bad credentials, checked before anything is read or committed. */
  function Refusal(wellFormed: bool, credentials: Credentials): Option<Failure> {
    if !wellFormed then Some(InvalidConfig)
    else
      match credentials
      case Valid => None
      case InvalidTunnel => Some(TunnelNotFound)
      case InvalidKey => Some(ApiKeyInvalid)
      case Unavailable => Some(OpenAiUnavailable)
  }

  /** Configuring commits the id and the key, keeps whether the tunnel is enabled, and starts the first call over. */
  lemma ConfiguringDoesAsAsked(s: State, id: string, key: string, wellFormed: bool, env: Env)
    requires Held(s)
    ensures var (t, reply) := Step(s, TunnelConfigure(id, key, wellFormed), env);
            var enabled := s.tunnelFile.Some? && s.tunnelFile.value.enabled;
            && SameMcpSide(s, t)
            && if Refusal(wellFormed, env.credentials).Some? then
                 reply == Failing(Refusal(wellFormed, env.credentials).value) && t == s
               else if !env.tunnelRead || env.commit != Committed then
                 reply == Failing(IoError) && t.tunnel == s.tunnel && (env.commit != Unsynced ==> t == s)
               else
                 && reply.TunnelStatus? && reply.configured && reply.enabled == enabled
                 && t.tunnelFile == Some(TunnelSettings(enabled, id, key, FirstCall(t, None, env)))
                 && Tunnels(HeldTunnel(s), t, TunnelSettings(enabled, id, key, None), env)
  {
    CommittingTunnels(s, TunnelSettings(s.tunnelFile.Some? && s.tunnelFile.value.enabled, id, key, None), true, env);
  }

  /** Enabling a tunnel changes only that, and fails exactly if there is none, or it cannot be read or committed. */
  lemma TunnelEnablingDoesAsAsked(s: State, enabled: bool, env: Env)
    requires Held(s)
    ensures var (t, reply) := Step(s, TunnelSetEnabled(enabled), env);
            && SameMcpSide(s, t)
            && if !env.tunnelRead then reply == Failing(IoError) && t == s
               else if s.tunnelFile.None? then reply == Failing(NotConfigured) && t == s
               else if s.tunnelFile.value.enabled != enabled && env.commit != Committed then
                 reply == Failing(IoError) && t.tunnel == s.tunnel && (env.commit != Unsynced ==> t == s)
               else
                 var was := s.tunnelFile.value;
                 && reply.TunnelStatus? && reply.configured && reply.enabled == enabled
                 && t.tunnelFile == Some(TunnelSettings(enabled, was.id, was.key, FirstCall(t, was.firstCall, env)))
                 && Tunnels(HeldTunnel(s), t, TunnelSettings(enabled, was.id, was.key, was.firstCall), env)
  {
    if env.tunnelRead && s.tunnelFile.Some? {
      CommittingTunnels(s, s.tunnelFile.value.(enabled := enabled), s.tunnelFile.value.enabled != enabled, env);
    }
  }

  /** Clearing stops the tunnel whatever happens, and succeeds exactly if the file is gone for good. */
  lemma ClearingClears(s: State, env: Env)
    ensures var (t, reply) := Step(s, TunnelClear, env);
            && SameMcpSide(s, t) && t.tunnel.None? && !t.tunnelFailed
            && t.tunnelFile == (if env.commit == Unwritten then s.tunnelFile else None)
            && reply == if env.commit == Committed then TunnelStatus(false, false, Stopped, None, None) else Failing(IoError)
  {
  }

  // ---- reconciling and asking ----

  /** What serves after the settings were read again; `running` and `held` are what served the same host before. */
  ghost predicate Restored(s: State, running: Option<string>, held: Option<Tunnel>, t: State, env: Env) {
    && t.tunnelFile == s.tunnelFile
    && (if Finds(s, env) then t.mcpFile == Some(Found(s, env)) && Serves(running, t, Found(s, env), env)
        else t.listener.None? && !t.listenerFailed)
    && (if env.tunnelRead && s.tunnelFile.Some? then Tunnels(held, t, s.tunnelFile.value, env)
        else t.tunnel.None? && !t.tunnelFailed)
  }

  /** The listener half of reconciling. */
  ghost function Listened(s: State, env: Env): State {
    var (read, mcp) := ReadMcp(s, env);
    ReconcileListener(read, if mcp.Some? then WhenEnabled(mcp.value.enabled, mcp.value.token) else None, env)
  }

  lemma ListenedServes(s: State, env: Env)
    requires Held(s)
    ensures var t := Listened(s, env);
            && Held(t) && SameTunnelSide(s, t)
            && if Finds(s, env) then t.mcpFile == Some(Found(s, env)) && Serves(RunningToken(s), t, Found(s, env), env)
               else t.listener.None? && !t.listenerFailed
  {
    var (read, mcp) := ReadMcp(s, env);
    ReadingFinds(s, env);
    ReadingKeeps(s, env);
    if mcp.Some? {
      ReconcilingServes(read, mcp.value, env);
      ListenerFollows(read, WhenEnabled(mcp.value.enabled, mcp.value.token), env);
    }
  }

  lemma TunnelledServes(s: State, env: Env)
    requires Held(s)
    ensures var tunnel := ReadTunnel(s, env);
            var wanted := if tunnel.Ok? && tunnel.value.Some? then WhenEnabled(tunnel.value.value.enabled, tunnel.value.value) else None;
            var t := ReconcileTunnel(s, wanted, env);
            && SameMcpSide(s, t) && t.tunnelFile == s.tunnelFile
            && if env.tunnelRead && s.tunnelFile.Some? then Tunnels(HeldTunnel(s), t, s.tunnelFile.value, env)
               else t.tunnel.None? && !t.tunnelFailed
  {
    if env.tunnelRead && s.tunnelFile.Some? {
      ReconcilingTunnels(s, s.tunnelFile.value, env);
    }
  }

  lemma ReconcilingServesBoth(s: State, env: Env)
    requires Held(s)
    ensures Restored(s, RunningToken(s), HeldTunnel(s), Reconcile(s, env), env) && Reconcile(s, env).host == s.host
  {
    var listening := Listened(s, env);
    ListenedServes(s, env);
    TunnelledServes(listening, env);
    RestoredFromHalves(s, listening, Reconcile(s, env), env);
  }

  lemma RestoredFromHalves(s: State, listening: State, t: State, env: Env)
    requires SameTunnelSide(s, listening) && SameMcpSide(listening, t) && t.tunnelFile == listening.tunnelFile
    requires if Finds(s, env) then listening.mcpFile == Some(Found(s, env)) && Serves(RunningToken(s), listening, Found(s, env), env)
             else listening.listener.None? && !listening.listenerFailed
    requires if env.tunnelRead && s.tunnelFile.Some? then Tunnels(HeldTunnel(s), t, s.tunnelFile.value, env)
             else t.tunnel.None? && !t.tunnelFailed
    ensures Restored(s, RunningToken(s), HeldTunnel(s), t, env)
  {
  }

  /** Both are brought to the committed settings, on the host that is attached; a new host is served afresh. */
  lemma BothAreRestored(s: State, op: Op, env: Env)
    requires (op.Reconciling? && Held(s)) || op.Attach?
    ensures var t := Step(s, op, env).0;
            && t.host == (if op.Attach? then op.to else s.host)
            && Restored(s, if op.Attach? then None else RunningToken(s), if op.Attach? then None else HeldTunnel(s), t, env)
  {
    if op.Attach? {
      ReconcilingServesBoth(StopTunnel(StopListener(s)).(host := op.to), env);
    } else {
      ReconcilingServesBoth(s, env);
    }
  }

  /** Asking changes nothing but the first settings and the first call, and fails exactly if it cannot read. */
  lemma AskingChangesNothingElse(s: State, env: Env)
    ensures var (t, reply) := Step(s, McpQuery, env);
            && t == s.(mcpFile := t.mcpFile) && (s.mcpFile.Some? ==> t == s)
            && (reply == Failing(IoError) <==> !Finds(s, env)) && (Finds(s, env) ==> t.mcpFile == Some(Found(s, env)))
    ensures var (t, reply) := Step(s, TunnelQuery, env);
            && t == s.(tunnelFile := t.tunnelFile) && (reply == Failing(IoError) <==> !env.tunnelRead)
            && t.tunnelFile == (if env.tunnelRead && s.tunnelFile.Some?
                                then Some(s.tunnelFile.value.(firstCall := FirstCall(s, s.tunnelFile.value.firstCall, env)))
                                else s.tunnelFile)
  {
    ReadingFinds(s, env);
    ReadingKeeps(s, env);
  }
}
