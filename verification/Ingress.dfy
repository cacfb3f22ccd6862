/**
 The daemon's MCP ingress: a loopback listener and a tunnel that are brought to the committed settings.
 A host is known by a number. What the environment answers is a parameter of every operation.
 */
module Ingress {
  import opened Wrappers

  datatype McpSettings = McpSettings(enabled: bool, token: string)

  datatype TunnelSettings = TunnelSettings(enabled: bool, id: string, key: string, firstCall: Option<nat>)

  /** A commit either happens, or does not, or happens and is still reported as failed because the sync after it failed. */
  datatype Commit = Committed | Unwritten | Unsynced

  /** A listener admits one token; `running` is what it reports. */
  datatype Listener = Listener(host: nat, token: string, running: bool)

  datatype Native = Connecting | Ready | Refused

  datatype Tunnel = Tunnel(host: nat, id: string, key: string, native: Native, lastCall: nat)

  datatype State = State(
    mcpFile: Option<McpSettings>,
    tunnelFile: Option<TunnelSettings>,
    host: Option<nat>,
    listener: Option<(Listener, string)>,
    listenerFailed: bool,
    tunnel: Option<(Tunnel, TunnelSettings)>,
    tunnelFailed: bool)

  /**
   The environment during one operation: whether each file can be read, the tokens drawn, the commits, whether
   a listener or a tunnel can be started, and whether a running listener takes a new token.
   */
  datatype Env = Env(
    mcpRead: bool, firstToken: Option<string>, firstCommit: Commit,
    tunnelRead: bool, token: Option<string>, commit: Commit, callCommit: Commit,
    listens: bool, retokens: bool, connects: bool, credentials: Credentials)

  datatype Credentials = Valid | InvalidTunnel | InvalidKey | Unavailable

  datatype Reason = RuntimeUnavailable | ListenerFailed | TunnelRuntimeFailed
  datatype Failure = IoError | InvalidConfig | TunnelNotFound | ApiKeyInvalid | OpenAiUnavailable | NotConfigured
  datatype Shown = Running | Stopped | Failed | Waiting

  datatype Reply =
    | Failing(failure: Failure)
    | McpStatus(enabled: bool, shown: Shown, reason: Option<Reason>)
    | TunnelStatus(configured: bool, enabled: bool, shown: Shown, reason: Option<Reason>, lastCall: Option<nat>)
    | Done

  // ---- settings ----

  /** The first read commits MCP disabled with a fresh token. */
  function ReadMcp(s: State, env: Env): (State, Option<McpSettings>) {
    if !env.mcpRead then (s, None)
    else if s.mcpFile.Some? then (s, s.mcpFile)
    else if env.firstToken.None? then (s, None)
    else
      var first := McpSettings(false, env.firstToken.value);
      (WriteMcp(s, first, env.firstCommit), if env.firstCommit.Committed? then Some(first) else None)
  }

  function WriteMcp(s: State, settings: McpSettings, commit: Commit): State {
    if commit.Unwritten? then s else s.(mcpFile := Some(settings))
  }

  function ReadTunnel(s: State, env: Env): Result<Option<TunnelSettings>, Failure> {
    if env.tunnelRead then Ok(s.tunnelFile) else Err(IoError)
  }

  function WriteTunnel(s: State, settings: TunnelSettings, commit: Commit): State {
    if commit.Unwritten? then s else s.(tunnelFile := Some(settings))
  }

  // ---- the two reconcilers ----

  function StopListener(s: State): State {
    s.(listener := None, listenerFailed := false)
  }

  function StopTunnel(s: State): State {
    s.(tunnel := None, tunnelFailed := false)
  }

  function StartListener(s: State, host: nat, token: string, env: Env): State {
    if env.listens then s.(listener := Some((Listener(host, token, true), token)), listenerFailed := false)
    else s.(listenerFailed := true)
  }

  function ReconcileListener(s: State, token: Option<string>, env: Env): State {
    if token.None? || s.host.None? then StopListener(s)
    else if s.listener.Some? && s.listener.value.0.running then
      if s.listener.value.1 == token.value then s
      else if env.retokens then
        s.(listener := Some((s.listener.value.0.(token := token.value), token.value)))
      else StopListener(s).(listenerFailed := true)
    else if s.listener.Some? then StartListener(StopListener(s), s.host.value, token.value, env)
    else StartListener(s, s.host.value, token.value, env)
  }

  function ReconcileTunnel(s: State, settings: Option<TunnelSettings>, env: Env): State {
    if settings.None? || s.host.None? then StopTunnel(s)
    else
      var wanted := settings.value;
      if s.tunnel.Some? && s.tunnel.value.1.id == wanted.id && s.tunnel.value.1.key == wanted.key
         && !s.tunnel.value.0.native.Refused? then s
      else if env.connects then
        StopTunnel(s).(tunnel := Some((Tunnel(s.host.value, wanted.id, wanted.key, Connecting, 0), wanted)))
      else StopTunnel(s).(tunnelFailed := true)
  }

  function WhenEnabled<T>(enabled: bool, value: T): Option<T> {
    if enabled then Some(value) else None
  }

  function Reconcile(s: State, env: Env): State {
    var (read, mcp) := ReadMcp(s, env);
    var listening := ReconcileListener(read, if mcp.Some? then WhenEnabled(mcp.value.enabled, mcp.value.token) else None, env);
    var tunnel := ReadTunnel(listening, env);
    ReconcileTunnel(listening, if tunnel.Ok? && tunnel.value.Some? then WhenEnabled(tunnel.value.value.enabled, tunnel.value.value) else None, env)
  }

  // ---- what is reported ----

  function ShowMcp(s: State, enabled: bool): Reply {
    var running := s.listener.Some? && s.listener.value.0.running;
    var reason :=
      if !enabled || running then None
      else if s.host.None? then Some(RuntimeUnavailable)
      else if s.listenerFailed || s.listener.Some? then Some(ListenerFailed)
      else None;
    McpStatus(enabled, if reason.Some? then Failed else if running then Running else Stopped, reason)
  }

  /** The time of the last call the held tunnel delivered. */
  function Observed(s: State): Option<nat> {
    if s.tunnel.Some? && s.tunnel.value.0.lastCall > 0 then Some(s.tunnel.value.0.lastCall) else None
  }

  /** The first call seen is kept in the settings. */
  function KeepFirstCall(s: State, settings: Option<TunnelSettings>, env: Env): (State, Option<TunnelSettings>) {
    if settings.Some? && Observed(s).Some? && settings.value.firstCall.None? then
      var kept := settings.value.(firstCall := Observed(s));
      (WriteTunnel(s, kept, env.callCommit), Some(if env.callCommit.Committed? then kept else settings.value))
    else (s, settings)
  }

  function ShowTunnel(s: State, settings: Option<TunnelSettings>, observed: Option<nat>): Reply {
    var enabled := settings.Some? && settings.value.enabled;
    var reason :=
      if !enabled then None
      else if s.host.None? then Some(RuntimeUnavailable)
      else if s.tunnelFailed || (s.tunnel.Some? && s.tunnel.value.0.native.Refused?) then Some(TunnelRuntimeFailed)
      else None;
    TunnelStatus(
      settings.Some?, enabled,
      if !enabled then Stopped else if reason.Some? then Failed
      else if s.tunnel.Some? && s.tunnel.value.0.native.Ready? then Running else Waiting,
      reason,
      if observed.Some? then observed else if settings.Some? then settings.value.firstCall else None)
  }

  function ReportTunnel(s: State, settings: Option<TunnelSettings>, env: Env): (State, Reply) {
    var (t, kept) := KeepFirstCall(s, settings, env);
    (t, ShowTunnel(t, kept, Observed(s)))
  }

  // ---- operations ----

  /** The frontend's operations, and what happens to the listener and the tunnel on their own. */
  datatype Op =
    | Attach(to: Option<nat>)
    | Reconciling
    | McpQuery
    | McpSetEnabled(enabled: bool)
    | McpRotate
    | TunnelQuery
    | TunnelConfigure(id: string, key: string, wellFormed: bool)
    | TunnelSetEnabled(enabled: bool)
    | TunnelClear
    | ListenerDies
    | TunnelBecomes(native: Native)
    | TunnelCalls(at: nat)

  /** Commits MCP settings if they changed, and only then brings the listener to them. */
  function CommitAndListen(s: State, settings: McpSettings, changed: bool, env: Env): (State, Reply) {
    var written := if changed then WriteMcp(s, settings, env.commit) else s;
    if changed && !env.commit.Committed? then (written, Failing(IoError))
    else
      var listening := ReconcileListener(written, WhenEnabled(settings.enabled, settings.token), env);
      (listening, ShowMcp(listening, settings.enabled))
  }

  function SetEnabledStep(s: State, enabled: bool, env: Env): (State, Reply) {
    var (read, mcp) := ReadMcp(s, env);
    if mcp.None? then (read, Failing(IoError))
    else CommitAndListen(read, mcp.value.(enabled := enabled), mcp.value.enabled != enabled, env)
  }

  function RotateStep(s: State, env: Env): (State, Reply) {
    var (read, mcp) := ReadMcp(s, env);
    if mcp.None? || env.token.None? then (read, Failing(IoError))
    else CommitAndListen(read, mcp.value.(token := env.token.value), true, env)
  }

  function ConfigureStep(s: State, id: string, key: string, wellFormed: bool, env: Env): (State, Reply) {
    if !wellFormed then (s, Failing(InvalidConfig))
    else
      match env.credentials
      case InvalidTunnel => (s, Failing(TunnelNotFound))
      case InvalidKey => (s, Failing(ApiKeyInvalid))
      case Unavailable => (s, Failing(OpenAiUnavailable))
      case Valid =>
        if ReadTunnel(s, env).Err? then (s, Failing(IoError))
        else
          var current := ReadTunnel(s, env).value;
          var settings := TunnelSettings(current.Some? && current.value.enabled, id, key, None);
          CommitAndApply(s, settings, true, env)
  }

  /** Commits tunnel settings if they changed, and only then brings the tunnel to them. */
  function CommitAndApply(s: State, settings: TunnelSettings, changed: bool, env: Env): (State, Reply) {
    var written := if changed then WriteTunnel(s, settings, env.commit) else s;
    if changed && !env.commit.Committed? then (written, Failing(IoError))
    else ReportTunnel(ReconcileTunnel(written, WhenEnabled(settings.enabled, settings), env), Some(settings), env)
  }

  function TunnelSetEnabledStep(s: State, enabled: bool, env: Env): (State, Reply) {
    match ReadTunnel(s, env)
    case Err(_) => (s, Failing(IoError))
    case Ok(None) => (s, Failing(NotConfigured))
    case Ok(Some(settings)) => CommitAndApply(s, settings.(enabled := enabled), settings.enabled != enabled, env)
  }

  function ClearStep(s: State, env: Env): (State, Reply) {
    var stopped := StopTunnel(s);
    var cleared := if env.commit.Unwritten? then stopped else stopped.(tunnelFile := None);
    if !env.commit.Committed? then (cleared, Failing(IoError)) else ReportTunnel(cleared, None, env)
  }

  function Step(s: State, op: Op, env: Env): (State, Reply) {
    match op
    case Attach(to) => (Reconcile(StopTunnel(StopListener(s)).(host := to), env), Done)
    case Reconciling => (Reconcile(s, env), Done)
    case McpQuery =>
      var (read, mcp) := ReadMcp(s, env);
      (read, if mcp.None? then Failing(IoError) else ShowMcp(read, mcp.value.enabled))
    case McpSetEnabled(enabled) => SetEnabledStep(s, enabled, env)
    case McpRotate => RotateStep(s, env)
    case TunnelQuery =>
      if ReadTunnel(s, env).Err? then (s, Failing(IoError)) else ReportTunnel(s, ReadTunnel(s, env).value, env)
    case TunnelConfigure(id, key, wellFormed) => ConfigureStep(s, id, key, wellFormed, env)
    case TunnelSetEnabled(enabled) => TunnelSetEnabledStep(s, enabled, env)
    case TunnelClear => ClearStep(s, env)
    case ListenerDies =>
      (if s.listener.None? then s
       else s.(listener := Some((s.listener.value.0.(running := false), s.listener.value.1))), Done)
    case TunnelBecomes(native) =>
      (if s.tunnel.None? then s
       else s.(tunnel := Some((s.tunnel.value.0.(native := native), s.tunnel.value.1))), Done)
    case TunnelCalls(at) =>
      (if s.tunnel.None? then s
       else s.(tunnel := Some((s.tunnel.value.0.(lastCall := at), s.tunnel.value.1))), Done)
  }

  // ---- the object ----

  class DaemonIngress {
    var mcpFile: Option<McpSettings>
    var tunnelFile: Option<TunnelSettings>
    var host: Option<nat>
    var listener: Option<(Listener, string)>
    var listenerFailed: bool
    var tunnel: Option<(Tunnel, TunnelSettings)>
    var tunnelFailed: bool

    function Now(): State
      reads this
    {
      State(mcpFile, tunnelFile, host, listener, listenerFailed, tunnel, tunnelFailed)
    }

    constructor (mcpFile: Option<McpSettings>, tunnelFile: Option<TunnelSettings>)
      ensures Now() == State(mcpFile, tunnelFile, None, None, false, None, false)
    {
      this.mcpFile, this.tunnelFile, host := mcpFile, tunnelFile, None;
      listener, listenerFailed, tunnel, tunnelFailed := None, false, None, false;
    }

    method ReadMcpFile(env: Env) returns (settings: Option<McpSettings>)
      modifies `mcpFile
      ensures (Now(), settings) == ReadMcp(old(Now()), env)
    {
      if !env.mcpRead {
        return None;
      }
      if mcpFile.Some? {
        return mcpFile;
      }
      if env.firstToken.None? {
        return None;
      }
      var first := McpSettings(false, env.firstToken.value);
      var committed := CommitMcp(first, env.firstCommit);
      return if committed then Some(first) else None;
    }

    method CommitMcp(settings: McpSettings, commit: Commit) returns (committed: bool)
      modifies `mcpFile
      ensures Now() == WriteMcp(old(Now()), settings, commit) && committed == commit.Committed?
    {
      if !commit.Unwritten? {
        mcpFile := Some(settings);
      }
      return commit.Committed?;
    }

    method CommitTunnel(settings: TunnelSettings, commit: Commit) returns (committed: bool)
      modifies `tunnelFile
      ensures Now() == WriteTunnel(old(Now()), settings, commit) && committed == commit.Committed?
    {
      if !commit.Unwritten? {
        tunnelFile := Some(settings);
      }
      return commit.Committed?;
    }

    method StopListening()
      modifies `listener, `listenerFailed
      ensures Now() == StopListener(old(Now()))
    {
      listener, listenerFailed := None, false;
    }

    method StopTunnelling()
      modifies `tunnel, `tunnelFailed
      ensures Now() == StopTunnel(old(Now()))
    {
      tunnel, tunnelFailed := None, false;
    }

    method BringListener(token: Option<string>, env: Env)
      modifies `listener, `listenerFailed
      ensures Now() == ReconcileListener(old(Now()), token, env)
    {
      if token.None? || host.None? {
        StopListening();
        return;
      }
      if listener.Some? {
        var (held, current) := listener.value;
        if held.running {
          if current != token.value {
            if env.retokens {
              listener := Some((held.(token := token.value), token.value));
            } else {
              StopListening();
              listenerFailed := true;
            }
          }
          return;
        }
        StopListening();
      }
      if env.listens {
        listener := Some((Listener(host.value, token.value, true), token.value));
        listenerFailed := false;
      } else {
        listenerFailed := true;
      }
    }

    method BringTunnel(settings: Option<TunnelSettings>, env: Env)
      modifies `tunnel, `tunnelFailed
      ensures Now() == ReconcileTunnel(old(Now()), settings, env)
    {
      if settings.None? || host.None? {
        StopTunnelling();
        return;
      }
      var wanted := settings.value;
      if tunnel.Some? && tunnel.value.1.id == wanted.id && tunnel.value.1.key == wanted.key
         && !tunnel.value.0.native.Refused? {
        return;
      }
      StopTunnelling();
      if env.connects {
        tunnel := Some((Tunnel(host.value, wanted.id, wanted.key, Connecting, 0), wanted));
      } else {
        tunnelFailed := true;
      }
    }

    method Bring(env: Env)
      modifies this
      ensures Now() == Reconcile(old(Now()), env)
    {
      var mcp := ReadMcpFile(env);
      BringListener(if mcp.Some? then WhenEnabled(mcp.value.enabled, mcp.value.token) else None, env);
      BringTunnel(if env.tunnelRead && tunnelFile.Some? then WhenEnabled(tunnelFile.value.enabled, tunnelFile.value) else None, env);
    }

    method AttachHost(to: Option<nat>, env: Env)
      modifies this
      ensures Now() == Step(old(Now()), Attach(to), env).0
    {
      StopListening();
      StopTunnelling();
      host := to;
      Bring(env);
    }

    method ReportMcp(enabled: bool) returns (reply: Reply)
      ensures reply == ShowMcp(Now(), enabled)
    {
      var running := listener.Some? && listener.value.0.running;
      var reason: Option<Reason> := None;
      if enabled && !running {
        if host.None? {
          reason := Some(RuntimeUnavailable);
        } else if listenerFailed || listener.Some? {
          reason := Some(ListenerFailed);
        }
      }
      return McpStatus(enabled, if reason.Some? then Failed else if running then Running else Stopped, reason);
    }

    method SetMcpEnabled(enabled: bool, env: Env) returns (reply: Reply)
      modifies this
      ensures (Now(), reply) == SetEnabledStep(old(Now()), enabled, env)
    {
      var read := ReadMcpFile(env);
      if read.None? {
        return Failing(IoError);
      }
      var settings := read.value;
      if settings.enabled != enabled {
        settings := settings.(enabled := enabled);
        var committed := CommitMcp(settings, env.commit);
        if !committed {
          return Failing(IoError);
        }
      }
      BringListener(WhenEnabled(enabled, settings.token), env);
      reply := ReportMcp(enabled);
    }

    method RotateMcp(env: Env) returns (reply: Reply)
      modifies this
      ensures (Now(), reply) == RotateStep(old(Now()), env)
    {
      var read := ReadMcpFile(env);
      if read.None? || env.token.None? {
        return Failing(IoError);
      }
      var settings := read.value.(token := env.token.value);
      var committed := CommitMcp(settings, env.commit);
      if !committed {
        return Failing(IoError);
      }
      BringListener(WhenEnabled(settings.enabled, settings.token), env);
      reply := ReportMcp(settings.enabled);
    }

    method Report(settings: Option<TunnelSettings>, env: Env) returns (reply: Reply)
      modifies `tunnelFile
      ensures (Now(), reply) == ReportTunnel(old(Now()), settings, env)
    {
      var observed: Option<nat> := None;
      if tunnel.Some? && tunnel.value.0.lastCall > 0 {
        observed := Some(tunnel.value.0.lastCall);
      }
      var kept := settings;
      if settings.Some? && observed.Some? && settings.value.firstCall.None? {
        var current := settings.value.(firstCall := observed);
        var committed := CommitTunnel(current, env.callCommit);
        kept := Some(if committed then current else current.(firstCall := None));
      }
      return ShowTunnel(Now(), kept, observed);
    }

    method Apply(settings: TunnelSettings, changed: bool, env: Env) returns (reply: Reply)
      modifies this
      ensures (Now(), reply) == CommitAndApply(old(Now()), settings, changed, env)
    {
      if changed {
        var committed := CommitTunnel(settings, env.commit);
        if !committed {
          return Failing(IoError);
        }
      }
      BringTunnel(WhenEnabled(settings.enabled, settings), env);
      reply := Report(Some(settings), env);
    }

    method ConfigureTunnel(id: string, key: string, wellFormed: bool, env: Env) returns (reply: Reply)
      modifies this
      ensures (Now(), reply) == ConfigureStep(old(Now()), id, key, wellFormed, env)
    {
      if !wellFormed {
        return Failing(InvalidConfig);
      }
      match env.credentials {
        case Valid =>
        case InvalidTunnel => return Failing(TunnelNotFound);
        case InvalidKey => return Failing(ApiKeyInvalid);
        case Unavailable => return Failing(OpenAiUnavailable);
      }
      if !env.tunnelRead {
        return Failing(IoError);
      }
      var enabled := tunnelFile.Some? && tunnelFile.value.enabled;
      reply := Apply(TunnelSettings(enabled, id, key, None), true, env);
    }

    method SetTunnelEnabled(enabled: bool, env: Env) returns (reply: Reply)
      modifies this
      ensures (Now(), reply) == TunnelSetEnabledStep(old(Now()), enabled, env)
    {
      if !env.tunnelRead {
        return Failing(IoError);
      }
      if tunnelFile.None? {
        return Failing(NotConfigured);
      }
      var settings := tunnelFile.value;
      reply := Apply(settings.(enabled := enabled), settings.enabled != enabled, env);
    }

    method ClearTunnel(env: Env) returns (reply: Reply)
      modifies this
      ensures (Now(), reply) == ClearStep(old(Now()), env)
    {
      StopTunnelling();
      if !env.commit.Unwritten? {
        tunnelFile := None;
      }
      if !env.commit.Committed? {
        return Failing(IoError);
      }
      reply := Report(None, env);
    }
  }

  // ---- what every step keeps ----

  /** Whatever is held belongs to the attached host, and is what it was last told to be. */
  ghost predicate Held(s: State) {
    && (s.listener.Some? ==> s.host == Some(s.listener.value.0.host) && s.listener.value.0.token == s.listener.value.1)
    && (s.tunnel.Some? ==> s.host == Some(s.tunnel.value.0.host)
                           && s.tunnel.value.0.id == s.tunnel.value.1.id && s.tunnel.value.0.key == s.tunnel.value.1.key)
  }

  /** A running listener admits the committed token, and MCP is committed enabled. */
  ghost predicate ListenerTrue(s: State) {
    s.listener.Some? && s.listener.value.0.running ==>
      s.mcpFile.Some? && s.mcpFile.value.enabled && s.mcpFile.value.token == s.listener.value.0.token
  }

  /** A held tunnel carries the committed id and key, and is committed enabled. */
  ghost predicate TunnelTrue(s: State) {
    s.tunnel.Some? ==>
      && s.tunnelFile.Some? && s.tunnelFile.value.enabled
      && s.tunnelFile.value.id == s.tunnel.value.0.id && s.tunnelFile.value.key == s.tunnel.value.0.key
  }

  ghost predicate Inv(s: State) {
    Held(s) && ListenerTrue(s) && TunnelTrue(s)
  }

  predicate Listening(s: State) {
    s.listener.Some? && s.listener.value.0.running
  }

  /**
   The operations that leave something running on settings that are no longer the committed ones: the new
   settings reached the file, the commit was reported as failed, and what was running had to change.
   */
  predicate Stale(s: State, op: Op, env: Env) {
    && env.commit.Unsynced?
    && match op
       case McpSetEnabled(enabled) => env.mcpRead && Listening(s) && !enabled
       case McpRotate => env.mcpRead && Listening(s) && env.token.Some? && env.token.value != s.listener.value.0.token
       case TunnelSetEnabled(enabled) => env.tunnelRead && s.tunnel.Some? && !enabled
       case TunnelConfigure(id, key, wellFormed) =>
         wellFormed && env.credentials.Valid? && env.tunnelRead && s.tunnel.Some?
         && (id != s.tunnel.value.0.id || key != s.tunnel.value.0.key)
       case _ => false
  }

  lemma ListenerFollows(s: State, token: Option<string>, env: Env)
    requires Held(s)
    ensures var t := ReconcileListener(s, token, env);
            && Held(t) && t == s.(listener := t.listener, listenerFailed := t.listenerFailed)
            && (Listening(t) ==> token == Some(t.listener.value.0.token))
  {
  }

  lemma TunnelFollows(s: State, settings: Option<TunnelSettings>, env: Env)
    requires Held(s)
    ensures var t := ReconcileTunnel(s, settings, env);
            && Held(t) && t == s.(tunnel := t.tunnel, tunnelFailed := t.tunnelFailed)
            && (t.tunnel.Some? ==> settings.Some? && settings.value.id == t.tunnel.value.0.id && settings.value.key == t.tunnel.value.0.key)
  {
  }

  /** Reading may commit first settings, but only where there were none, and then nothing is enabled. */
  lemma ReadingKeeps(s: State, env: Env)
    ensures var (read, mcp) := ReadMcp(s, env);
            && read == s.(mcpFile := read.mcpFile)
            && (s.mcpFile.Some? ==> read.mcpFile == s.mcpFile && (mcp.Some? <==> env.mcpRead))
            && (mcp.Some? ==> read.mcpFile == mcp)
  {
  }

  lemma ReadingIsTrue(s: State, env: Env)
    requires Inv(s)
    ensures Inv(ReadMcp(s, env).0)
    ensures Listening(s) ==> ReadMcp(s, env).0 == s
  {
    ReadingKeeps(s, env);
  }

  /** Reconciling brings both to the committed settings, whatever they were running on. */
  lemma ReconcilingRestores(s: State, env: Env)
    requires Held(s)
    ensures Inv(Reconcile(s, env))
    ensures Reconcile(s, env).host == s.host
  {
    var (read, mcp) := ReadMcp(s, env);
    ReadingKeeps(s, env);
    var token := if mcp.Some? then WhenEnabled(mcp.value.enabled, mcp.value.token) else None;
    ListenerFollows(read, token, env);
    var listening := ReconcileListener(read, token, env);
    assert ListenerTrue(listening);
    TunnelRestored(listening, env);
  }

  lemma TunnelRestored(s: State, env: Env)
    requires Held(s) && ListenerTrue(s)
    ensures var tunnel := ReadTunnel(s, env);
            var wanted := if tunnel.Ok? && tunnel.value.Some? then WhenEnabled(tunnel.value.value.enabled, tunnel.value.value) else None;
            Inv(ReconcileTunnel(s, wanted, env)) && ReconcileTunnel(s, wanted, env).host == s.host
  {
    TunnelFollows(s, if env.tunnelRead && s.tunnelFile.Some? then WhenEnabled(s.tunnelFile.value.enabled, s.tunnelFile.value) else None, env);
  }

  /** Attaching restores it from any state at all: nothing of the previous host is left. */
  lemma AttachingRestores(s: State, to: Option<nat>, env: Env)
    ensures Inv(Step(s, Attach(to), env).0) && Step(s, Attach(to), env).0.host == to
  {
    ReconcilingRestores(StopTunnel(StopListener(s)).(host := to), env);
  }

  lemma ListenIsTrue(s: State, settings: McpSettings, changed: bool, env: Env)
    requires Inv(s) && (!changed ==> s.mcpFile == Some(settings))
    ensures var t := CommitAndListen(s, settings, changed, env).0;
            && Held(t) && TunnelTrue(t)
            && (ListenerTrue(t) <==>
                 !(changed && env.commit.Unsynced? && Listening(s)
                   && (!settings.enabled || settings.token != s.listener.value.0.token)))
  {
    var written := if changed then WriteMcp(s, settings, env.commit) else s;
    if !changed || env.commit.Committed? {
      ListenerFollows(written, WhenEnabled(settings.enabled, settings.token), env);
    }
  }

  lemma SetEnabledIsTrue(s: State, enabled: bool, env: Env)
    requires Inv(s)
    ensures Held(SetEnabledStep(s, enabled, env).0)
    ensures Inv(SetEnabledStep(s, enabled, env).0) <==> !Stale(s, McpSetEnabled(enabled), env)
  {
    var (read, mcp) := ReadMcp(s, env);
    ReadingKeeps(s, env);
    ReadingIsTrue(s, env);
    if mcp.Some? {
      ListenIsTrue(read, mcp.value.(enabled := enabled), mcp.value.enabled != enabled, env);
    }
  }

  lemma RotateIsTrue(s: State, env: Env)
    requires Inv(s)
    ensures Held(RotateStep(s, env).0)
    ensures Inv(RotateStep(s, env).0) <==> !Stale(s, McpRotate, env)
  {
    var (read, mcp) := ReadMcp(s, env);
    ReadingKeeps(s, env);
    ReadingIsTrue(s, env);
    if mcp.Some? && env.token.Some? {
      ListenIsTrue(read, mcp.value.(token := env.token.value), true, env);
    }
  }

  lemma ReportIsTrue(s: State, settings: Option<TunnelSettings>, env: Env)
    requires Inv(s) && settings == s.tunnelFile
    ensures Inv(ReportTunnel(s, settings, env).0)
  {
  }

  lemma ApplyIsTrue(s: State, settings: TunnelSettings, changed: bool, env: Env)
    requires Inv(s) && (s.tunnel.Some? && settings != s.tunnelFile.value ==> changed) && (!changed ==> s.tunnelFile == Some(settings))
    ensures var t := CommitAndApply(s, settings, changed, env).0;
            && Held(t) && ListenerTrue(t)
            && (TunnelTrue(t) <==>
                 !(changed && env.commit.Unsynced? && s.tunnel.Some?
                   && (!settings.enabled || settings.id != s.tunnel.value.0.id || settings.key != s.tunnel.value.0.key)))
  {
    var written := if changed then WriteTunnel(s, settings, env.commit) else s;
    if !changed || env.commit.Committed? {
      var wanted := WhenEnabled(settings.enabled, settings);
      TunnelFollows(written, wanted, env);
      ReportIsTrue(ReconcileTunnel(written, wanted, env), Some(settings), env);
    }
  }

  /**
   Every operation and every environment failure keeps the invariant, with one exact family of exceptions:
   a commit that took effect and was still reported as failed.
   */
  lemma StepIsTrue(s: State, op: Op, env: Env)
    requires Inv(s)
    ensures Inv(Step(s, op, env).0) <==> !Stale(s, op, env)
    ensures Held(Step(s, op, env).0)
  {
    match op {
      case Attach(to) => AttachingRestores(s, to, env);
      case Reconciling => ReconcilingRestores(s, env);
      case McpSetEnabled(enabled) => SetEnabledIsTrue(s, enabled, env);
      case McpRotate => RotateIsTrue(s, env);
      case McpQuery => ReadingIsTrue(s, env);
      case TunnelQuery => ReportIsTrue(s, s.tunnelFile, env);
      case TunnelConfigure(id, key, wellFormed) =>
        if wellFormed && env.credentials.Valid? && env.tunnelRead {
          ApplyIsTrue(s, TunnelSettings(s.tunnelFile.Some? && s.tunnelFile.value.enabled, id, key, None), true, env);
        }
      case TunnelSetEnabled(enabled) =>
        if env.tunnelRead && s.tunnelFile.Some? {
          ApplyIsTrue(s, s.tunnelFile.value.(enabled := enabled), s.tunnelFile.value.enabled != enabled, env);
        }
      case TunnelClear => ReportIsTrue(StopTunnel(s).(tunnelFile := None), None, env);
      case _ =>
    }
  }

  // ---- runs ----

  predicate Initial(s: State) {
    s == State(s.mcpFile, s.tunnelFile, None, None, false, None, false)
  }

  ghost predicate StepAt(run: seq<State>, ops: seq<(Op, Env)>, n: nat)
    requires n + 1 < |run| && n < |ops|
  {
    run[n + 1] == Step(run[n], ops[n].0, ops[n].1).0
  }

  ghost predicate IsRun(run: seq<State>, ops: seq<(Op, Env)>) {
    && |run| == |ops| + 1 && Initial(run[0])
    && forall n {:trigger StepAt(run, ops, n)} :: 0 <= n < |ops| ==> StepAt(run, ops, n)
  }

  /** The step of the run did not leave stale settings in use. */
  ghost predicate StaleAt(run: seq<State>, ops: seq<(Op, Env)>, n: nat)
    requires n < |run| && n < |ops|
  {
    Stale(run[n], ops[n].0, ops[n].1)
  }

  /** In every run, until the first stale step. */
  lemma {:induction false} RunIsTrue(run: seq<State>, ops: seq<(Op, Env)>, n: nat)
    requires IsRun(run, ops) && n <= |ops|
    requires forall i :: 0 <= i < n ==> !StaleAt(run, ops, i)
    ensures Inv(run[n])
  {
    if n > 0 {
      RunIsTrue(run, ops, n - 1);
      assert StepAt(run, ops, n - 1) && !StaleAt(run, ops, n - 1);
      StepIsTrue(run[n - 1], ops[n - 1].0, ops[n - 1].1);
    }
  }

  lemma ListeningKeepsHeld(s: State, settings: McpSettings, changed: bool, env: Env)
    requires Held(s)
    ensures var t := CommitAndListen(s, settings, changed, env).0; Held(t) && t.host == s.host && t.tunnelFile == s.tunnelFile
  {
    ListenerFollows(if changed then WriteMcp(s, settings, env.commit) else s, WhenEnabled(settings.enabled, settings.token), env);
  }

  lemma ApplyingKeepsHeld(s: State, settings: TunnelSettings, changed: bool, env: Env)
    requires Held(s)
    ensures var t := CommitAndApply(s, settings, changed, env).0; Held(t) && t.host == s.host
  {
    TunnelFollows(if changed then WriteTunnel(s, settings, env.commit) else s, WhenEnabled(settings.enabled, settings), env);
  }

  lemma McpKeepsHeld(s: State, enabled: bool, env: Env)
    requires Held(s)
    ensures var t := SetEnabledStep(s, enabled, env).0; Held(t) && t.host == s.host && t.tunnelFile == s.tunnelFile
    ensures var t := RotateStep(s, env).0; Held(t) && t.host == s.host && t.tunnelFile == s.tunnelFile
  {
    var (read, mcp) := ReadMcp(s, env);
    ReadingKeeps(s, env);
    if mcp.Some? {
      ListeningKeepsHeld(read, mcp.value.(enabled := enabled), mcp.value.enabled != enabled, env);
      if env.token.Some? {
        ListeningKeepsHeld(read, mcp.value.(token := env.token.value), true, env);
      }
    }
  }

  lemma StepKeepsHeld(s: State, op: Op, env: Env)
    requires Held(s)
    ensures Held(Step(s, op, env).0)
    ensures Step(s, op, env).0.host == if op.Attach? then op.to else s.host
  {
    match op {
      case Attach(to) => ReconcilingRestores(StopTunnel(StopListener(s)).(host := to), env);
      case Reconciling => ReconcilingRestores(s, env);
      case McpQuery => ReadingKeeps(s, env);
      case McpSetEnabled(enabled) => McpKeepsHeld(s, enabled, env);
      case McpRotate => McpKeepsHeld(s, true, env);
      case TunnelConfigure(id, key, wellFormed) =>
        ApplyingKeepsHeld(s, TunnelSettings(s.tunnelFile.Some? && s.tunnelFile.value.enabled, id, key, None), true, env);
      case TunnelSetEnabled(enabled) =>
        if s.tunnelFile.Some? {
          ApplyingKeepsHeld(s, s.tunnelFile.value.(enabled := enabled), s.tunnelFile.value.enabled != enabled, env);
        }
      case _ =>
    }
  }

  /** The host attached by the last attach before step `n`, if any. */
  ghost function LastAttached(ops: seq<(Op, Env)>, n: nat): Option<nat>
    requires n <= |ops|
  {
    if n == 0 then None else if ops[n - 1].0.Attach? then ops[n - 1].0.to else LastAttached(ops, n - 1)
  }

  /** In every run, whatever the commits do, nothing ever serves a host other than the one last attached. */
  lemma {:induction false} DetachedHostsAreNotServed(run: seq<State>, ops: seq<(Op, Env)>, n: nat)
    requires IsRun(run, ops) && n <= |ops|
    ensures Held(run[n]) && run[n].host == LastAttached(ops, n)
    ensures run[n].listener.Some? ==> LastAttached(ops, n) == Some(run[n].listener.value.0.host)
    ensures run[n].tunnel.Some? ==> LastAttached(ops, n) == Some(run[n].tunnel.value.0.host)
  {
    if n > 0 {
      DetachedHostsAreNotServed(run, ops, n - 1);
      assert StepAt(run, ops, n - 1);
      StepKeepsHeld(run[n - 1], ops[n - 1].0, ops[n - 1].1);
    }
  }

  // ---- what is answered ----

  /** A status says what the files and the held listener and tunnel say; a running tunnel is said to run only when it is enabled. */
  ghost predicate Tells(s: State, reply: Reply) {
    match reply
    case McpStatus(enabled, shown, reason) =>
      && s.mcpFile.Some? && s.mcpFile.value.enabled == enabled
      && (shown == Running <==> Listening(s)) && (shown == Failed <==> reason.Some?)
      && (shown == Stopped ==> !enabled || (s.listener.None? && s.host.Some? && !s.listenerFailed))
      && (reason == Some(RuntimeUnavailable) <==> enabled && !Listening(s) && s.host.None?)
      && reason != Some(TunnelRuntimeFailed)
    case TunnelStatus(configured, enabled, shown, reason, lastCall) =>
      && configured == s.tunnelFile.Some? && enabled == (configured && s.tunnelFile.value.enabled)
      && (shown == Running <==> enabled && s.tunnel.Some? && s.tunnel.value.0.native == Ready && s.host.Some? && !s.tunnelFailed)
      && (shown == Failed <==> reason.Some?) && (shown == Stopped <==> !enabled)
      && (reason == Some(RuntimeUnavailable) <==> enabled && s.host.None?) && reason != Some(ListenerFailed)
      && lastCall == (if s.tunnel.Some? && s.tunnel.value.0.lastCall > 0 then Some(s.tunnel.value.0.lastCall)
                      else if s.tunnelFile.Some? then s.tunnelFile.value.firstCall else None)
    case _ => true
  }

  lemma ReportTells(s: State, settings: Option<TunnelSettings>, env: Env)
    requires settings == s.tunnelFile
    ensures var (t, reply) := ReportTunnel(s, settings, env); Tells(t, reply)
  {
    var (t, kept) := KeepFirstCall(s, settings, env);
    assert kept.Some? == t.tunnelFile.Some?;
    assert kept.Some? ==> kept.value.enabled == t.tunnelFile.value.enabled;
  }

  lemma ApplyTells(s: State, settings: TunnelSettings, changed: bool, env: Env)
    requires Held(s) && (!changed ==> s.tunnelFile == Some(settings))
    ensures var (t, reply) := CommitAndApply(s, settings, changed, env); Tells(t, reply)
  {
    var written := if changed then WriteTunnel(s, settings, env.commit) else s;
    var wanted := WhenEnabled(settings.enabled, settings);
    TunnelFollows(written, wanted, env);
    if !changed || env.commit.Committed? {
      ReportTells(ReconcileTunnel(written, wanted, env), Some(settings), env);
    }
  }

  lemma ListenTells(s: State, settings: McpSettings, changed: bool, env: Env)
    requires Held(s) && (!changed ==> s.mcpFile == Some(settings))
    ensures var (t, reply) := CommitAndListen(s, settings, changed, env); Tells(t, reply)
  {
    var written := if changed then WriteMcp(s, settings, env.commit) else s;
    ListenerFollows(written, WhenEnabled(settings.enabled, settings.token), env);
  }

  /** Every operation that answers with a status answers with the state that is committed when it returns. */
  lemma AnswersWithTheCommittedState(s: State, op: Op, env: Env)
    requires Held(s)
    ensures var (t, reply) := Step(s, op, env); Tells(t, reply)
  {
    var (read, mcp) := ReadMcp(s, env);
    ReadingKeeps(s, env);
    match op {
      case McpSetEnabled(enabled) =>
        if mcp.Some? {
          ListenTells(read, mcp.value.(enabled := enabled), mcp.value.enabled != enabled, env);
        }
      case McpRotate =>
        if mcp.Some? && env.token.Some? {
          ListenTells(read, mcp.value.(token := env.token.value), true, env);
        }
      case TunnelQuery => ReportTells(s, s.tunnelFile, env);
      case TunnelConfigure(id, key, wellFormed) =>
        ApplyTells(s, TunnelSettings(s.tunnelFile.Some? && s.tunnelFile.value.enabled, id, key, None), true, env);
      case TunnelSetEnabled(enabled) =>
        if s.tunnelFile.Some? {
          ApplyTells(s, s.tunnelFile.value.(enabled := enabled), s.tunnelFile.value.enabled != enabled, env);
        }
      case TunnelClear => ReportTells(StopTunnel(s).(tunnelFile := None), None, env);
      case _ =>
    }
  }

  predicate SameTunnel(a: Option<TunnelSettings>, b: Option<TunnelSettings>) {
    a.Some? && b.Some? && a.value.id == b.value.id && a.value.key == b.value.key && a.value.firstCall == b.value.firstCall
  }

  lemma ApplyingKeepsFirstCall(s: State, settings: TunnelSettings, changed: bool, env: Env)
    requires SameTunnel(s.tunnelFile, Some(settings)) && settings.firstCall.Some?
    ensures SameTunnel(CommitAndApply(s, settings, changed, env).0.tunnelFile, s.tunnelFile)
  {
  }

  lemma ReconcilingKeepsTunnelFile(s: State, env: Env)
    ensures Reconcile(s, env).tunnelFile == s.tunnelFile
  {
    ReadingKeeps(s, env);
  }

  lemma ListeningKeepsTunnelFile(s: State, settings: McpSettings, changed: bool, env: Env)
    ensures CommitAndListen(s, settings, changed, env).0.tunnelFile == s.tunnelFile
  {
  }

  lemma McpKeepsTunnelFile(s: State, enabled: bool, env: Env)
    ensures SetEnabledStep(s, enabled, env).0.tunnelFile == s.tunnelFile
    ensures RotateStep(s, env).0.tunnelFile == s.tunnelFile
  {
    var (read, mcp) := ReadMcp(s, env);
    ReadingKeeps(s, env);
    if mcp.Some? {
      ListeningKeepsTunnelFile(read, mcp.value.(enabled := enabled), mcp.value.enabled != enabled, env);
      if env.token.Some? {
        ListeningKeepsTunnelFile(read, mcp.value.(token := env.token.value), true, env);
      }
    }
  }

  /** The first call is remembered for as long as the tunnel is neither configured anew nor cleared. */
  lemma FirstCallIsKept(s: State, op: Op, env: Env)
    requires s.tunnelFile.Some? && s.tunnelFile.value.firstCall.Some?
    requires !op.TunnelConfigure? && !op.TunnelClear?
    ensures SameTunnel(Step(s, op, env).0.tunnelFile, s.tunnelFile)
  {
    match op {
      case Attach(to) => ReconcilingKeepsTunnelFile(StopTunnel(StopListener(s)).(host := to), env);
      case Reconciling => ReconcilingKeepsTunnelFile(s, env);
      case McpQuery => ReadingKeeps(s, env);
      case McpSetEnabled(enabled) => McpKeepsTunnelFile(s, enabled, env);
      case McpRotate => McpKeepsTunnelFile(s, true, env);
      case TunnelSetEnabled(enabled) =>
        ApplyingKeepsFirstCall(s, s.tunnelFile.value.(enabled := enabled), s.tunnelFile.value.enabled != enabled, env);
      case _ =>
    }
  }
}
