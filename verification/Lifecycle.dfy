/** The daemon session registry: ten slots per campaign, a current session per campaign, sweeps, and the sections of
    AutoStart between which other callers may run. */
module Lifecycle {
  import opened Outcomes
  import opened Numbers

  const SLOTS: nat := 10

  datatype Config = Config(campaign: string, session: int, socketPath: string, pidFile: string)

  datatype Session = Session(config: Config, startedAt: int, lastActive: int, active: bool, processId: int)

  /** What the manager guards with its lock; `stopped` says that the stop channel is closed. */
  datatype Registry = Registry(sessions: map<string, Session>, activeSession: map<string, int>, idleTimeout: int,
      stopped: bool)

  datatype Error = InvalidInput | ResourceLimit | StartFailed | NotFound

  /** `getSessionKey`. */
  function Key(campaign: string, session: int): string {
    campaign + ":" + Itoa(session)
  }

  /** Keys tell campaigns and sessions apart, even when campaign names hold colons. */
  lemma KeyInjective(c: string, m: int, d: string, n: int)
    ensures Key(c, m) == Key(d, n) <==> c == d && m == n
  {
    hide Itoa;
    ItoaInjective(m, n);
    ItoaInjective(n, m);
    var k, a, b := Key(c, m), Itoa(m), Itoa(n);
    if k == Key(d, n) {
      assert k[|c|] == ':' && k[|d|] == ':';
      assert forall i | |c| < i < |k| :: k[i] == a[i - |c| - 1];
      assert forall i | |d| < i < |k| :: k[i] == b[i - |d| - 1];
      assert |c| == |d|;
      assert c == k[..|c|] == d;
      assert a == k[|c| + 1..] == b;
    }
  }

  // ---------------------------------------------------------------- the critical sections

  predicate ActiveAt(r: Registry, key: string) {
    key in r.sessions && r.sessions[key].active
  }

  predicate Crashed(s: Session, alive: set<int>) {
    s.processId > 0 && s.processId !in alive
  }

  /** The fast path: the campaign's current session is active. */
  predicate HasCurrent(r: Registry, campaign: string) {
    campaign in r.activeSession && ActiveAt(r, Key(campaign, r.activeSession[campaign]))
  }

  predicate IsFree(r: Registry, alive: set<int>, campaign: string, n: int) {
    var key := Key(campaign, n);
    !ActiveAt(r, key) || Crashed(r.sessions[key], alive)
  }

  /** The least free slot from `n` on. */
  function FirstFree(r: Registry, alive: set<int>, campaign: string, n: nat): (slot: Option<nat>)
    requires n <= SLOTS
    ensures slot.Some? ==> n <= slot.value < SLOTS && IsFree(r, alive, campaign, slot.value)
    ensures forall m | n <= m < (if slot.Some? then slot.value else SLOTS) :: !IsFree(r, alive, campaign, m)
    decreases SLOTS - n
  {
    if n == SLOTS then None else if IsFree(r, alive, campaign, n) then Some(n) else FirstFree(r, alive, campaign, n + 1)
  }

  /** Searching marks the slot it returns as inactive when its process has crashed. */
  function Searched(r: Registry, alive: set<int>, campaign: string): Registry {
    var slot := FirstFree(r, alive, campaign, 0);
    if slot.Some? then Deactivated(r, Key(campaign, slot.value)) else r
  }

  function Deactivated(r: Registry, key: string): Registry {
    if ActiveAt(r, key) then r.(sessions := r.sessions[key := r.sessions[key].(active := false)]) else r
  }

  /** The tracking section. */
  function Tracked(r: Registry, campaign: string, n: int, config: Config, pid: int, now: int): Registry {
    r.(sessions := r.sessions[Key(campaign, n) := Session(config, now, now, true, pid)],
       activeSession := r.activeSession[campaign := n])
  }

  function Touched(r: Registry, campaign: string, n: int, now: int): Registry {
    var key := Key(campaign, n);
    if key in r.sessions then r.(sessions := r.sessions[key := r.sessions[key].(lastActive := now)]) else r
  }

  function IdleSwept(r: Registry, now: int): Registry {
    r.(sessions := map k | k in r.sessions ::
      r.sessions[k].(active := r.sessions[k].active && now - r.sessions[k].lastActive <= r.idleTimeout))
  }

  function CrashSwept(r: Registry, alive: set<int>): Registry {
    r.(sessions := map k | k in r.sessions ::
        r.sessions[k].(active := r.sessions[k].active && !Crashed(r.sessions[k], alive)))
  }

  function Switched(r: Registry, campaign: string, n: int, now: int): Option<Registry> {
    if !ActiveAt(r, Key(campaign, n)) then None
    else Some(Touched(r, campaign, n, now).(activeSession := r.activeSession[campaign := n]))
  }

  function ShutDown(r: Registry): Registry {
    r.(sessions := map k | k in r.sessions :: r.sessions[k].(active := false), stopped := true)
  }

  /** `AutoStartDaemon` when nobody interferes. `reply` is the started daemon's configuration and process, if it
      starts. */
  function AutoStarted(r: Registry, alive: set<int>, campaign: string, reply: Option<Reply>, now: int): (Registry,
      Result<Config, Error>) {
    if campaign == "" then (r, Err(InvalidInput))
    else if HasCurrent(r, campaign) then
      var n := r.activeSession[campaign];
      (Touched(r, campaign, n, now), Ok(r.sessions[Key(campaign, n)].config))
    else
      var slot := FirstFree(r, alive, campaign, 0);
      if slot.None? then (r, Err(ResourceLimit))
      else if reply.None? then (Searched(r, alive, campaign), Err(StartFailed))
      else
        var config := StartedConfig(campaign, slot.value, reply.value);
        (Tracked(Searched(r, alive, campaign), campaign, slot.value, config, reply.value.pid, now), Ok(config))
  }

  /** What the operating system contributes to a started daemon: its socket, its PID file and its process. */
  datatype Reply = Reply(socketPath: string, pidFile: string, pid: int)

  /** `GetDaemonConfig` for a given session number. */
  function StartedConfig(campaign: string, n: int, reply: Reply): Config {
    Config(campaign, n, reply.socketPath, reply.pidFile)
  }

  class LifecycleManager {
    var sessions: map<string, Session>
    var activeSession: map<string, int>
    var idleTimeout: int
    var stopped: bool

    function State(): Registry
      reads this
    {
      Registry(sessions, activeSession, idleTimeout, stopped)
    }

    constructor ()
      ensures State() == Registry(map[], map[], 900_000_000_000, false)
    {
      sessions, activeSession, idleTimeout, stopped := map[], map[], 900_000_000_000, false;
    }

    method FindAvailableSession(campaign: string, alive: set<int>) returns (slot: Result<nat, Error>)
      modifies this`sessions
      ensures State() == Searched(old(State()), alive, campaign)
      ensures slot == match FirstFree(old(State()), alive, campaign, 0) case None => Err(ResourceLimit)
          case Some(n) => Ok(n)
    {
      hide Key;
      var session := 0;
      while session < SLOTS
        invariant 0 <= session <= SLOTS && State() == old(State())
        invariant FirstFree(State(), alive, campaign, 0) == FirstFree(State(), alive, campaign, session)
      {
        var key := Key(campaign, session);
        if key !in sessions || !sessions[key].active {
          return Ok(session);
        }
        if sessions[key].processId > 0 && sessions[key].processId !in alive {
          sessions := sessions[key := sessions[key].(active := false)];
          return Ok(session);
        }
        session := session + 1;
      }
      slot := Err(ResourceLimit);
    }

    method UpdateActivity(campaign: string, session: int, now: int)
      modifies this`sessions
      ensures State() == Touched(old(State()), campaign, session, now)
    {
      var key := Key(campaign, session);
      if key in sessions {
        sessions := sessions[key := sessions[key].(lastActive := now)];
      }
    }

    /** Stopping a session never reports a failure, so every idle session ends up inactive. */
    method CheckIdleSessions(now: int)
      modifies this`sessions
      ensures State() == IdleSwept(old(State()), now)
    {
      var rest := sessions.Keys;
      while rest != {}
        invariant rest <= sessions.Keys == old(sessions).Keys
        invariant forall k | k in sessions :: sessions[k] == if k in rest then old(sessions)[k]
            else IdleSwept(old(State()), now).sessions[k]
      {
        var k :| k in rest;
        rest := rest - {k};
        if !sessions[k].active {
          continue;
        }
        if now - sessions[k].lastActive > idleTimeout {
          sessions := sessions[k := sessions[k].(active := false)];
        }
      }
    }

    method CheckCrashedSessions(alive: set<int>)
      modifies this`sessions
      ensures State() == CrashSwept(old(State()), alive)
    {
      var rest := sessions.Keys;
      while rest != {}
        invariant rest <= sessions.Keys == old(sessions).Keys
        invariant forall k | k in sessions :: sessions[k] == if k in rest then old(sessions)[k]
            else CrashSwept(old(State()), alive).sessions[k]
      {
        var k :| k in rest;
        rest := rest - {k};
        if !sessions[k].active {
          continue;
        }
        if sessions[k].processId > 0 && sessions[k].processId !in alive {
          sessions := sessions[k := sessions[k].(active := false)];
        }
      }
    }

    method SwitchSession(campaign: string, session: int, now: int) returns (error: Option<Error>)
      modifies this`sessions, this`activeSession
      ensures match Switched(old(State()), campaign, session, now)
              case None => error == Some(NotFound) && State() == old(State())
              case Some(r) => error == None && State() == r
    {
      hide Key;
      var key := Key(campaign, session);
      if key !in sessions || !sessions[key].active {
        return Some(NotFound);
      }
      activeSession := activeSession[campaign := session];
      sessions := sessions[key := sessions[key].(lastActive := now)];
      error := None;
    }

    method GetActiveSession(campaign: string) returns (config: Result<Config, Error>)
      ensures config == if HasCurrent(State(), campaign) then Ok(sessions[Key(campaign,
          activeSession[campaign])].config) else Err(NotFound)
    {
      if campaign !in activeSession {
        return Err(NotFound);
      }
      var key := Key(campaign, activeSession[campaign]);
      if key !in sessions || !sessions[key].active {
        return Err(NotFound);
      }
      config := Ok(sessions[key].config);
    }

    /** Stops every session and never reports a failure. A second call closes a closed channel: it panics instead. */
    method ShutdownAll() returns (panicked: bool)
      modifies this`sessions, this`stopped
      ensures panicked == old(stopped)
      ensures State() == if panicked then old(State()) else ShutDown(old(State()))
    {
      if stopped {
        return true;
      }
      stopped := true;
      var rest := sessions.Keys;
      while rest != {}
        invariant rest <= sessions.Keys == old(sessions).Keys && stopped
        invariant forall k | k in sessions :: sessions[k] == if k in rest then old(sessions)[k]
            else old(sessions)[k].(active := false)
      {
        var k :| k in rest;
        rest := rest - {k};
        if sessions[k].active {
          sessions := sessions[k := sessions[k].(active := false)];
        }
      }
      panicked := false;
    }

    /** The sections of AutoStart in sequence, with nobody in between. */
    method AutoStartDaemon(campaign: string, alive: set<int>, reply: Option<Reply>, now: int)
        returns (config: Result<Config, Error>)
      modifies this`sessions, this`activeSession
      ensures (State(), config) == AutoStarted(old(State()), alive, campaign, reply, now)
    {
      hide Key;
      if campaign == "" {
        return Err(InvalidInput);
      }
      if campaign in activeSession {
        var key := Key(campaign, activeSession[campaign]);
        if key in sessions && sessions[key].active {
          var current := sessions[key].config;
          UpdateActivity(campaign, activeSession[campaign], now);
          return Ok(current);
        }
      }
      var slot := FindAvailableSession(campaign, alive);
      if slot.Err? {
        return Err(slot.error);
      }
      if reply.None? {
        return Err(StartFailed);
      }
      var started := StartedConfig(campaign, slot.value, reply.value);
      sessions := sessions[Key(campaign, slot.value) := Session(started, now, now, true, reply.value.pid)];
      activeSession := activeSession[campaign := slot.value];
      config := Ok(started);
    }
  }
}
