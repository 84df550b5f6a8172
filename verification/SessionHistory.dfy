/** What every action does to one session and to one campaign's current session, and what a whole run leaves of them. */
module SessionHistory {
  import opened Outcomes
  import opened Lifecycle
  import opened DaemonSystem

  /** Slot `n` of the campaign is in use: its entry is active. */
  predicate InUse(r: Registry, campaign: string, n: int) {
    Key(campaign, n) in r.sessions && r.sessions[Key(campaign, n)].active
  }

  /** It is in use, and by a process that is not known to be dead. */
  predicate Held(r: Registry, alive: set<int>, campaign: string, n: int) {
    InUse(r, campaign, n) &&
    var pid := r.sessions[Key(campaign, n)].processId;
    pid <= 0 || pid in alive
  }

  /** What `GetActiveSession` answers. */
  function Answer(r: Registry, campaign: string): Result<Config, Error> {
    if campaign in r.activeSession && InUse(r, campaign, r.activeSession[campaign])
    then Ok(r.sessions[Key(campaign, r.activeSession[campaign])].config)
    else Err(NotFound)
  }

  lemma AnswerIsGetActiveSession(r: Registry, campaign: string)
    ensures Answer(r, campaign) ==
              if HasCurrent(r, campaign) then Ok(r.sessions[Key(campaign, r.activeSession[campaign])].config)
              else Err(NotFound)
  {
    hide Key;
  }

  // ---------------------------------------------------------------- single operations

  /** Switching succeeds exactly for a slot in use. Then the campaign's answer is that slot's configuration, its
      activity is renewed, and every other campaign's answer stays. */
  lemma SwitchedAnswers(r: Registry, campaign: string, n: int, now: int, other: string)
    ensures Switched(r, campaign, n, now).Some? <==> InUse(r, campaign, n)
    ensures InUse(r, campaign, n) ==>
              var r' := Switched(r, campaign, n, now).value;
              && campaign in r'.activeSession && r'.activeSession[campaign] == n
              && Answer(r', campaign) == Ok(r.sessions[Key(campaign, n)].config)
              && (other != campaign ==> Answer(r', other) == Answer(r, other))
              && r'.sessions == r.sessions[Key(campaign, n) := r.sessions[Key(campaign, n)].(lastActive := now)]
  {
    hide Key;
    if other != campaign && other in r.activeSession {
      KeyInjective(campaign, n, other, r.activeSession[other]);
    }
  }

  /** The least slot from 0 to 9 that is not held. */
  ghost predicate LeastFree(r: Registry, alive: set<int>, campaign: string, n: int) {
    0 <= n < 10 && !Held(r, alive, campaign, n) && forall m | 0 <= m < n :: Held(r, alive, campaign, m)
  }

  lemma FreeMeansNotHeld(r: Registry, alive: set<int>, campaign: string, n: int)
    ensures IsFree(r, alive, campaign, n) <==> !Held(r, alive, campaign, n)
  {
    hide Key;
  }

  lemma FirstFreeIsLeast(r: Registry, alive: set<int>, campaign: string)
    ensures var slot := FirstFree(r, alive, campaign, 0);
            && (slot.None? <==> forall m | 0 <= m < 10 :: Held(r, alive, campaign, m))
            && (forall n :: slot == Some(n) <==> LeastFree(r, alive, campaign, n))
  {
    hide FirstFree, Held, IsFree;
    forall m ensures IsFree(r, alive, campaign, m) <==> !Held(r, alive, campaign, m) {
      FreeMeansNotHeld(r, alive, campaign, m);
    }
    var slot := FirstFree(r, alive, campaign, 0);
    if slot.Some? {
      assert LeastFree(r, alive, campaign, slot.value);
    }
  }

  /** Searching changes at most the active flag of the slot it finds, which it clears. */
  lemma SearchedEntry(r: Registry, alive: set<int>, campaign: string, key: string)
    ensures Searched(r, alive, campaign).activeSession == r.activeSession
    ensures Searched(r, alive, campaign).idleTimeout == r.idleTimeout &&
        Searched(r, alive, campaign).stopped == r.stopped
    ensures Searched(r, alive, campaign).sessions.Keys == r.sessions.Keys
    ensures key in r.sessions ==>
              Searched(r, alive, campaign).sessions[key] ==
                if exists n :: LeastFree(r, alive, campaign, n) && key == Key(campaign, n)
                then r.sessions[key].(active := false) else r.sessions[key]
  {
    hide Key, FirstFree, LeastFree;
    FirstFreeIsLeast(r, alive, campaign);
    var slot := FirstFree(r, alive, campaign, 0);
    if slot.Some? {
      assert LeastFree(r, alive, campaign, slot.value);
    }
  }

  /** An undisturbed AutoStart: it refuses a nameless campaign; repeats the current configuration if there is one;
      fails for want of a slot exactly when all ten are held; fails when the daemon does not start; and otherwise
      starts one for the least slot that is not held. */
  lemma AutoStartAnswers(r: Registry, alive: set<int>, campaign: string, reply: Option<Reply>, now: int)
    ensures var (r', result) := AutoStarted(r, alive, campaign, reply, now);
            if campaign == "" then result == Err(InvalidInput) && r' == r
            else if Answer(r, campaign).Ok? then
              result == Answer(r, campaign) && r'.sessions[Key(campaign, r.activeSession[campaign])].lastActive == now
            else if forall m | 0 <= m < 10 :: Held(r, alive, campaign, m) then result == Err(ResourceLimit) && r' == r
            else if reply == None then result == Err(StartFailed)
            else
              exists n :: LeastFree(r, alive, campaign, n)
                && result == Ok(Config(campaign, n, reply.value.socketPath, reply.value.pidFile))
                && r'.sessions[Key(campaign, n)] == Session(result.value, now, now, true, reply.value.pid)
  {
    hide Key, FirstFree, Held;
    FirstFreeIsLeast(r, alive, campaign);
    AnswerIsGetActiveSession(r, campaign);
    var slot := FirstFree(r, alive, campaign, 0);
    if slot.Some? {
      assert LeastFree(r, alive, campaign, slot.value);
    }
  }

  /** What AutoStart returns is what asking for the campaign's session returns next; no other campaign's answer
      changes. */
  lemma AutoStartBecomesCurrent(r: Registry, alive: set<int>, campaign: string, reply: Option<Reply>, now: int,
      other: string)
    ensures var (r', result) := AutoStarted(r, alive, campaign, reply, now);
            && (result.Ok? ==> Answer(r', campaign) == result)
            && (other != campaign ==> Answer(r', other) == Answer(r, other))
  {
    hide Key, FirstFree;
    var slot := FirstFree(r, alive, campaign, 0);
    if other in r.activeSession {
      if campaign in r.activeSession {
        KeyInjective(campaign, r.activeSession[campaign], other, r.activeSession[other]);
      }
      if slot.Some? {
        KeyInjective(campaign, slot.value, other, r.activeSession[other]);
      }
    }
  }

  // ---------------------------------------------------------------- one action, one session

  /** The action takes slot `n` of `campaign` out of use: it idled beyond the timeout, its process was found dead by
      a sweep or by a search that comes to it, or everything is shut down. */
  predicate Stops(s: System, a: Action, campaign: string, n: int)
    requires Key(campaign, n) in s.reg.sessions
  {
    var entry := s.reg.sessions[Key(campaign, n)];
    match a
    case SweepIdle(now) => now - entry.lastActive > s.reg.idleTimeout
    case SweepCrashed => entry.processId > 0 && entry.processId !in s.alive
    case Shutdown => true
    case Search(id) =>
      && id in s.callers && s.callers[id].Searching? && s.callers[id].campaign == campaign && 0 <= n < 10
      && !Held(s.reg, s.alive, campaign, n) && forall m | 0 <= m < n :: Held(s.reg, s.alive, campaign, m)
    case _ => false
  }

  /** The action renews the activity of slot `n` of `campaign`. */
  predicate Renews(s: System, a: Action, campaign: string, n: int) {
    match a
    case Touch(id, _) =>
      id in s.callers && s.callers[id].Touching? && s.callers[id].campaign == campaign && s.callers[id].session == n
    case Switch(c, m, _) => c == campaign && m == n && InUse(s.reg, campaign, n)
    case _ => false
  }

  function TimeOf(a: Action): int {
    match a
    case Touch(_, now) => now
    case Track(_, now) => now
    case Switch(_, _, now) => now
    case _ => 0
  }

  /** What every action leaves of every session: a tracked one is written anew; any other keeps its configuration,
      start and process, takes the time of an action that renews it, and stays in use unless the action stops it. */
  lemma EntryAfter(s: System, a: Action, campaign: string, n: int)
    requires Step(s, a).Some?
    ensures var (before, after, key) := (s.reg.sessions, Step(s, a).value.reg.sessions, Key(campaign, n));
            && (key in after <==> key in before || Tracks(s, a, campaign, n))
            && (Tracks(s, a, campaign, n) ==>
                  after[key] == Session(s.callers[a.id].config, TimeOf(a), TimeOf(a), true, s.callers[a.id].pid))
            && (key in before && !Tracks(s, a, campaign, n) ==>
                  after[key] == before[key].(lastActive := if Renews(s, a, campaign, n) then TimeOf(a)
                      else before[key].lastActive,
                                             active := before[key].active && !Stops(s, a, campaign, n)))
  {
    hide Key, FirstFree, Searched, LeastFree, Held;
    match a
    case Track(id, _) => KeyInjective(campaign, n, s.callers[id].campaign, s.callers[id].session);
    case Touch(id, _) => KeyInjective(campaign, n, s.callers[id].campaign, s.callers[id].session);
    case Switch(c, m, _) => KeyInjective(campaign, n, c, m);
    case Search(id) => SearchedByCaller(s, id, campaign, n);
    case _ =>
  }

  lemma SearchedByCaller(s: System, id: nat, campaign: string, n: int)
    requires Step(s, Search(id)).Some?
    ensures var (before, after, key) := (s.reg.sessions, Step(s, Search(id)).value.reg.sessions, Key(campaign, n));
            && (key in after <==> key in before)
            && (key in before ==>
                  after[key] == before[key].(active := before[key].active && !Stops(s, Search(id), campaign, n)))
  {
    hide Key, FirstFree, Searched;
    var c := s.callers[id].campaign;
    SearchedEntry(s.reg, s.alive, c, Key(campaign, n));
    forall m ensures Key(campaign, n) == Key(c, m) <==> campaign == c && n == m {
      KeyInjective(campaign, n, c, m);
    }
  }

  // ---------------------------------------------------------------- whole runs

  /** A session is in use after a run exactly when it was tracked and nothing stopped it since. */
  lemma {:induction false} InUseExactly(actions: seq<Action>, k: nat, campaign: string, n: int)
    requires Run(INITIAL, actions).Some? && k <= |actions|
    ensures InUse(After(INITIAL, actions, k).reg, campaign, n) <==>
            exists i | 0 <= i < k :: Tracks(After(INITIAL, actions, i), actions[i], campaign, n)
              && forall j | i < j < k :: Key(campaign, n) in After(INITIAL, actions, j).reg.sessions
                                         && !Stops(After(INITIAL, actions, j), actions[j], campaign, n)
    decreases k
  {
    hide Run, Step, Key, Stops, Tracks, Renews;
    if k == 0 {
      NothingInFlight();
      assert actions[..0] == [];
    } else {
      InUseExactly(actions, k - 1, campaign, n);
      PrefixRuns(INITIAL, actions, k - 1);
      EntryAfter(After(INITIAL, actions, k - 1), actions[k - 1], campaign, n);
    }
  }

  /** The session number the action makes current for `campaign`, if any: that of a daemon being tracked, or of a
      session in use that is switched to. */
  function MakesCurrent(s: System, a: Action, campaign: string): Option<int> {
    match a
    case Track(id, _) =>
      if id in s.callers && s.callers[id].Running? && s.callers[id].campaign ==
          campaign then Some(s.callers[id].session) else None
    case Switch(c, n, _) => if c == campaign && InUse(s.reg, campaign, n) then Some(n) else None
    case _ => None
  }

  lemma CurrentAfter(s: System, a: Action, campaign: string)
    requires Step(s, a).Some?
    ensures var (before, after) := (s.reg.activeSession, Step(s, a).value.reg.activeSession);
            var made := MakesCurrent(s, a, campaign);
            && (campaign in after <==> campaign in before || made.Some?)
            && (campaign in after ==> after[campaign] == if made.Some? then made.value else before[campaign])
  {
    hide Key, FirstFree;
  }

  /** A campaign has a current session number after a run exactly when some action made one, and it is the one made
      last. */
  lemma {:induction false} CurrentIsLastMade(actions: seq<Action>, k: nat, campaign: string)
    requires Run(INITIAL, actions).Some? && k <= |actions|
    ensures var current := After(INITIAL, actions, k).reg.activeSession;
            if campaign !in current then forall j | 0 <= j < k ::
                MakesCurrent(After(INITIAL, actions, j), actions[j], campaign) == None
            else
              exists i | 0 <= i < k ::
                && MakesCurrent(After(INITIAL, actions, i), actions[i], campaign) == Some(current[campaign])
                && forall j | i < j < k :: MakesCurrent(After(INITIAL, actions, j), actions[j], campaign) == None
    decreases k
  {
    hide Run, Step, MakesCurrent;
    if k == 0 {
      NothingInFlight();
      assert actions[..0] == [];
    } else {
      CurrentIsLastMade(actions, k - 1, campaign);
      PrefixRuns(INITIAL, actions, k - 1);
      CurrentAfter(After(INITIAL, actions, k - 1), actions[k - 1], campaign);
    }
  }

  /** The remaining fields: only a shutdown stops monitoring, only setting it changes the timeout. */
  lemma SettingsAfter(s: System, a: Action)
    requires Step(s, a).Some?
    ensures Step(s, a).value.reg.stopped == (s.reg.stopped || a == Shutdown)
    ensures Step(s, a).value.reg.idleTimeout == if a.SetIdleTimeout? then a.timeout else s.reg.idleTimeout
    ensures a == Shutdown ==> !s.reg.stopped
  {
    hide Key, FirstFree;
  }
}
