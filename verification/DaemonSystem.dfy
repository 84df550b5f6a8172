/** Every interleaving of the session registry's critical sections, with any number of AutoStart callers and
    processes that live and die as they please. */
module DaemonSystem {
  import opened Outcomes
  import opened Lifecycle

  /** Where an AutoStart call is: between two of its sections, or done. */
  datatype Caller =
    | Touching(campaign: string, session: int, config: Config)
    | Searching(campaign: string)
    | Picked(campaign: string, session: int)
    | Running(campaign: string, session: int, config: Config, pid: int)
    | Returned(campaign: string, config: Config)
    | Failed(error: Error)

  datatype System = System(reg: Registry, alive: set<int>, callers: map<nat, Caller>)

  datatype Action =
    | Begin(id: nat, campaign: string)
    | Touch(id: nat, now: int)
    | Search(id: nat)
    | Launch(id: nat, reply: Option<Reply>)
    | Track(id: nat, now: int)
    | SweepIdle(now: int)
    | SweepCrashed
    | Switch(campaign: string, session: int, now: int)
    | Shutdown
    | SetIdleTimeout(timeout: int)
    | Processes(alive: set<int>)

  const INITIAL: System := System(Registry(map[], map[], 900_000_000_000, false), {}, map[])

  function Set(s: System, id: nat, caller: Caller): Option<System> {
    Some(s.(callers := s.callers[id := caller]))
  }

  /** One section of one caller, one sweep, one user operation or one change among the processes; None when the
      action is not possible now. Starting a daemon happens outside the lock. */
  function Step(s: System, a: Action): Option<System> {
    match a
    case Begin(id, campaign) =>
      if id in s.callers then None
      else if campaign == "" then Set(s, id, Failed(InvalidInput))
      else if HasCurrent(s.reg, campaign) then
        var n := s.reg.activeSession[campaign];
        Set(s, id, Touching(campaign, n, s.reg.sessions[Key(campaign, n)].config))
      else Set(s, id, Searching(campaign))
    case Touch(id, now) =>
      if id !in s.callers || !s.callers[id].Touching? then None
      else
        var c := s.callers[id];
        Set(s.(reg := Touched(s.reg, c.campaign, c.session, now)), id, Returned(c.campaign, c.config))
    case Search(id) =>
      if id !in s.callers || !s.callers[id].Searching? then None
      else
        var campaign := s.callers[id].campaign;
        var slot := FirstFree(s.reg, s.alive, campaign, 0);
        Set(s.(reg := Searched(s.reg, s.alive, campaign)), id,
            if slot.None? then Failed(ResourceLimit) else Picked(campaign, slot.value))
    case Launch(id, reply) =>
      if id !in s.callers || !s.callers[id].Picked? then None
      else
        var c := s.callers[id];
        Set(s, id, if reply.None? then Failed(StartFailed)
                   else Running(c.campaign, c.session, StartedConfig(c.campaign, c.session, reply.value),
                       reply.value.pid))
    case Track(id, now) =>
      if id !in s.callers || !s.callers[id].Running? then None
      else
        var c := s.callers[id];
        Set(s.(reg := Tracked(s.reg, c.campaign, c.session, c.config, c.pid, now)), id, Returned(c.campaign, c.config))
    case SweepIdle(now) => Some(s.(reg := IdleSwept(s.reg, now)))
    case SweepCrashed => Some(s.(reg := CrashSwept(s.reg, s.alive)))
    case Switch(campaign, session, now) =>
      var r := Switched(s.reg, campaign, session, now);
      Some(if r.None? then s else s.(reg := r.value))
    case Shutdown => if s.reg.stopped then None else Some(s.(reg := ShutDown(s.reg)))
    case SetIdleTimeout(timeout) => Some(s.(reg := s.reg.(idleTimeout := timeout)))
    case Processes(alive) => Some(s.(alive := alive))
  }

  /** A run is a list of actions, each possible when its turn comes. */
  function Run(s: System, actions: seq<Action>): Option<System>
    decreases |actions|
  {
    if actions == [] then Some(s)
    else
      var next := Step(s, actions[0]);
      if next.None? then None else Run(next.value, actions[1..])
  }

  // ---------------------------------------------------------------- the invariant

  /** A configuration for one of the campaign's ten slots. */
  predicate Fits(campaign: string, session: int, config: Config) {
    campaign != "" && 0 <= session < SLOTS && config.campaign == campaign && config.session == session
  }

  /** Every entry is filed under its own campaign and slot. */
  predicate WellFiled(r: Registry) {
    forall k | k in r.sessions ::
      var config := r.sessions[k].config;
      Fits(config.campaign, config.session, config) && k == Key(config.campaign, config.session)
  }

  /** Every current session number names an entry. */
  predicate WellPointed(r: Registry) {
    forall c | c in r.activeSession ::
        c != "" && 0 <= r.activeSession[c] < SLOTS && Key(c, r.activeSession[c]) in r.sessions
  }

  predicate GoodCaller(c: Caller) {
    match c
    case Touching(campaign, session, config) => Fits(campaign, session, config)
    case Searching(campaign) => campaign != ""
    case Picked(campaign, session) => campaign != "" && 0 <= session < SLOTS
    case Running(campaign, session, config, _) => Fits(campaign, session, config)
    case Returned(campaign, config) => Fits(campaign, config.session, config)
    case Failed(_) => true
  }

  predicate Inv(s: System) {
    WellFiled(s.reg) && WellPointed(s.reg) && forall id | id in s.callers :: GoodCaller(s.callers[id])
  }

  /** Changing flags and times of entries keeps the registry in order. */
  lemma SameFiling(r: Registry, r': Registry)
    requires WellFiled(r) && WellPointed(r) && r'.activeSession == r.activeSession &&
        r'.sessions.Keys == r.sessions.Keys
    requires forall k | k in r.sessions :: r'.sessions[k].config == r.sessions[k].config
    ensures WellFiled(r') && WellPointed(r')
  {
    hide Key;
  }

  lemma TrackingFiles(r: Registry, campaign: string, n: int, config: Config, pid: int, now: int)
    requires WellFiled(r) && WellPointed(r) && Fits(campaign, n, config)
    ensures WellFiled(Tracked(r, campaign, n, config, pid, now)) &&
        WellPointed(Tracked(r, campaign, n, config, pid, now))
  {
    hide Key;
  }

  lemma EntryFits(r: Registry, campaign: string, n: int)
    requires WellFiled(r) && Key(campaign, n) in r.sessions
    ensures Fits(campaign, n, r.sessions[Key(campaign, n)].config)
  {
    var config := r.sessions[Key(campaign, n)].config;
    KeyInjective(campaign, n, config.campaign, config.session);
  }

  lemma StepKeepsInv(s: System, a: Action)
    requires Inv(s) && Step(s, a).Some?
    ensures Inv(Step(s, a).value)
  {
    hide Key, FirstFree, WellFiled, WellPointed, Fits;
    var s' := Step(s, a).value;
    match a
    case Begin(id, campaign) =>
      if campaign != "" && HasCurrent(s.reg, campaign) {
        EntryFits(s.reg, campaign, s.reg.activeSession[campaign]);
      }
    case Touch(id, now) =>
      SameFiling(s.reg, s'.reg);
      FitsItself(s.callers[id].campaign, s.callers[id].session, s.callers[id].config);
    case Search(id) => SameFiling(s.reg, s'.reg);
    case Launch(id, reply) => PickedFits(s.callers[id], reply);
    case Track(id, now) =>
      var c := s.callers[id];
      TrackingFiles(s.reg, c.campaign, c.session, c.config, c.pid, now);
      FitsItself(c.campaign, c.session, c.config);
    case SweepIdle(now) => SameFiling(s.reg, s'.reg);
    case SweepCrashed => SameFiling(s.reg, s'.reg);
    case Switch(campaign, session, now) =>
      if Switched(s.reg, campaign, session, now).Some? {
        EntryFits(s.reg, campaign, session);
        SwitchingFiles(s.reg, campaign, session, now);
      }
    case Shutdown => SameFiling(s.reg, s'.reg);
    case SetIdleTimeout(timeout) => SameFiling(s.reg, s'.reg);
    case Processes(alive) =>
  }

  lemma FitsItself(campaign: string, session: int, config: Config)
    requires Fits(campaign, session, config)
    ensures Fits(campaign, config.session, config)
  {
  }

  lemma PickedFits(c: Caller, reply: Option<Reply>)
    requires c.Picked? && GoodCaller(c)
    ensures reply.Some? ==> Fits(c.campaign, c.session, StartedConfig(c.campaign, c.session, reply.value))
  {
  }

  lemma SwitchingFiles(r: Registry, campaign: string, session: int, now: int)
    requires WellFiled(r) && WellPointed(r) && Switched(r, campaign, session, now).Some?
    requires Fits(campaign, session, r.sessions[Key(campaign, session)].config)
    ensures WellFiled(Switched(r, campaign, session, now).value) &&
        WellPointed(Switched(r, campaign, session, now).value)
  {
    hide Key;
  }

  lemma {:induction false} RunKeepsInv(s: System, actions: seq<Action>)
    requires Inv(s) && Run(s, actions).Some?
    ensures Inv(Run(s, actions).value)
    decreases |actions|
  {
    hide Step, Inv;
    if actions != [] {
      StepKeepsInv(s, actions[0]);
      RunKeepsInv(Step(s, actions[0]).value, actions[1..]);
    }
  }

  /** In every state any run reaches: each current session number names an entry of its own campaign in one of the
      ten slots, each entry holds the configuration its key stands for, and every AutoStart call that returned one
      returned its campaign's. */
  lemma EveryRunIsInOrder(actions: seq<Action>)
    requires Run(INITIAL, actions).Some?
    ensures var s := Run(INITIAL, actions).value;
            && (forall c | c in s.reg.activeSession ::
                  var n := s.reg.activeSession[c];
                  0 <= n < 10 && Key(c, n) in s.reg.sessions && s.reg.sessions[Key(c, n)].config.campaign == c
                  && s.reg.sessions[Key(c, n)].config.session == n)
            && (forall c, n | Key(c, n) in s.reg.sessions ::
                  0 <= n < 10 && s.reg.sessions[Key(c, n)].config.campaign == c &&
                      s.reg.sessions[Key(c, n)].config.session == n)
            && (forall id | id in s.callers && s.callers[id].Returned? ::
                  s.callers[id].config.campaign == s.callers[id].campaign && 0 <= s.callers[id].config.session < 10)
  {
    hide Key, Step, Run;
    RunKeepsInv(INITIAL, actions);
    var s := Run(INITIAL, actions).value;
    forall c, n | Key(c, n) in s.reg.sessions ensures Fits(c, n, s.reg.sessions[Key(c, n)].config) {
      EntryFits(s.reg, c, n);
    }
  }

  /** The keys filed for a campaign. */
  function KeysOf(r: Registry, campaign: string): set<string> {
    set k | k in r.sessions && r.sessions[k].config.campaign == campaign
  }

  /** No campaign ever has more than ten entries. */
  lemma AtMostTenEntries(actions: seq<Action>, campaign: string)
    requires Run(INITIAL, actions).Some?
    ensures |KeysOf(Run(INITIAL, actions).value.reg, campaign)| <= 10
  {
    hide Key, Step, Run;
    RunKeepsInv(INITIAL, actions);
    var r := Run(INITIAL, actions).value.reg;
    SlotKeysBounded(campaign, 10);
    SubsetIsSmaller(KeysOf(r, campaign), SlotKeys(campaign, 10));
  }

  function SlotKeys(campaign: string, n: nat): set<string> {
    set m | 0 <= m < n :: Key(campaign, m)
  }

  lemma {:induction false} SlotKeysBounded(campaign: string, n: nat)
    ensures |SlotKeys(campaign, n)| <= n
  {
    hide Key;
    if n > 0 {
      SlotKeysBounded(campaign, n - 1);
      assert SlotKeys(campaign, n) == SlotKeys(campaign, n - 1) + {Key(campaign, n - 1)};
    }
  }

  lemma {:induction false} SubsetIsSmaller<T>(a: set<T>, b: set<T>)
    requires a <= b
    ensures |a| <= |b|
    decreases a
  {
    if a != {} {
      var x :| x in a;
      SubsetIsSmaller(a - {x}, b - {x});
    }
  }

  // ---------------------------------------------------------------- who activates a slot

  /** The action is the tracking section of a caller that started a daemon for slot `n` of `campaign`. */
  predicate Tracks(s: System, a: Action, campaign: string, n: int) {
    a.Track? && a.id in s.callers && s.callers[a.id].Running? && s.callers[a.id].campaign == campaign &&
        s.callers[a.id].session == n
  }

  /** An entry becomes active in one way only: a caller tracks the daemon it started for that campaign and slot, and the
      entry then holds that caller's configuration. */
  lemma OnlyTrackingActivates(s: System, a: Action, campaign: string, n: int)
    requires Step(s, a).Some? && !ActiveAt(s.reg, Key(campaign, n)) && ActiveAt(Step(s, a).value.reg, Key(campaign, n))
    ensures Tracks(s, a, campaign, n)
    ensures Step(s, a).value.reg.sessions[Key(campaign, n)].config == s.callers[a.id].config
  {
    hide Key, FirstFree;
    if a.Track? {
      KeyInjective(campaign, n, s.callers[a.id].campaign, s.callers[a.id].session);
    }
  }

  /** A slot that was inactive at the start of a run and is active at its end was tracked by some caller on the way. */
  lemma {:induction false} InactiveUntilTracked(s: System, actions: seq<Action>, campaign: string, n: int)
      returns (i: nat)
    requires Run(s, actions).Some? && !ActiveAt(s.reg, Key(campaign, n)) &&
        ActiveAt(Run(s, actions).value.reg, Key(campaign, n))
    ensures i < |actions| && Run(s, actions[..i]).Some? && Tracks(Run(s, actions[..i]).value, actions[i], campaign, n)
    decreases |actions|
  {
    hide Key, Step;
    var s' := Step(s, actions[0]).value;
    if ActiveAt(s'.reg, Key(campaign, n)) {
      OnlyTrackingActivates(s, actions[0], campaign, n);
      i := 0;
    } else {
      var j := InactiveUntilTracked(s', actions[1..], campaign, n);
      i := j + 1;
      assert actions[..i][1..] == actions[1..][..j];
    }
  }

  /** The slot a search returns is the least free one, and it is inactive from then on until some caller tracks it. */
  lemma SearchReservesNothingButInactivity(s: System, id: nat, actions: seq<Action>, n: nat)
    requires Step(s, Search(id)).Some? && Step(s, Search(id)).value.callers[id] == Picked(s.callers[id].campaign, n)
    requires Run(Step(s, Search(id)).value, actions).Some?
    ensures IsFree(s.reg, s.alive, s.callers[id].campaign, n)
    ensures forall m | 0 <= m < n :: !IsFree(s.reg, s.alive, s.callers[id].campaign, m)
    ensures var picked := Step(s, Search(id)).value;
            ActiveAt(Run(picked, actions).value.reg, Key(s.callers[id].campaign, n)) ==>
              exists i | 0 <= i < |actions| ::
                Run(picked, actions[..i]).Some? && Tracks(Run(picked, actions[..i]).value, actions[i],
                    s.callers[id].campaign, n)
  {
    hide Key, Run;
    var picked := Step(s, Search(id)).value;
    if ActiveAt(Run(picked, actions).value.reg, Key(s.callers[id].campaign, n)) {
      var i := InactiveUntilTracked(picked, actions, s.callers[id].campaign, n);
    }
  }

  // ---------------------------------------------------------------- one caller for a slot

  /** Caller `id` has been given slot `n` of `campaign` and has not tracked it yet. */
  predicate InFlight(s: System, id: nat, campaign: string, n: int) {
    id in s.callers && (s.callers[id].Picked? || s.callers[id].Running?) && s.callers[id].campaign == campaign &&
        s.callers[id].session == n
  }

  /** No slot is in flight for two callers. */
  ghost predicate Exclusive(s: System) {
    forall i, j, campaign, n | InFlight(s, i, campaign, n) && InFlight(s, j, campaign, n) :: i == j
  }

  /** The action is a search whose least free slot is in flight for another caller. */
  ghost predicate Collides(s: System, a: Action) {
    a.Search? && a.id in s.callers && s.callers[a.id].Searching? &&
    var campaign := s.callers[a.id].campaign;
    var slot := FirstFree(s.reg, s.alive, campaign, 0);
    slot.Some? && exists other :: InFlight(s, other, campaign, slot.value)
  }

  /** A step changes nobody's slot but the acting caller's, and puts no slot in flight but by a search. */
  lemma FlightsAfter(s: System, a: Action, id: nat, campaign: string, n: int)
    requires Step(s, a).Some?
    ensures InFlight(Step(s, a).value, id, campaign, n) <==>
            || (InFlight(s, id, campaign, n) && !(a.Track? && a.id == id) &&
                !(a.Launch? && a.id == id && a.reply == None))
            || (a.Search? && a.id == id && s.callers[id].campaign == campaign &&
                FirstFree(s.reg, s.alive, campaign, 0) == Some(n))
  {
    hide Key, FirstFree, Searched, HasCurrent, Touched, Tracked, Switched;
  }

  /** One step keeps slots exclusive exactly when it is no search that is given a slot in flight. */
  lemma StepStaysExclusive(s: System, a: Action)
    requires Exclusive(s) && Step(s, a).Some?
    ensures Exclusive(Step(s, a).value) <==> !Collides(s, a)
  {
    hide Step, FirstFree, InFlight;
    var s' := Step(s, a).value;
    SearchesSearch(s, a);
    if Collides(s, a) {
      var campaign := s.callers[a.id].campaign;
      var n := FirstFree(s.reg, s.alive, campaign, 0).value;
      var other :| InFlight(s, other, campaign, n);
      FlightsAfter(s, a, other, campaign, n);
      FlightsAfter(s, a, a.id, campaign, n);
      SearchersHoldNothing(s, a.id, campaign, n);
    } else {
      forall i, j, campaign, n | InFlight(s', i, campaign, n) && InFlight(s', j, campaign, n) ensures i == j {
        FlightsAfter(s, a, i, campaign, n);
        FlightsAfter(s, a, j, campaign, n);
      }
    }
  }

  lemma SearchesSearch(s: System, a: Action)
    requires Step(s, a).Some?
    ensures a.Search? ==> a.id in s.callers && s.callers[a.id].Searching?
  {
  }

  lemma SearchersHoldNothing(s: System, id: nat, campaign: string, n: int)
    requires id in s.callers && s.callers[id].Searching?
    ensures !InFlight(s, id, campaign, n)
  {
  }

  /** The state after the first `k` actions. */
  function After(s: System, actions: seq<Action>, k: nat): System
    requires k <= |actions| && Run(s, actions).Some?
  {
    PrefixRuns(s, actions, k);
    Run(s, actions[..k]).value
  }

  lemma {:induction false} PrefixRuns(s: System, actions: seq<Action>, k: nat)
    requires k <= |actions| && Run(s, actions).Some?
    ensures Run(s, actions[..k]).Some?
    ensures k < |actions| ==> Step(Run(s, actions[..k]).value, actions[k]).Some?
    ensures k < |actions| ==> Run(s, actions[..k + 1]) == Step(Run(s, actions[..k]).value, actions[k])
    decreases k
  {
    hide Step;
    if k == 0 {
      assert actions != [] ==> actions[..1][1..] == [] && actions[..1][0] == actions[0];
    } else {
      var s', tail := Step(s, actions[0]).value, actions[1..];
      PrefixRuns(s', tail, k - 1);
      assert actions[..k][1..] == tail[..k - 1];
      assert k < |actions| ==> actions[..k + 1][1..] == tail[..k] && tail[k - 1] == actions[k];
    }
  }

  /** A run gives no slot to two callers at a time exactly when none of its searches is given a slot in flight. */
  lemma ExclusiveExactly(actions: seq<Action>)
    requires Run(INITIAL, actions).Some?
    ensures (forall k | 0 <= k <= |actions| :: Exclusive(After(INITIAL, actions, k))) <==>
            forall k | 0 <= k < |actions| :: !Collides(After(INITIAL, actions, k), actions[k])
  {
    hide Run, Step, Exclusive, Collides;
    if forall k | 0 <= k <= |actions| :: Exclusive(After(INITIAL, actions, k)) {
      forall k | 0 <= k < |actions| ensures !Collides(After(INITIAL, actions, k), actions[k]) {
        PrefixRuns(INITIAL, actions, k);
        StepStaysExclusive(After(INITIAL, actions, k), actions[k]);
        assert Exclusive(After(INITIAL, actions, k + 1));
      }
    }
    if forall k | 0 <= k < |actions| :: !Collides(After(INITIAL, actions, k), actions[k]) {
      forall k | 0 <= k <= |actions| ensures Exclusive(After(INITIAL, actions, k)) {
        ExclusiveUpTo(actions, k);
      }
    }
  }

  lemma {:induction false} ExclusiveUpTo(actions: seq<Action>, k: nat)
    requires Run(INITIAL, actions).Some? && k <= |actions|
    requires forall i | 0 <= i < k :: !Collides(After(INITIAL, actions, i), actions[i])
    ensures Exclusive(After(INITIAL, actions, k))
  {
    hide Run, Step, Exclusive, Collides;
    if k == 0 {
      NothingInFlight();
      assert actions[..0] == [];
    } else {
      ExclusiveUpTo(actions, k - 1);
      PrefixRuns(INITIAL, actions, k - 1);
      StepStaysExclusive(After(INITIAL, actions, k - 1), actions[k - 1]);
    }
  }

  lemma NothingInFlight()
    ensures Run(INITIAL, []) == Some(INITIAL) && Exclusive(INITIAL)
  {
  }

  /** Two callers that search before either tracks pick the same slot. */
  lemma BothPickSlotZero(campaign: string)
    requires campaign != ""
    ensures Run(INITIAL, [Begin(0, campaign), Begin(1, campaign), Search(0), Search(1)]) ==
              Some(INITIAL.(callers := map[0 := Picked(campaign, 0), 1 := Picked(campaign, 0)]))
  {
    hide Key, FirstFree;
    SlotZeroIsFree(INITIAL.reg, {}, campaign);
    var s1 := INITIAL.(callers := map[0 := Searching(campaign)]);
    var s2 := INITIAL.(callers := map[0 := Searching(campaign), 1 := Searching(campaign)]);
    var s3 := INITIAL.(callers := map[0 := Picked(campaign, 0), 1 := Searching(campaign)]);
    var s4 := INITIAL.(callers := map[0 := Picked(campaign, 0), 1 := Picked(campaign, 0)]);
    assert Step(s1, Begin(1, campaign)).value.callers == s2.callers;
    assert Step(s2, Search(0)).value.callers == s3.callers;
    assert Step(s3, Search(1)).value.callers == s4.callers;
    RunFour(INITIAL, Begin(0, campaign), s1, Begin(1, campaign), s2, Search(0), s3, Search(1), s4);
  }

  /** The gap between searching and tracking is real: both callers then start a daemon for that slot and hold its
      configuration, while the registry keeps only the later one. */
  lemma TwoCallersOneSlot(campaign: string, first: Reply, second: Reply)
    requires campaign != ""
    ensures var a, b := StartedConfig(campaign, 0, first), StartedConfig(campaign, 0, second);
            Run(INITIAL, [Begin(0, campaign), Begin(1, campaign), Search(0), Search(1)]
                         + [Launch(0, Some(first)), Track(0, 1), Launch(1, Some(second)), Track(1, 2)]) ==
              Some(System(Registry(map[Key(campaign, 0) := Session(b, 2, 2, true, second.pid)], map[campaign := 0],
                  900_000_000_000, false),
                          {}, map[0 := Returned(campaign, a), 1 := Returned(campaign, b)]))
  {
    hide Key, FirstFree, Run;
    var a, b := StartedConfig(campaign, 0, first), StartedConfig(campaign, 0, second);
    BothPickSlotZero(campaign);
    var s4 := INITIAL.(callers := map[0 := Picked(campaign, 0), 1 := Picked(campaign, 0)]);
    var s5 := s4.(callers := map[0 := Running(campaign, 0, a, first.pid), 1 := Picked(campaign, 0)]);
    var r6 := Tracked(INITIAL.reg, campaign, 0, a, first.pid, 1);
    var s6 := System(r6, {}, map[0 := Returned(campaign, a), 1 := Picked(campaign, 0)]);
    var s7 := System(r6, {}, map[0 := Returned(campaign, a), 1 := Running(campaign, 0, b, second.pid)]);
    var r8 := INITIAL.reg.(sessions := map[Key(campaign, 0) := Session(b, 2, 2, true, second.pid)],
        activeSession := map[campaign := 0]);
    var s8 := System(r8, {}, map[0 := Returned(campaign, a), 1 := Returned(campaign, b)]);
    assert Step(s4, Launch(0, Some(first))).value.callers == s5.callers;
    assert Step(s5, Track(0, 1)).value.callers == s6.callers;
    assert Step(s6, Launch(1, Some(second))).value.callers == s7.callers;
    assert Step(s7, Track(1, 2)).value.callers == s8.callers;
    assert Step(s7, Track(1, 2)).value.reg.sessions == r8.sessions;
    assert Step(s7, Track(1, 2)).value.reg.activeSession == r8.activeSession;
    RunFour(s4, Launch(0, Some(first)), s5, Track(0, 1), s6, Launch(1, Some(second)), s7, Track(1, 2), s8);
    RunConcat(INITIAL, [Begin(0, campaign), Begin(1, campaign), Search(0), Search(1)],
              [Launch(0, Some(first)), Track(0, 1), Launch(1, Some(second)), Track(1, 2)]);
  }

  lemma {:induction false} RunConcat(s: System, a: seq<Action>, b: seq<Action>)
    requires Run(s, a).Some?
    ensures Run(s, a + b) == Run(Run(s, a).value, b)
    decreases |a|
  {
    hide Step;
    if a == [] {
      assert a + b == b;
    } else {
      assert (a + b)[1..] == a[1..] + b;
      RunConcat(Step(s, a[0]).value, a[1..], b);
    }
  }

  lemma SlotZeroIsFree(r: Registry, alive: set<int>, campaign: string)
    requires !ActiveAt(r, Key(campaign, 0))
    ensures FirstFree(r, alive, campaign, 0) == Some(0) && Searched(r, alive, campaign) == r
  {
    hide Key;
  }

  lemma RunTwo(s0: System, a1: Action, s1: System, a2: Action, s2: System)
    requires Step(s0, a1) == Some(s1) && Step(s1, a2) == Some(s2)
    ensures Run(s0, [a1, a2]) == Some(s2)
  {
    hide Step;
    assert [a1, a2][1..] == [a2];
    assert Run(s1, [a2]) == Some(s2);
  }

  lemma RunFour(s0: System, a1: Action, s1: System, a2: Action, s2: System, a3: Action, s3: System, a4: Action,
      s4: System)
    requires Step(s0, a1) == Some(s1) && Step(s1, a2) == Some(s2) && Step(s2, a3) == Some(s3) &&
        Step(s3, a4) == Some(s4)
    ensures Run(s0, [a1, a2, a3, a4]) == Some(s4)
  {
    hide Step, Run;
    RunTwo(s0, a1, s1, a2, s2);
    RunTwo(s2, a3, s3, a4, s4);
    RunConcat(s0, [a1, a2], [a3, a4]);
    assert [a1, a2] + [a3, a4] == [a1, a2, a3, a4];
  }

  lemma RunOne(s0: System, a1: Action)
    ensures Run(s0, [a1]) == Step(s0, a1)
  {
    hide Step;
  }

  /** The actions of one AutoStart call that nobody disturbs. */
  function Script(s: System, id: nat, campaign: string, reply: Option<Reply>, now: int): seq<Action> {
    if campaign == "" then [Begin(id, campaign)]
    else if HasCurrent(s.reg, campaign) then [Begin(id, campaign), Touch(id, now)]
    else if FirstFree(s.reg, s.alive, campaign, 0) == None then [Begin(id, campaign), Search(id)]
    else if reply == None then [Begin(id, campaign), Search(id), Launch(id, reply)]
    else [Begin(id, campaign), Search(id), Launch(id, reply), Track(id, now)]
  }

  /** With nobody in between, the sections of a call add up to the sequential AutoStart. */
  lemma UndisturbedCallIsSequential(s: System, id: nat, campaign: string, reply: Option<Reply>, now: int)
    requires id !in s.callers
    ensures var (reg, result) := AutoStarted(s.reg, s.alive, campaign, reply, now);
            Run(s, Script(s, id, campaign, reply, now)) ==
              Some(System(reg, s.alive, s.callers[id := match result case Ok(config) => Returned(campaign, config)
                  case Err(e) => Failed(e)]))
  {
    hide Key, FirstFree, Run;
    var s1 := Step(s, Begin(id, campaign)).value;
    RunOne(s, Begin(id, campaign));
    if campaign != "" && HasCurrent(s.reg, campaign) {
      var s2 := Step(s1, Touch(id, now)).value;
      assert s2.callers == s.callers[id := s2.callers[id]];
      RunTwo(s, Begin(id, campaign), s1, Touch(id, now), s2);
    } else if campaign != "" {
      var s2 := Step(s1, Search(id)).value;
      assert s2.callers == s.callers[id := s2.callers[id]];
      RunTwo(s, Begin(id, campaign), s1, Search(id), s2);
      if FirstFree(s.reg, s.alive, campaign, 0) != None {
        var s3 := Step(s2, Launch(id, reply)).value;
        assert s3.callers == s.callers[id := s3.callers[id]];
        RunOne(s2, Launch(id, reply));
        RunConcat(s, [Begin(id, campaign), Search(id)], [Launch(id, reply)]);
        assert [Begin(id, campaign), Search(id)] + [Launch(id, reply)] ==
            [Begin(id, campaign), Search(id), Launch(id, reply)];
        if reply != None {
          var s4 := Step(s3, Track(id, now)).value;
          assert s4.callers == s.callers[id := s4.callers[id]];
          RunFour(s, Begin(id, campaign), s1, Search(id), s2, Launch(id, reply), s3, Track(id, now), s4);
        }
      }
    }
  }

  /** Right after a shutdown nothing is active; what is active later was tracked after it. */
  lemma ShutdownDeactivates(s: System, actions: seq<Action>, campaign: string, n: int)
    requires !s.reg.stopped && Run(Step(s, Shutdown).value, actions).Some?
    ensures var down := Step(s, Shutdown).value;
            ActiveAt(Run(down, actions).value.reg, Key(campaign, n)) ==>
              exists i | 0 <= i < |actions| ::
                  Run(down, actions[..i]).Some? && Tracks(Run(down, actions[..i]).value, actions[i], campaign, n)
  {
    hide Key, Run;
    var down := Step(s, Shutdown).value;
    if ActiveAt(Run(down, actions).value.reg, Key(campaign, n)) {
      var i := InactiveUntilTracked(down, actions, campaign, n);
    }
  }
}
