/** Every interleaving of health checks. A check looks at the cache, lets the tool answer without holding the lock,
    and then writes into the status record it found at the start, or into a new one. */
module HealthSystem {
  import opened Outcomes
  import Health

  type Verdict = Health.Verdict

  /** A real check under way, with the record it found, or an answered one. */
  datatype Call = Checking(name: string, record: Option<nat>) | Answered(verdict: Verdict)

  /** Records are numbered as they are made, each for one tool, its owner. The logs tell which real checks ended on
      which record, and on which tool since the last clear. */
  datatype System = System(records: seq<Health.Status>, owners: seq<string>, cache: map<string, nat>, interval: int,
      calls: map<nat, Call>,
                           byRecord: seq<Health.Real<nat>>, byTool: seq<Health.Real<string>>)

  datatype Action =
    | Begin(id: nat, name: string, now: int)
    | Finish(id: nat, finished: int, took: int, verdict: Verdict)
    | Clear
    | SetInterval(interval: int)

  const INITIAL: System := System([], [], map[], 30_000_000_000, map[], [], [])

  /** The record a check that found `record` writes into. */
  function Target(s: System, record: Option<nat>): nat {
    if record.Some? then record.value else |s.records|
  }

  /** One step; None when it is not possible. */
  function Step(s: System, a: Action): Option<System> {
    match a
    case Begin(id, name, now) =>
      if id in s.calls || (name in s.cache && s.cache[name] >= |s.records|) then None
      else if name !in s.cache then Some(s.(calls := s.calls[id := Checking(name, None)]))
      else
        var status := s.records[s.cache[name]];
        if now - status.lastChecked < s.interval
        then Some(s.(calls := s.calls[id := Answered(if status.healthy then None else status.lastError)]))
        else Some(s.(calls := s.calls[id := Checking(name, Some(s.cache[name]))]))
    case Finish(id, finished, took, verdict) =>
      if id !in s.calls || !s.calls[id].Checking? || Target(s, s.calls[id].record) > |s.records| then None
      else
        var (name, r) := (s.calls[id].name, Target(s, s.calls[id].record));
        var before := if r < |s.records| then Some(s.records[r]) else None;
        var status := Health.Renewed(before, finished, took, verdict);
        Some(System(s.records[..r] + [status] + (if r < |s.records| then s.records[r + 1..] else []),
                    if s.calls[id].record.None? then s.owners + [name] else s.owners,
                    if s.calls[id].record.None? then s.cache[name := r] else s.cache, s.interval,
                    s.calls[id := Answered(verdict)],
                    s.byRecord + [Health.Real(r, finished, took, verdict)],
                    s.byTool + [Health.Real(name, finished, took, verdict)]))
    case Clear => Some(s.(cache := map[], byTool := []))
    case SetInterval(interval) => Some(s.(interval := interval))
  }

  function Run(s: System, actions: seq<Action>): Option<System>
    decreases |actions|
  {
    if actions == [] then Some(s)
    else
      var next := Step(s, actions[0]);
      if next.None? then None else Run(next.value, actions[1..])
  }

  // ---------------------------------------------------------------- whatever overlaps

  /** References name records, and every record is what the real checks that ended on it predict. */
  ghost predicate Inv(s: System) {
    && (forall name | name in s.cache :: s.cache[name] < |s.records|)
    && (forall id | id in s.calls && s.calls[id].Checking? && s.calls[id].record.Some? ::
          s.calls[id].record.value < |s.records|)
    && forall r: nat :: Health.Predicted(s.byRecord, r) == if r < |s.records| then Some(s.records[r]) else None
  }

  lemma StepKeepsInv(s: System, a: Action)
    requires Inv(s) && Step(s, a).Some?
    ensures Inv(Step(s, a).value)
  {
    if a.Finish? {
      var s' := Step(s, a).value;
      var r := Target(s, s.calls[a.id].record);
      assert Health.Predicted(s.byRecord, r) == if r < |s.records| then Some(s.records[r]) else None;
      forall k: nat
        ensures Health.Predicted(s'.byRecord, k) == if k < |s'.records| then Some(s'.records[k]) else None
      {
        Health.RealCheckExplained(s.byRecord, Health.Real(r, a.finished, a.took, a.verdict), k);
      }
    }
  }

  lemma {:induction false} RunKeepsInv(s: System, actions: seq<Action>)
    requires Inv(s) && Run(s, actions).Some?
    ensures Inv(Run(s, actions).value)
    decreases |actions|
  {
    hide Step, Inv;
    if actions != [] {
      StepKeepsInv(s, actions[0]);
      RunKeepsInv(Step(s, actions[0]).value, actions[1..]);
    }
  }

  /** In every interleaving, a tool's cached status is the one predicted by the real checks that ended on its record:
      its failure count is their trailing run of failures, and it is healthy exactly when that is zero and exactly
      when it has no error. */
  lemma RecordsAreExplained(actions: seq<Action>, name: string)
    requires Run(INITIAL, actions).Some? && name in Run(INITIAL, actions).value.cache
    ensures var s := Run(INITIAL, actions).value;
            && s.cache[name] < |s.records|
            && var (r, status) := (s.cache[name], s.records[s.cache[name]]);
               && Health.Predicted(s.byRecord, r) == Some(status)
               && status.consecutiveFails == Health.TrailingFailures(s.byRecord, r)
               && (status.healthy <==> status.consecutiveFails == 0) && (status.healthy <==> status.lastError == None)
  {
    hide Run, Step;
    assert Inv(INITIAL);
    RunKeepsInv(INITIAL, actions);
    var s := Run(INITIAL, actions).value;
    assert Health.Predicted(s.byRecord, s.cache[name]) == Some(s.records[s.cache[name]]);
    Health.FailuresEndInFailure(s.byRecord, s.cache[name]);
  }

  // ---------------------------------------------------------------- when every check counts

  predicate Busy(s: System, name: string, id: nat) {
    id in s.calls && s.calls[id].Checking? && s.calls[id].name == name
  }

  /** What the cache says of a tool. */
  function Cached(s: System, name: string): Option<Health.Status> {
    if name in s.cache && s.cache[name] < |s.records| then Some(s.records[s.cache[name]]) else None
  }

  /** References name records of the tool they are kept for. */
  ghost predicate Owned(s: System) {
    && |s.owners| == |s.records|
    && (forall name | name in s.cache :: s.cache[name] < |s.records| && s.owners[s.cache[name]] == name)
    && forall id, name | Busy(s, name, id) && s.calls[id].record.Some? ::
         s.calls[id].record.value < |s.records| && s.owners[s.calls[id].record.value] == name
  }

  /** Every cached status is the one that all real checks of the tool since the last clear predict. */
  ghost predicate Explained(s: System) {
    forall name :: Health.Predicted(s.byTool, name) == Cached(s, name)
  }

  /** The check ends on the record that is cached for its tool, or it makes the tool's record anew and there is no
      failure in a row to be lost. */
  predicate Counts(s: System, id: nat, verdict: Verdict)
    requires id in s.calls && s.calls[id].Checking?
  {
    var Checking(name, record) := s.calls[id];
    var cached := Cached(s, name);
    || record == (if name in s.cache then Some(s.cache[name]) else None)
    || (record == None && cached.Some? && (verdict == None || cached.value.consecutiveFails == 0))
  }

  lemma StepKeepsOwned(s: System, a: Action)
    requires Owned(s) && Step(s, a).Some?
    ensures Owned(Step(s, a).value)
  {
    var s' := Step(s, a).value;
    match a
    case Begin(id, name, now) =>
      assert forall i, other | Busy(s', other, i) && i != id :: Busy(s, other, i) && s'.calls[i] == s.calls[i];
    case Finish(id, finished, took, verdict) =>
      hide Health.Renewed;
      var name := s.calls[id].name;
      assert Busy(s, name, id);
      assert forall i, other | Busy(s', other, i) :: Busy(s, other, i) && s'.calls[i] == s.calls[i];
    case Clear =>
      assert forall i, other | Busy(s', other, i) :: Busy(s, other, i);
    case SetInterval(_) =>
      assert forall i, other | Busy(s', other, i) :: Busy(s, other, i);
  }

  /** The end of a real check changes what the cache says of no other tool. */
  lemma FinishLeavesOthers(s: System, id: nat, finished: int, took: int, verdict: Verdict, other: string)
    requires Owned(s) && Step(s, Finish(id, finished, took, verdict)).Some? && other != s.calls[id].name
    ensures Cached(Step(s, Finish(id, finished, took, verdict)).value, other) == Cached(s, other)
  {
    hide Health.Renewed;
    assert Busy(s, s.calls[id].name, id);
  }

  /** What the cache says afterwards of the tool itself. */
  lemma FinishCaches(s: System, id: nat, finished: int, took: int, verdict: Verdict)
    requires Owned(s) && Step(s, Finish(id, finished, took, verdict)).Some?
    ensures var Checking(name, record) := s.calls[id];
            Cached(Step(s, Finish(id, finished, took, verdict)).value, name) ==
              if record == None then Some(Health.Renewed(None, finished, took, verdict))
              else if name in s.cache && record == Some(s.cache[name])
              then Some(Health.Renewed(Cached(s, name), finished, took, verdict))
              else Cached(s, name)
  {
    hide Health.Renewed;
    assert Busy(s, s.calls[id].name, id);
  }

  /** The end of a real check keeps the cache explained when the check counts, and in no other case, provided that it
      does not end at the very instant of the tool's cached check. */
  lemma FinishCountsExactly(s: System, id: nat, finished: int, took: int, verdict: Verdict)
    requires Owned(s) && Explained(s) && Step(s, Finish(id, finished, took, verdict)).Some?
    ensures var s' := Step(s, Finish(id, finished, took, verdict)).value;
            var cached := Cached(s, s.calls[id].name);
            && (Counts(s, id, verdict) ==> Explained(s'))
            && ((cached.Some? ==> cached.value.lastChecked != finished) ==> (Explained(s') <==> Counts(s, id, verdict)))
  {
    hide Health.Predicted, Owned, Cached;
    var name := s.calls[id].name;
    var s' := Step(s, Finish(id, finished, took, verdict)).value;
    assert Health.Predicted(s.byTool, name) == Cached(s, name);
    forall other
      ensures Health.Predicted(s'.byTool, other) ==
              if other == name then Some(Health.Renewed(Cached(s, name), finished, took, verdict)) else Cached(s, other)
      ensures other != name ==> Cached(s', other) == Cached(s, other)
    {
      Health.RealCheckExplained(s.byTool, Health.Real(name, finished, took, verdict), other);
      if other != name {
        FinishLeavesOthers(s, id, finished, took, verdict, other);
      }
    }
    FinishCaches(s, id, finished, took, verdict);
    CachedMeansRecord(s, name);
  }

  lemma CachedMeansRecord(s: System, name: string)
    requires Owned(s)
    ensures name in s.cache <==> Cached(s, name).Some?
  {
  }

  /** No other step disturbs what the cache is explained by. */
  lemma OthersKeepExplained(s: System, a: Action)
    requires Explained(s) && Step(s, a).Some? && !a.Finish?
    ensures Explained(Step(s, a).value)
  {
    hide Health.Predicted;
    var s' := Step(s, a).value;
    if a.Clear? {
      forall name ensures Health.Predicted(s'.byTool, name) == None {
        NothingPredicted(name);
      }
    } else {
      assert forall name :: Cached(s', name) == Cached(s, name);
    }
  }

  lemma NothingPredicted(name: string)
    ensures Health.Predicted<string>([], name) == None
  {
  }

  /** A real check does not end at the very instant of its tool's cached check. */
  predicate Moves(s: System, a: Action) {
    a.Finish? && a.id in s.calls && s.calls[a.id].Checking? && Cached(s, s.calls[a.id].name).Some? ==>
      Cached(s, s.calls[a.id].name).value.lastChecked != a.finished
  }

  /** The action is no end of a check that does not count. */
  predicate Harmless(s: System, a: Action) {
    a.Finish? && a.id in s.calls && s.calls[a.id].Checking? ==> Counts(s, a.id, a.verdict)
  }

  /** Along a run: checks end at different times, no action does harm, every state is explained. */
  ghost predicate AllMove(s: System, actions: seq<Action>)
    decreases |actions|
  {
    actions != [] ==>
        Moves(s, actions[0]) && (Step(s, actions[0]).Some? ==> AllMove(Step(s, actions[0]).value, actions[1..]))
  }

  ghost predicate AllHarmless(s: System, actions: seq<Action>)
    decreases |actions|
  {
    actions != [] ==>
      Harmless(s, actions[0]) && (Step(s, actions[0]).Some? ==> AllHarmless(Step(s, actions[0]).value, actions[1..]))
  }

  ghost predicate AllExplained(s: System, actions: seq<Action>)
    decreases |actions|
  {
    && Explained(s)
    && (actions != [] && Step(s, actions[0]).Some? ==> AllExplained(Step(s, actions[0]).value, actions[1..]))
  }

  lemma {:induction false} ExplainedFrom(s: System, actions: seq<Action>)
    requires Owned(s) && Explained(s) && Run(s, actions).Some? && AllMove(s, actions)
    ensures AllExplained(s, actions) <==> AllHarmless(s, actions)
    decreases |actions|
  {
    hide Step, Owned, Explained, Cached, Counts;
    if actions != [] {
      var a, s' := actions[0], Step(s, actions[0]).value;
      StepKeepsOwned(s, a);
      if a.Finish? {
        FinishedCalls(s, a);
        FinishCountsExactly(s, a.id, a.finished, a.took, a.verdict);
      } else {
        OthersKeepExplained(s, a);
      }
      if Explained(s') {
        ExplainedFrom(s', actions[1..]);
      } else {
        NotExplained(s', actions[1..]);
      }
    }
  }

  lemma NotExplained(s: System, actions: seq<Action>)
    requires !Explained(s)
    ensures !AllExplained(s, actions)
  {
  }

  lemma FinishedCalls(s: System, a: Action)
    requires a.Finish? && Step(s, a).Some?
    ensures a.id in s.calls && s.calls[a.id].Checking?
  {
  }

  /** Along a run whose checks end at different times, every cached status is at every moment the one predicted by
      all real checks of the tool since the last clear, exactly when every real check counts: when it ends on the
      record cached for its tool, or makes the record anew with no failure in a row to lose. */
  lemma CountedExactly(actions: seq<Action>)
    requires Run(INITIAL, actions).Some? && AllMove(INITIAL, actions)
    ensures AllExplained(INITIAL, actions) <==> AllHarmless(INITIAL, actions)
  {
    hide Run, Step, AllMove, AllExplained, AllHarmless;
    assert Owned(INITIAL);
    assert Explained(INITIAL);
    ExplainedFrom(INITIAL, actions);
  }

  /** Two first checks of a tool that overlap and both fail: each makes its own record, and one failure is not
      counted. */
  lemma OverlapLosesAFailure(name: string, e: string)
    ensures var run := Run(INITIAL, [Begin(0, name, 0), Begin(1, name, 0), Finish(0, 1, 1, Some(e)),
        Finish(1, 2, 2, Some(e))]);
            && run.Some? && name in run.value.cache && run.value.cache[name] < |run.value.records|
            && run.value.records[run.value.cache[name]].consecutiveFails == 1
            && Health.TrailingFailures(run.value.byTool, name) == 2
  {
    hide Run, Health.Renewed, Health.TrailingFailures;
    var a := [Begin(0, name, 0), Begin(1, name, 0), Finish(0, 1, 1, Some(e)), Finish(1, 2, 2, Some(e))];
    var s1 := Step(INITIAL, a[0]).value;
    var s2 := Step(s1, a[1]).value;
    var s3 := Step(s2, a[2]).value;
    var s4 := Step(s3, a[3]).value;
    RunFour(INITIAL, a[0], s1, a[1], s2, a[2], s3, a[3], s4);
    assert s4.byTool == [Health.Real(name, 1, 1, Some(e)), Health.Real(name, 2, 2, Some(e))];
    assert s4.records[1] == Health.Renewed(None, 2, 2, Some(e));
    FirstFailure(2, 2, e);
    TwoFailures(Health.Real(name, 1, 1, Some(e)), Health.Real(name, 2, 2, Some(e)));
  }

  lemma FirstFailure(finished: int, took: int, e: string)
    ensures Health.Renewed(None, finished, took, Some(e)).consecutiveFails == 1
  {
  }

  lemma TwoFailures(first: Health.Real<string>, second: Health.Real<string>)
    requires first.key == second.key && first.verdict != None && second.verdict != None
    ensures Health.TrailingFailures([first, second], first.key) == 2
  {
    assert [first, second][..1] == [first] && [first][..0] == [];
    assert Health.TrailingFailures([first], first.key) == 1;
  }

  lemma RunFour(s0: System, a1: Action, s1: System, a2: Action, s2: System, a3: Action, s3: System, a4: Action,
                s4: System)
    requires Step(s0, a1) == Some(s1) && Step(s1, a2) == Some(s2)
    requires Step(s2, a3) == Some(s3) && Step(s3, a4) == Some(s4)
    ensures Run(s0, [a1, a2, a3, a4]) == Some(s4)
  {
    hide Step;
    var a := [a1, a2, a3, a4];
    assert a[3..][1..] == [];
    assert Run(s3, a[3..]) == Some(s4);
    assert a[2..][1..] == a[3..] && a[1..][1..] == a[2..];
    assert Run(s2, a[2..]) == Some(s4);
    assert Run(s1, a[1..]) == Some(s4);
  }

  // ---------------------------------------------------------------- what callers are told

  /** A caller is answered at once exactly when its tool is cached and the interval has not passed since the last
      real check that ended on its record; the answer is that check's verdict. Otherwise the tool is asked. */
  lemma BeginAnswers(s: System, id: nat, name: string, now: int)
    requires Inv(s) && Step(s, Begin(id, name, now)).Some?
    ensures var call := Step(s, Begin(id, name, now)).value.calls[id];
            var last := if name in s.cache then Health.Last(s.byRecord, s.cache[name]) else None;
            && (name in s.cache ==> last.Some?)
            && call == (if last.Some? && now < last.value.finished + s.interval then Answered(last.value.verdict)
                        else Checking(name, if name in s.cache then Some(s.cache[name]) else None))
  {
    if name in s.cache {
      var r := s.cache[name];
      assert Health.Predicted(s.byRecord, r) == Some(s.records[r]);
    }
  }

  /** The cache as the sequential checker sees it. */
  function View(s: System): Health.Cache {
    map name | name in s.cache && s.cache[name] < |s.records| :: s.records[s.cache[name]]
  }

  /** A check that nobody disturbs does and answers what the sequential check does. */
  lemma UndisturbedCheckIsSequential(s: System, id: nat, name: string, now: int, finished: int, took: int,
      verdict: Verdict)
    requires Inv(s) && Owned(s) && id !in s.calls
    ensures Step(s, Begin(id, name, now)).Some?
    ensures var began := Step(s, Begin(id, name, now)).value;
            var end := if began.calls[id].Answered? then Some(began)
                else Step(began, Finish(id, finished, took, verdict));
            && end.Some?
            && end.value.calls[id] == Answered(Health.Reply(View(s), s.interval, name, now, verdict))
            && View(end.value) == Health.Checked(View(s), s.interval, name, now, finished, took, verdict)
  {
    hide Inv;
    BeginAnswersFromView(s, id, name, now, verdict);
    var began := Step(s, Begin(id, name, now)).value;
    assert View(began) == View(s);
    if began.calls[id].Checking? {
      StepKeepsOwned(s, Begin(id, name, now));
      FinishUpdatesView(began, id, finished, took, verdict);
    }
  }

  lemma BeginAnswersFromView(s: System, id: nat, name: string, now: int, verdict: Verdict)
    requires Inv(s) && id !in s.calls
    ensures Step(s, Begin(id, name, now)).Some?
    ensures var began := Step(s, Begin(id, name, now)).value;
            && began.records == s.records && began.cache == s.cache && began.interval == s.interval
            && (began.calls[id].Answered? <==> Health.Recent(View(s), s.interval, name, now))
            && (began.calls[id].Answered? ==>
                  began.calls[id] == Answered(Health.Reply(View(s), s.interval, name, now, verdict)))
            && (began.calls[id].Checking? ==>
                  began.calls[id] == Checking(name, if name in s.cache then Some(s.cache[name]) else None))
  {
    hide Health.Predicted;
  }

  lemma FinishUpdatesView(s: System, id: nat, finished: int, took: int, verdict: Verdict)
    requires Owned(s) && id in s.calls && s.calls[id].Checking?
    requires var Checking(name, record) := s.calls[id]; record == if name in s.cache then Some(s.cache[name]) else None
    ensures Step(s, Finish(id, finished, took, verdict)).Some?
    ensures var name := s.calls[id].name;
            View(Step(s, Finish(id, finished, took, verdict)).value) ==
              View(s)[name := Health.Renewed(if name in View(s) then Some(View(s)[name])
                  else None, finished, took, verdict)]
  {
    hide Health.Renewed;
    var name := s.calls[id].name;
    var s' := Step(s, Finish(id, finished, took, verdict)).value;
    assert Busy(s, name, id);
    forall other ensures other in View(s') <==> other in View(s) || other == name {
    }
  }
}
