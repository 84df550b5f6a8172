/** Which connection, which info and which discovery target the manager holds after any interleaving. */
module ConnectionHistory {
  import opened Outcomes
  import opened Connections

  /** The number of connections opened by the actions. */
  function Opened(actions: seq<Action>): nat {
    if actions == [] then 0
    else Opened(actions[..|actions| - 1]) +
         if actions[|actions| - 1].Dialed? && actions[|actions| - 1].info.Some? then 1 else 0
  }

  /** Caller `id` began as `kind`. */
  predicate BeganAs(actions: seq<Action>, id: nat, kind: Kind) {
    exists b | 0 <= b < |actions| :: actions[b] == Begin(id, kind)
  }

  /** Caller `id` opened connection `c` and learned `info` about it. */
  predicate DialedAs(actions: seq<Action>, id: nat, c: nat, info: Info) {
    exists d | 0 <= d < |actions| :: actions[d] == Dialed(id, Some(info)) && Opened(actions[..d]) == c
  }

  /** The last installation since the last close is caller `id`'s. */
  predicate InstalledLast(actions: seq<Action>, id: nat) {
    exists i | 0 <= i < |actions| ::
      actions[i] == Install(id) && forall j | i < j < |actions| :: !actions[j].Install? && !actions[j].FinishClose?
  }

  /** What a history says of callers, of the current connection and of the target. */
  ghost predicate Told(s: Hub, actions: seq<Action>) {
    && s.dialled == Opened(actions)
    && (forall id | id in s.flights && s.flights[id].Dialing? :: BeganAs(actions, id, s.flights[id].kind))
    && (forall id | id in s.flights && s.flights[id].Holding? ::
          BeganAs(actions, id, s.flights[id].kind) && DialedAs(actions, id, s.flights[id].conn, s.flights[id].info))
    && (s.g.conn.Some? ==>
          s.g.info.Some? && exists id ::
              InstalledLast(actions, id) && DialedAs(actions, id, s.g.conn.value, s.g.info.value))
  }

  lemma BeganStill(actions: seq<Action>, a: Action, id: nat, kind: Kind)
    requires BeganAs(actions, id, kind)
    ensures BeganAs(actions + [a], id, kind)
  {
    var b :| 0 <= b < |actions| && actions[b] == Begin(id, kind);
    assert (actions + [a])[b] == Begin(id, kind);
  }

  lemma DialedStill(actions: seq<Action>, a: Action, id: nat, c: nat, info: Info)
    requires DialedAs(actions, id, c, info)
    ensures DialedAs(actions + [a], id, c, info)
  {
    var d :| 0 <= d < |actions| && actions[d] == Dialed(id, Some(info)) && Opened(actions[..d]) == c;
    assert (actions + [a])[d] == actions[d] && (actions + [a])[..d] == actions[..d];
  }

  lemma InstalledStill(actions: seq<Action>, a: Action, id: nat)
    requires InstalledLast(actions, id) && !a.Install? && !a.FinishClose?
    ensures InstalledLast(actions + [a], id)
  {
    var i :| 0 <= i < |actions| && actions[i] == Install(id)
             && forall j | i < j < |actions| :: !actions[j].Install? && !actions[j].FinishClose?;
    assert (actions + [a])[i] == Install(id);
  }

  lemma NowInstalled(actions: seq<Action>, id: nat)
    ensures InstalledLast(actions + [Install(id)], id)
  {
    assert (actions + [Install(id)])[|actions|] == Install(id);
  }

  lemma NowBegun(actions: seq<Action>, id: nat, kind: Kind)
    ensures BeganAs(actions + [Begin(id, kind)], id, kind)
  {
    assert (actions + [Begin(id, kind)])[|actions|] == Begin(id, kind);
  }

  lemma NowDialed(actions: seq<Action>, id: nat, info: Info)
    ensures DialedAs(actions + [Dialed(id, Some(info))], id, Opened(actions), info)
  {
    var all := actions + [Dialed(id, Some(info))];
    assert all[|actions|] == Dialed(id, Some(info)) && all[..|actions|] == actions;
  }

  lemma OpenedNext(actions: seq<Action>, a: Action)
    ensures Opened(actions + [a]) == Opened(actions) + if a.Dialed? && a.info.Some? then 1 else 0
  {
    assert (actions + [a])[..|actions|] == actions;
  }

  lemma StepTold(s: Hub, actions: seq<Action>, a: Action)
    requires Told(s, actions) && Step(s, a).Some?
    ensures Told(Step(s, a).value, actions + [a])
  {
    hide BeganAs, DialedAs, InstalledLast, Opened;
    var s' := Step(s, a).value;
    OpenedNext(actions, a);
    forall id, kind | BeganAs(actions, id, kind) ensures BeganAs(actions + [a], id, kind) {
      BeganStill(actions, a, id, kind);
    }
    forall id, c, info | DialedAs(actions, id, c, info) ensures DialedAs(actions + [a], id, c, info) {
      DialedStill(actions, a, id, c, info);
    }
    match a
    case Begin(id, kind) =>
      NowBegun(actions, id, kind);
      CurrentStays(s, actions, a);
    case Dialed(id, info) =>
      if info.Some? {
        NowDialed(actions, id, info.value);
      }
      CurrentStays(s, actions, a);
    case Install(id) => NowInstalled(actions, id);
    case Cancel => CurrentStays(s, actions, a);
    case FinishClose =>
  }

  lemma CurrentStays(s: Hub, actions: seq<Action>, a: Action)
    requires Told(s, actions) && !a.Install? && !a.FinishClose?
    ensures s.g.conn.Some? ==>
              && s.g.info.Some?
              && exists id ::
                  InstalledLast(actions + [a], id) && DialedAs(actions + [a], id, s.g.conn.value, s.g.info.value)
  {
    hide BeganAs, DialedAs, InstalledLast, Opened;
    if s.g.conn.Some? {
      var id :| InstalledLast(actions, id) && DialedAs(actions, id, s.g.conn.value, s.g.info.value);
      InstalledStill(actions, a, id);
      DialedStill(actions, a, id, s.g.conn.value, s.g.info.value);
    }
  }

  /** Runs grow at their end. */
  lemma {:induction false} RunLast(s: Hub, actions: seq<Action>)
    requires actions != []
    ensures var front := Run(s, actions[..|actions| - 1]);
            Run(s, actions) == if front.None? then None else Step(front.value, actions[|actions| - 1])
    decreases |actions|
  {
    hide Step;
    var n := |actions| - 1;
    if n == 0 {
      assert actions[1..] == [] && actions[..0] == [];
    } else {
      assert actions[..n][1..] == actions[1..][..n - 1] && actions[..n][0] == actions[0];
      if Step(s, actions[0]).Some? {
        RunLast(Step(s, actions[0]).value, actions[1..]);
      }
    }
  }

  lemma {:induction false} RunTold(actions: seq<Action>)
    requires Run(INITIAL, actions).Some?
    ensures Told(Run(INITIAL, actions).value, actions)
    decreases |actions|
  {
    hide Step, Run, Told;
    if actions == [] {
      NothingTold();
    } else {
      RunLast(INITIAL, actions);
      var front := actions[..|actions| - 1];
      RunTold(front);
      StepTold(Run(INITIAL, front).value, front, actions[|actions| - 1]);
      assert front + [actions[|actions| - 1]] == actions;
    }
  }

  lemma NothingTold()
    ensures Run(INITIAL, []) == Some(INITIAL) && Told(INITIAL, [])
  {
  }

  /** In every interleaving, the connection that is current is the one opened by the caller that installed last since
      the last close, and the info is what that caller learned about it. */
  lemma CurrentIsLastInstalled(actions: seq<Action>)
    requires Run(INITIAL, actions).Some? && Run(INITIAL, actions).value.g.conn.Some?
    ensures var g := Run(INITIAL, actions).value.g;
            g.info.Some? && exists id :: InstalledLast(actions, id) && DialedAs(actions, id, g.conn.value, g.info.value)
  {
    hide Run, Step, InstalledLast, DialedAs;
    RunTold(actions);
  }

  // ---------------------------------------------------------------- the discovery target

  /** Caller `id`, which began as `kind` and is no reconnect, installed, and no later installation is
      by a caller that began as anything but a reconnect. */
  ghost predicate TargetSetBy(actions: seq<Action>, i: nat, id: nat, kind: Kind)
    requires i < |actions|
  {
    && actions[i] == Install(id) && kind != Reconnect && BeganAs(actions[..i], id, kind)
    && forall j, later | i < j < |actions| && actions[j] == Install(later) :: BeganAs(actions[..j], later, Reconnect)
  }

  ghost predicate NoTargetSet(actions: seq<Action>) {
    forall j, id | 0 <= j < |actions| && actions[j] == Install(id) :: BeganAs(actions[..j], id, Reconnect)
  }

  /** How the fields say a target. */
  predicate Aims(g: Guarded, kind: Kind) {
    match kind
    case Default => !g.useCampaign && g.campaign == ""
    case ForCampaign(c) => g.useCampaign && g.campaign == c
    case Reconnect => false
  }

  ghost predicate Aimed(g: Guarded, actions: seq<Action>) {
    || (NoTargetSet(actions) && Aims(g, Default))
    || exists i, id, kind | 0 <= i < |actions| :: TargetSetBy(actions, i, id, kind) && Aims(g, kind)
  }

  lemma StepAims(s: Hub, actions: seq<Action>, a: Action)
    requires Told(s, actions) && Aimed(s.g, actions) && Step(s, a).Some?
    ensures Aimed(Step(s, a).value.g, actions + [a])
  {
    hide BeganAs, DialedAs, InstalledLast, Opened;
    var s', all, n := Step(s, a).value, actions + [a], |actions|;
    assert all[..n] == actions;
    assert forall j | 0 <= j <= n :: all[..j] == actions[..j];
    if a.Install? && s.flights[a.id].kind != Reconnect {
      assert TargetSetBy(all, n, a.id, s.flights[a.id].kind);
      assert Aims(s'.g, s.flights[a.id].kind);
    } else {
      assert s'.g.useCampaign == s.g.useCampaign && s'.g.campaign == s.g.campaign;
      assert a.Install? ==> BeganAs(all[..n], a.id, Reconnect);
      if NoTargetSet(actions) && Aims(s.g, Default) {
        assert NoTargetSet(all);
      } else {
        var i, id, kind :| 0 <= i < n && TargetSetBy(actions, i, id, kind) && Aims(s.g, kind);
        assert TargetSetBy(all, i, id, kind);
      }
    }
  }

  lemma {:induction false} RunAims(actions: seq<Action>)
    requires Run(INITIAL, actions).Some?
    ensures Aimed(Run(INITIAL, actions).value.g, actions)
    decreases |actions|
  {
    hide Step, Run, Told, Aimed;
    if actions == [] {
      NothingAimed();
    } else {
      RunLast(INITIAL, actions);
      var front := actions[..|actions| - 1];
      RunTold(front);
      RunAims(front);
      StepAims(Run(INITIAL, front).value, front, actions[|actions| - 1]);
      assert front + [actions[|actions| - 1]] == actions;
    }
  }

  lemma NothingAimed()
    ensures Run(INITIAL, []) == Some(INITIAL) && Aimed(INITIAL.g, [])
  {
  }

  /** In every interleaving, the discovery target is the one of the last installation by a caller that was no
      reconnect, and the default without one; closing and reconnecting leave it alone. */
  lemma TargetIsLastChosen(actions: seq<Action>)
    requires Run(INITIAL, actions).Some?
    ensures var g := Run(INITIAL, actions).value.g;
            || (NoTargetSet(actions) && !g.useCampaign && g.campaign == "")
            || exists i, id, kind | 0 <= i < |actions| ::
                 && TargetSetBy(actions, i, id, kind)
                 && (kind == Default ==> !g.useCampaign && g.campaign == "")
                 && (kind.ForCampaign? ==> g.useCampaign && g.campaign == kind.campaign)
  {
    hide Run, Step, NoTargetSet, TargetSetBy;
    RunAims(actions);
    var g := Run(INITIAL, actions).value.g;
    if i, id, kind :| 0 <= i < |actions| && TargetSetBy(actions, i, id, kind) && Aims(g, kind) {
      assert TargetSetBy(actions, i, id, kind);
    }
  }
}
