/** The reconnecting connection manager: its critical sections, and every interleaving of connects, reconnects and
    closes. */
module Connections {
  import opened Outcomes

  datatype Info = Info(address: string)

  /** A connection attempt: to the default daemon, to a campaign's daemon, or by the maintenance loop. */
  datatype Kind = Default | ForCampaign(campaign: string) | Reconnect

  /** What the manager guards, and the log of the connections it has closed. Connections are numbered as they are
      opened. */
  datatype Guarded = Guarded(conn: Option<nat>, info: Option<Info>, useCampaign: bool, campaign: string,
      closed: seq<nat>)

  function Closing(g: Guarded): Guarded {
    if g.conn.Some? then g.(closed := g.closed + [g.conn.value]) else g
  }

  /** Installing a connection closes the one it replaces. A reconnect leaves the discovery parameters alone. */
  function Installed(g: Guarded, kind: Kind, conn: nat, info: Info): Guarded {
    var g' := Closing(g).(conn := Some(conn), info := Some(info));
    match kind
    case Default => g'.(useCampaign := false, campaign := "")
    case ForCampaign(campaign) => g'.(useCampaign := true, campaign := campaign)
    case Reconnect => g'
  }

  function Closed(g: Guarded): Guarded {
    if g.conn.Some? then Closing(g).(conn := None, info := None) else g
  }

  class Manager {
    var conn: Option<nat>
    var info: Option<Info>
    var useCampaign: bool
    var campaign: string
    var closed: seq<nat>

    function State(): Guarded
      reads this
    {
      Guarded(conn, info, useCampaign, campaign, closed)
    }

    constructor ()
      ensures State() == Guarded(None, None, false, "", [])
    {
      conn, info, useCampaign, campaign, closed := None, None, false, "", [];
    }

    /** `found` is what discovery returned. */
    method Connect(found: Option<(nat, Info)>) returns (ok: bool)
      modifies this
      ensures ok == found.Some?
      ensures State() == if ok then Installed(old(State()), Default, found.value.0, found.value.1) else old(State())
    {
      if found.None? {
        return false;
      }
      if conn.Some? {
        closed := closed + [conn.value];
      }
      conn, info := Some(found.value.0), Some(found.value.1);
      useCampaign, campaign := false, "";
      ok := true;
    }

    method ConnectForCampaign(name: string, found: Option<(nat, Info)>) returns (ok: bool)
      modifies this
      ensures ok == found.Some?
      ensures State() == if ok then Installed(old(State()), ForCampaign(name), found.value.0, found.value.1)
          else old(State())
    {
      if found.None? {
        return false;
      }
      if conn.Some? {
        closed := closed + [conn.value];
      }
      conn, info := Some(found.value.0), Some(found.value.1);
      useCampaign, campaign := true, name;
      ok := true;
    }

    method AttemptReconnect(found: Option<(nat, Info)>) returns (ok: bool)
      modifies this
      ensures ok == found.Some?
      ensures State() == if ok then Installed(old(State()), Reconnect, found.value.0, found.value.1) else old(State())
    {
      if found.None? {
        return false;
      }
      if conn.Some? {
        closed := closed + [conn.value];
      }
      conn, info := Some(found.value.0), Some(found.value.1);
      ok := true;
    }

    method Close()
      modifies this
      ensures State() == Closed(old(State()))
    {
      if conn.Some? {
        closed := closed + [conn.value];
        conn, info := None, None;
      }
    }
  }

  // ---------------------------------------------------------------- all interleavings

  /** A caller between starting to dial and installing what it dialled. */
  datatype Flight = Dialing(kind: Kind) | Holding(kind: Kind, conn: nat, info: Info) | Done(ok: bool)

  /** Connections 0 to `dialled` - 1 have been opened so far; `cancelled` is the manager's own context. */
  datatype Hub = Hub(g: Guarded, cancelled: bool, dialled: nat, flights: map<nat, Flight>)

  datatype Action =
    | Begin(id: nat, kind: Kind)
    | Dialed(id: nat, info: Option<Info>)
    | Install(id: nat)
    | Cancel
    | FinishClose

  const INITIAL: Hub := Hub(Guarded(None, None, false, "", []), false, 0, map[])

  /** One step; None when it is not possible. Dialling opens a new connection outside the lock; a reconnect dials
      under the manager's context, so it cannot succeed once that is cancelled. Close cancels first and takes the
      lock later. */
  function Step(s: Hub, a: Action): Option<Hub> {
    match a
    case Begin(id, kind) => if id in s.flights then None else Some(s.(flights := s.flights[id := Dialing(kind)]))
    case Dialed(id, info) =>
      if id !in s.flights || !s.flights[id].Dialing? ||
          (info.Some? && s.flights[id].kind.Reconnect? && s.cancelled) then None
      else if info.None? then Some(s.(flights := s.flights[id := Done(false)]))
      else Some(s.(dialled := s.dialled + 1, flights :=
          s.flights[id := Holding(s.flights[id].kind, s.dialled, info.value)]))
    case Install(id) =>
      if id !in s.flights || !s.flights[id].Holding? then None
      else
        var f := s.flights[id];
        Some(s.(g := Installed(s.g, f.kind, f.conn, f.info), flights := s.flights[id := Done(true)]))
    case Cancel => Some(s.(cancelled := true))
    case FinishClose => if s.cancelled then Some(s.(g := Closed(s.g))) else None
  }

  function Run(s: Hub, actions: seq<Action>): Option<Hub>
    decreases |actions|
  {
    if actions == [] then Some(s)
    else
      var next := Step(s, actions[0]);
      if next.None? then None else Run(next.value, actions[1..])
  }

  predicate Holds(s: Hub, id: nat, c: nat) {
    id in s.flights && s.flights[id].Holding? && s.flights[id].conn == c
  }

  predicate Current(s: Hub, c: nat) {
    s.g.conn == Some(c)
  }

  /** How many times a connection has been closed. */
  function Closings(s: Hub, c: nat): nat {
    multiset(s.g.closed)[c]
  }

  /** Where each opened connection is: current, held by one caller, or closed, and nowhere twice. */
  ghost predicate Accounted(s: Hub, c: nat) {
    && Closings(s, c) <= 1
    && (Current(s, c) ==> Closings(s, c) == 0 && forall id :: !Holds(s, id, c))
    && (forall id :: Holds(s, id, c) ==> Closings(s, c) == 0 && !Current(s, c))
    && (forall i, j :: Holds(s, i, c) && Holds(s, j, c) ==> i == j)
    && (if c < s.dialled then Current(s, c) || Closings(s, c) == 1 || exists id :: Holds(s, id, c)
        else !Current(s, c) && Closings(s, c) == 0 && forall id :: !Holds(s, id, c))
  }

  ghost predicate Inv(s: Hub) {
    (s.g.conn.Some? <==> s.g.info.Some?) && forall c :: Accounted(s, c)
  }

  lemma StepKeepsInv(s: Hub, a: Action)
    requires Inv(s) && Step(s, a).Some?
    ensures Inv(Step(s, a).value)
  {
    var s' := Step(s, a).value;
    forall c: nat ensures Accounted(s', c) {
      StepAccounts(s, a, c);
    }
  }

  lemma StepAccounts(s: Hub, a: Action, c: nat)
    requires Inv(s) && Step(s, a).Some?
    ensures Accounted(Step(s, a).value, c)
  {
    hide Accounted;
    var s' := Step(s, a).value;
    assert Accounted(s, c);
    match a
    case Begin(id, kind) => CallerAccounts(s, s', id, c);
    case Dialed(id, info) => CallerAccounts(s, s', id, c);
    case Install(id) =>
      ClosingOnce(s, c);
      HolderAccounted(s, id, c);
      InstallAccounts(s, id, c);
    case Cancel => SameAccounts(s, s', c);
    case FinishClose =>
      ClosingOnce(s, c);
      CloseAccounts(s, c);
  }

  lemma SameAccounts(s: Hub, s': Hub, c: nat)
    requires Accounted(s, c) && s'.g == s.g && s'.dialled == s.dialled && s'.flights == s.flights
    ensures Accounted(s', c)
  {
    assert forall id :: Holds(s', id, c) <==> Holds(s, id, c);
  }

  /** A caller that holds nothing yet may come to hold the next connection, and no other. */
  lemma CallerAccounts(s: Hub, s': Hub, id: nat, c: nat)
    requires Accounted(s, c) && s'.g == s.g && !Holds(s, id, c) && s'.flights.Keys == s.flights.Keys + {id}
    requires forall i | i in s.flights && i != id :: s'.flights[i] == s.flights[i]
    requires Holds(s', id, c) <==> c == s.dialled && s'.dialled == s.dialled + 1
    requires s'.dialled == s.dialled || s'.dialled == s.dialled + 1
    ensures Accounted(s', c)
  {
    assert forall i | i != id :: Holds(s', i, c) <==> Holds(s, i, c);
  }

  /** What closing the current connection adds to a connection's closings. */
  lemma ClosingOnce(s: Hub, c: nat)
    ensures multiset(Closing(s.g).closed)[c] == Closings(s, c) + if Current(s, c) then 1 else 0
  {
  }

  lemma HolderAccounted(s: Hub, id: nat, c: nat)
    requires Inv(s) && id in s.flights && s.flights[id].Holding?
    ensures s.flights[id].conn < s.dialled && (c == s.flights[id].conn <==> Holds(s, id, c))
  {
    assert Accounted(s, s.flights[id].conn);
    assert Holds(s, id, s.flights[id].conn);
  }

  lemma InstallAccounts(s: Hub, id: nat, c: nat)
    requires Accounted(s, c) && Step(s, Install(id)).Some?
    requires c == s.flights[id].conn <==> Holds(s, id, c)
    requires multiset(Closing(s.g).closed)[c] == Closings(s, c) + if Current(s, c) then 1 else 0
    ensures Accounted(Step(s, Install(id)).value, c)
  {
    hide Closing;
    var s' := Step(s, Install(id)).value;
    ClosingOnly(s.g, s.flights[id].kind, s.flights[id].conn, s.flights[id].info);
    assert forall i | i != id :: Holds(s', i, c) <==> Holds(s, i, c);
    assert !Holds(s', id, c);
  }

  lemma ClosingOnly(g: Guarded, kind: Kind, conn: nat, info: Info)
    ensures Installed(g, kind, conn, info).closed == Closing(g).closed
    ensures Installed(g, kind, conn, info).conn == Some(conn) && Closed(g).conn == None &&
        Closed(g).closed == Closing(g).closed
  {
  }

  lemma CloseAccounts(s: Hub, c: nat)
    requires Accounted(s, c) && Step(s, FinishClose).Some?
    requires multiset(Closing(s.g).closed)[c] == Closings(s, c) + if Current(s, c) then 1 else 0
    ensures Accounted(Step(s, FinishClose).value, c)
  {
    hide Closing, Closed;
    var s' := Step(s, FinishClose).value;
    ClosingOnly(s.g, Reconnect, 0, Info(""));
    assert forall i :: Holds(s', i, c) <==> Holds(s, i, c);
  }

  lemma {:induction false} RunKeepsInv(s: Hub, actions: seq<Action>)
    requires Inv(s) && Run(s, actions).Some?
    ensures Inv(Run(s, actions).value)
    decreases |actions|
  {
    hide Step, Inv;
    if actions != [] {
      StepKeepsInv(s, actions[0]);
      RunKeepsInv(Step(s, actions[0]).value, actions[1..]);
    }
  }

  lemma InitialInv()
    ensures Inv(INITIAL)
  {
  }

  /** In every reachable state each opened connection is in exactly one place: it is the current one, one caller
      still holds it, or it has been closed exactly once; and connection and info are present together. */
  lemma ConnectionsAreConserved(actions: seq<Action>, c: nat)
    requires Run(INITIAL, actions).Some? && c < Run(INITIAL, actions).value.dialled
    ensures var s := Run(INITIAL, actions).value;
            && (Current(s, c) || Closings(s, c) == 1 || exists id :: Holds(s, id, c))
            && !(Current(s, c) && Closings(s, c) > 0) && Closings(s, c) <= 1
            && (forall id :: Holds(s, id, c) ==> !Current(s, c) && Closings(s, c) == 0)
            && (forall i, j :: Holds(s, i, c) && Holds(s, j, c) ==> i == j)
            && (s.g.conn.Some? <==> s.g.info.Some?)
  {
    hide Run, Step;
    InitialInv();
    RunKeepsInv(INITIAL, actions);
    assert Accounted(Run(INITIAL, actions).value, c);
  }

  /** The opened connections that have not been closed. */
  function Open(s: Hub): set<nat> {
    set c: nat | 0 <= c < s.dialled && Closings(s, c) == 0
  }

  predicate Quiet(s: Hub) {
    forall id | id in s.flights :: !s.flights[id].Holding?
  }

  /** With nothing in flight, the current connection, if any, is the only open one. */
  lemma QuietMeansAtMostOneOpen(actions: seq<Action>)
    requires Run(INITIAL, actions).Some? && Quiet(Run(INITIAL, actions).value)
    ensures var s := Run(INITIAL, actions).value;
            Open(s) == if s.g.conn.Some? then {s.g.conn.value} else {}
  {
    hide Run, Step;
    InitialInv();
    RunKeepsInv(INITIAL, actions);
    var s := Run(INITIAL, actions).value;
    forall c: nat ensures c in Open(s) <==> Current(s, c) {
      assert Accounted(s, c);
    }
  }

  /** Some installation comes after the last close. */
  ghost predicate InstallsLast(actions: seq<Action>) {
    exists i | 0 <= i < |actions| :: actions[i].Install? && forall j | i < j < |actions| :: !actions[j].FinishClose?
  }

  lemma {:induction false} CurrentExact(s: Hub, actions: seq<Action>)
    requires Run(s, actions).Some?
    ensures Run(s, actions).value.g.conn.Some? <==>
            InstallsLast(actions) || (s.g.conn.Some? && forall j | 0 <= j < |actions| :: !actions[j].FinishClose?)
    decreases |actions|
  {
    if actions != [] {
      var tail := actions[1..];
      CurrentExact(Step(s, actions[0]).value, tail);
      assert forall j | 0 <= j < |tail| :: tail[j] == actions[j + 1];
      if InstallsLast(tail) {
        var i :| 0 <= i < |tail| && tail[i].Install? && forall j | i < j < |tail| :: !tail[j].FinishClose?;
        assert actions[i + 1].Install?;
        assert forall j | i + 1 < j < |actions| :: actions[j] == tail[j - 1];
      }
      if InstallsLast(actions) {
        var i :| 0 <= i < |actions| && actions[i].Install? && forall j | i < j < |actions| :: !actions[j].FinishClose?;
        if i > 0 {
          assert tail[i - 1].Install?;
        }
      }
      assert actions[0].FinishClose? || (forall j | 0 <= j < |tail| :: !tail[j].FinishClose?) ==
             (forall j | 0 <= j < |actions| :: !actions[j].FinishClose?) by {
        assert forall j | 1 <= j < |actions| :: actions[j] == tail[j - 1];
      }
    }
  }

  /** In a run whose last close is known, what counts is an installation after it. */
  lemma InstallsAfterClose(before: seq<Action>, after: seq<Action>)
    requires forall j | 0 <= j < |after| :: !after[j].FinishClose?
    ensures InstallsLast(before + [FinishClose] + after) <==> exists j | 0 <= j < |after| :: after[j].Install?
  {
    var actions, n := before + [FinishClose] + after, |before|;
    assert actions[n].FinishClose?;
    assert forall j | 0 <= j < |after| :: actions[n + 1 + j] == after[j];
    assert forall k | n < k < |actions| :: actions[k] == after[k - n - 1];
    if j :| 0 <= j < |after| && after[j].Install? {
      assert actions[n + 1 + j].Install?;
    }
  }

  /** After a close and with nothing in flight, no connection is open exactly when nothing was installed since. */
  lemma NoneOpenAfterCloseExact(before: seq<Action>, after: seq<Action>)
    requires Run(INITIAL, before + [FinishClose] + after).Some? &&
        Quiet(Run(INITIAL, before + [FinishClose] + after).value)
    requires forall j | 0 <= j < |after| :: !after[j].FinishClose?
    ensures Open(Run(INITIAL, before + [FinishClose] + after).value) == {} <==>
        forall j | 0 <= j < |after| :: !after[j].Install?
  {
    hide Run, Step, Open, Quiet, InstallsLast;
    var actions := before + [FinishClose] + after;
    QuietMeansAtMostOneOpen(actions);
    CurrentExact(INITIAL, actions);
    InstallsAfterClose(before, after);
  }

  /** A caller that dialled before a close and installs after it leaves an open connection behind a closed manager. */
  lemma InstallAfterCloseLeaks(info: Info)
    ensures var end := Run(INITIAL, [Begin(0, Default), Dialed(0, Some(info)), Cancel, FinishClose, Install(0)]);
            end.Some? && end.value.cancelled && Quiet(end.value) && Open(end.value) == {0}
  {
    var a := [Begin(0, Default), Dialed(0, Some(info)), Cancel, FinishClose, Install(0)];
    var s1 := Step(INITIAL, a[0]).value;
    var s2 := Step(s1, a[1]).value;
    var s3 := Step(s2, a[2]).value;
    var s4 := Step(s3, a[3]).value;
    var s5 := Step(s4, a[4]).value;
    assert Run(s4, a[4..]) == Some(s5);
    assert Run(s3, a[3..]) == Some(s5);
    assert Run(s2, a[2..]) == Some(s5);
    assert Run(s1, a[1..]) == Some(s5);
    assert s5.dialled == 1 && s5.g.closed == [];
  }
}
