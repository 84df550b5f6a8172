/** Eviction and use: the template cache evicts by insertion time, and when that is the entry used least recently. */
module CacheUse {
  import opened TemplateCaching

  /** Operation `op` uses `name` in cache `c`: it stores it, or looks it up and finds it live. */
  predicate Uses<T>(c: Entries<T>, ttl: int, op: Op<T>, name: string) {
    match op
    case OpGet(n, now) => n == name && Live(c, ttl, n, now)
    case OpSet(n, _, _, _) => n == name
    case OpClear => false
  }

  /** The time of the last use of `name` in the first `k` operations of a run, if there is any. */
  function LastUse<T>(states: seq<Entries<T>>, ttl: int, ops: seq<Op<T>>, k: nat, name: string): int
    requires k <= |ops| < |states|
  {
    if k == 0 then 0
    else if Uses(states[k - 1], ttl, ops[k - 1], name) then Ends(ops[k - 1], 0)
    else LastUse(states, ttl, ops, k - 1, name)
  }

  /** A live look-up of `name` is the `i`-th operation. */
  predicate LookedUp<T>(states: seq<Entries<T>>, ttl: int, ops: seq<Op<T>>, i: nat, name: string)
    requires i < |ops| < |states|
  {
    ops[i].OpGet? && Uses(states[i], ttl, ops[i], name)
  }

  /** What a run keeps of an entry: it was stored and used last at or after its timestamp, it was used last at its
      timestamp when its only hit is that of being stored, and otherwise by a live look-up. */
  ghost predicate Tracked<T(!new)>(states: seq<Entries<T>>, ttl: int, ops: seq<Op<T>>, k: nat, name: string)
    requires k <= |ops| < |states| && name in states[k]
  {
    var entry, last := states[k][name], LastUse(states, ttl, ops, k, name);
    && entry.hits >= 1 && entry.timestamp <= last
    && (entry.hits == 1 ==> last == entry.timestamp)
    && (last == entry.timestamp || exists i | 0 <= i < k :: LookedUp(states, ttl, ops, i, name) && ops[i].now == last)
  }

  lemma TrackingStep<T(!new)>(states: seq<Entries<T>>, maxSize: int, ttl: int, ops: seq<Op<T>>, k: nat, name: string,
      now: int)
    requires Run(states, maxSize, ttl, ops) && k < |ops| && Timely([ops[k]], now) && Stamped(states[k], now)
    requires name in states[k] ==> Tracked(states, ttl, ops, k, name)
    requires name in states[k + 1]
    ensures Tracked(states, ttl, ops, k + 1, name)
  {
    var c, c', op := states[k], states[k + 1], ops[k];
    assert Next(c, maxSize, ttl, op, c');
    if Uses(c, ttl, op, name) {
      if op.OpGet? {
        assert LookedUp(states, ttl, ops, k, name);
      }
    } else {
      KeptEntry(c, maxSize, ttl, op, c', name);
    }
  }

  /** An operation that does not use an entry keeps it as it is, or drops it. */
  lemma KeptEntry<T(!new)>(c: Entries<T>, maxSize: int, ttl: int, op: Op<T>, c': Entries<T>, name: string)
    requires Next(c, maxSize, ttl, op, c') && !Uses(c, ttl, op, name) && name in c'
    ensures name in c && c'[name] == c[name]
  {
  }

  lemma {:induction false} EntriesAreTracked<T(!new)>(states: seq<Entries<T>>, maxSize: int, ttl: int, ops: seq<Op<T>>,
                                                     start: int, k: nat, name: string)
    requires Run(states, maxSize, ttl, ops) && Timely(ops, start) && k <= |ops| && name in states[k]
    ensures Tracked(states, ttl, ops, k, name)
  {
    hide Tracked, Run, Timely;
    NothingAtStart(states, maxSize, ttl, ops);
    if k > 0 {
      var now := RunInvariant(states, maxSize, ttl, ops, start, k - 1);
      NextIsTimely(ops, k - 1, now);
      if name in states[k - 1] {
        EntriesAreTracked(states, maxSize, ttl, ops, start, k - 1, name);
      }
      TrackingStep(states, maxSize, ttl, ops, k - 1, name, now);
    }
  }

  lemma NothingAtStart<T(!new)>(states: seq<Entries<T>>, maxSize: int, ttl: int, ops: seq<Op<T>>)
    requires Run(states, maxSize, ttl, ops)
    ensures |states| == |ops| + 1 && states[0] == map[]
  {
  }

  lemma NextIsTimely<T>(ops: seq<Op<T>>, k: nat, now: int)
    requires k < |ops| && Timely(ops[k..], now)
    ensures Timely([ops[k]], now) && Timely(ops[k + 1..], Ends(ops[k], now))
  {
    assert ops[k..][0] == ops[k] && ops[k..][1..] == ops[k + 1..];
  }

  /** Times of use grow along a run. */
  lemma {:induction false} UseIsRecorded<T(!new)>(states: seq<Entries<T>>, maxSize: int, ttl: int, ops: seq<Op<T>>,
                                                 start: int, i: nat, k: nat, name: string)
    requires Run(states, maxSize, ttl, ops) && Timely(ops, start) && i < k <= |ops| < |states|
    requires Uses(states[i], ttl, ops[i], name)
    ensures LastUse(states, ttl, ops, k, name) >= Ends(ops[i], 0)
    decreases k
  {
    hide Run, Timely;
    if i < k - 1 {
      UseIsRecorded(states, maxSize, ttl, ops, start, i, k - 1, name);
      TimesGrow(ops, start, i, k - 1);
    }
  }

  /** The time reached after the first `k` operations. */
  function Reached<T>(ops: seq<Op<T>>, start: int, k: nat): int
    requires k <= |ops|
  {
    if k == 0 then start else Ends(ops[k - 1], Reached(ops, start, k - 1))
  }

  lemma {:induction false} ReachedIsTimely<T>(ops: seq<Op<T>>, start: int, k: nat)
    requires Timely(ops, start) && k <= |ops|
    ensures Timely(ops[k..], Reached(ops, start, k))
  {
    hide Timely;
    if k == 0 {
      assert ops[0..] == ops;
    } else {
      ReachedIsTimely(ops, start, k - 1);
      NextIsTimely(ops, k - 1, Reached(ops, start, k - 1));
    }
  }

  lemma {:induction false} ReachedGrows<T>(ops: seq<Op<T>>, start: int, i: nat, k: nat)
    requires Timely(ops, start) && i <= k <= |ops|
    ensures Reached(ops, start, i) <= Reached(ops, start, k)
    decreases k
  {
    hide Timely;
    if i < k {
      ReachedGrows(ops, start, i, k - 1);
      ReachedIsTimely(ops, start, k - 1);
      NextIsTimely(ops, k - 1, Reached(ops, start, k - 1));
      OneStepGrows(ops[k - 1], Reached(ops, start, k - 1));
    }
  }

  lemma OneStepGrows<T>(op: Op<T>, now: int)
    requires Timely([op], now)
    ensures now <= Ends(op, now) && (!op.OpClear? ==> now < Ends(op, now) == Ends(op, 0))
  {
  }

  lemma TimesGrow<T>(ops: seq<Op<T>>, start: int, i: nat, k: nat)
    requires Timely(ops, start) && i < k < |ops| && !ops[i].OpClear?
    ensures !ops[k].OpClear? ==> Ends(ops[i], 0) < Ends(ops[k], 0)
  {
    hide Timely;
    ReachedGrows(ops, start, i + 1, k);
    ReachedIsTimely(ops, start, i);
    NextIsTimely(ops, i, Reached(ops, start, i));
    OneStepGrows(ops[i], Reached(ops, start, i));
    ReachedIsTimely(ops, start, k);
    NextIsTimely(ops, k, Reached(ops, start, k));
    OneStepGrows(ops[k], Reached(ops, start, k));
  }

  /** No cached entry was used longer ago. */
  predicate LeastRecentlyUsed<T>(states: seq<Entries<T>>, ttl: int, ops: seq<Op<T>>, k: nat, name: string)
    requires k <= |ops| < |states|
  {
    forall other | other in states[k] :: LastUse(states, ttl, ops, k, name) <= LastUse(states, ttl, ops, k, other)
  }

  /** Operation `k` evicts `victim` to make room. */
  ghost predicate Evicts<T(!new)>(states: seq<Entries<T>>, ops: seq<Op<T>>, maxSize: int, k: nat, victim: string)
    requires k < |ops| < |states|
  {
    && ops[k].OpSet? && |states[k]| >= maxSize && victim in states[k]
    && Evicted(states[k], ops[k].t1, states[k] - {victim})
  }

  lemma VictimIsOldest<T(!new)>(c: Entries<T>, now: int, victim: string)
    requires victim in c && Evicted(c, now, c - {victim})
    ensures forall n | n in c :: c[victim].timestamp <= c[n].timestamp
  {
    assert victim !in c - {victim};
  }

  /** In every run with a strictly increasing clock, an evicted entry is the least recently used one exactly when no
      live look-up of it came after the last use of another cached entry; in particular when it was never looked up. */
  lemma EvictsLeastRecentExactly<T(!new)>(states: seq<Entries<T>>, maxSize: int, ttl: int, ops: seq<Op<T>>, start: int,
                                          k: nat, victim: string)
    requires Run(states, maxSize, ttl, ops) && Timely(ops, start) && k < |ops| < |states|
    requires Evicts(states, ops, maxSize, k, victim)
    ensures LeastRecentlyUsed(states, ttl, ops, k, victim) <==>
            !exists i, other | 0 <= i < k && other in states[k] ::
               LookedUp(states, ttl, ops, i, victim) && ops[i].now > LastUse(states, ttl, ops, k, other)
    ensures states[k][victim].hits == 1 ==> LeastRecentlyUsed(states, ttl, ops, k, victim)
  {
    hide Run, Timely, LastUse, Evicted;
    VictimIsOldest(states[k], ops[k].t1, victim);
    EntriesAreTracked(states, maxSize, ttl, ops, start, k, victim);
    forall other | other in states[k]
      ensures states[k][victim].timestamp <= LastUse(states, ttl, ops, k, other)
    {
      EntriesAreTracked(states, maxSize, ttl, ops, start, k, other);
    }
    forall i | 0 <= i < k && LookedUp(states, ttl, ops, i, victim)
      ensures ops[i].now <= LastUse(states, ttl, ops, k, victim)
    {
      UseIsRecorded(states, maxSize, ttl, ops, start, i, k, victim);
    }
  }

  /** Eviction is not by use: storing a and b in a cache for two, looking up a, and storing c evicts a, the entry
      used last. */
  lemma EvictsMostRecent<T(!new)>(x: T, y: T, z: T, ttl: int)
    requires ttl >= 3
    ensures var c2 := map["a" := Entry(x, 2, 1), "b" := Entry(y, 4, 1)];
            var c3 := map["a" := Entry(x, 2, 2), "b" := Entry(y, 4, 1)];
            var c4 := map["b" := Entry(y, 4, 1), "c" := Entry(z, 7, 1)];
            var states := [map[], map["a" := Entry(x, 2, 1)], c2, c3, c4];
            var ops := [OpSet("a", x, 1, 2), OpSet("b", y, 3, 4), OpGet("a", 5), OpSet("c", z, 6, 7)];
            && Timely(ops, 0) && Run(states, 2, ttl, ops) && Evicts(states, ops, 2, 3, "a")
            && LastUse(states, ttl, ops, 3, "a") == 5 && LastUse(states, ttl, ops, 3, "b") == 4
  {
    hide Uses, LastUse, Timely, Evicted, IsOldest, Next, Stored;
    var c1: Entries<T> := map["a" := Entry(x, 2, 1)];
    var c2 := map["a" := Entry(x, 2, 1), "b" := Entry(y, 4, 1)];
    var c3 := map["a" := Entry(x, 2, 2), "b" := Entry(y, 4, 1)];
    var c4 := map["b" := Entry(y, 4, 1), "c" := Entry(z, 7, 1)];
    var ops := [OpSet("a", x, 1, 2), OpSet("b", y, 3, 4), OpGet("a", 5), OpSet("c", z, 6, 7)];
    var states := [map[], c1, c2, c3, c4];
    FourAreTimely(x, y, z);
    StoresTwo(x, y, ttl);
    LooksUp(x, y, ttl);
    StoresThird(x, y, z, ttl);
    LastUses(states, ttl, ops);
  }

  lemma StoresTwo<T(!new)>(x: T, y: T, ttl: int)
    ensures var c1 := map["a" := Entry(x, 2, 1)];
            && Next(map[], 2, ttl, OpSet("a", x, 1, 2), c1)
            && Next(c1, 2, ttl, OpSet("b", y, 3, 4), map["a" := Entry(x, 2, 1), "b" := Entry(y, 4, 1)])
  {
    var c1 := map["a" := Entry(x, 2, 1)];
    var c2 := map["a" := Entry(x, 2, 1), "b" := Entry(y, 4, 1)];
    assert StoredOver(map[], map[], 2, "a", x, 1, 2, c1);
    assert c2 == c1["b" := Entry(y, 4, 1)];
    assert StoredOver(c1, c1, 2, "b", y, 3, 4, c2);
  }

  lemma LooksUp<T(!new)>(x: T, y: T, ttl: int)
    requires ttl >= 3
    ensures var c2 := map["a" := Entry(x, 2, 1), "b" := Entry(y, 4, 1)];
            && Live(c2, ttl, "a", 5)
            && Next(c2, 2, ttl, OpGet("a", 5), map["a" := Entry(x, 2, 2), "b" := Entry(y, 4, 1)])
  {
    var c2 := map["a" := Entry(x, 2, 1), "b" := Entry(y, 4, 1)];
    assert map["a" := Entry(x, 2, 2), "b" := Entry(y, 4, 1)] == c2["a" := Entry(x, 2, 2)];
  }

  lemma StoresThird<T(!new)>(x: T, y: T, z: T, ttl: int)
    ensures var c3 := map["a" := Entry(x, 2, 2), "b" := Entry(y, 4, 1)];
            && Next(c3, 2, ttl, OpSet("c", z, 6, 7), map["b" := Entry(y, 4, 1), "c" := Entry(z, 7, 1)])
            && |c3| == 2 && Evicted(c3, 6, c3 - {"a"})
  {
    var c3 := map["a" := Entry(x, 2, 2), "b" := Entry(y, 4, 1)];
    assert c3.Keys == {"a", "b"};
    assert IsOldest(c3, "a", 6);
    var mid := c3 - {"a"};
    assert Evicted(c3, 6, mid);
    var c4 := map["b" := Entry(y, 4, 1), "c" := Entry(z, 7, 1)];
    assert c4 == mid["c" := Entry(z, 7, 1)];
    assert StoredOver(c3, mid, 2, "c", z, 6, 7, c4);
  }

  lemma FourAreTimely<T(!new)>(x: T, y: T, z: T)
    ensures Timely([OpSet("a", x, 1, 2), OpSet("b", y, 3, 4), OpGet("a", 5), OpSet("c", z, 6, 7)], 0)
  {
    var ops := [OpSet("a", x, 1, 2), OpSet("b", y, 3, 4), OpGet("a", 5), OpSet("c", z, 6, 7)];
    assert ops[3..][1..] == [] && ops[2..][1..] == ops[3..] && ops[1..][1..] == ops[2..];
    assert Timely(ops[3..], 5);
    assert Timely(ops[2..], 4);
    assert Timely(ops[1..], 2);
  }

  lemma LastUses<T(!new)>(states: seq<Entries<T>>, ttl: int, ops: seq<Op<T>>)
    requires |ops| == 4 && |states| == 5 && ops[2] == OpGet("a", 5) && Live(states[2], ttl, "a", 5)
    requires ops[1].OpSet? && ops[1].name == "b" && ops[1].t2 == 4
    ensures LastUse(states, ttl, ops, 3, "a") == 5 && LastUse(states, ttl, ops, 3, "b") == 4
  {
    assert LastUse(states, ttl, ops, 2, "b") == 4;
  }

  // ---------------------------------------------------------------- what is served

  /** Operation `j` stored `name`, and no later operation before `k` stored it again or cleared the cache. */
  predicate StoredAt<T>(ops: seq<Op<T>>, j: nat, k: nat, name: string)
    requires j < k <= |ops|
  {
    && ops[j].OpSet? && ops[j].name == name
    && forall i | j < i < k :: !ops[i].OpClear? && !(ops[i].OpSet? && ops[i].name == name)
  }

  /** A cached entry is what was stored last under its name: that template, at that time. */
  lemma {:induction false} EntryIsStored<T(!new)>(states: seq<Entries<T>>, maxSize: int, ttl: int, ops: seq<Op<T>>,
      k: nat,
                                                 name: string) returns (j: nat)
    requires Run(states, maxSize, ttl, ops) && k <= |ops| < |states| && name in states[k]
    ensures j < k && StoredAt(ops, j, k, name)
    ensures states[k][name].template == ops[j].template && states[k][name].timestamp == ops[j].t2
    decreases k
  {
    hide Run;
    NothingAtStart(states, maxSize, ttl, ops);
    RunStep(states, maxSize, ttl, ops, k - 1);
    if ops[k - 1].OpSet? && ops[k - 1].name == name {
      j := k - 1;
    } else {
      EntryStays(states[k - 1], maxSize, ttl, ops[k - 1], states[k], name);
      j := EntryIsStored(states, maxSize, ttl, ops, k - 1, name);
    }
  }

  lemma RunStep<T(!new)>(states: seq<Entries<T>>, maxSize: int, ttl: int, ops: seq<Op<T>>, k: nat)
    requires Run(states, maxSize, ttl, ops) && k < |ops| < |states|
    ensures Next(states[k], maxSize, ttl, ops[k], states[k + 1])
  {
  }

  lemma EntryStays<T(!new)>(c: Entries<T>, maxSize: int, ttl: int, op: Op<T>, c': Entries<T>, name: string)
    requires Next(c, maxSize, ttl, op, c') && name in c' && !(op.OpSet? && op.name == name)
    ensures !op.OpClear? && name in c
    ensures c'[name].template == c[name].template && c'[name].timestamp == c[name].timestamp
  {
  }

  /** A look-up at time `now` is answered exactly when the name is cached and was stored no longer ago than the time
      to live; the answer is the template that was stored last. */
  lemma ServedExactly<T(!new)>(states: seq<Entries<T>>, maxSize: int, ttl: int, ops: seq<Op<T>>, k: nat, name: string,
      now: int)
    requires Run(states, maxSize, ttl, ops) && k <= |ops| < |states|
    ensures Live(states[k], ttl, name, now) <==>
            name in states[k] && exists j | 0 <= j < k :: StoredAt(ops, j, k, name) && now <= ops[j].t2 + ttl
    ensures Live(states[k], ttl, name, now) ==>
            exists j | 0 <= j < k :: StoredAt(ops, j, k, name) && states[k][name].template == ops[j].template
  {
    hide Run;
    if name in states[k] {
      var j := EntryIsStored(states, maxSize, ttl, ops, k, name);
      forall i | 0 <= i < k && StoredAt(ops, i, k, name) ensures i == j {
        StoredOnce(ops, i, j, k, name);
      }
    }
  }

  lemma StoredOnce<T>(ops: seq<Op<T>>, i: nat, j: nat, k: nat, name: string)
    requires i < k <= |ops| && j < k && StoredAt(ops, i, k, name) && StoredAt(ops, j, k, name)
    ensures i == j
  {
  }
}
