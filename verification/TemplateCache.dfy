/** The cache of parsed templates: bounded in size, bounded in age, keyed by template name. */
module TemplateCaching {
  import opened Outcomes

  /** The wall clock. It never runs backwards, and two readings may be equal. */
  class Clock {
    var last: int

    constructor (start: int)
      ensures last == start
    {
      last := start;
    }

    method Now() returns (t: int)
      modifies this
      ensures t == last >= old(last)
    {
      var elapsed :| elapsed >= 0;
      last := last + elapsed;
      t := last;
    }
  }

  datatype Entry<T> = Entry(template: T, timestamp: int, hits: int)

  type Entries<T> = map<string, Entry<T>>

  /** An entry is served until it is older than the time to live. */
  predicate Live<T>(c: Entries<T>, ttl: int, name: string, now: int) {
    name in c && now - c[name].timestamp <= ttl
  }

  /** `name` has a smallest insertion time of all entries, and that time has passed. */
  predicate IsOldest<T>(c: Entries<T>, name: string, now: int) {
    name in c && c[name].timestamp < now && forall n | n in c :: c[name].timestamp <= c[n].timestamp
  }

  /** What `evictLRU` may leave at time `now`; several oldest entries leave it a choice. The name "" doubles as "no
      entry found", so an oldest entry with that name stays. */
  ghost predicate Evicted<T>(c: Entries<T>, now: int, c': Entries<T>) {
    || (exists name | name in c :: IsOldest(c, name, now) && c' == if name == "" then c else c - {name})
    || (c' == c && forall n | n in c :: c[n].timestamp >= now)
  }

  /** `Set`, given what is left (`mid`) after a full cache evicted at time `t1`; the new entry is stamped at time
      `t2`. */
  ghost predicate StoredOver<T>(c: Entries<T>, mid: Entries<T>, maxSize: int, name: string, template: T, t1: int,
      t2: int, c': Entries<T>) {
    && (if |c| >= maxSize then Evicted(c, t1, mid) else mid == c)
    && c' == mid[name := Entry(template, t2, 1)]
  }

  /** What `Set` may leave. */
  ghost predicate Stored<T(!new)>(c: Entries<T>, maxSize: int, name: string, template: T, t1: int, t2: int,
      c': Entries<T>) {
    exists mid :: StoredOver(c, mid, maxSize, name, template, t1, t2, c')
  }

  class TemplateCache<T(!new)> {
    var cache: Entries<T>
    const maxSize: int
    const ttl: int

    constructor (maxSize: int, ttl: int)
      ensures this.maxSize == maxSize && this.ttl == ttl && cache == map[]
    {
      this.maxSize := maxSize;
      this.ttl := ttl;
      cache := map[];
    }

    /** A hit counts itself; it does not renew the entry's timestamp. */
    method Get(name: string, clock: Clock) returns (template: Option<T>)
      modifies this`cache, clock
      ensures clock.last >= old(clock.last)
      ensures template == if Live(old(cache), ttl, name, clock.last) then Some(old(cache)[name].template) else None
      ensures cache == if template == None then old(cache)
          else old(cache)[name := old(cache)[name].(hits := old(cache)[name].hits + 1)]
    {
      if name !in cache {
        return None;
      }
      var now := clock.Now();
      if now - cache[name].timestamp > ttl {
        return None;
      }
      cache := cache[name := cache[name].(hits := cache[name].hits + 1)];
      template := Some(cache[name].template);
    }

    method Set(name: string, template: T, clock: Clock)
      modifies this`cache, clock
      ensures exists t1 ::
          old(clock.last) <= t1 <= clock.last && Stored(old(cache), maxSize, name, template, t1, clock.last, cache)
    {
      ghost var t1 := clock.last;
      if |cache| >= maxSize {
        EvictLRU(clock);
        t1 := clock.last;
      }
      ghost var mid := cache;
      var now := clock.Now();
      cache := cache[name := Entry(template, now, 1)];
      assert StoredOver(old(cache), mid, maxSize, name, template, t1, clock.last, cache);
      assert Stored(old(cache), maxSize, name, template, t1, clock.last, cache);
    }

    method Clear()
      modifies this`cache
      ensures cache == map[]
    {
      cache := map[];
    }

    method EvictLRU(clock: Clock)
      modifies this`cache, clock
      ensures clock.last >= old(clock.last)
      ensures Evicted(old(cache), clock.last, cache)
    {
      var oldestName := "";
      var now := clock.Now();
      var oldestTime := now;
      var rest := cache.Keys;
      while rest != {}
        invariant rest <= cache.Keys && cache == old(cache)
        invariant forall n | n in cache.Keys - rest :: oldestTime <= cache[n].timestamp
        invariant (oldestTime == now && oldestName == "") ||
                  (oldestTime < now && oldestName in cache && cache[oldestName].timestamp == oldestTime)
      {
        var name :| name in rest;
        if cache[name].timestamp < oldestTime {
          oldestTime := cache[name].timestamp;
          oldestName := name;
        }
        rest := rest - {name};
      }
      assert oldestTime < now ==> IsOldest(cache, oldestName, now);
      if oldestName != "" {
        cache := cache - {oldestName};
      }
    }
  }

  // ---------------------------------------------------------------- the size bound

  /** The operations on a cache, with the times they read from the clock. */
  datatype Op<T> = OpGet(name: string, now: int) | OpSet(name: string, template: T, t1: int, t2: int) | OpClear

  ghost predicate Next<T(!new)>(c: Entries<T>, maxSize: int, ttl: int, op: Op<T>, c': Entries<T>) {
    match op
    case OpGet(name, now) =>
      if Live(c, ttl, name, now) then c' == c[name := c[name].(hits := c[name].hits + 1)] else c' == c
    case OpSet(name, template, t1, t2) => Stored(c, maxSize, name, template, t1, t2, c')
    case OpClear => c' == map[]
  }

  /** The latest clock reading of an operation, if it makes any. */
  function Ends<T>(op: Op<T>, before: int): int {
    match op
    case OpGet(_, now) => now
    case OpSet(_, _, _, t2) => t2
    case OpClear => before
  }

  /** Every reading comes strictly after every earlier one, and templates have names. */
  predicate Timely<T>(ops: seq<Op<T>>, start: int)
    decreases |ops|
  {
    ops != [] ==>
      && (match ops[0]
          case OpGet(_, now) => start < now
          case OpSet(name, _, t1, t2) => start < t1 < t2 && name != ""
          case OpClear => true)
      && Timely(ops[1..], Ends(ops[0], start))
  }

  /** `states` is a run of `ops` from an empty cache. */
  ghost predicate Run<T(!new)>(states: seq<Entries<T>>, maxSize: int, ttl: int, ops: seq<Op<T>>) {
    && |states| == |ops| + 1 && states[0] == map[]
    && forall i | 0 <= i < |ops| :: Next(states[i], maxSize, ttl, ops[i], states[i + 1])
  }

  predicate Stamped<T>(c: Entries<T>, now: int) {
    "" !in c && forall n | n in c :: c[n].timestamp <= now
  }

  /** The exact bound: the configured maximum, but never less than the one entry just stored. */
  function Bound(maxSize: int): int {
    if maxSize < 1 then 1 else maxSize
  }

  lemma StoringKeepsBound<T(!new)>(c: Entries<T>, mid: Entries<T>, maxSize: int, name: string, template: T, t1: int,
      t2: int, c': Entries<T>, now: int)
    requires StoredOver(c, mid, maxSize, name, template, t1, t2, c') && name != ""
    requires Stamped(c, now) && |c| <= Bound(maxSize) && now < t1 < t2
    ensures Stamped(c', t2) && |c'| <= Bound(maxSize)
  {
    hide Evicted;
    if |c| >= maxSize {
      EvictionShrinks(c, t1, mid, now);
    }
    assert c'.Keys == mid.Keys + {name};
  }

  lemma StepKeepsBound<T(!new)>(c: Entries<T>, maxSize: int, ttl: int, op: Op<T>, c': Entries<T>, now: int)
    requires Next(c, maxSize, ttl, op, c') && Stamped(c, now) && |c| <= Bound(maxSize) && Timely([op], now)
    ensures Stamped(c', Ends(op, now)) && |c'| <= Bound(maxSize)
  {
    match op
    case OpSet(name, template, t1, t2) =>
      var mid :| StoredOver(c, mid, maxSize, name, template, t1, t2, c');
      StoringKeepsBound(c, mid, maxSize, name, template, t1, t2, c', now);
    case OpGet(name, time) =>
      if Live(c, ttl, name, time) {
        assert c'.Keys == c.Keys;
      }
    case OpClear =>
  }

  /** When every entry is older than the eviction and no entry is unnamed, evicting takes exactly one entry. */
  lemma EvictionShrinks<T>(c: Entries<T>, t1: int, mid: Entries<T>, now: int)
    requires Evicted(c, t1, mid) && Stamped(c, now) && now < t1
    ensures mid.Keys <= c.Keys && Stamped(mid, now) && |mid| == if c == map[] then 0 else |c| - 1
  {
    if c != map[] {
      var some :| some in c;
      assert c[some].timestamp < t1;
      var name :| name in c && mid == c - {name};
      assert mid.Keys == c.Keys - {name};
    }
  }

  /** In every run with a strictly increasing clock and named templates the cache stays within its bound. */
  lemma {:induction false} RunStaysBounded<T(!new)>(states: seq<Entries<T>>, maxSize: int, ttl: int, ops: seq<Op<T>>,
      start: int, k: nat)
    requires Run(states, maxSize, ttl, ops) && Timely(ops, start) && k <= |ops|
    ensures |states[k]| <= Bound(maxSize)
  {
    var _ := RunInvariant(states, maxSize, ttl, ops, start, k);
  }

  lemma {:induction false} RunInvariant<T(!new)>(states: seq<Entries<T>>, maxSize: int, ttl: int, ops: seq<Op<T>>,
      start: int, k: nat)
    returns (now: int)
    requires Run(states, maxSize, ttl, ops) && Timely(ops, start) && k <= |ops|
    ensures Stamped(states[k], now) && |states[k]| <= Bound(maxSize) && Timely(ops[k..], now)
  {
    now := start;
    if k == 0 {
      assert ops[0..] == ops;
    } else {
      var before := RunInvariant(states, maxSize, ttl, ops, start, k - 1);
      assert ops[k - 1..][0] == ops[k - 1] && ops[k - 1..][1..] == ops[k..];
      assert Next(states[k - 1], maxSize, ttl, ops[k - 1], states[k]);
      StepKeepsBound(states[k - 1], maxSize, ttl, ops[k - 1], states[k], before);
      now := Ends(ops[k - 1], before);
    }
  }

  /** An eviction that removes something removes one entry, and none of the entries it keeps was inserted earlier. */
  lemma EvictionRemovesOldest<T(!new)>(c: Entries<T>, now: int, c': Entries<T>)
    requires Evicted(c, now, c') && c' != c
    ensures exists name | name in c :: c' == c - {name} && name != "" && forall n | n in c' ::
        c[name].timestamp <= c'[n].timestamp
    ensures |c'| == |c| - 1
  {
    var name :| name in c && IsOldest(c, name, now) && c' == c - {name};
    assert c'.Keys == c.Keys - {name};
  }

  /** Nothing that `evictLRU` may delete at time `t1`: no entry is older, or an oldest one is named "". */
  predicate NothingToEvict<T>(c: Entries<T>, t1: int) {
    (forall n | n in c :: c[n].timestamp >= t1) || IsOldest(c, "", t1)
  }

  lemma OverflowCause<T(!new)>(c: Entries<T>, mid: Entries<T>, maxSize: int, name: string, template: T, t1: int,
      t2: int, c': Entries<T>)
    requires |c| == maxSize && StoredOver(c, mid, maxSize, name, template, t1, t2, c') && |c'| > maxSize
    ensures name !in c && NothingToEvict(c, t1)
  {
    assert c'.Keys == mid.Keys + {name};
    if mid != c {
      EvictionRemovesOldest(c, t1, mid);
    }
  }

  /** A full cache can outgrow its maximum exactly when a new name arrives and there is nothing to evict. */
  lemma OverflowExact<T(!new)>(c: Entries<T>, maxSize: int, name: string, template: T, t1: int, t2: int)
    requires |c| == maxSize && maxSize >= 1
    ensures (exists c' :: Stored(c, maxSize, name, template, t1, t2, c') && |c'| > maxSize) <==>
        name !in c && NothingToEvict(c, t1)
  {
    if c' :| Stored(c, maxSize, name, template, t1, t2, c') && |c'| > maxSize {
      var mid :| StoredOver(c, mid, maxSize, name, template, t1, t2, c');
      OverflowCause(c, mid, maxSize, name, template, t1, t2, c');
    }
    if name !in c && NothingToEvict(c, t1) {
      var c' := c[name := Entry(template, t2, 1)];
      assert StoredOver(c, c, maxSize, name, template, t1, t2, c');
      assert c'.Keys == c.Keys + {name};
    }
  }

  /** With a clock that stands still the overflow is real: storing two templates in an empty cache for one leaves
      both. */
  lemma OverflowReached<T(!new)>(first: T, second: T, ttl: int, now: int)
    ensures var c := map["a" := Entry(first, now, 1)];
            var c' := c["b" := Entry(second, now, 1)];
            Run([map[], c, c'], 1, ttl, [OpSet("a", first, now, now), OpSet("b", second, now, now)]) && |c'| == 2
  {
    var c := map["a" := Entry(first, now, 1)];
    var c' := c["b" := Entry(second, now, 1)];
    var ops := [OpSet("a", first, now, now), OpSet("b", second, now, now)];
    assert StoredOver(map[], map[], 1, "a", first, now, now, c);
    assert Evicted(c, now, c);
    assert StoredOver(c, c, 1, "b", second, now, now, c');
    assert Next(map[], 1, ttl, ops[0], c) && Next(c, 1, ttl, ops[1], c');
    assert c'.Keys == {"a", "b"};
  }

  /** With a maximum below 1 the bound is reached by the first template stored. */
  lemma OneEntryAnyway<T(!new)>(template: T, maxSize: int, ttl: int)
    requires maxSize < 1
    ensures var c := map["a" := Entry(template, 2, 1)];
            var ops := [OpSet("a", template, 1, 2)];
            Timely(ops, 0) && Run([map[], c], maxSize, ttl, ops) && |c| == Bound(maxSize) > maxSize
  {
    var c := map["a" := Entry(template, 2, 1)];
    var none: Entries<T> := map[];
    assert Evicted(none, 1, none);
    assert StoredOver(map[], map[], maxSize, "a", template, 1, 2, c);
    assert Next(map[], maxSize, ttl, [OpSet("a", template, 1, 2)][0], c);
  }
}
