/** The health-check cache: recent verdicts are repeated, old ones are renewed, failures in a row are counted. */
module Health {
  import opened Outcomes

  /** A verdict is None when the tool is healthy, and the error otherwise. */
  type Verdict = Option<string>

  datatype Status = Status(healthy: bool, lastChecked: int, lastError: Verdict, consecutiveFails: nat,
      responseTime: int)

  type Cache = map<string, Status>

  predicate Recent(cache: Cache, interval: int, name: string, now: int) {
    name in cache && now - cache[name].lastChecked < interval
  }

  /** The status a real check leaves, given the one before it. */
  function Renewed(before: Option<Status>, finished: int, took: int, verdict: Verdict): Status {
    var fails := if before.Some? then before.value.consecutiveFails else 0;
    Status(verdict == None, finished, verdict, if verdict == None then 0 else fails + 1, took)
  }

  /** A check that begins at `now`; if it is real it ends at `finished` with the given verdict. */
  function Checked(cache: Cache, interval: int, name: string, now: int, finished: int, took: int,
      verdict: Verdict): Cache {
    if Recent(cache, interval, name, now) then cache
    else cache[name := Renewed(if name in cache then Some(cache[name]) else None, finished, took, verdict)]
  }

  function Reply(cache: Cache, interval: int, name: string, now: int, verdict: Verdict): Verdict {
    if !Recent(cache, interval, name, now) then verdict
    else if cache[name].healthy then None
    else cache[name].lastError
  }

  datatype Summary = Summary(name: string, status: Status)

  datatype Report = Report(totalTools: nat, healthyTools: nat, unhealthyTools: nat, tools: seq<Summary>)

  class HealthChecker {
    var cache: Cache
    var checkInterval: int

    constructor ()
      ensures cache == map[] && checkInterval == 30_000_000_000
    {
      cache, checkInterval := map[], 30_000_000_000;
    }

    /** One check with no other check of the tool going on. */
    method CheckHealth(name: string, now: int, finished: int, took: int, verdict: Verdict) returns (err: Verdict)
      modifies this`cache
      ensures cache == Checked(old(cache), checkInterval, name, now, finished, took, verdict)
      ensures err == Reply(old(cache), checkInterval, name, now, verdict)
    {
      if name in cache && now - cache[name].lastChecked < checkInterval {
        if !cache[name].healthy {
          return cache[name].lastError;
        }
        return None;
      }
      var status := if name in cache then cache[name] else Status(false, 0, None, 0, 0);
      status := status.(lastChecked := finished, responseTime := took);
      if verdict != None {
        status := status.(healthy := false, lastError := verdict, consecutiveFails := status.consecutiveFails + 1);
      } else {
        status := status.(healthy := true, lastError := None, consecutiveFails := 0);
      }
      cache := cache[name := status];
      err := verdict;
    }

    method GetHealthStatus(name: string) returns (status: Option<Status>)
      ensures status == if name in cache then Some(cache[name]) else None
    {
      status := if name in cache then Some(cache[name]) else None;
    }

    method ClearCache()
      modifies this`cache
      ensures cache == map[]
    {
      cache := map[];
    }

    method SetCheckInterval(interval: int)
      modifies this`checkInterval
      ensures checkInterval == interval
    {
      checkInterval := interval;
    }

    /** The report lists every known tool once with its status, and its two counts add up to its total. */
    method GenerateHealthReport() returns (report: Report)
      ensures report.totalTools == |cache| && report.healthyTools + report.unhealthyTools == report.totalTools
      ensures report.healthyTools == |set name | name in cache && cache[name].healthy|
      ensures |report.tools| == |cache| && forall name | name in cache :: Summary(name, cache[name]) in report.tools
      ensures forall t | t in report.tools :: t.name in cache && t.status == cache[t.name]
    {
      report := Report(|cache|, 0, 0, []);
      var rest := cache.Keys;
      while rest != {}
        invariant rest <= cache.Keys && report.totalTools == |cache|
        invariant report.healthyTools == |set name | name in cache && name !in rest && cache[name].healthy|
        invariant report.healthyTools + report.unhealthyTools + |rest| == |cache.Keys|
        invariant |report.tools| + |rest| == |cache.Keys|
        invariant forall name | name in cache && name !in rest :: Summary(name, cache[name]) in report.tools
        invariant forall t | t in report.tools :: t.name in cache && t.status == cache[t.name]
      {
        var name :| name in rest;
        ghost var before := set n | n in cache && n !in rest && cache[n].healthy;
        rest := rest - {name};
        assert (set n | n in cache && n !in rest && cache[n].healthy) == if cache[name].healthy then before + {name}
            else before;
        report := report.(tools := report.tools + [Summary(name, cache[name])]);
        if cache[name].healthy {
          report := report.(healthyTools := report.healthyTools + 1);
        } else {
          report := report.(unhealthyTools := report.unhealthyTools + 1);
        }
      }
      assert (set name | name in cache && name !in rest && cache[name].healthy) == set name | name in cache &&
          cache[name].healthy;
    }
  }

  // ---------------------------------------------------------------- history

  datatype Event =
    | Check(name: string, now: int, finished: int, took: int, verdict: Verdict)
    | Clear
    | SetInterval(interval: int)

  datatype State = State(cache: Cache, interval: int)

  function Step(s: State, e: Event): State {
    match e
    case Check(name, now, finished, took, verdict) => s.(cache :=
        Checked(s.cache, s.interval, name, now, finished, took, verdict))
    case Clear => s.(cache := map[])
    case SetInterval(interval) => s.(interval := interval)
  }

  function Run(events: seq<Event>): State {
    if events == [] then State(map[], 30_000_000_000) else Step(Run(events[..|events| - 1]), events[|events| - 1])
  }

  /** A real check, as a log records it, of the tool or the status record `key`. */
  datatype Real<K> = Real(key: K, finished: int, took: int, verdict: Verdict)

  /** The real checks since the last clear, and the interval in force, told without the cache: a check is real when
      the last real check of the tool lies at least the interval back. */
  datatype History = History(log: seq<Real<string>>, interval: int)

  function Last<K(==)>(log: seq<Real<K>>, key: K): Option<Real<K>> {
    if log == [] then None
    else if log[|log| - 1].key == key then Some(log[|log| - 1])
    else Last(log[..|log| - 1], key)
  }

  /** The failed real checks after the last successful one. */
  function TrailingFailures<K(==)>(log: seq<Real<K>>, key: K): nat {
    if log == [] then 0
    else if log[|log| - 1].key != key then TrailingFailures(log[..|log| - 1], key)
    else if log[|log| - 1].verdict == None then 0
    else 1 + TrailingFailures(log[..|log| - 1], key)
  }

  predicate IsHit(h: History, name: string, now: int) {
    Last(h.log, name).Some? && now - Last(h.log, name).value.finished < h.interval
  }

  function Record(h: History, e: Event): History {
    match e
    case Check(name, now, finished, took, verdict) =>
      if IsHit(h, name, now) then h else h.(log := h.log + [Real(name, finished, took, verdict)])
    case Clear => h.(log := [])
    case SetInterval(interval) => h.(interval := interval)
  }

  function HistoryOf(events: seq<Event>): History {
    if events == [] then History([], 30_000_000_000)
        else Record(HistoryOf(events[..|events| - 1]), events[|events| - 1])
  }

  /** The status a log predicts. */
  function Predicted<K(==)>(log: seq<Real<K>>, key: K): Option<Status> {
    var last := Last(log, key);
    if last.None? then None
    else
      Some(Status(last.value.verdict == None, last.value.finished, last.value.verdict, TrailingFailures(log, key),
                  last.value.took))
  }

  ghost predicate Explains(h: History, s: State) {
    && h.interval == s.interval
    && forall name :: Predicted(h.log, name) == if name in s.cache then Some(s.cache[name]) else None
  }

  lemma RealCheckExplained<K>(log: seq<Real<K>>, r: Real<K>, key: K)
    ensures Predicted(log + [r], key) ==
              if key == r.key then Some(Renewed(Predicted(log, key), r.finished, r.took, r.verdict))
              else Predicted(log, key)
  {
    assert (log + [r])[..|log|] == log;
    NeverCheckedHasNoFailures(log, key);
  }

  lemma {:induction false} NeverCheckedHasNoFailures<K>(log: seq<Real<K>>, key: K)
    ensures Last(log, key) == None ==> TrailingFailures(log, key) == 0
  {
    if log != [] {
      NeverCheckedHasNoFailures(log[..|log| - 1], key);
    }
  }

  /** The cache is explained by history after any events: every status is the one the real checks since the last clear
      predict. */
  lemma {:induction false} CacheIsExplained(events: seq<Event>)
    ensures Explains(HistoryOf(events), Run(events))
  {
    if events != [] {
      var before, e := events[..|events| - 1], events[|events| - 1];
      CacheIsExplained(before);
      var h, s := HistoryOf(before), Run(before);
      if e.Check? {
        assert Predicted(h.log, e.name) == if e.name in s.cache then Some(s.cache[e.name]) else None;
        forall name ensures Predicted(Record(h, e).log, name) ==
            if name in Step(s, e).cache then Some(Step(s, e).cache[name]) else None {
          RealCheckExplained(h.log, Real(e.name, e.finished, e.took, e.verdict), name);
        }
      }
    }
  }

  /** A tool's failure count is its trailing run of failed real checks since the last clear; it is healthy exactly
      when that run is empty, which is when it has no error; and a check answered from the cache repeats the last
      real verdict. */
  lemma HealthHistory(events: seq<Event>, name: string, now: int, verdict: Verdict)
    ensures var s, h := Run(events), HistoryOf(events);
            && (name in s.cache <==> Last(h.log, name).Some?)
            && (name in s.cache ==>
                  && s.cache[name].consecutiveFails == TrailingFailures(h.log, name)
                  && (s.cache[name].healthy <==> s.cache[name].consecutiveFails == 0)
                  && (s.cache[name].healthy <==> s.cache[name].lastError == None))
            && Reply(s.cache, s.interval, name, now, verdict) ==
                 if IsHit(h, name, now) then Last(h.log, name).value.verdict else verdict
  {
    CacheIsExplained(events);
    var s, h := Run(events), HistoryOf(events);
    assert Predicted(h.log, name) == if name in s.cache then Some(s.cache[name]) else None;
    FailuresEndInFailure(h.log, name);
  }

  lemma {:induction false} FailuresEndInFailure<K>(log: seq<Real<K>>, key: K)
    ensures Last(log, key).Some? ==> (TrailingFailures(log, key) == 0 <==> Last(log, key).value.verdict == None)
  {
    if log != [] {
      FailuresEndInFailure(log[..|log| - 1], key);
    }
  }

  // ---------------------------------------------------------------- two checks in a row

  /** A first check asks the tool and records what it learned. */
  lemma FirstCheck(interval: int, name: string, now: int, finished: int, took: int, verdict: Verdict)
    ensures Reply(map[], interval, name, now, verdict) == verdict
    ensures Checked(map[], interval, name, now, finished, took, verdict) ==
            map[name := Status(verdict == None, finished, verdict, if verdict == None then 0 else 1, took)]
  {
  }

  /** A check of a known tool is answered with the recorded verdict exactly while the interval has not passed since
      the record was made; then the tool is asked again, a failure adds one to the failures in a row, a success ends
      them, and no other tool's record changes. */
  lemma NextCheck(cache: Cache, interval: int, name: string, now: int, finished: int, took: int, verdict: Verdict,
      other: string)
    requires name in cache && (cache[name].healthy <==> cache[name].lastError == None)
    ensures var s, after := cache[name], Checked(cache, interval, name, now, finished, took, verdict);
            && (now < s.lastChecked + interval ==>
                Reply(cache, interval, name, now, verdict) == s.lastError && after == cache)
            && (now >= s.lastChecked + interval ==>
                  && Reply(cache, interval, name, now, verdict) == verdict
                  && after.Keys == cache.Keys
                  && after[name].lastChecked == finished && after[name].responseTime == took
                  && after[name].lastError == verdict && (after[name].healthy <==> verdict == None)
                  && after[name].consecutiveFails == (if verdict == None then 0 else s.consecutiveFails + 1)
                  && (other in cache && other != name ==> after[other] == cache[other]))
  {
  }
}
