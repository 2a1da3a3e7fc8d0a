// The coalescing health check (cmd/api/healthcheck.go). The cache fields are
// overwritten in place by checkHealth; the two probes (database and mail
// service Ping) are outcomes passed in, and so are the clock readings. The
// read/write lock is not modelled; what a concurrent request can do between
// the read section and the write section is an input: the cache it may have
// refreshed in the meantime.
module Health {
  import opened Common

  /** CoalesceInterval: 5 seconds. */
  const CoalesceInterval: Time := 5 * Second

  type Statuses = map<string, string>

  /** The two cache fields: cachedHealth (None: nil) and healthCachedAt. */
  datatype Cache = Cache(statuses: Option<Statuses>, at: Time)

  /** The clock readings of one call: the read-locked check, the check after
      taking the write lock, and the time.Now stored with a refresh; and the
      outcomes of the two probes. */
  datatype Call = Call(now: Time, later: Time, stamp: Time, dbUp: bool, sesUp: bool)

  /** The cache condition of both checks: something is cached and it is
      younger than the interval. */
  predicate Fresh(c: Cache, t: Time) {
    t - c.at < CoalesceInterval && c.statuses.Some?
  }

  function Status(up: bool): string {
    if up then "OK" else "DOWN"
  }

  /** The statuses a probing call builds: both probes always run. */
  function Probe(dbUp: bool, sesUp: bool): (r: Statuses)
    ensures r.Keys == {"db", "ses"}
    ensures r["db"] == "OK" <==> dbUp
    ensures r["db"] == "DOWN" <==> !dbUp
    ensures r["ses"] == "OK" <==> sesUp
    ensures r["ses"] == "DOWN" <==> !sesUp
  {
    map["db" := Status(dbUp), "ses" := Status(sesUp)]
  }

  /** What one call returns, whether it probed, and the cache it leaves. */
  datatype Answer = Answer(result: Statuses, probed: bool, cache: Cache)

  /** checkHealth as a function of the cache it starts from, the call, and
      the refresh a concurrent request may have completed meanwhile. */
  function Serve(c: Cache, call: Call, meanwhile: Option<Cache>): (a: Answer)
    ensures Fresh(c, call.now) ==> a == Answer(c.statuses.value, false, c)
    ensures a.probed <==>
              !Fresh(c, call.now) && !Fresh(if meanwhile.Some? then meanwhile.value else c, call.later)
    ensures !a.probed ==> a.cache.statuses == Some(a.result) && (Fresh(a.cache, call.now) || Fresh(a.cache, call.later))
    ensures a.probed ==> a.result == Probe(call.dbUp, call.sesUp) && a.cache == Cache(Some(a.result), call.stamp)
  {
    if Fresh(c, call.now) then Answer(c.statuses.value, false, c)
    else
      var c2 := if meanwhile.Some? then meanwhile.value else c;
      if Fresh(c2, call.later) then Answer(c2.statuses.value, false, c2)
      else
        var s := Probe(call.dbUp, call.sesUp);
        Answer(s, true, Cache(Some(s), call.stamp))
  }

  /** An empty cache always probes, unless a concurrent request filled it. */
  lemma EmptyCacheProbes(at: Time, call: Call)
    ensures Serve(Cache(None, at), call, None).probed
  {
  }

  /** The copy loop of the cache-hit path: a fresh map with the same entries. */
  method CopyOf(m: Statuses) returns (c: Statuses)
    ensures c == m
  {
    c := map[];
    var keys := m.Keys;
    while keys != {}
      invariant keys <= m.Keys
      invariant c.Keys == m.Keys - keys
      invariant forall k :: k in c ==> c[k] == m[k]
      decreases keys
    {
      var k :| k in keys;
      c := c[k := m[k]];
      keys := keys - {k};
    }
  }

  class HealthCache {
    var cachedHealth: Option<Statuses>
    var healthCachedAt: Time

    /** A new API: nothing cached yet. */
    constructor ()
      ensures cachedHealth == None && healthCachedAt == 0
    {
      cachedHealth := None;
      healthCachedAt := 0;
    }

    /** checkHealth. */
    method CheckHealth(call: Call, meanwhile: Option<Cache>) returns (statuses: Statuses, probed: bool)
      modifies this
      ensures var a := Serve(Cache(old(cachedHealth), old(healthCachedAt)), call, meanwhile);
              && statuses == a.result && probed == a.probed
              && cachedHealth == a.cache.statuses && healthCachedAt == a.cache.at
      ensures Fresh(Cache(old(cachedHealth), old(healthCachedAt)), call.now) ==>
                cachedHealth == old(cachedHealth) && healthCachedAt == old(healthCachedAt)
    {
      if call.now - healthCachedAt < CoalesceInterval && cachedHealth.Some? {
        statuses := CopyOf(cachedHealth.value);
        return statuses, false;
      }
      if meanwhile.Some? {
        cachedHealth := meanwhile.value.statuses;
        healthCachedAt := meanwhile.value.at;
      }
      if call.later - healthCachedAt < CoalesceInterval && cachedHealth.Some? {
        statuses := CopyOf(cachedHealth.value);
        return statuses, false;
      }
      statuses := map[];
      if !call.dbUp {
        statuses := statuses["db" := "DOWN"];
      } else {
        statuses := statuses["db" := "OK"];
      }
      if !call.sesUp {
        statuses := statuses["ses" := "DOWN"];
      } else {
        statuses := statuses["ses" := "OK"];
      }
      cachedHealth := Some(statuses);
      healthCachedAt := call.stamp;
      probed := true;
    }
  }

  /** The body of the health-check response. */
  datatype HealthReport = HealthReport(status: Statuses, env: string, version: string)

  const InternalServerErrorText: string := "Internal Server Error\n"

  /** handleHealthCheck: 200 with the statuses, environment and version.
      writeJSON sends the status line before the body, so a failed body write
      (`writeOk` false) cannot change the status: the 500 of http.Error comes
      after it and only its text is appended (`trailer`). The status map of
      strings cannot fail to marshal. */
  method HandleHealthCheck(cache: HealthCache, call: Call, meanwhile: Option<Cache>,
                           environment: string, version: string, writeOk: bool)
    returns (code: int, report: HealthReport, trailer: string)
    modifies cache
    ensures code == 200
    ensures trailer == if writeOk then "" else InternalServerErrorText
    ensures report == HealthReport(Serve(Cache(old(cache.cachedHealth), old(cache.healthCachedAt)), call, meanwhile).result,
                                   environment, version)
  {
    var statuses, _ := cache.CheckHealth(call, meanwhile);
    report := HealthReport(statuses, environment, version);
    code := 200;
    trailer := if writeOk then "" else InternalServerErrorText;
  }

  // ---- Coalescing over a sequential run.

  /** A call made before the interval since a refresh has elapsed is served
      from the cache. */
  lemma RefreshCoalesces(s: Statuses, stamp: Time, call: Call, meanwhile: Option<Cache>)
    requires call.now - stamp < CoalesceInterval
    ensures var a := Serve(Cache(Some(s), stamp), call, meanwhile);
            !a.probed && a.result == s
  {
  }

  /** The readings of one call are in order, and each call ends before the
      next begins. */
  predicate Sequential(calls: seq<Call>) {
    && (forall i :: 0 <= i < |calls| ==> calls[i].now <= calls[i].later <= calls[i].stamp)
    && (forall i :: 0 <= i < |calls| - 1 ==> calls[i].stamp <= calls[i + 1].now)
  }

  /** Running the calls one after another from an empty cache: the cache
      left behind and the stamps of the calls that probed. */
  datatype Run = Run(cache: Cache, probes: seq<Time>)

  function RunCalls(calls: seq<Call>): Run
    decreases |calls|
  {
    if calls == [] then Run(Cache(None, 0), [])
    else
      var prev := RunCalls(calls[..|calls| - 1]);
      var a := Serve(prev.cache, calls[|calls| - 1], None);
      Run(a.cache, prev.probes + (if a.probed then [calls[|calls| - 1].stamp] else []))
  }

  /** Probes are at least one interval apart. */
  predicate Spaced(probes: seq<Time>) {
    forall i :: 0 <= i < |probes| - 1 ==> probes[i + 1] - probes[i] >= CoalesceInterval
  }

  /** The state of a run: something is cached exactly when some call probed,
      and then the cache holds the stamp of the last probe, which is no later
      than the end of the last call. */
  ghost predicate RunInv(r: Run, clock: Time) {
    && (r.cache.statuses.Some? <==> |r.probes| > 0)
    && (|r.probes| > 0 ==> r.cache.at == r.probes[|r.probes| - 1] && r.cache.at <= clock)
  }

  /** The promise of checkHealth's doc comment: over calls that follow each
      other, the dependencies are probed at most once every CoalesceInterval. */
  lemma {:induction false} ProbesAtMostOncePerInterval(calls: seq<Call>)
    requires Sequential(calls)
    ensures |calls| > 0 ==> RunInv(RunCalls(calls), calls[|calls| - 1].stamp)
    ensures Spaced(RunCalls(calls).probes)
    decreases |calls|
  {
    if calls != [] {
      var init := calls[..|calls| - 1];
      var call := calls[|calls| - 1];
      assert Sequential(init);
      ProbesAtMostOncePerInterval(init);
      var prev := RunCalls(init);
      var a := Serve(prev.cache, call, None);
      if a.probed && |prev.probes| > 0 {
        assert |init| > 0;
        assert init[|init| - 1].stamp <= call.now;
        assert call.stamp - prev.probes[|prev.probes| - 1] >= CoalesceInterval;
        var p := prev.probes + [call.stamp];
        assert forall i :: 0 <= i < |p| - 1 ==> p[i + 1] - p[i] >= CoalesceInterval by {
          forall i | 0 <= i < |p| - 1 ensures p[i + 1] - p[i] >= CoalesceInterval {
            if i < |prev.probes| - 1 {
              assert p[i] == prev.probes[i] && p[i + 1] == prev.probes[i + 1];
            }
          }
        }
      }
    }
  }
}
