// The in-memory sliding-window rate limiter (cmd/api/ratelimit.go). The map
// and each visitor's attempts are updated in place; the mutex and the ticker
// goroutine are not modelled: allow and one pass of the cleanup loop are
// atomic steps here, with the clock reading passed in.
module RateLimit {
  import opened Common

  /** One client: its attempts inside the current window, oldest first, and
      the time of its last request. */
  datatype Visitor = Visitor(attempts: seq<Time>, lastSeen: Time)

  /** The attempts strictly after `cutoff`, in their original order. */
  function After(attempts: seq<Time>, cutoff: Time): (r: seq<Time>)
    ensures |r| <= |attempts|
    ensures forall i :: 0 <= i < |r| ==> r[i] > cutoff
    decreases |attempts|
  {
    if attempts == [] then []
    else After(attempts[..|attempts| - 1], cutoff) +
         (if attempts[|attempts| - 1] > cutoff then [attempts[|attempts| - 1]] else [])
  }

  /** What allow does to the visitor of the key (None: not seen yet) and
      whether it admits the request. */
  datatype Decision = Decision(visitor: Visitor, admitted: bool)

  function Step(v: Option<Visitor>, now: Time, limit: int, window: Time): (d: Decision)
    ensures d.visitor.lastSeen == now
    ensures v.None? ==> d == Decision(Visitor([now], now), true)
    ensures v.Some? ==>
              var pruned := After(v.value.attempts, now - window);
              && (d.admitted <==> |pruned| < limit)
              && d.visitor.attempts == pruned + (if d.admitted then [now] else [])
  {
    match v
    case None => Decision(Visitor([now], now), true)
    case Some(old_) =>
      var pruned := After(old_.attempts, now - window);
      if |pruned| < limit then Decision(Visitor(pruned + [now], now), true)
      else Decision(Visitor(pruned, now), false)
  }

  /** Idle for longer than three windows. */
  predicate Expired(v: Visitor, now: Time, window: Time) {
    now - v.lastSeen > window * 3
  }

  /** The visitors one pass of cleanupVisitors keeps. */
  function Survivors(vs: map<string, Visitor>, now: Time, window: Time): (r: map<string, Visitor>)
    ensures forall k :: k in r <==> k in vs && !Expired(vs[k], now, window)
    ensures forall k :: k in r ==> r[k] == vs[k]
  {
    map k | k in vs && !Expired(vs[k], now, window) :: vs[k]
  }

  class RateLimiter {
    var visitors: map<string, Visitor>
    const limit: int
    const window: Time

    /** newRateLimiter, without the background goroutine. */
    constructor (limit: int, window: Time)
      ensures visitors == map[] && this.limit == limit && this.window == window
    {
      visitors := map[];
      this.limit := limit;
      this.window := window;
    }

    /** allow(key) at clock reading `now`. Only the key's visitor changes. */
    method Allow(key: string, now: Time) returns (ok: bool)
      modifies this
      ensures var d := Step(if key in old(visitors) then Some(old(visitors)[key]) else None, now, limit, window);
              && visitors == old(visitors)[key := d.visitor]
              && ok == d.admitted
    {
      if key !in visitors {
        visitors := visitors[key := Visitor([now], now)];
        return true;
      }
      var v := visitors[key];
      v := v.(lastSeen := now);
      var cutoff := now - window;
      var validAttempts: seq<Time> := [];
      var i := 0;
      while i < |v.attempts|
        invariant 0 <= i <= |v.attempts|
        invariant validAttempts == After(v.attempts[..i], cutoff)
      {
        assert v.attempts[..i + 1][..i] == v.attempts[..i];
        if v.attempts[i] > cutoff {
          validAttempts := validAttempts + [v.attempts[i]];
        }
        i := i + 1;
      }
      assert v.attempts[..i] == v.attempts;
      if |validAttempts| < limit {
        validAttempts := validAttempts + [now];
        v := v.(attempts := validAttempts);
        visitors := visitors[key := v];
        return true;
      }
      v := v.(attempts := validAttempts);
      visitors := visitors[key := v];
      return false;
    }

    /** One tick of cleanupVisitors at clock reading `now`: deletes exactly the
        visitors idle for more than three windows. */
    method Sweep(now: Time)
      modifies this
      ensures visitors == Survivors(old(visitors), now, window)
    {
      ghost var orig := visitors;
      var keys := visitors.Keys;
      while keys != {}
        invariant keys <= orig.Keys
        invariant forall k :: k in visitors <==> k in orig && (k in keys || !Expired(orig[k], now, window))
        invariant forall k :: k in visitors ==> visitors[k] == orig[k]
        decreases keys
      {
        var k :| k in keys;
        if now - visitors[k].lastSeen > window * 3 {
          visitors := visitors - {k};
        }
        keys := keys - {k};
      }
      assert visitors == Survivors(orig, now, window);
    }
  }

  // ---- Properties of the window.

  lemma {:induction false} AfterMember(attempts: seq<Time>, cutoff: Time, a: Time)
    ensures a in After(attempts, cutoff) <==> a in attempts && a > cutoff
    decreases |attempts|
  {
    if attempts != [] {
      var init := attempts[..|attempts| - 1];
      AfterMember(init, cutoff, a);
      assert attempts == init + [attempts[|attempts| - 1]];
    }
  }

  lemma {:induction false} AfterAppend(a: seq<Time>, b: seq<Time>, cutoff: Time)
    ensures After(a + b, cutoff) == After(a, cutoff) + After(b, cutoff)
    decreases |b|
  {
    if b == [] {
      assert a + b == a;
    } else {
      var init := b[..|b| - 1];
      assert (a + b)[..|a + b| - 1] == a + init;
      AfterAppend(a, init, cutoff);
    }
  }

  /** Pruning twice is pruning once at the later cutoff. */
  lemma {:induction false} AfterAfter(attempts: seq<Time>, c1: Time, c2: Time)
    requires c1 <= c2
    ensures After(After(attempts, c1), c2) == After(attempts, c2)
    decreases |attempts|
  {
    if attempts != [] {
      var init := attempts[..|attempts| - 1];
      var last := attempts[|attempts| - 1];
      AfterAfter(init, c1, c2);
      AfterAppend(After(init, c1), if last > c1 then [last] else [], c2);
    }
  }

  /** A later cutoff keeps no more attempts. */
  lemma {:induction false} AfterShrinks(attempts: seq<Time>, c1: Time, c2: Time)
    requires c1 <= c2
    ensures |After(attempts, c2)| <= |After(attempts, c1)|
    decreases |attempts|
  {
    if attempts != [] {
      AfterShrinks(attempts[..|attempts| - 1], c1, c2);
    }
  }

  /** Nothing survives a cutoff at or after every attempt. */
  lemma {:induction false} AfterAllOlder(attempts: seq<Time>, cutoff: Time)
    requires forall i :: 0 <= i < |attempts| ==> attempts[i] <= cutoff
    ensures After(attempts, cutoff) == []
    decreases |attempts|
  {
    if attempts != [] {
      AfterAllOlder(attempts[..|attempts| - 1], cutoff);
    }
  }

  /** After allow, every stored attempt lies inside the window ending now
      (given the clock has not gone back behind an earlier attempt). */
  lemma StepKeepsWindow(v: Option<Visitor>, now: Time, limit: int, window: Time)
    requires window > 0
    requires v.Some? ==> forall i :: 0 <= i < |v.value.attempts| ==> v.value.attempts[i] <= now
    ensures var d := Step(v, now, limit, window);
            forall i :: 0 <= i < |d.visitor.attempts| ==> now - window < d.visitor.attempts[i] <= now
  {
    if v.Some? {
      var pruned := After(v.value.attempts, now - window);
      forall i | 0 <= i < |pruned| ensures pruned[i] <= now {
        AfterMember(v.value.attempts, now - window, pruned[i]);
        var j :| 0 <= j < |v.value.attempts| && v.value.attempts[j] == pruned[i];
      }
    }
  }

  /** A visitor whose attempts are all older than one window is admitted
      (for a limit of at least one): waiting a full window resets the key. */
  lemma QuietKeyAdmitted(v: Visitor, now: Time, limit: int, window: Time)
    requires limit >= 1
    requires forall i :: 0 <= i < |v.attempts| ==> v.attempts[i] <= now - window
    ensures Step(Some(v), now, limit, window).admitted
  {
    AfterAllOlder(v.attempts, now - window);
  }

  // ---- The admission bound over a run of one key.

  /** What happens to one key: a request, or a tick of the cleanup loop. */
  datatype Event = Request(at: Time) | Tick(at: Time)

  predicate Chronological(events: seq<Event>) {
    forall i, j :: 0 <= i < j < |events| ==> events[i].at <= events[j].at
  }

  /** The key's visitor (None: absent from the map) and the times of the
      requests admitted so far. */
  datatype Replayed = Replayed(visitor: Option<Visitor>, admitted: seq<Time>)

  /** One event: allow for a request, one cleanup pass for a tick. */
  function Apply(r: Replayed, e: Event, limit: int, window: Time): Replayed {
    match e
    case Request(t) =>
      var d := Step(r.visitor, t, limit, window);
      Replayed(Some(d.visitor), r.admitted + (if d.admitted then [t] else []))
    case Tick(t) =>
      if r.visitor.Some? && Expired(r.visitor.value, t, window) then Replayed(None, r.admitted)
      else r
  }

  /** Replaying the events from a key not seen yet. */
  function Replay(events: seq<Event>, limit: int, window: Time): Replayed
    decreases |events|
  {
    if events == [] then Replayed(None, [])
    else Apply(Replay(events[..|events| - 1], limit, window), events[|events| - 1], limit, window)
  }

  /** Number of times in the half-open interval (lo, hi]. */
  function CountIn(times: seq<Time>, lo: Time, hi: Time): (n: nat)
    ensures n <= |times|
    decreases |times|
  {
    if times == [] then 0
    else CountIn(times[..|times| - 1], lo, hi) + (if lo < times[|times| - 1] <= hi then 1 else 0)
  }

  /** Admissions in the window that starts after `start`. */
  function InWindow(times: seq<Time>, start: Time, window: Time): nat {
    CountIn(times, start, start + window)
  }

  lemma {:induction false} CountInAtMostAfter(times: seq<Time>, lo: Time, hi: Time)
    ensures CountIn(times, lo, hi) <= |After(times, lo)|
    decreases |times|
  {
    if times != [] {
      CountInAtMostAfter(times[..|times| - 1], lo, hi);
    }
  }

  lemma CountInAppend(times: seq<Time>, t: Time, lo: Time, hi: Time)
    ensures CountIn(times + [t], lo, hi) == CountIn(times, lo, hi) + (if lo < t <= hi then 1 else 0)
  {
    assert (times + [t])[..|times + [t]| - 1] == times;
  }

  /** The invariant of a replay whose last event was at `clock`: no admission
      lies after the clock; the stored attempts are exactly the admissions
      inside the window of the last request; an absent visitor has no
      admission inside the current window. */
  ghost predicate ReplayInv(r: Replayed, clock: Time, window: Time) {
    && (forall i :: 0 <= i < |r.admitted| ==> r.admitted[i] <= clock)
    && (r.visitor.None? ==> forall i :: 0 <= i < |r.admitted| ==> r.admitted[i] <= clock - window)
    && (r.visitor.Some? ==>
          && r.visitor.value.lastSeen <= clock
          && r.visitor.value.attempts == After(r.admitted, r.visitor.value.lastSeen - window)
          && forall i :: 0 <= i < |r.admitted| ==> r.admitted[i] <= r.visitor.value.lastSeen)
  }

  /** A single window-length list [t] survives pruning at t - window. */
  lemma AfterSingleton(t: Time, window: Time)
    requires window > 0
    ensures After([t], t - window) == [t]
  {
    assert [t][..0] == [];
  }

  /** A cleanup tick keeps the invariant and admits nothing. */
  lemma TickKeepsInv(r: Replayed, clock: Time, t: Time, limit: int, window: Time)
    requires clock <= t && ReplayInv(r, clock, window)
    ensures ReplayInv(Apply(r, Tick(t), limit, window), t, window)
    ensures Apply(r, Tick(t), limit, window).admitted == r.admitted
  {
  }

  /** The state a first request leaves behind satisfies the invariant. */
  lemma FirstAdmissionInv(admitted: seq<Time>, t: Time, window: Time)
    requires window > 0
    requires forall i :: 0 <= i < |admitted| ==> admitted[i] <= t - window
    ensures |After(admitted, t - window)| == 0
    ensures ReplayInv(Replayed(Some(Visitor([t], t)), admitted + [t]), t, window)
  {
    var adm := admitted + [t];
    AfterAllOlder(admitted, t - window);
    AfterAppend(admitted, [t], t - window);
    AfterSingleton(t, window);
    assert After(adm, t - window) == [t];
    assert forall i :: 0 <= i < |adm| ==> adm[i] <= t by {
      forall i | 0 <= i < |adm| ensures adm[i] <= t {
        if i < |admitted| {
          assert adm[i] == admitted[i];
        }
      }
    }
  }

  /** A request for an absent key is admitted; the invariant then holds. */
  lemma RequestFromAbsent(r: Replayed, clock: Time, t: Time, limit: int, window: Time)
    requires limit >= 1 && window > 0
    requires clock <= t && ReplayInv(r, clock, window) && r.visitor.None?
    ensures Apply(r, Request(t), limit, window) == Replayed(Some(Visitor([t], t)), r.admitted + [t])
    ensures |After(r.admitted, t - window)| == 0
    ensures ReplayInv(Apply(r, Request(t), limit, window), t, window)
  {
    assert Step(r.visitor, t, limit, window) == Decision(Visitor([t], t), true);
    FirstAdmissionInv(r.admitted, t, window);
  }

  /** A request for a present key prunes exactly the admissions older than a
      window, and is admitted while fewer than `limit` of them remain. */
  lemma PresentPrunes(r: Replayed, clock: Time, t: Time, limit: int, window: Time)
    requires clock <= t && ReplayInv(r, clock, window) && r.visitor.Some?
    ensures After(r.visitor.value.attempts, t - window) == After(r.admitted, t - window)
    ensures Step(r.visitor, t, limit, window).admitted <==> |After(r.admitted, t - window)| < limit
  {
    var v := r.visitor.value;
    AfterAfter(r.admitted, v.lastSeen - window, t - window);
  }

  /** The invariant after an admitted request for a present key. */
  lemma PresentAdmitted(r: Replayed, clock: Time, t: Time, limit: int, window: Time)
    requires window > 0
    requires clock <= t && ReplayInv(r, clock, window) && r.visitor.Some?
    requires Step(r.visitor, t, limit, window).admitted
    ensures ReplayInv(Apply(r, Request(t), limit, window), t, window)
  {
    var adm := r.admitted + [t];
    var att := After(r.admitted, t - window) + [t];
    assert Apply(r, Request(t), limit, window) == Replayed(Some(Visitor(att, t)), adm) by {
      PresentPrunes(r, clock, t, limit, window);
    }
    assert att == After(adm, t - window) by {
      AfterAppend(r.admitted, [t], t - window);
      AfterSingleton(t, window);
    }
    assert forall i :: 0 <= i < |adm| ==> adm[i] <= t;
  }

  /** The invariant after a rejected request for a present key. */
  lemma PresentRejected(r: Replayed, clock: Time, t: Time, limit: int, window: Time)
    requires clock <= t && ReplayInv(r, clock, window) && r.visitor.Some?
    requires !Step(r.visitor, t, limit, window).admitted
    ensures ReplayInv(Apply(r, Request(t), limit, window), t, window)
  {
    PresentPrunes(r, clock, t, limit, window);
    var n := Apply(r, Request(t), limit, window);
    assert n.visitor.value == Visitor(After(r.admitted, t - window), t);
    assert n.admitted == r.admitted;
  }

  /** A request keeps the invariant; it is admitted only while fewer than
      `limit` admissions lie in the window ending at its time. */
  lemma RequestKeepsInv(r: Replayed, clock: Time, t: Time, limit: int, window: Time)
    requires limit >= 1 && window > 0
    requires clock <= t && ReplayInv(r, clock, window)
    ensures ReplayInv(Apply(r, Request(t), limit, window), t, window)
    ensures var n := Apply(r, Request(t), limit, window);
            || n.admitted == r.admitted
            || (n.admitted == r.admitted + [t] && |After(r.admitted, t - window)| < limit)
  {
    if r.visitor.None? {
      RequestFromAbsent(r, clock, t, limit, window);
    } else {
      PresentPrunes(r, clock, t, limit, window);
      if Step(r.visitor, t, limit, window).admitted {
        PresentAdmitted(r, clock, t, limit, window);
      } else {
        PresentRejected(r, clock, t, limit, window);
      }
    }
  }

  /** The replay invariant holds after every non-empty chronological run. */
  lemma {:induction false} ReplayInvariant(events: seq<Event>, limit: int, window: Time)
    requires limit >= 1 && window > 0
    requires |events| >= 1 && Chronological(events)
    ensures ReplayInv(Replay(events, limit, window), events[|events| - 1].at, window)
    decreases |events|
  {
    var init := events[..|events| - 1];
    var e := events[|events| - 1];
    var prev := Replay(init, limit, window);
    var clock := e.at;
    if |events| > 1 {
      ReplayInvariant(init, limit, window);
      clock := events[|events| - 2].at;
    }
    assert ReplayInv(prev, clock, window);
    if e.Request? {
      RequestKeepsInv(prev, clock, e.at, limit, window);
    } else {
      TickKeepsInv(prev, clock, e.at, limit, window);
    }
  }

  /** A new admission at `t` keeps the bound when fewer than `limit` earlier
      admissions lie in the window ending at t and none lies after t. */
  lemma BoundAfterAdmission(prev: seq<Time>, t: Time, limit: int, window: Time)
    requires WindowBound(prev, limit, window)
    requires forall i :: 0 <= i < |prev| ==> prev[i] <= t
    requires |After(prev, t - window)| < limit
    ensures WindowBound(prev + [t], limit, window)
  {
    forall start ensures InWindow(prev + [t], start, window) <= limit {
      CountInAppend(prev, t, start, start + window);
      assert InWindow(prev, start, window) <= limit;
      if start < t <= start + window {
        CountInAtMostAfter(prev, start, start + window);
        AfterShrinks(prev, t - window, start);
      }
    }
  }

  /** At most `limit` admissions fall into any window. */
  ghost predicate WindowBound(admitted: seq<Time>, limit: int, window: Time) {
    forall start :: InWindow(admitted, start, window) <= limit
  }

  /** One event keeps the bound. */
  lemma EventKeepsBound(prev: Replayed, clock: Time, e: Event, limit: int, window: Time)
    requires limit >= 1 && window > 0
    requires clock <= e.at && ReplayInv(prev, clock, window)
    requires WindowBound(prev.admitted, limit, window)
    ensures WindowBound(Apply(prev, e, limit, window).admitted, limit, window)
  {
    if e.Request? {
      RequestKeepsInv(prev, clock, e.at, limit, window);
      if Apply(prev, e, limit, window).admitted != prev.admitted {
        BoundAfterAdmission(prev.admitted, e.at, limit, window);
      }
    } else {
      TickKeepsInv(prev, clock, e.at, limit, window);
    }
  }

  /** The limiter's promise: over any chronological run of requests and
      cleanup ticks for one key, with a limit of at least one, no interval
      of one window length holds more than `limit` admitted requests. */
  lemma {:induction false} AdmissionBound(events: seq<Event>, limit: int, window: Time)
    requires limit >= 1 && window > 0
    requires Chronological(events)
    ensures WindowBound(Replay(events, limit, window).admitted, limit, window)
    decreases |events|
  {
    if events == [] {
      return;
    }
    var init := events[..|events| - 1];
    var e := events[|events| - 1];
    var prev := Replay(init, limit, window);
    assert Chronological(init) by {
      forall i, j | 0 <= i < j < |init| ensures init[i].at <= init[j].at {
        assert init[i] == events[i] && init[j] == events[j];
      }
    }
    AdmissionBound(init, limit, window);
    var clock := e.at;
    if |events| > 1 {
      ReplayInvariant(init, limit, window);
      clock := events[|events| - 2].at;
    }
    EventKeepsBound(prev, clock, e, limit, window);
  }
}
