/**
 The in-memory rate limiter (`middleware.go`): a fixed window per key, opened by the first request after
 the previous window ended, with a lazy sweep of expired windows.
 */
module RateLimiter {

  /** Instants lie after the zero instant of the clock, which marks a visitor that was never seen. */
  type Instant = t: int | t > 0 witness 1

  const ZERO_TIME: int := 0

  datatype Visitor = Visitor(count: int, expiresAt: int)

  /** What a lookup yields for a key that is not in the table. */
  const NO_VISITOR: Visitor := Visitor(0, ZERO_TIME)

  function Lookup(visitors: map<string, Visitor>, key: string): Visitor {
    if key in visitors then visitors[key] else NO_VISITOR
  }

  /** The visitor a request at `now` is charged to. */
  function Current(v: Visitor, window: nat, now: Instant): Visitor {
    if v.expiresAt == ZERO_TIME || now > v.expiresAt then Visitor(0, now + window) else v
  }

  function Admits(v: Visitor, limit: int): bool {
    v.count < limit
  }

  /** Drops the windows that have ended. */
  function Swept(visitors: map<string, Visitor>, now: Instant): map<string, Visitor> {
    map k | k in visitors && !(now > visitors[k].expiresAt) :: visitors[k]
  }

  datatype Limiter = Limiter(limit: int, window: nat, visitors: map<string, Visitor>, lastSweep: int)

  function AfterSweep(l: Limiter, now: Instant): Limiter {
    if now - l.lastSweep > l.window then l.(visitors := Swept(l.visitors, now), lastSweep := now) else l
  }

  /** The decision of `Allow`. */
  function Decision(l: Limiter, key: string, now: Instant): bool {
    Admits(Current(Lookup(AfterSweep(l, now).visitors, key), l.window, now), l.limit)
  }

  /** The limiter after `Allow`. */
  function AfterAllow(l: Limiter, key: string, now: Instant): Limiter {
    var swept := AfterSweep(l, now);
    var v := Current(Lookup(swept.visitors, key), l.window, now);
    if Admits(v, l.limit) then swept.(visitors := swept.visitors[key := Visitor(v.count + 1, v.expiresAt)]) else swept
  }

  class RateLimiter {
    const limit: int
    const window: nat
    var visitors: map<string, Visitor>
    var lastSweep: int

    constructor (limit: int, window: nat, now: Instant)
      ensures State() == Limiter(limit, window, map[], now)
    {
      this.limit, this.window := limit, window;
      visitors, lastSweep := map[], now;
    }

    function State(): Limiter
      reads this
    {
      Limiter(limit, window, visitors, lastSweep)
    }

    method Allow(key: string, now: Instant) returns (allowed: bool)
      modifies this
      ensures allowed == Decision(old(State()), key, now)
      ensures State() == AfterAllow(old(State()), key, now)
    {
      if now - lastSweep > window {
        visitors := map k | k in visitors && !(now > visitors[k].expiresAt) :: visitors[k];
        lastSweep := now;
      }
      var current := Lookup(visitors, key);
      if current.expiresAt == ZERO_TIME || now > current.expiresAt {
        current := Visitor(0, now + window);
      }
      if current.count >= limit {
        return false;
      }
      current := current.(count := current.count + 1);
      visitors := visitors[key := current];
      allowed := true;
    }
  }

  /** The sweep drops the visitors whose window has ended, once the last sweep is more than a window ago. */
  lemma SweepExactly(l: Limiter, key: string, now: Instant, other: string)
    requires other != key
    ensures var after := AfterAllow(l, key, now);
            && (other in after.visitors
                <==> && other in l.visitors
                     && !(now - l.lastSweep > l.window && now > l.visitors[other].expiresAt))
            && (other in after.visitors ==> after.visitors[other] == l.visitors[other])
            && after.lastSweep == (if now - l.lastSweep > l.window then now else l.lastSweep)
  {
  }

  // ---- Runs ----

  datatype Request = Request(key: string, at: Instant)

  function Decisions(l: Limiter, rs: seq<Request>): (ds: seq<bool>)
    ensures |ds| == |rs|
    decreases |rs|
  {
    if rs == [] then [] else [Decision(l, rs[0].key, rs[0].at)] + Decisions(AfterAllow(l, rs[0].key, rs[0].at), rs[1..])
  }

  /** The specification: one visitor per key, no table, no sweep. */
  function Charge(v: Visitor, limit: int, window: nat, now: Instant): Visitor {
    var c := Current(v, window, now);
    if Admits(c, limit) then Visitor(c.count + 1, c.expiresAt) else v
  }

  /** Decisions for the requests of one key, looked at in isolation. */
  function SoloDecisions(v: Visitor, limit: int, window: nat, times: seq<Instant>): (ds: seq<bool>)
    ensures |ds| == |times|
    decreases |times|
  {
    if times == [] then []
    else [Admits(Current(v, window, times[0]), limit)]
         + SoloDecisions(Charge(v, limit, window, times[0]), limit, window, times[1..])
  }

  predicate Sorted(rs: seq<Request>) {
    forall i, j :: 0 <= i < j < |rs| ==> rs[i].at <= rs[j].at
  }

  /** The times at which `key` asked. */
  function TimesOf(rs: seq<Request>, key: string): seq<Instant> {
    if rs == [] then []
    else (if rs[0].key == key then [rs[0].at] else []) + TimesOf(rs[1..], key)
  }

  /** The decisions that concern `key`. */
  function DecisionsOf(rs: seq<Request>, ds: seq<bool>, key: string): seq<bool>
    requires |ds| == |rs|
  {
    if rs == [] then []
    else (if rs[0].key == key then [ds[0]] else []) + DecisionsOf(rs[1..], ds[1..], key)
  }

  // ---- Transparency of sweeping and of other keys ----

  /** From `now` on, two visitors are charged alike: equal, or both ended. */
  predicate Alike(a: Visitor, b: Visitor, now: int) {
    a == b || (Ended(a, now) && Ended(b, now))
  }

  predicate Ended(v: Visitor, now: int) {
    v.expiresAt == ZERO_TIME || now > v.expiresAt
  }

  /** The table holds, for `key`, what the isolated specification holds. */
  predicate Represents(l: Limiter, key: string, v: Visitor, now: int) {
    Alike(Lookup(l.visitors, key), v, now)
  }

  lemma SweepTransparent(l: Limiter, key: string, v: Visitor, now: Instant)
    requires Represents(l, key, v, now)
    ensures Represents(AfterSweep(l, now), key, v, now)
    ensures Current(Lookup(AfterSweep(l, now).visitors, key), l.window, now) == Current(v, l.window, now)
  {
  }

  lemma AllowTransparent(l: Limiter, key: string, v: Visitor, asked: string, now: Instant, later: int)
    requires Represents(l, key, v, now) && now <= later
    ensures asked == key ==> Decision(l, asked, now) == Admits(Current(v, l.window, now), l.limit)
    ensures Represents(AfterAllow(l, asked, now), key,
                       if asked == key then Charge(v, l.limit, l.window, now) else v, later)
  {
    SweepTransparent(l, key, v, now);
  }

  /**
   For non-decreasing times, what the sweeping limiter of all keys decides for `key` is what the isolated,
   never-swept specification decides on the requests of `key` alone.
   */
  lemma {:induction false} KeyTransparent(l: Limiter, rs: seq<Request>, key: string, v: Visitor)
    requires Sorted(rs)
    requires rs != [] ==> Represents(l, key, v, rs[0].at)
    ensures DecisionsOf(rs, Decisions(l, rs), key) == SoloDecisions(v, l.limit, l.window, TimesOf(rs, key))
    decreases |rs|
  {
    if rs == [] {
    } else {
      var r := rs[0];
      var next := AfterAllow(l, r.key, r.at);
      var w := if r.key == key then Charge(v, l.limit, l.window, r.at) else v;
      AllowTransparent(l, key, v, r.key, r.at, if |rs| > 1 then rs[1].at else r.at);
      KeyTransparent(next, rs[1..], key, w);
      assert Decisions(l, rs)[1..] == Decisions(next, rs[1..]);
      if r.key == key {
        assert TimesOf(rs, key) == [r.at] + TimesOf(rs[1..], key);
        assert TimesOf(rs, key)[1..] == TimesOf(rs[1..], key);
      } else {
        assert TimesOf(rs, key) == TimesOf(rs[1..], key);
        assert DecisionsOf(rs, Decisions(l, rs), key) == DecisionsOf(rs[1..], Decisions(next, rs[1..]), key);
      }
    }
  }

  /** A new limiter, however it sweeps, treats every key as if it were the only one. */
  lemma FreshKeyTransparent(limit: int, window: nat, start: Instant, rs: seq<Request>, key: string)
    requires Sorted(rs)
    ensures DecisionsOf(rs, Decisions(Limiter(limit, window, map[], start), rs), key)
         == SoloDecisions(NO_VISITOR, limit, window, TimesOf(rs, key))
  {
    KeyTransparent(Limiter(limit, window, map[], start), rs, key, NO_VISITOR);
  }

  /** A limiter that never sweeps. */
  function PlainDecision(l: Limiter, key: string, now: Instant): bool {
    Admits(Current(Lookup(l.visitors, key), l.window, now), l.limit)
  }

  function AfterPlain(l: Limiter, key: string, now: Instant): Limiter {
    var v := Current(Lookup(l.visitors, key), l.window, now);
    if Admits(v, l.limit) then l.(visitors := l.visitors[key := Visitor(v.count + 1, v.expiresAt)]) else l
  }

  function PlainDecisions(l: Limiter, rs: seq<Request>): (ds: seq<bool>)
    ensures |ds| == |rs|
    decreases |rs|
  {
    if rs == [] then []
    else [PlainDecision(l, rs[0].key, rs[0].at)] + PlainDecisions(AfterPlain(l, rs[0].key, rs[0].at), rs[1..])
  }

  ghost predicate AllAlike(l: Limiter, m: Limiter, now: int) {
    l.limit == m.limit && l.window == m.window
    && forall k: string :: Alike(Lookup(l.visitors, k), Lookup(m.visitors, k), now)
  }

  lemma AllAlikeStep(l: Limiter, m: Limiter, key: string, now: Instant, later: int)
    requires AllAlike(l, m, now) && now <= later
    ensures Decision(l, key, now) == PlainDecision(m, key, now)
    ensures AllAlike(AfterAllow(l, key, now), AfterPlain(m, key, now), later)
  {
    AllowTransparent(l, key, Lookup(m.visitors, key), key, now, later);
    forall k: string
      ensures Alike(Lookup(AfterAllow(l, key, now).visitors, k), Lookup(AfterPlain(m, key, now).visitors, k), later)
    {
      AllowTransparent(l, k, Lookup(m.visitors, k), key, now, later);
    }
  }

  /** For non-decreasing times the sweep is invisible: every decision is that of a limiter without it. */
  lemma {:induction false} SweepInvisible(l: Limiter, m: Limiter, rs: seq<Request>)
    requires Sorted(rs)
    requires rs != [] ==> AllAlike(l, m, rs[0].at)
    ensures Decisions(l, rs) == PlainDecisions(m, rs)
    decreases |rs|
  {
    if rs == [] {
    } else {
      var r := rs[0];
      AllAlikeStep(l, m, r.key, r.at, if |rs| > 1 then rs[1].at else r.at);
      SweepInvisible(AfterAllow(l, r.key, r.at), AfterPlain(m, r.key, r.at), rs[1..]);
    }
  }
}
