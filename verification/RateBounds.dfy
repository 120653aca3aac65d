/** How much the rate limiter lets through over whole runs. */
module RateBounds {
  import opened Counting
  import opened RateLimiter

  /** The times at which requests of one key, in isolation, are admitted. */
  function SoloAdmitted(v: Visitor, limit: int, window: nat, times: seq<Instant>): seq<Instant>
    decreases |times|
  {
    if times == [] then []
    else (if Admits(Current(v, window, times[0]), limit) then [times[0]] else [])
         + SoloAdmitted(Charge(v, limit, window, times[0]), limit, window, times[1..])
  }

  /** The visitor after those requests. */
  function SoloAfter(v: Visitor, limit: int, window: nat, times: seq<Instant>): Visitor
    decreases |times|
  {
    if times == [] then v else SoloAfter(Charge(v, limit, window, times[0]), limit, window, times[1..])
  }

  /** The times at which a run admits requests of `key`. */
  function AdmittedFor(rs: seq<Request>, ds: seq<bool>, key: string): seq<Instant>
    requires |ds| == |rs|
  {
    if rs == [] then []
    else (if rs[0].key == key && ds[0] then [rs[0].at] else []) + AdmittedFor(rs[1..], ds[1..], key)
  }

  function Picked(times: seq<Instant>, ds: seq<bool>): seq<Instant>
    requires |ds| == |times|
  {
    if times == [] then [] else (if ds[0] then [times[0]] else []) + Picked(times[1..], ds[1..])
  }

  lemma {:induction false} TimesMatchDecisions(rs: seq<Request>, ds: seq<bool>, key: string)
    requires |ds| == |rs|
    ensures |TimesOf(rs, key)| == |DecisionsOf(rs, ds, key)|
    ensures AdmittedFor(rs, ds, key) == Picked(TimesOf(rs, key), DecisionsOf(rs, ds, key))
  {
    if rs == [] {
    } else {
      TimesMatchDecisions(rs[1..], ds[1..], key);
      var ts, es := TimesOf(rs[1..], key), DecisionsOf(rs[1..], ds[1..], key);
      if rs[0].key == key {
        assert ([rs[0].at] + ts)[1..] == ts && ([ds[0]] + es)[1..] == es;
      } else {
        assert TimesOf(rs, key) == ts && DecisionsOf(rs, ds, key) == es;
        assert AdmittedFor(rs, ds, key) == AdmittedFor(rs[1..], ds[1..], key);
      }
    }
  }

  lemma {:induction false} PickedSolo(v: Visitor, limit: int, window: nat, times: seq<Instant>)
    ensures Picked(times, SoloDecisions(v, limit, window, times)) == SoloAdmitted(v, limit, window, times)
    decreases |times|
  {
    if times == [] {
    } else {
      var next := Charge(v, limit, window, times[0]);
      PickedSolo(next, limit, window, times[1..]);
      assert SoloDecisions(v, limit, window, times)[1..] == SoloDecisions(next, limit, window, times[1..]);
    }
  }

  /** What a fresh limiter admits for a key, in terms of that key's requests alone. */
  lemma AdmittedIsSolo(limit: int, window: nat, start: Instant, rs: seq<Request>, key: string)
    requires Sorted(rs)
    ensures AdmittedFor(rs, Decisions(Limiter(limit, window, map[], start), rs), key)
         == SoloAdmitted(NO_VISITOR, limit, window, TimesOf(rs, key))
  {
    var ds := Decisions(Limiter(limit, window, map[], start), rs);
    TimesMatchDecisions(rs, ds, key);
    FreshKeyTransparent(limit, window, start, rs, key);
    PickedSolo(NO_VISITOR, limit, window, TimesOf(rs, key));
  }

  predicate Ascending(times: seq<Instant>) {
    forall i, j :: 0 <= i < j < |times| ==> times[i] <= times[j]
  }

  lemma {:induction false} TimesWithin(rs: seq<Request>, key: string, low: int)
    requires forall i :: 0 <= i < |rs| ==> low <= rs[i].at
    ensures forall i :: 0 <= i < |TimesOf(rs, key)| ==> low <= TimesOf(rs, key)[i]
  {
    if rs == [] {
    } else {
      TimesWithin(rs[1..], key, low);
    }
  }

  lemma {:induction false} TimesAscending(rs: seq<Request>, key: string)
    requires Sorted(rs)
    ensures Ascending(TimesOf(rs, key))
  {
    if rs == [] {
    } else {
      TimesAscending(rs[1..], key);
      TimesWithin(rs[1..], key, rs[0].at);
    }
  }

  function Within(low: int, high: int): Instant -> bool {
    (t: Instant) => low <= t <= high
  }

  // ---- Any interval of one window's length ----

  /** A visitor as admissions leave it: counted at least once, at most `limit` times, opened by `now`. */
  predicate Seen(v: Visitor, limit: int, window: nat, now: int) {
    v != NO_VISITOR ==> 1 <= v.count <= limit && 0 < v.expiresAt - window <= now
  }

  /** How many more requests can be admitted in `[a, a + window]` by a key with visitor `v`, from `now` on. */
  function Budget(v: Visitor, limit: int, window: nat, now: int, a: int): int {
    var start := v.expiresAt - window;
    if limit <= 0 then 0
    else if now < a then 2 * limit - 1
    else if v == NO_VISITOR then limit
    else if start < a then 2 * limit - v.count
    else if start <= a + window then limit - v.count
    else 0
  }

  lemma BudgetStep(v: Visitor, limit: int, window: nat, now: int, t: Instant, a: int)
    requires Seen(v, limit, window, now) && now <= t
    ensures var next := Charge(v, limit, window, t);
            && Seen(next, limit, window, t)
            && (if Admits(Current(v, window, t), limit) && a <= t <= a + window then 1 else 0)
                 + Budget(next, limit, window, t, a)
                 <= Budget(v, limit, window, now, a)
  {
  }

  lemma BudgetSign(v: Visitor, limit: int, window: nat, now: int, a: int)
    requires Seen(v, limit, window, now)
    ensures Budget(v, limit, window, now, a) >= 0
  {
  }

  lemma {:induction false} BudgetBounds(v: Visitor, limit: int, window: nat, now: int, times: seq<Instant>, a: int)
    requires Seen(v, limit, window, now) && Ascending(times)
    requires times != [] ==> now <= times[0]
    ensures Count(SoloAdmitted(v, limit, window, times), Within(a, a + window)) <= Budget(v, limit, window, now, a)
    decreases |times|
  {
    BudgetSign(v, limit, window, now, a);
    if times != [] {
      var t := times[0];
      var next := Charge(v, limit, window, t);
      BudgetStep(v, limit, window, now, t, a);
      BudgetBounds(next, limit, window, t, times[1..], a);
      var later := SoloAdmitted(next, limit, window, times[1..]);
      if Admits(Current(v, window, t), limit) {
        CountConcat([t], later, Within(a, a + window));
        assert [t][1..] == [];
      } else {
        assert SoloAdmitted(v, limit, window, times) == later;
      }
    }
  }

  /**
   In any interval as long as the window, a fresh limiter admits at most `2 * limit - 1` requests of a
   key, and none if the limit is not positive.
   */
  lemma IntervalBound(limit: int, window: nat, start: Instant, rs: seq<Request>, key: string, a: int)
    requires Sorted(rs)
    ensures Count(AdmittedFor(rs, Decisions(Limiter(limit, window, map[], start), rs), key), Within(a, a + window))
         <= (if limit <= 0 then 0 else 2 * limit - 1)
  {
    AdmittedIsSolo(limit, window, start, rs, key);
    TimesAscending(rs, key);
    BudgetBounds(NO_VISITOR, limit, window, 0, TimesOf(rs, key), a);
  }

  // ---- The bound is attained ----

  function Repeat(t: Instant, n: nat): (r: seq<Instant>)
    ensures |r| == n && forall i :: 0 <= i < n ==> r[i] == t
  {
    if n == 0 then [] else [t] + Repeat(t, n - 1)
  }

  lemma OneAdmitted(v: Visitor, limit: int, window: nat, t: Instant, rest: seq<Instant>)
    requires v.expiresAt != ZERO_TIME && t <= v.expiresAt && v.count < limit
    ensures SoloAdmitted(v, limit, window, [t] + rest)
         == [t] + SoloAdmitted(Visitor(v.count + 1, v.expiresAt), limit, window, rest)
  {
    assert ([t] + rest)[0] == t && ([t] + rest)[1..] == rest;
  }

  /** While the window is open and the count allows it, requests are admitted one after the other. */
  lemma {:induction false} RepeatAdmitted(v: Visitor, limit: int, window: nat, t: Instant, n: nat, rest: seq<Instant>)
    requires v.expiresAt != ZERO_TIME && t <= v.expiresAt && v.count + n <= limit
    ensures SoloAdmitted(v, limit, window, Repeat(t, n) + rest)
         == Repeat(t, n) + SoloAdmitted(Visitor(v.count + n, v.expiresAt), limit, window, rest)
    decreases n
  {
    if n == 0 {
      assert Repeat(t, 0) + rest == rest;
    } else {
      var later := Repeat(t, n - 1);
      assert Repeat(t, n) + rest == [t] + (later + rest);
      OneAdmitted(v, limit, window, t, later + rest);
      RepeatAdmitted(Visitor(v.count + 1, v.expiresAt), limit, window, t, n - 1, rest);
    }
  }

  /** One early request, then as many as allowed at the end of its window and at the start of the next. */
  function BusyTimes(limit: nat, window: nat): seq<Instant>
    requires limit >= 1
  {
    [1] + (Repeat(1 + window, limit - 1) + Repeat(2 + window, limit))
  }

  /** All of them are admitted. */
  lemma BusyAdmitted(limit: nat, window: nat)
    requires limit >= 1
    ensures SoloAdmitted(NO_VISITOR, limit, window, BusyTimes(limit, window)) == BusyTimes(limit, window)
  {
    var first, late := Repeat(1 + window, limit - 1), Repeat(2 + window, limit);
    assert BusyTimes(limit, window)[1..] == first + late;
    RepeatAdmitted(Visitor(1, 1 + window), limit, window, 1 + window, limit - 1, late);
    LateAdmitted(limit, window);
  }

  /** The first late request finds the old window full and ended, and opens a new one. */
  lemma LateAdmitted(limit: nat, window: nat)
    requires limit >= 1
    ensures SoloAdmitted(Visitor(limit, 1 + window), limit, window, Repeat(2 + window, limit))
         == Repeat(2 + window, limit)
  {
    var late := Repeat(2 + window, limit);
    var others := Repeat(2 + window, limit - 1);
    assert late[1..] == others && others + [] == others;
    RepeatAdmitted(Visitor(1, 2 + window + window), limit, window, 2 + window, limit - 1, []);
  }

  lemma BusyCount(limit: nat, window: nat)
    requires limit >= 1 && window >= 1
    ensures Count(BusyTimes(limit, window), Within(1 + window, 1 + window + window)) == 2 * limit - 1
  {
    var p := Within(1 + window, 1 + window + window);
    var one: seq<Instant> := [1];
    var rest := Repeat(1 + window, limit - 1) + Repeat(2 + window, limit);
    CountConcat(one, rest, p);
    CountAll(rest, p);
    CountNone(one, p);
  }

  function RequestsAt(key: string, times: seq<Instant>): seq<Request> {
    seq(|times|, i requires 0 <= i < |times| => Request(key, times[i]))
  }

  lemma {:induction false} TimesOfRequests(key: string, times: seq<Instant>)
    ensures TimesOf(RequestsAt(key, times), key) == times
    decreases |times|
  {
    if times == [] {
    } else {
      TimesOfRequests(key, times[1..]);
      assert RequestsAt(key, times)[1..] == RequestsAt(key, times[1..]);
    }
  }

  /** For every positive limit and window some run of a fresh limiter reaches the bound. */
  lemma IntervalBoundTight(limit: nat, window: nat, start: Instant, key: string) returns (rs: seq<Request>)
    requires limit >= 1 && window >= 1
    ensures Sorted(rs)
    ensures Count(AdmittedFor(rs, Decisions(Limiter(limit, window, map[], start), rs), key),
                  Within(1 + window, 1 + window + window)) == 2 * limit - 1
  {
    rs := RequestsAt(key, BusyTimes(limit, window));
    TimesOfRequests(key, BusyTimes(limit, window));
    AdmittedIsSolo(limit, window, start, rs, key);
    BusyAdmitted(limit, window);
    BusyCount(limit, window);
  }

  // ---- Denials ----

  function Since(start: int): Instant -> bool {
    (t: Instant) => start <= t
  }

  /** The visitor's count is the number of admissions since its window opened. */
  predicate Tracks(v: Visitor, limit: int, window: nat, now: int, admitted: seq<Instant>) {
    && Seen(v, limit, window, now)
    && (v == NO_VISITOR ==> admitted == [])
    && (forall i :: 0 <= i < |admitted| ==> admitted[i] <= v.expiresAt && admitted[i] <= now)
    && (v != NO_VISITOR ==> v.count == Count(admitted, Since(v.expiresAt - window)))
  }

  lemma TracksStep(v: Visitor, limit: int, window: nat, now: int, t: Instant, admitted: seq<Instant>)
    requires Tracks(v, limit, window, now, admitted) && now <= t
    ensures Tracks(Charge(v, limit, window, t), limit, window, t,
                   admitted + (if Admits(Current(v, window, t), limit) then [t] else []))
  {
    var c := Current(v, window, t);
    if Admits(c, limit) {
      var start := c.expiresAt - window;
      CountLast(admitted, t, Since(start));
      if Ended(v, t) { CountNone(admitted, Since(start)); }
    } else {
      assert admitted + [] == admitted;
    }
  }

  lemma {:induction false} TracksRun(v: Visitor, limit: int, window: nat, now: int, times: seq<Instant>,
      admitted: seq<Instant>, last: int)
    requires Tracks(v, limit, window, now, admitted) && Ascending(times)
    requires times != [] ==> now <= times[0] && times[|times| - 1] <= last
    requires now <= last
    ensures Tracks(SoloAfter(v, limit, window, times), limit, window, last,
                   admitted + SoloAdmitted(v, limit, window, times))
    decreases |times|
  {
    if times == [] {
      assert admitted + [] == admitted;
    } else {
      var t := times[0];
      var step := if Admits(Current(v, window, t), limit) then [t] else [];
      TracksStep(v, limit, window, now, t, admitted);
      TracksRun(Charge(v, limit, window, t), limit, window, t, times[1..], admitted + step, last);
      assert admitted + SoloAdmitted(v, limit, window, times)
          == (admitted + step) + SoloAdmitted(Charge(v, limit, window, t), limit, window, times[1..]);
    }
  }

  /** The limiter after a run. */
  function AfterRun(l: Limiter, rs: seq<Request>): Limiter
    decreases |rs|
  {
    if rs == [] then l else AfterRun(AfterAllow(l, rs[0].key, rs[0].at), rs[1..])
  }

  lemma {:induction false} RunRepresents(l: Limiter, rs: seq<Request>, key: string, v: Visitor, now: int)
    requires Sorted(rs)
    requires Represents(l, key, v, if rs == [] then now else rs[0].at)
    requires rs != [] ==> rs[|rs| - 1].at <= now
    ensures Represents(AfterRun(l, rs), key, SoloAfter(v, l.limit, l.window, TimesOf(rs, key)), now)
    ensures AfterRun(l, rs).limit == l.limit && AfterRun(l, rs).window == l.window
    decreases |rs|
  {
    if rs == [] {
    } else {
      var r := rs[0];
      var w := if r.key == key then Charge(v, l.limit, l.window, r.at) else v;
      AllowTransparent(l, key, v, r.key, r.at, if |rs| > 1 then rs[1].at else now);
      RunRepresents(AfterAllow(l, r.key, r.at), rs[1..], key, w, now);
      if r.key == key {
        assert TimesOf(rs, key) == [r.at] + TimesOf(rs[1..], key);
        assert TimesOf(rs, key)[1..] == TimesOf(rs[1..], key);
      } else {
        assert TimesOf(rs, key) == TimesOf(rs[1..], key);
      }
    }
  }

  lemma {:induction false} LastTime(rs: seq<Request>, key: string, last: int)
    requires Sorted(rs) && forall i :: 0 <= i < |rs| ==> rs[i].at <= last
    ensures forall i :: 0 <= i < |TimesOf(rs, key)| ==> TimesOf(rs, key)[i] <= last
  {
    if rs == [] {
    } else {
      LastTime(rs[1..], key, last);
    }
  }

  lemma {:induction false} SinceIsWithin(s: seq<Instant>, start: int, now: int)
    requires forall i :: 0 <= i < |s| ==> s[i] <= now
    ensures Count(s, Since(start)) == Count(s, Within(start, now))
  {
    if s == [] {
    } else {
      SinceIsWithin(s[1..], start, now);
    }
  }

  /** After a run of a fresh limiter, the table holds for `key` a visitor that tracks its admissions. */
  lemma FreshTracks(limit: int, window: nat, begin: Instant, rs: seq<Request>, key: string, now: Instant)
    requires Sorted(rs) && (rs != [] ==> rs[|rs| - 1].at <= now)
    ensures Represents(AfterRun(Limiter(limit, window, map[], begin), rs), key,
                       SoloAfter(NO_VISITOR, limit, window, TimesOf(rs, key)), now)
    ensures Tracks(SoloAfter(NO_VISITOR, limit, window, TimesOf(rs, key)), limit, window, now,
                   AdmittedFor(rs, Decisions(Limiter(limit, window, map[], begin), rs), key))
  {
    var times := TimesOf(rs, key);
    RunRepresents(Limiter(limit, window, map[], begin), rs, key, NO_VISITOR, now);
    TimesAscending(rs, key);
    LastTime(rs, key, now);
    TracksRun(NO_VISITOR, limit, window, 0, times, [], now);
    AdmittedIsSolo(limit, window, begin, rs, key);
    var admitted := SoloAdmitted(NO_VISITOR, limit, window, times);
    assert [] + admitted == admitted;
  }

  /**
   A refusal is earned: with a positive limit, a request at `now` is refused only if exactly `limit`
   requests of its key were admitted since some moment no more than one window ago.
   */
  lemma DenialMeansFull(limit: int, window: nat, begin: Instant, rs: seq<Request>, key: string, now: Instant)
    returns (start: int)
    requires limit > 0 && Sorted(rs) && (rs != [] ==> rs[|rs| - 1].at <= now)
    requires !Decision(AfterRun(Limiter(limit, window, map[], begin), rs), key, now)
    ensures now - window <= start <= now
    ensures Count(AdmittedFor(rs, Decisions(Limiter(limit, window, map[], begin), rs), key), Within(start, now))
         == limit
  {
    var l := Limiter(limit, window, map[], begin);
    var v := SoloAfter(NO_VISITOR, limit, window, TimesOf(rs, key));
    FreshTracks(limit, window, begin, rs, key, now);
    RunRepresents(l, rs, key, NO_VISITOR, now);
    AllowTransparent(AfterRun(l, rs), key, v, key, now, now);
    start := v.expiresAt - window;
    SinceIsWithin(AdmittedFor(rs, Decisions(l, rs), key), start, now);
  }

  /** Sweeping forgets visitors but never changes one. */
  lemma {:induction false} RunHolds(l: Limiter, rs: seq<Request>, key: string, v: Visitor)
    requires Sorted(rs)
    requires rs != [] ==> Represents(l, key, v, rs[0].at)
    requires key in l.visitors ==> l.visitors[key] == v != NO_VISITOR
    ensures key in AfterRun(l, rs).visitors
         ==> AfterRun(l, rs).visitors[key] == SoloAfter(v, l.limit, l.window, TimesOf(rs, key)) != NO_VISITOR
    decreases |rs|
  {
    if rs == [] {
    } else {
      var r := rs[0];
      var w := if r.key == key then Charge(v, l.limit, l.window, r.at) else v;
      AllowTransparent(l, key, v, r.key, r.at, if |rs| > 1 then rs[1].at else r.at);
      RunHolds(AfterAllow(l, r.key, r.at), rs[1..], key, w);
      if r.key == key {
        assert TimesOf(rs, key) == [r.at] + TimesOf(rs[1..], key);
        assert TimesOf(rs, key)[1..] == TimesOf(rs[1..], key);
      } else {
        assert TimesOf(rs, key) == TimesOf(rs[1..], key);
      }
    }
  }

  /** Each window of its own admits at most `limit`: what a key's open visitor counts is all it was admitted. */
  lemma WindowBound(limit: int, window: nat, begin: Instant, rs: seq<Request>, key: string, now: Instant)
    requires Sorted(rs) && (rs != [] ==> rs[|rs| - 1].at <= now)
    requires key in AfterRun(Limiter(limit, window, map[], begin), rs).visitors
    ensures var v := AfterRun(Limiter(limit, window, map[], begin), rs).visitors[key];
            && 1 <= v.count <= limit && v.expiresAt - window <= now
            && Count(AdmittedFor(rs, Decisions(Limiter(limit, window, map[], begin), rs), key),
                     Within(v.expiresAt - window, now)) == v.count
  {
    var l := Limiter(limit, window, map[], begin);
    FreshTracks(limit, window, begin, rs, key, now);
    RunHolds(l, rs, key, NO_VISITOR);
    var admitted, v := AdmittedFor(rs, Decisions(l, rs), key), AfterRun(l, rs).visitors[key];
    assert Tracks(v, limit, window, now, admitted);
    SinceIsWithin(admitted, v.expiresAt - window, now);
  }
}
