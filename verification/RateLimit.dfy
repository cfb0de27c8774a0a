/** The in-memory fixed-window limiter, over any run of requests, clears and
    purges. */
module RateLimit {
  /** An entry is made by its first request. */
  type Positive = n: nat | n > 0 witness 1

  datatype Entry = Entry(count: Positive, resetTime: int, loggedExceeded: bool)
  type Store = map<string, Entry>

  datatype Verdict = Verdict(success: bool, remaining: int, firstExceedance: bool)

  predicate Live(store: Store, key: string, now: int) {
    key in store && now < store[key].resetTime
  }

  function StoreAfterHit(store: Store, now: int, key: string, limit: int, windowMs: int): Store {
    if !Live(store, key, now) then store[key := Entry(1, now + windowMs, false)]
    else
      var e := store[key];
      store[key := Entry(e.count + 1, e.resetTime, e.loggedExceeded || e.count + 1 > limit)]
  }

  function VerdictOfHit(store: Store, now: int, key: string, limit: int): Verdict {
    if !Live(store, key, now) then Verdict(true, limit - 1, false)
    else if store[key].count + 1 > limit then Verdict(false, 0, !store[key].loggedExceeded)
    else Verdict(true, limit - (store[key].count + 1), false)
  }

  function CountAt(store: Store, now: int, key: string): nat {
    if Live(store, key, now) then store[key].count else 0
  }

  /** Without the entries whose window has ended. */
  function Purged(store: Store, now: int): Store {
    map key | key in store && now < store[key].resetTime :: store[key]
  }

  class Limiter {
    var store: Store

    constructor ()
      ensures store == map[]
    {
      store := map[];
    }

    method Hit(now: int, key: string, limit: int, windowMs: int) returns (v: Verdict)
      modifies this
      ensures store == StoreAfterHit(old(store), now, key, limit, windowMs)
      ensures v == VerdictOfHit(old(store), now, key, limit)
    {
      if key !in store || now >= store[key].resetTime {
        store := store[key := Entry(1, now + windowMs, false)];
        return Verdict(true, limit - 1, false);
      }
      var entry := store[key].(count := store[key].count + 1);
      store := store[key := entry];
      if entry.count > limit {
        var firstExceedance := !entry.loggedExceeded;
        store := store[key := entry.(loggedExceeded := true)];
        return Verdict(false, 0, firstExceedance);
      }
      return Verdict(true, limit - entry.count, false);
    }

    method Count(now: int, key: string) returns (n: nat)
      ensures n == CountAt(store, now, key)
    {
      n := if key in store && now < store[key].resetTime then store[key].count else 0;
    }

    method Clear(key: string)
      modifies this
      ensures store == old(store) - {key}
    {
      store := store - {key};
    }

    method Purge(now: int)
      modifies this
      ensures store == Purged(old(store), now)
      ensures forall k :: k in store <==> Live(old(store), k, now)
      ensures forall k | k in store :: store[k] == old(store)[k]
    {
      var keys := store.Keys;
      while keys != {}
        invariant keys <= old(store).Keys
        invariant store.Keys <= old(store).Keys && forall k | k in store :: store[k] == old(store)[k]
        invariant forall k | k in old(store) :: k in store <==> k in keys || now < old(store)[k].resetTime
      {
        var key :| key in keys;
        keys := keys - {key};
        if now >= store[key].resetTime {
          store := store - {key};
        }
      }
    }
  }

  // ------------------------------------------------------------------------ runs

  datatype Event =
    | Request(time: int, key: string)
    | Peek(time: int, key: string)
    | Forget(time: int, key: string)
    | Timer(time: int)

  /** The limit and window each caller uses for its key. */
  datatype Policy = Policy(limit: string -> nat, windowMs: string -> nat)

  function After(p: Policy, store: Store, e: Event): Store {
    match e
    case Request(now, key) => StoreAfterHit(store, now, key, p.limit(key), p.windowMs(key))
    case Peek(_, _) => store
    case Forget(_, key) => store - {key}
    case Timer(now) => Purged(store, now)
  }

  /** The clock does not run backwards. */
  ghost predicate Ordered(es: seq<Event>, now: int)
    decreases |es|
  {
    es == [] || (now <= es[0].time && Ordered(es[1..], es[0].time))
  }

  ghost predicate NeverForgotten(es: seq<Event>, key: string) {
    forall e | e in es :: !(e.Forget? && e.key == key)
  }

  // ------------------------------------------------------------ at most 2 x limit

  predicate SucceedsWithin(p: Policy, store: Store, e: Event, key: string, t: int) {
    && e.Request? && e.key == key && t <= e.time < t + p.windowMs(key)
    && VerdictOfHit(store, e.time, key, p.limit(key)).success
  }

  /** Successes of the key in the interval of one window's length from t. */
  function Successes(p: Policy, store: Store, es: seq<Event>, key: string, t: int): nat
    decreases |es|
  {
    if es == [] then 0
    else (if SucceedsWithin(p, store, es[0], key, t) then 1 else 0)
         + Successes(p, After(p, store, es[0]), es[1..], key, t)
  }

  function Surplus(x: int, y: int): nat {
    if x > y then x - y else 0
  }

  /** The most successes still possible in that interval. */
  function Allowance(p: Policy, store: Store, now: int, key: string, t: int): nat {
    var limit, end := p.limit(key), t + p.windowMs(key);
    if now >= end then 0
    else if !Live(store, key, now) then (if now < t then Surplus(2 * limit, 1) else limit)
    else if store[key].resetTime <= t then Surplus(2 * limit, 1)
    else Surplus(limit, store[key].count) + if store[key].resetTime < end then limit else 0
  }

  /** The entry's window is not longer than the policy's. */
  predicate Recent(p: Policy, store: Store, now: int, key: string) {
    key in store ==> store[key].resetTime <= now + p.windowMs(key)
  }

  lemma StepSpendsAllowance(p: Policy, store: Store, now: int, e: Event, key: string, t: int)
    requires p.limit(key) >= 1 && now <= e.time && !(e.Forget? && e.key == key) && Recent(p, store, now, key)
    ensures Recent(p, After(p, store, e), e.time, key)
    ensures (if SucceedsWithin(p, store, e, key, t) then 1 else 0) + Allowance(p, After(p, store, e), e.time, key, t)
         <= Allowance(p, store, now, key, t)
  {
  }

  lemma {:induction false} SuccessesWithinAllowance(p: Policy, store: Store, now: int, es: seq<Event>, key: string, t: int)
    requires p.limit(key) >= 1 && Ordered(es, now) && NeverForgotten(es, key) && Recent(p, store, now, key)
    ensures Successes(p, store, es, key, t) <= Allowance(p, store, now, key, t)
    decreases |es|
  {
    hide Allowance, After, SucceedsWithin, Recent;
    if es != [] {
      StepSpendsAllowance(p, store, now, es[0], key, t);
      SuccessesWithinAllowance(p, After(p, store, es[0]), es[0].time, es[1..], key, t);
    }
  }

  /** Over any run without clears of a key, fewer than twice its limit succeed in
      any interval of its window's length. */
  lemma FewerThanTwiceTheLimit(p: Policy, now: int, es: seq<Event>, key: string, t: int)
    requires p.limit(key) >= 1 && Ordered(es, now) && NeverForgotten(es, key)
    ensures Successes(p, map[], es, key, t) < 2 * p.limit(key)
  {
    SuccessesWithinAllowance(p, map[], now, es, key, t);
  }

  function Burst(e: Event, n: nat): seq<Event> {
    if n == 0 then [] else [e] + Burst(e, n - 1)
  }

  lemma {:induction false} BurstSucceeds(p: Policy, store: Store, time: int, key: string, n: nat, rest: seq<Event>, t: int)
    requires Live(store, key, time) && store[key].count + n <= p.limit(key) && !store[key].loggedExceeded
    requires t <= time < t + p.windowMs(key)
    ensures Successes(p, store, Burst(Request(time, key), n) + rest, key, t)
         == n + Successes(p, store[key := store[key].(count := store[key].count + n)], rest, key, t)
    decreases n
  {
    var es := Burst(Request(time, key), n) + rest;
    if n == 0 {
      assert es == rest;
      assert store[key := store[key]] == store;
    } else {
      var next := After(p, store, es[0]);
      assert es[1..] == Burst(Request(time, key), n - 1) + rest;
      assert next == store[key := store[key].(count := store[key].count + 1)];
      BurstSucceeds(p, next, time, key, n - 1, rest, t);
      assert next[key := next[key].(count := next[key].count + (n - 1))]
          == store[key := store[key].(count := store[key].count + n)];
    }
  }

  /** One request, the rest of the limit at the end of its window, and a whole
      limit as the next one starts. */
  function Straddle(key: string, limit: nat, windowMs: nat): seq<Event>
    requires limit >= 1 && windowMs >= 1
  {
    [Request(0, key)] + (Burst(Request(windowMs - 1, key), limit - 1)
                         + ([Request(windowMs, key)] + (Burst(Request(windowMs, key), limit - 1) + [])))
  }

  /** The bound is met for every limit: all but the first of those requests are
      within one window's length and succeed. */
  lemma TheBoundIsMet(p: Policy, key: string)
    requires p.limit(key) >= 1 && p.windowMs(key) >= 2
    ensures Successes(p, map[], Straddle(key, p.limit(key), p.windowMs(key)), key, 1) == 2 * p.limit(key) - 1
  {
    hide Burst;
    var limit, w := p.limit(key), p.windowMs(key);
    var head := [Request(w, key)] + (Burst(Request(w, key), limit - 1) + []);
    var tail := Burst(Request(w - 1, key), limit - 1) + head;
    var es := Straddle(key, limit, w);
    assert es[1..] == tail && head[1..] == Burst(Request(w, key), limit - 1) + [];
    var s1: Store := map[key := Entry(1, w, false)];
    assert After(p, map[], es[0]) == s1;
    BurstSucceeds(p, s1, w - 1, key, limit - 1, head, 1);
    var s2: Store := map[key := Entry(limit, w, false)];
    assert s1[key := s1[key].(count := s1[key].count + (limit - 1))] == s2;
    var s3: Store := map[key := Entry(1, w + w, false)];
    assert After(p, s2, head[0]) == s3;
    BurstSucceeds(p, s3, w, key, limit - 1, [], 1);
  }

  // ------------------------------------------------------------ first exceedance

  /** How often the key's limit is reported as first exceeded before `until`. */
  function FirstExceedances(p: Policy, store: Store, es: seq<Event>, key: string, until: int): nat
    decreases |es|
  {
    if es == [] then 0
    else (if es[0].Request? && es[0].key == key && es[0].time < until
             && VerdictOfHit(store, es[0].time, key, p.limit(key)).firstExceedance then 1 else 0)
         + FirstExceedances(p, After(p, store, es[0]), es[1..], key, until)
  }

  /** In one window it is reported at most once, and no more once reported. */
  lemma {:induction false} ExceedsOncePerWindow(p: Policy, store: Store, now: int, es: seq<Event>, key: string)
    requires Ordered(es, now) && NeverForgotten(es, key) && key in store
    ensures FirstExceedances(p, store, es, key, store[key].resetTime) <= if store[key].loggedExceeded then 0 else 1
    decreases |es|
  {
    var until := store[key].resetTime;
    if es != [] {
      if es[0].time < until {
        var next := After(p, store, es[0]);
        assert key in next && next[key].resetTime == until;
        ExceedsOncePerWindow(p, next, es[0].time, es[1..], key);
      } else {
        NoneAfter(p, store, now, es, key, until);
      }
    }
  }

  lemma {:induction false} NoneAfter(p: Policy, store: Store, now: int, es: seq<Event>, key: string, until: int)
    requires Ordered(es, now) && (es != [] ==> es[0].time >= until)
    ensures FirstExceedances(p, store, es, key, until) == 0
    decreases |es|
  {
    hide After, VerdictOfHit;
    if es != [] {
      NoneAfter(p, After(p, store, es[0]), es[0].time, es[1..], key, until);
    }
  }

  // ---------------------------------------------- what the times of requests say

  /** No event is before an earlier one. */
  ghost predicate Chronological(es: seq<Event>) {
    forall i, j | 0 <= i < j < |es| :: es[i].time <= es[j].time
  }

  /** The times of the key's requests since it was last forgotten. */
  function Times(es: seq<Event>, key: string): seq<int> {
    if es == [] then []
    else
      var before := Times(es[..|es| - 1], key);
      match es[|es| - 1]
      case Request(now, k) => if k == key then before + [now] else before
      case Forget(_, k) => if k == key then [] else before
      case _ => before
  }

  /** When the window of the last request was opened. */
  function Opened(times: seq<int>, windowMs: nat): int
    requires times != []
  {
    var last := times[|times| - 1];
    if |times| == 1 then last
    else
      var start := Opened(times[..|times| - 1], windowMs);
      if last < start + windowMs then start else last
  }

  /** How many of the requests are at or after a time. */
  function Since(times: seq<int>, start: int): nat {
    if times == [] then 0 else Since(times[..|times| - 1], start) + if times[|times| - 1] >= start then 1 else 0
  }

  ghost predicate Sorted(times: seq<int>) {
    forall i, j | 0 <= i < j < |times| :: times[i] <= times[j]
  }

  lemma {:induction false} TimesAreSorted(es: seq<Event>, key: string)
    requires Chronological(es)
    ensures Sorted(Times(es, key)) && forall t | t in Times(es, key) :: t <= es[|es| - 1].time
    ensures Times(es, key) != [] ==> es != []
  {
    if es != [] {
      TimesAreSorted(es[..|es| - 1], key);
      var before := Times(es[..|es| - 1], key);
      assert forall i | 0 <= i < |before| :: before[i] in before;
    }
  }

  /** The last request is in its own window, and one before that window is older. */
  lemma {:induction false} OpenedSince(times: seq<int>, windowMs: nat)
    requires times != [] && Sorted(times) && windowMs > 0
    ensures Opened(times, windowMs) <= times[|times| - 1] < Opened(times, windowMs) + windowMs
    ensures Since(times, Opened(times, windowMs)) > 0
  {
    if |times| > 1 {
      OpenedSince(times[..|times| - 1], windowMs);
    }
  }

  function Most(limit: nat): nat {
    if limit == 0 then 1 else limit
  }

  function StoreAfter(p: Policy, es: seq<Event>): Store {
    if es == [] then map[] else After(p, StoreAfter(p, es[..|es| - 1]), es[|es| - 1])
  }

  lemma {:induction false} SinceAll(times: seq<int>, start: int)
    requires forall i | 0 <= i < |times| :: times[i] < start
    ensures Since(times, start) == 0
  {
    if times != [] {
      SinceAll(times[..|times| - 1], start);
    }
  }

  /** One window for a request: the one that is open, or a new one. */
  lemma NextRequest(times: seq<int>, windowMs: nat, now: int)
    requires windowMs > 0 && Sorted(times + [now])
    ensures var more := times + [now];
            if times != [] && now < Opened(times, windowMs) + windowMs
            then Opened(more, windowMs) == Opened(times, windowMs)
                 && Since(more, Opened(more, windowMs)) == Since(times, Opened(times, windowMs)) + 1
            else Opened(more, windowMs) == now && Since(more, now) == 1
  {
    var more := times + [now];
    assert more[..|times|] == times && more[|times|] == now;
    if times != [] {
      assert Sorted(times) by {
        assert forall i | 0 <= i < |times| :: more[i] == times[i];
      }
      OpenedSince(times, windowMs);
      if now >= Opened(times, windowMs) + windowMs {
        assert forall i | 0 <= i < |times| :: more[i] == times[i] && times[i] <= times[|times| - 1];
        SinceAll(times, now);
      }
    }
  }

  /** The entry of a key, from the times of its requests alone; a purged one has
      ended. */
  ghost predicate EntryIs(p: Policy, store: Store, key: string, times: seq<int>, now: int) {
    if times == [] then key !in store
    else
      var start, most := Opened(times, p.windowMs(key)), Most(p.limit(key));
      var n := Since(times, start);
      if key in store then store[key].count == n && store[key].resetTime == start + p.windowMs(key)
                           && (store[key].loggedExceeded <==> n > most)
      else start + p.windowMs(key) <= now
  }

  lemma {:induction false} StoreIsTimes(p: Policy, es: seq<Event>, key: string, now: int)
    requires p.windowMs(key) > 0 && Chronological(es) && (es != [] ==> es[|es| - 1].time <= now)
    ensures EntryIs(p, StoreAfter(p, es), key, Times(es, key), now)
  {
    hide Opened, Since, Chronological;
    if es != [] {
      var init, e := es[..|es| - 1], es[|es| - 1];
      InitIsChronological(es);
      StoreIsTimes(p, init, key, e.time);
      TimesAreSorted(es, key);
      if e.Request? && e.key == key {
        NextRequest(Times(init, key), p.windowMs(key), e.time);
      }
    }
  }

  lemma InitIsChronological(es: seq<Event>)
    requires es != [] && Chronological(es)
    ensures Chronological(es[..|es| - 1]) && (|es| > 1 ==> es[..|es| - 1][|es| - 2].time <= es[|es| - 1].time)
  {
  }

  /** Any request of any run, clears and purges included: it is the n-th of the key in
      its window, counted by their times. It succeeds if and only if n is within the
      limit, with what is left of the limit remaining, and it is reported as the first
      exceedance if and only if it is the first past the limit. */
  lemma RequestsAreCounted(p: Policy, es: seq<Event>, now: int, key: string)
    requires p.windowMs(key) > 0 && p.limit(key) > 0 && Chronological(es + [Request(now, key)])
    ensures var times := Times(es, key) + [now];
            var n := Since(times, Opened(times, p.windowMs(key)));
            var v := VerdictOfHit(StoreAfter(p, es), now, key, p.limit(key));
            && n >= 1
            && (v.success <==> n <= p.limit(key))
            && v.remaining == Surplus(p.limit(key), n)
            && (v.firstExceedance <==> n == p.limit(key) + 1)
  {
    var all := es + [Request(now, key)];
    assert all[..|es|] == es && all[|es|] == Request(now, key);
    InitIsChronological(all);
    StoreIsTimes(p, es, key, now);
    TimesAreSorted(all, key);
    NextRequest(Times(es, key), p.windowMs(key), now);
    hide Chronological, Opened, Since;
  }

  /** And a look at the count sees the requests of the window that is open. */
  lemma CountsAreRequests(p: Policy, es: seq<Event>, now: int, key: string)
    requires p.windowMs(key) > 0 && Chronological(es + [Peek(now, key)])
    ensures var times, w := Times(es, key), p.windowMs(key);
            CountAt(StoreAfter(p, es), now, key)
            == if times != [] && now < Opened(times, w) + w then Since(times, Opened(times, w)) else 0
  {
    var all := es + [Peek(now, key)];
    assert all[..|es|] == es && all[|es|] == Peek(now, key);
    InitIsChronological(all);
    StoreIsTimes(p, es, key, now);
    hide Chronological, Opened, Since;
  }

  /** The key's requests before a time. */
  function RequestsBefore(es: seq<Event>, key: string, until: int): nat
    decreases |es|
  {
    if es == [] then 0
    else (if es[0].Request? && es[0].key == key && es[0].time < until then 1 else 0) + RequestsBefore(es[1..], key, until)
  }

  lemma {:induction false} NoRequestsAfter(es: seq<Event>, now: int, key: string, until: int)
    requires Ordered(es, now) && (es != [] ==> es[0].time >= until)
    ensures RequestsBefore(es, key, until) == 0
    decreases |es|
  {
    if es != [] {
      NoRequestsAfter(es[1..], es[0].time, key, until);
    }
  }

  /** In the window a request opens, the limit is reported as first exceeded once if
      more requests than that fall in the window, and otherwise not. */
  lemma {:induction false} ExceedanceIsReported(p: Policy, store: Store, now: int, es: seq<Event>, key: string)
    requires Ordered(es, now) && NeverForgotten(es, key) && key in store && p.limit(key) > 0
    requires store[key].loggedExceeded <==> store[key].count > p.limit(key)
    ensures var total := store[key].count + RequestsBefore(es, key, store[key].resetTime);
            FirstExceedances(p, store, es, key, store[key].resetTime)
            == if store[key].count <= p.limit(key) < total then 1 else 0
    decreases |es|
  {
    var until := store[key].resetTime;
    if es != [] {
      if es[0].time < until {
        var next := After(p, store, es[0]);
        assert key in next && next[key].resetTime == until;
        ExceedanceIsReported(p, next, es[0].time, es[1..], key);
      } else {
        NoneAfter(p, store, now, es, key, until);
        NoRequestsAfter(es, now, key, until);
      }
    }
  }

  /** So, from the request that opens it. */
  lemma ReportedOncePerWindow(p: Policy, store: Store, now: int, es: seq<Event>, key: string)
    requires Ordered(es, now) && NeverForgotten(es, key) && p.limit(key) > 0 && p.windowMs(key) > 0 && !Live(store, key, now)
    ensures FirstExceedances(p, store, [Request(now, key)] + es, key, now + p.windowMs(key))
         == if 1 + RequestsBefore(es, key, now + p.windowMs(key)) > p.limit(key) then 1 else 0
  {
    var all := [Request(now, key)] + es;
    assert all[0] == Request(now, key) && all[1..] == es;
    ExceedanceIsReported(p, After(p, store, all[0]), now, es, key);
  }

  // ----------------------------------------------------------- purges are unseen

  datatype Seen = SawVerdict(v: Verdict) | SawCount(n: nat)

  /** Everything callers are told over a run. */
  function Observed(p: Policy, store: Store, es: seq<Event>): seq<Seen>
    decreases |es|
  {
    if es == [] then []
    else
      var rest := Observed(p, After(p, store, es[0]), es[1..]);
      match es[0]
      case Request(now, key) => [SawVerdict(VerdictOfHit(store, now, key, p.limit(key)))] + rest
      case Peek(now, key) => [SawCount(CountAt(store, now, key))] + rest
      case _ => rest
  }

  function WithoutTimers(es: seq<Event>): seq<Event> {
    if es == [] then [] else (if es[0].Timer? then [] else [es[0]]) + WithoutTimers(es[1..])
  }

  /** The stores agree on every window that has not ended. */
  ghost predicate SameLive(a: Store, b: Store, now: int) {
    forall key ::
      && (Live(a, key, now) <==> Live(b, key, now))
      && (Live(a, key, now) ==> a[key] == b[key])
  }

  lemma SameLiveStep(p: Policy, a: Store, b: Store, now: int, e: Event)
    requires SameLive(a, b, now) && now <= e.time
    ensures SameLive(After(p, a, e), if e.Timer? then b else After(p, b, e), e.time)
    ensures e.Request? ==> VerdictOfHit(a, e.time, e.key, p.limit(e.key)) == VerdictOfHit(b, e.time, e.key, p.limit(e.key))
    ensures e.Peek? ==> CountAt(a, e.time, e.key) == CountAt(b, e.time, e.key)
  {
    SameLiveLater(a, b, now, e.time);
    var b' := if e.Timer? then b else After(p, b, e);
    forall key
      ensures Live(After(p, a, e), key, e.time) <==> Live(b', key, e.time)
      ensures Live(After(p, a, e), key, e.time) ==> After(p, a, e)[key] == b'[key]
    {
      assert Live(a, key, e.time) <==> Live(b, key, e.time);
    }
  }

  lemma SameLiveLater(a: Store, b: Store, now: int, later: int)
    requires SameLive(a, b, now) && now <= later
    ensures SameLive(a, b, later)
  {
    forall key
      ensures Live(a, key, later) <==> Live(b, key, later)
      ensures Live(a, key, later) ==> a[key] == b[key]
    {
      assert Live(a, key, now) <==> Live(b, key, now);
    }
  }

  /** Whenever the purge timer fires, callers see exactly what they would see if
      it never did. */
  lemma {:induction false} PurgesAreUnseen(p: Policy, a: Store, b: Store, now: int, es: seq<Event>)
    requires Ordered(es, now) && SameLive(a, b, now)
    ensures Observed(p, a, es) == Observed(p, b, WithoutTimers(es))
    decreases |es|
  {
    hide After, VerdictOfHit, CountAt, SameLive;
    if es != [] {
      var e, rest := es[0], es[1..];
      SameLiveStep(p, a, b, now, e);
      if e.Timer? {
        PurgesAreUnseen(p, After(p, a, e), b, e.time, rest);
        assert WithoutTimers(es) == WithoutTimers(rest);
      } else {
        PurgesAreUnseen(p, After(p, a, e), After(p, b, e), e.time, rest);
        assert WithoutTimers(es) == [e] + WithoutTimers(rest);
      }
    }
  }
}
