/**
 * Fixed-window rate limiter (src/services/rateLimit.ts).
 *
 * A table keyed by (client address, action type) holds one record per key:
 * the number of requests seen in the current window and the instant at which
 * the window ends. Every action type has its own window length and request
 * allowance. The clock is passed in as `now` (milliseconds).
 */
module RateLimit {
  import opened Wrappers
  import opened Time

  /** Window length and allowance of one action type. */
  datatype Settings = Settings(windowMs: nat, maxRequests: nat)

  /** The counter of one key: requests in the current window, and when the window ends. */
  datatype Record = Record(count: nat, resetAt: int)

  /** A table key: the client address and the action type. */
  type Key = (string, string)

  /**
   * The configured action types: 1000 per day, 5 per hour, 3 per ten minutes.
   * Every one allows some requests in a window of some length, and the
   * appointment tier is tighter than the global one on both counts.
   */
  function DefaultSettings(): (settings: map<string, Settings>)
    ensures settings.Keys == {"global", "appointment", "contact"}
    ensures forall a :: a in settings ==> settings[a].windowMs > 0 && settings[a].maxRequests > 0
    ensures settings["appointment"].windowMs < settings["global"].windowMs
    ensures settings["appointment"].maxRequests < settings["global"].maxRequests
  {
    map[
      "global" := Settings(24 * MsPerHour, 1000),
      "appointment" := Settings(MsPerHour, 5),
      "contact" := Settings(10 * MsPerMinute, 3)
    ]
  }

  /** The record a table holds for a key, if any. */
  function Lookup(store: map<Key, Record>, key: Key): Option<Record>
  {
    if key in store then Some(store[key]) else None
  }

  /**
   * The record of a key after one request at `now`: a missing record starts a
   * window ending at now + windowMs, an expired one (now strictly past its end)
   * starts a new such window, and then the count goes up by one.
   */
  function Next(rec: Option<Record>, s: Settings, now: int): (r: Record)
    ensures r.count >= 1 && now <= r.resetAt
    ensures r.count == 1 || (rec.Some? && r == Record(rec.value.count + 1, rec.value.resetAt))
  {
    var live :=
      if rec.None? || now > rec.value.resetAt then Record(0, now + s.windowMs)
      else rec.value;
    Record(live.count + 1, live.resetAt)
  }

  /** The verdicts of successive requests on one key, at the given instants. */
  function Replay(rec: Option<Record>, s: Settings, times: seq<int>): (limited: seq<bool>)
    ensures |limited| == |times|
    decreases |times|
  {
    if times == [] then []
    else
      var r := Next(rec, s, times[0]);
      [r.count > s.maxRequests] + Replay(Some(r), s, times[1..])
  }

  /** The record of one key after successive requests at the given instants. */
  function After(rec: Option<Record>, s: Settings, times: seq<int>): (r: Option<Record>)
    ensures times != [] ==> r.Some? && r.value.count >= 1
    decreases |times|
  {
    if times == [] then rec else After(Some(Next(rec, s, times[0])), s, times[1..])
  }

  /**
   * One more request extends the verdicts by the verdict of that request on
   * the record the earlier ones left, and moves the record on by Next.
   */
  lemma {:induction false} ReplaySnoc(rec: Option<Record>, s: Settings, times: seq<int>, t: int)
    ensures Replay(rec, s, times + [t]) ==
      Replay(rec, s, times) + [Next(After(rec, s, times), s, t).count > s.maxRequests]
    ensures After(rec, s, times + [t]) == Some(Next(After(rec, s, times), s, t))
    decreases |times|
  {
    if times == [] {
      assert times + [t] == [t];
    } else {
      ReplaySnoc(Some(Next(rec, s, times[0])), s, times[1..], t);
      assert (times + [t])[0] == times[0];
      assert (times + [t])[1..] == times[1..] + [t];
    }
  }

  /**
   * Inside a window that is still open, the i-th further request (from 0) is
   * refused exactly when the count it brings the record to exceeds the allowance.
   */
  lemma {:induction false} ReplayInsideWindow(c: nat, resetAt: int, s: Settings, times: seq<int>)
    requires forall i :: 0 <= i < |times| ==> times[i] <= resetAt
    ensures forall i :: 0 <= i < |times| ==>
      Replay(Some(Record(c, resetAt)), s, times)[i] == (c + i + 1 > s.maxRequests)
    decreases |times|
  {
    if times != [] {
      var r := Next(Some(Record(c, resetAt)), s, times[0]);
      assert r == Record(c + 1, resetAt);
      ReplayInsideWindow(c + 1, resetAt, s, times[1..]);
      var rest := Replay(Some(r), s, times[1..]);
      assert Replay(Some(Record(c, resetAt)), s, times) == [r.count > s.maxRequests] + rest;
      forall i | 1 <= i < |times|
        ensures Replay(Some(Record(c, resetAt)), s, times)[i] == (c + i + 1 > s.maxRequests)
      {
        assert times[1..][i - 1] == times[i];
        assert rest[i - 1] == (c + 1 + (i - 1) + 1 > s.maxRequests);
      }
    }
  }

  /**
   * From a missing or expired record, with every request inside the window the
   * first one opens, the first maxRequests requests pass and every later one
   * is refused.
   */
  lemma {:induction false} FreshWindowAdmitsAllowance(rec: Option<Record>, s: Settings, times: seq<int>)
    requires |times| > 0
    requires rec.None? || times[0] > rec.value.resetAt
    requires forall i :: 0 <= i < |times| ==> times[i] <= times[0] + s.windowMs
    ensures forall i :: 0 <= i < |times| ==> Replay(rec, s, times)[i] == (i >= s.maxRequests)
  {
    var r := Next(rec, s, times[0]);
    assert r == Record(1, times[0] + s.windowMs);
    var rest := times[1..];
    forall i | 0 <= i < |rest| ensures rest[i] <= r.resetAt {
      assert rest[i] == times[i + 1];
    }
    ReplayInsideWindow(1, r.resetAt, s, rest);
    var tail := Replay(Some(r), s, rest);
    assert Replay(rec, s, times) == [r.count > s.maxRequests] + tail;
    forall i | 1 <= i < |times| ensures Replay(rec, s, times)[i] == (i >= s.maxRequests) {
      assert tail[i - 1] == (1 + (i - 1) + 1 > s.maxRequests);
    }
  }

  /** The limiter object: its table of records and its per-action-type settings. */
  class RateLimiter {
    var store: map<Key, Record>
    const settings: map<string, Settings>

    /** Every open window ends at most one window length after `now`. */
    ghost predicate WindowsWithin(now: int)
      reads this
    {
      forall k :: k in store && k.1 in settings ==> store[k].resetAt <= now + settings[k.1].windowMs
    }

    /**
     * A clock that does not go backwards keeps every window within one window
     * length of the present.
     */
    lemma WindowsWithinLater(t: int, u: int)
      requires t <= u && WindowsWithin(t)
      ensures WindowsWithin(u)
    {
    }

    /**
     * An empty table with the given settings (the source installs
     * DefaultSettings()). The table keys on the pair (ip, actionType) where
     * the source keys on the string ip + ":" + actionType; the two agree for the
     * three configured action types, but not for arbitrary ones ("a" and "b:a"
     * give ("x:b", "a") and ("x", "b:a") the same string).
     */
    constructor (settings: map<string, Settings>)
      ensures this.settings == settings && store == map[]
      ensures forall now :: WindowsWithin(now)
    {
      this.settings := settings;
      store := map[];
    }

    /** `shouldLimit`: count one request for (ip, actionType) and say whether it is over the allowance. */
    method ShouldLimit(ip: string, actionType: string, now: int) returns (limited: bool)
      requires actionType in settings
      modifies this
      ensures store == old(store)[(ip, actionType) := Next(Lookup(old(store), (ip, actionType)), settings[actionType], now)]
      ensures (ip, actionType) !in old(store) || now > old(store)[(ip, actionType)].resetAt ==>
        store[(ip, actionType)] == Record(1, now + settings[actionType].windowMs)
      ensures (ip, actionType) in old(store) && now <= old(store)[(ip, actionType)].resetAt ==>
        store[(ip, actionType)] == old(store)[(ip, actionType)].(count := old(store)[(ip, actionType)].count + 1)
      ensures limited <==> store[(ip, actionType)].count > settings[actionType].maxRequests
      ensures limited ==> RemainingRequests(ip, actionType, now) == 0
      ensures !limited ==>
        RemainingRequests(ip, actionType, now) == settings[actionType].maxRequests - store[(ip, actionType)].count
      ensures old(WindowsWithin(now)) ==> WindowsWithin(now)
    {
      var key := (ip, actionType);
      var s := settings[actionType];
      if key !in store {
        store := store[key := Record(0, now + s.windowMs)];
      }
      var record := store[key];
      if now > record.resetAt {
        record := Record(0, now + s.windowMs);
      }
      record := record.(count := record.count + 1);
      store := store[key := record];
      limited := record.count > s.maxRequests;
    }

    /** `getRemainingRequests`: requests still allowed in the current window of (ip, actionType). */
    function RemainingRequests(ip: string, actionType: string, now: int): (n: nat)
      reads this
      requires actionType in settings
      ensures n <= settings[actionType].maxRequests
      ensures (ip, actionType) !in store || now > store[(ip, actionType)].resetAt ==>
        n == settings[actionType].maxRequests
      ensures (ip, actionType) in store && now <= store[(ip, actionType)].resetAt ==>
        && (n == 0 <==> store[(ip, actionType)].count >= settings[actionType].maxRequests)
        && (store[(ip, actionType)].count <= settings[actionType].maxRequests ==>
              n + store[(ip, actionType)].count == settings[actionType].maxRequests)
    {
      var key := (ip, actionType);
      var max := settings[actionType].maxRequests;
      if key !in store || now > store[key].resetAt then max
      else if max >= store[key].count then max - store[key].count
      else 0
    }

    /** `getTimeUntilReset`: milliseconds until the window of (ip, actionType) ends, 0 when there is none. */
    function TimeUntilReset(ip: string, actionType: string, now: int): (ms: nat)
      reads this
      ensures ms == 0 <==> (ip, actionType) !in store || store[(ip, actionType)].resetAt <= now
      ensures (ip, actionType) in store && now <= store[(ip, actionType)].resetAt ==>
        now + ms == store[(ip, actionType)].resetAt
      ensures actionType in settings && WindowsWithin(now) ==> ms <= settings[actionType].windowMs
    {
      var key := (ip, actionType);
      if key !in store then 0
      else if store[key].resetAt > now then store[key].resetAt - now
      else 0
    }

    /** `clearAll`: delete every record, one key at a time. */
    method ClearAll()
      modifies this
      ensures store == map[]
      ensures forall ip, actionType, now :: actionType in settings ==>
        RemainingRequests(ip, actionType, now) == settings[actionType].maxRequests &&
        TimeUntilReset(ip, actionType, now) == 0
    {
      while store != map[]
        decreases |store|
      {
        var key :| key in store;
        store := store - {key};
      }
    }
  }

  /**
   * A window that has run out: five requests inside one hour pass, the sixth
   * is refused, and the first request after the hour passes again and leaves
   * four of the five allowed. The verdicts of the successive calls are those
   * Replay gives.
   */
  method WindowResetScenario(ip: string, t: int) returns (limited: seq<bool>, remaining: nat)
    ensures limited == [false, false, false, false, false, true, false]
    ensures remaining == 4
  {
    var limiter := new RateLimiter(DefaultSettings());
    var key := (ip, "appointment");
    var s := DefaultSettings()["appointment"];
    var times := [t, t, t, t, t, t, t + MsPerHour + 1];
    limited := [];
    for i := 0 to |times|
      invariant limiter.settings == DefaultSettings()
      invariant Lookup(limiter.store, key) == After(None, s, times[..i])
      invariant limited == Replay(None, s, times[..i])
      invariant 0 < i <= 6 ==> Lookup(limiter.store, key) == Some(Record(i, t + MsPerHour))
      invariant i > 6 ==> After(None, s, times[..6]) == Some(Record(6, t + MsPerHour))
    {
      var b := limiter.ShouldLimit(ip, "appointment", times[i]);
      ReplaySnoc(None, s, times[..i], times[i]);
      assert times[..i + 1] == times[..i] + [times[i]];
      limited := limited + [b];
    }
    assert times[..|times|] == times;
    FreshWindowAdmitsAllowance(None, s, times[..6]);
    ReplaySnoc(None, s, times[..6], times[6]);
    assert times[..6] + [times[6]] == times;
    var first := Replay(None, s, times[..6]);
    assert first == [false, false, false, false, false, true] by {
      assert forall k :: 0 <= k < 6 ==> first[k] == (k >= 5);
    }
    assert limiter.store[key] == Record(1, t + MsPerHour + 1 + MsPerHour);
    remaining := limiter.RemainingRequests(ip, "appointment", t + MsPerHour + 1);
  }
}
