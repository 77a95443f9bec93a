/**
 * The sliding-window limiter. It forgets requests older than a minute, and whole windows at cleanup,
 * yet answers as a log that forgets nothing would; no minute ever holds more than the limit.
 */
module RateLimits {
  import opened Support

  const WINDOW_SECONDS := 60.0

  type KeyId = nat

  datatype Headers = Headers(limit: int, remaining: int, reset: int)

  ghost predicate Ascending(log: seq<real>, now: real) {
    (forall i, j | 0 <= i < j < |log| :: log[i] <= log[j]) && forall i | 0 <= i < |log| :: log[i] <= now
  }

  /** How many requests of a log lie in a closed interval. */
  ghost function CountIn(log: seq<real>, from: real, to: real): nat {
    if log == [] then 0 else (if from <= log[0] <= to then 1 else 0) + CountIn(log[1..], from, to)
  }

  /** What is left of a log once everything before a moment is forgotten. */
  ghost function Since(log: seq<real>, from: real): seq<real> {
    if log == [] || log[0] >= from then log else Since(log[1..], from)
  }

  /** From some moment on, a window and its log cannot be told apart. */
  ghost predicate Agree(window: seq<real>, log: seq<real>, from: real) {
    forall later: real | later >= from :: Since(window, later) == Since(log, later)
  }

  lemma {:induction false} SinceKeeps(log: seq<real>, from: real, now: real)
    requires Ascending(log, now)
    ensures Ascending(Since(log, from), now)
    ensures Since(log, from) != [] ==> Since(log, from)[0] >= from
  {
    if log != [] && log[0] < from {
      SinceKeeps(log[1..], from, now);
    }
  }

  /** What is left of a log is its end, from the first entry not before the moment. */
  lemma {:induction false} SinceIsTheEnd(log: seq<real>, from: real, now: real)
    requires Ascending(log, now)
    ensures var k := |log| - |Since(log, from)|;
      && 0 <= k && Since(log, from) == log[k..]
      && (forall i | 0 <= i < k :: log[i] < from) && forall i | k <= i < |log| :: log[i] >= from
  {
    if log != [] && log[0] < from {
      SinceIsTheEnd(log[1..], from, now);
      assert log == [log[0]] + log[1..];
    }
  }

  lemma {:induction false} SinceTwice(log: seq<real>, from: real, later: real)
    requires from <= later
    ensures Since(Since(log, from), later) == Since(log, later)
  {
    if log != [] && log[0] < from {
      SinceTwice(log[1..], from, later);
    }
  }

  lemma {:induction false} SinceAppend(log: seq<real>, x: real, from: real)
    ensures Since(log + [x], from)
         == if Since(log, from) != [] then Since(log, from) + [x] else if x >= from then [x] else []
  {
    if log == [] {
      assert Since([x][1..], from) == [];
    } else if log[0] < from {
      assert (log + [x])[1..] == log[1..] + [x];
      SinceAppend(log[1..], x, from);
    }
  }

  /** Evicting, and recording the same request on both sides, keeps the agreement. */
  lemma {:induction false} AgreeAfter(window: seq<real>, log: seq<real>, before: real, from: real, x: real)
    requires Agree(window, log, before) && before <= from
    ensures Agree(Since(window, from), log, from) && Agree(Since(window, from) + [x], log + [x], from)
  {
    forall later: real | later >= from
      ensures Since(Since(window, from), later) == Since(log, later)
      ensures Since(Since(window, from) + [x], later) == Since(log + [x], later)
    {
      SinceTwice(window, from, later);
      SinceAppend(Since(window, from), x, later);
      SinceAppend(log, x, later);
    }
  }

  /** A window whose last request is too old answers like none at all. */
  lemma {:induction false} StaleIsEmpty(window: seq<real>, from: real, now: real)
    requires Ascending(window, now) && (window == [] || window[|window| - 1] < from)
    ensures Since(window, from) == []
  {
    if window != [] {
      StaleIsEmpty(window[1..], from, now);
    }
  }

  lemma {:induction false} AllCounted(log: seq<real>, from: real, to: real)
    requires forall i | 0 <= i < |log| :: from <= log[i] <= to
    ensures CountIn(log, from, to) == |log|
  {
    if log != [] {
      AllCounted(log[1..], from, to);
    }
  }

  /** The evicted window's length is the number of requests accepted in the closed interval up to now. */
  lemma {:induction false} SinceCounts(log: seq<real>, from: real, now: real)
    requires Ascending(log, now)
    ensures |Since(log, from)| == CountIn(log, from, now)
  {
    if log != [] {
      if log[0] < from {
        SinceCounts(log[1..], from, now);
      } else {
        AllCounted(log, from, now);
      }
    }
  }

  // ---- At most the limit in any minute ----

  lemma {:induction false} CountAppend(log: seq<real>, x: real, from: real, to: real)
    ensures CountIn(log + [x], from, to) == CountIn(log, from, to) + if from <= x <= to then 1 else 0
  {
    if log == [] {
      assert CountIn([x][1..], from, to) == 0;
    } else {
      assert (log + [x])[1..] == log[1..] + [x];
      CountAppend(log[1..], x, from, to);
    }
  }

  /** The positions of the requests in the closed minute up to a moment. */
  ghost function LastMinute(log: seq<real>, now: real): set<int> {
    set i | 0 <= i < |log| && now - 60.0 <= log[i] <= now
  }

  lemma {:induction false} CountIsSize(log: seq<real>, now: real)
    ensures CountIn(log, now - 60.0, now) == |LastMinute(log, now)|
  {
    if log == [] {
      assert LastMinute(log, now) == {};
    } else {
      var front, n := log[..|log| - 1], |log| - 1;
      assert log == front + [log[n]];
      CountAppend(front, log[n], now - 60.0, now);
      CountIsSize(front, now);
      assert LastMinute(log, now) == LastMinute(front, now) + if now - 60.0 <= log[n] <= now then {n} else {};
    }
  }

  lemma {:induction false} CountGrows(log: seq<real>, from: real, to: real, wideFrom: real, wideTo: real)
    requires forall i | 0 <= i < |log| && from <= log[i] <= to :: wideFrom <= log[i] <= wideTo
    ensures CountIn(log, from, to) <= CountIn(log, wideFrom, wideTo)
  {
    if log != [] {
      CountGrows(log[1..], from, to, wideFrom, wideTo);
    }
  }

  /** Every request was accepted with fewer than `limit` accepted in the closed minute before it. */
  ghost predicate Paced(log: seq<real>, limit: int) {
    log == [] || (var front, last := log[..|log| - 1], log[|log| - 1];
                  Paced(front, limit) && CountIn(front, last - 60.0, last) < limit)
  }

  /** A paced log holds at most `limit` requests in any closed minute. */
  lemma {:induction false} AtMostLimitPerMinute(log: seq<real>, limit: int, end: real, now: real)
    requires Ascending(log, now) && Paced(log, limit)
    ensures |LastMinute(log, end)| <= Max(0, limit)
  {
    if log == [] {
      assert LastMinute(log, end) == {};
    } else {
      var front, last := log[..|log| - 1], log[|log| - 1];
      assert log == front + [last];
      CountAppend(front, last, end - 60.0, end);
      AtMostLimitPerMinute(front, limit, end, now);
      CountIsSize(front, end);
      CountIsSize(log, end);
      if end - 60.0 <= last <= end {
        CountGrows(front, end - 60.0, end, last - 60.0, last);
      }
    }
  }

  /** All that one decision needs of a key's window and log. */
  lemma {:induction false} CheckFacts(window: seq<real>, log: seq<real>, clock: real, now: real)
    requires clock <= now && Ascending(window, clock) && Ascending(log, clock)
    requires Agree(window, log, clock - WINDOW_SECONDS)
    ensures var from := now - WINDOW_SECONDS; var kept := Since(window, from);
      && kept == Since(log, from) && |kept| == CountIn(log, from, now)
      && Ascending(kept, now) && Ascending(kept + [now], now) && Ascending(log, now) && Ascending(log + [now], now)
      && Agree(kept, log, from) && Agree(kept + [now], log + [now], from)
  {
    SinceCounts(log, now - WINDOW_SECONDS, now);
    SinceKeeps(window, now - WINDOW_SECONDS, clock);
    AgreeAfter(window, log, clock - WINDOW_SECONDS, now - WINDOW_SECONDS, now);
  }

  /** The last minute's requests are the end of the log: as many as counted, the oldest first. */
  lemma {:induction false} OldestIsFirst(log: seq<real>, now: real, clock: real)
    requires Ascending(log, clock) && clock <= now
    ensures var recent, kept := LastMinute(log, now), Since(log, now - 60.0);
      && |recent| == |kept| && (recent == {} <==> kept == [])
      && forall i | IsOldest(recent, i) :: kept != [] && kept[0] == log[i]
  {
    var k := |log| - |Since(log, now - 60.0)|;
    SinceCounts(log, now - 60.0, clock);
    SinceIsTheEnd(log, now - 60.0, clock);
    CountIsSize(log, now);
    CountUpTo(log, now - 60.0, clock, now);
    if k < |log| {
      assert k in LastMinute(log, now);
    }
  }

  /** Nothing is logged after the clock. */
  lemma {:induction false} CountUpTo(log: seq<real>, from: real, clock: real, now: real)
    requires clock <= now && forall i | 0 <= i < |log| :: log[i] <= clock
    ensures CountIn(log, from, clock) == CountIn(log, from, now)
  {
    if log != [] {
      CountUpTo(log[1..], from, clock, now);
    }
  }

  lemma {:induction false} StillRemembers(window: seq<real>, log: seq<real>, clock: real, now: real)
    requires clock <= now && Ascending(window, clock) && Ascending(log, clock)
    requires Agree(window, log, clock - WINDOW_SECONDS)
    ensures Ascending(window, now) && Ascending(log, now) && Agree(window, log, now - WINDOW_SECONDS)
  {
  }

  /** int() of the host language: toward zero. */
  function Truncate(x: real): int {
    if x >= 0.0 then x.Floor else -(-x).Floor
  }

  lemma {:induction false} TruncateIsTowardZero(x: real)
    ensures var n := Truncate(x);
      if x >= 0.0 then n as real <= x < (n + 1) as real else (n - 1) as real < x <= n as real
  {
  }

  ghost predicate IsOldest(recent: set<int>, i: int) {
    i in recent && forall j | j in recent :: i <= j
  }

  /**
   * The answer the full log gives: let through exactly when fewer than the limit lie in the last 60
   * seconds; how many are left; and the second at which the oldest of them is a minute old.
   */
  ghost predicate AnswerOf(log: seq<real>, limit: int, now: real, unix: real, allowed: bool, headers: Headers) {
    var recent := LastMinute(log, now);
    && (allowed <==> |recent| < limit) && headers.limit == limit
    && headers.remaining == (if allowed then limit - |recent| - 1 else 0)
    && (recent == {} ==> headers.reset == Truncate(unix + 60.0))
    && forall i | IsOldest(recent, i) :: headers.reset == Truncate(unix + (log[i] + 60.0 - now))
  }

  lemma {:induction false} WindowAnswers(log: seq<real>, clock: real, window: seq<real>, limit: int, now: real,
      unix: real, resetAt: real)
    requires Ascending(log, clock) && clock <= now && window == Since(log, now - WINDOW_SECONDS)
    requires resetAt == if window != [] then window[0] + WINDOW_SECONDS else now + WINDOW_SECONDS
    ensures var answer := Headers(limit, Max(0, limit - |window|), Truncate(unix + (resetAt - now)));
      AnswerOf(log, limit, now, unix, |window| < limit,
               if |window| < limit then answer.(remaining := answer.remaining - 1) else answer)
  {
    hide Truncate, Since, Ascending, LastMinute;
    OldestIsFirst(log, now, clock);
  }

  class RateLimiter {
    var windows: map<KeyId, seq<real>>
    /** Every accepted request, never forgotten, and the latest time the monotonic clock has shown. */
    ghost var accepted: map<KeyId, seq<real>>
    ghost var clock: real

    function Window(key: KeyId): seq<real>
      reads this
    {
      if key in windows then windows[key] else []
    }

    ghost function Log(key: KeyId): seq<real>
      reads this
    {
      if key in accepted then accepted[key] else []
    }

    ghost predicate Remembers(key: KeyId)
      reads this
    {
      && Ascending(Log(key), clock) && Ascending(Window(key), clock)
      && Agree(Window(key), Log(key), clock - WINDOW_SECONDS)
    }

    ghost predicate Valid()
      reads this
    {
      forall key: KeyId :: Remembers(key)
    }

    constructor ()
      ensures Valid() && accepted == map[]
    {
      windows, accepted, clock := map[], map[], 0.0;
      new;
      assert forall key: KeyId :: Log(key) == [] && Window(key) == [];
    }

    /**
     * Decides one request at monotonic time `now` and Unix time `unix`. The answer and the headers are
     * those of the full log: how many requests it accepted in the last closed minute, and the oldest of them,
     * a minute after which the next one is let through.
     */
    method Check(key: KeyId, limit: Option<int>, now: real, unix: real) returns (allowed: bool,
        headers: Option<Headers>)
      requires Valid() && clock <= now
      modifies this
      ensures Valid() && clock == (if limit.None? then old(clock) else now)
      ensures limit.None? ==> allowed && headers == None && accepted == old(accepted)
      ensures limit.Some? ==> headers.Some? && AnswerOf(old(Log(key)), limit.value, now, unix, allowed, headers.value)
      ensures limit.Some? ==> forall k: KeyId ::
        Log(k) == if k == key && allowed then old(Log(k)) + [now] else old(Log(k))
    {
      if limit.None? {
        return true, None;
      }
      hide Agree, Ascending, Since, CountIn, AnswerOf, Truncate;
      var from := now - WINDOW_SECONDS;
      assert Remembers(key);
      CheckFacts(Window(key), Log(key), clock, now);
      hide Remembers, Valid, Max;
      var window := Evict(if key in windows then windows[key] else [], from);
      var remaining := Max(0, limit.value - |window|);
      var resetAt := if window != [] then window[0] + WINDOW_SECONDS else now + WINDOW_SECONDS;
      WindowAnswers(Log(key), clock, window, limit.value, now, unix, resetAt);
      var answer := Headers(limit.value, remaining, Truncate(unix + (resetAt - now)));
      if |window| >= limit.value {
        Put(key, window, Log(key), now);
        return false, Some(answer);
      }
      Put(key, window + [now], Log(key) + [now], now);
      return true, Some(answer.(remaining := remaining - 1));
    }

    /** Pops expired entries from the left. */
    static method Evict(entries: seq<real>, from: real) returns (window: seq<real>)
      ensures window == Since(entries, from)
    {
      window := entries;
      while window != [] && window[0] < from
        invariant Since(window, from) == Since(entries, from)
        decreases |window|
      {
        window := window[1..];
      }
    }

    /** Writes a key's window back, and its log beside it. */
    method Put(key: KeyId, window: seq<real>, ghost log: seq<real>, now: real)
      requires Valid() && clock <= now
      requires Ascending(window, now) && Ascending(log, now) && Agree(window, log, now - WINDOW_SECONDS)
      modifies this
      ensures Valid() && clock == now && windows == old(windows)[key := window]
      ensures forall k: KeyId :: Log(k) == if k == key then log else old(Log(k))
    {
      windows, accepted, clock := windows[key := window], accepted[key := log], now;
      forall k: KeyId ensures Remembers(k) {
        if k != key {
          assert old(Remembers(k));
          StillRemembers(Window(k), Log(k), old(clock), clock);
        }
      }
    }

    /** Deletes some keys' windows, one by one. */
    method Drop(keys: set<KeyId>)
      modifies this`windows
      ensures windows == old(windows) - keys
    {
      ghost var before := windows;
      var left := keys;
      while left != {}
        invariant left <= keys && windows == before - (keys - left)
        decreases |left|
      {
        var k :| k in left;
        windows := windows - {k};
        left := left - {k};
      }
    }

    /**
     * Drops the windows without a request in the last minute, and says how many. No later answer changes:
     * the log is untouched.
     */
    method Cleanup(now: real) returns (removed: nat)
      requires Valid() && clock <= now
      modifies this`windows, this`clock
      ensures Valid() && clock == now
      ensures var before := old(windows);
        var stale := set k | k in before && (before[k] == [] || before[k][|before[k]| - 1] < now - 60.0);
        windows == old(windows) - stale && removed == |stale|
    {
      var stale := set k | k in windows && (windows[k] == [] || windows[k][|windows[k]| - 1] < now - WINDOW_SECONDS);
      ghost var before := windows;
      removed := |stale|;
      Drop(stale);
      clock := now;
      hide Ascending, Agree;
      forall k: KeyId ensures Remembers(k) {
        assert old(Remembers(k));
        CleanupAgrees(before, k, Log(k), old(clock), now);
      }
    }
  }

  /** Dropping a stale window keeps its agreement with the log. */
  lemma {:induction false} CleanupAgrees(windows: map<KeyId, seq<real>>, key: KeyId, log: seq<real>, clock: real,
      now: real)
    requires clock <= now
    requires var window := if key in windows then windows[key] else [];
      Ascending(window, clock) && Ascending(log, clock) && Agree(window, log, clock - WINDOW_SECONDS)
    ensures var stale := key in windows
       && (windows[key] == [] || windows[key][|windows[key]| - 1] < now - WINDOW_SECONDS);
      var window := if key in windows && !stale then windows[key] else [];
      Ascending(window, now) && Ascending(log, now) && Agree(window, log, now - WINDOW_SECONDS)
  {
    var window := if key in windows then windows[key] else [];
    forall later: real | later >= now - WINDOW_SECONDS && (window == [] || window[|window| - 1] < now - WINDOW_SECONDS)
      ensures Since([], later) == Since(log, later)
    {
      StaleIsEmpty(window, later, clock);
      assert Since(window, later) == Since(log, later);
    }
  }

  datatype Event = Request(key: KeyId, now: real, unix: real) | CleanupAt(now: real)

  ghost predicate Ordered(events: seq<Event>, from: real) {
    && (forall i | 0 <= i < |events| :: from <= events[i].now)
    && forall i, j | 0 <= i < j < |events| :: events[i].now <= events[j].now
  }

  lemma {:induction false} PacedGrows(log: seq<real>, limit: int, now: real)
    requires Paced(log, limit) && CountIn(log, now - WINDOW_SECONDS, now) < limit
    ensures Paced(log + [now], limit)
  {
    assert (log + [now])[..|log|] == log;
  }

  /** The reference: may a request pass, by a log of all accepted requests of its key? */
  ghost predicate Allows(log: seq<real>, limit: Option<int>, now: real) {
    limit.Some? ==> |LastMinute(log, now)| < limit.value
  }

  /** The log of a key's limited requests after some events, when every one is decided by the log alone. */
  ghost function LogAfter(events: seq<Event>, limits: KeyId -> Option<int>, key: KeyId): seq<real> {
    if events == [] then []
    else Logged(LogAfter(events[..|events| - 1], limits, key), events[|events| - 1], limits, key)
  }

  ghost function Logged(log: seq<real>, event: Event, limits: KeyId -> Option<int>, key: KeyId): seq<real> {
    match event
    case CleanupAt(_) => log
    case Request(k, now, _) => if k == key && limits(k).Some? && Allows(log, limits(k), now) then log + [now] else log
  }

  lemma {:induction false} LogAfterOneMore(events: seq<Event>, n: nat, limits: KeyId -> Option<int>, key: KeyId)
    requires n < |events|
    ensures LogAfter(events[..n + 1], limits, key) == Logged(LogAfter(events[..n], limits, key), events[n], limits, key)
  {
    assert events[..n + 1][..n] == events[..n];
  }

  ghost function LastMoment(events: seq<Event>, from: real): real {
    if events == [] then from else events[|events| - 1].now
  }

  lemma {:induction false} AscendingGrows(log: seq<real>, before: real, now: real)
    requires Ascending(log, before) && before <= now
    ensures Ascending(log, now) && Ascending(log + [now], now)
  {
  }

  lemma {:induction false} LogAfterPaced(events: seq<Event>, limits: KeyId -> Option<int>, key: KeyId, from: real)
    requires Ordered(events, from)
    ensures Ascending(LogAfter(events, limits, key), LastMoment(events, from))
    ensures limits(key).Some? ==> Paced(LogAfter(events, limits, key), limits(key).value)
  {
    hide Ascending, CountIn, Paced;
    if events == [] {
      NothingLogged(from, if limits(key).Some? then limits(key).value else 0);
    } else {
      var front, last := events[..|events| - 1], events[|events| - 1];
      LogAfterPaced(front, limits, key, from);
      var log := LogAfter(front, limits, key);
      AscendingGrows(log, LastMoment(front, from), last.now);
      if last.Request? && last.key == key && limits(key).Some? && Allows(log, limits(key), last.now) {
        CountIsSize(log, last.now);
        PacedGrows(log, limits(key).value, last.now);
      }
    }
  }

  lemma {:induction false} NothingLogged(now: real, limit: int)
    ensures Ascending([], now) && Paced([], limit)
  {
  }

  /** On a clock that never goes back, no closed minute holds more accepted requests of a key than its fixed limit. */
  lemma {:induction false} NeverOverLimit(events: seq<Event>, limits: KeyId -> Option<int>, key: KeyId, start: real,
      end: real)
    requires Ordered(events, start) && limits(key).Some?
    ensures |LastMinute(LogAfter(events, limits, key), end)| <= Max(0, limits(key).value)
  {
    LogAfterPaced(events, limits, key, start);
    AtMostLimitPerMinute(LogAfter(events, limits, key), limits(key).value, end, LastMoment(events, start));
  }

  lemma {:induction false} NothingAfter(limits: KeyId -> Option<int>)
    ensures forall key: KeyId :: LogAfter([], limits, key) == []
  {
  }

  /** One event: a request is answered by its key's log, and the logs grow by it if it passes. */
  method Answer(limiter: RateLimiter, limits: KeyId -> Option<int>, event: Event) returns (answer: bool)
    requires limiter.Valid() && limiter.clock <= event.now
    modifies limiter
    ensures limiter.Valid() && limiter.clock <= event.now
    ensures event.Request? ==> answer == Allows(old(limiter.Log(event.key)), limits(event.key), event.now)
    ensures forall key: KeyId :: limiter.Log(key) == Logged(old(limiter.Log(key)), event, limits, key)
  {
    hide LastMinute;
    match event
    case Request(key, now, unix) =>
      var headers;
      answer, headers := limiter.Check(key, limits(key), now, unix);
    case CleanupAt(now) =>
      var removed := limiter.Cleanup(now);
      answer := true;
  }

  /** Any run of requests by any keys and cleanups: every answer is the one the unbounded log gives. */
  method RunLimited(limiter: RateLimiter, limits: KeyId -> Option<int>, events: seq<Event>) returns (answers: seq<bool>)
    requires limiter.Valid() && limiter.accepted == map[] && Ordered(events, limiter.clock)
    modifies limiter
    ensures limiter.Valid() && |answers| == |events|
    ensures forall key: KeyId :: limiter.Log(key) == LogAfter(events, limits, key)
    ensures forall i | 0 <= i < |events| && events[i].Request? ::
      answers[i] == Allows(LogAfter(events[..i], limits, events[i].key), limits(events[i].key), events[i].now)
  {
    hide LogAfter, Logged, Allows;
    answers := [];
    assert events[..0] == [] && forall key: KeyId :: LogAfter([], limits, key) == [] by {
      NothingAfter(limits);
    }
    for n := 0 to |events|
      invariant limiter.Valid() && |answers| == n && forall i | n <= i < |events| :: limiter.clock <= events[i].now
      invariant forall key: KeyId :: limiter.Log(key) == LogAfter(events[..n], limits, key)
      invariant forall i | 0 <= i < n && events[i].Request? ::
        answers[i] == Allows(LogAfter(events[..i], limits, events[i].key), limits(events[i].key), events[i].now)
    {
      forall key: KeyId
        ensures LogAfter(events[..n + 1], limits, key)
             == Logged(LogAfter(events[..n], limits, key), events[n], limits, key)
      {
        LogAfterOneMore(events, n, limits, key);
      }
      var answer := Answer(limiter, limits, events[n]);
      answers := answers + [answer];
    }
    assert events[..|events|] == events;
  }
}
