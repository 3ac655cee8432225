/** MessageRateLimiter: per-key duplicate suppression plus an optional global ceiling
    on the number of messages let through in a rolling time window. Time is the
    integer `now` the caller passes in. */
module RateLimiter {
  import opened Common

  /** The limiter's parameters. A global count or window of 0 stands for None:
      either being falsy switches the global ceiling off. */
  datatype Config = Config(
    timeout: int,
    maxDuplicates: int,
    cleanupInterval: int,
    globalLimitCount: int,
    globalLimitWindow: int)

  /** `(last_time, count)` as stored per key. */
  datatype Entry = Entry(lastTime: int, count: int)

  datatype State = State(messages: map<string, Entry>, recentTimes: seq<int>, lastCleanup: int)

  datatype Stats = Stats(lastSent: int, count: int, blocked: bool)

  /** Defaults of the constructor: timeout 300, one duplicate, cleanup every 60, no global ceiling. */
  const DefaultConfig := Config(300, 1, 60, 0, 0)

  /** `f"{message_type}:{message}"` when a truthy type is given, else the message itself. */
  function Key(message: string, messageType: Option<string>): string
  {
    if messageType.Some? && messageType.value != "" then messageType.value + ":" + message else message
  }

  /** The same message under two different types gets two different keys. */
  lemma KeyTypeSeparates(message: string, t1: string, t2: string)
    requires t1 != "" && t2 != "" && t1 != t2
    ensures Key(message, Some(t1)) != Key(message, Some(t2))
  {
    var k1, k2 := Key(message, Some(t1)), Key(message, Some(t2));
    if |t1| == |t2| {
      assert k1[..|t1|] == t1 && k2[..|t2|] == t2;
    }
  }

  predicate GlobalActive(c: Config)
  {
    c.globalLimitCount != 0 && c.globalLimitWindow != 0
  }

  /** The timestamps still inside the window ending at `now`, in their order. */
  function InWindow(ts: seq<int>, now: int, window: int): (r: seq<int>)
    ensures |r| <= |ts|
    ensures forall t :: t in r ==> t in ts && now - t < window
    ensures forall t :: t in ts && now - t < window ==> t in r
  {
    if ts == [] then []
    else
      var last := ts[|ts| - 1];
      InWindow(ts[..|ts| - 1], now, window) + (if now - last < window then [last] else [])
  }

  /** The entries a cleanup at `now` keeps: those not older than `horizon`. */
  function Cleanup(m: map<string, Entry>, now: int, horizon: int): (r: map<string, Entry>)
    ensures forall k :: k in r <==> k in m && now - m[k].lastTime <= horizon
    ensures forall k :: k in r ==> r[k] == m[k]
  {
    map k | k in m && now - m[k].lastTime <= horizon :: m[k]
  }

  /** The per-key verdict and the entry stored for the key afterwards. */
  function Decide(c: Config, m: map<string, Entry>, key: string, now: int): (bool, Entry)
  {
    if key in m then
      var e := m[key];
      if e.count >= c.maxDuplicates && now - e.lastTime < c.timeout then (false, Entry(e.lastTime, e.count + 1))
      else if now - e.lastTime >= c.timeout then (true, Entry(now, 1))
      else (true, Entry(e.lastTime, e.count + 1))
    else (true, Entry(now, 1))
  }

  /** The global gate lets the call through: the ceiling is off, or fewer than
      `global_limit_count` sends fall inside the window. */
  predicate GatePasses(c: Config, st: State, now: int)
  {
    !GlobalActive(c) || |InWindow(st.recentTimes, now, c.globalLimitWindow)| < c.globalLimitCount
  }

  /** One `should_send` call, where a due cleanup drops the entries older than `horizon`. */
  function Step(c: Config, st: State, key: string, now: int, horizon: int): (bool, State)
  {
    var recent := if GlobalActive(c) then InWindow(st.recentTimes, now, c.globalLimitWindow) else st.recentTimes;
    if !GatePasses(c, st, now) then (false, st.(recentTimes := recent))
    else
      var due := now - st.lastCleanup > c.cleanupInterval;
      var m := if due then Cleanup(st.messages, now, horizon) else st.messages;
      var d := Decide(c, m, key, now);
      (d.0, State(m[key := d.1], if d.0 && GlobalActive(c) then recent + [now] else recent,
                  if due then now else st.lastCleanup))
  }

  function Max(a: int, b: int): int { if a >= b then a else b }

  /** The corrected staleness horizon: entries are only dropped once both the cleanup
      interval and the duplicate timeout have passed. The source's cleanup compares against
      `cleanup_interval` alone (see `CleanupIntervalReadmitsDuplicate`), and
      `MessageRateLimiter` runs that as-written horizon. */
  function Horizon(c: Config): int
  {
    Max(c.cleanupInterval, c.timeout)
  }

  // ---------------------------------------------------------------------------
  // Properties of one call

  /** A key never seen before is let through when the global gate passes, and recorded as (now, 1). */
  lemma FirstSendAllowed(c: Config, st: State, key: string, now: int, horizon: int)
    requires key !in st.messages && GatePasses(c, st, now)
    ensures Step(c, st, key, now, horizon).0
    ensures Step(c, st, key, now, horizon).1.messages[key] == Entry(now, 1)
  {
  }

  /** A cleanup due at `now` keeps the entry of a key with this horizon: no cleanup is
      due, or the entry is not older than the horizon. */
  predicate SurvivesCleanup(c: Config, st: State, key: string, now: int, horizon: int)
    requires key in st.messages
  {
    !(now - st.lastCleanup > c.cleanupInterval) || now - st.messages[key].lastTime <= horizon
  }

  /** Within the timeout, once the count has reached max_duplicates the send is refused,
      the count goes up and last_time stays where it was, provided the entry survives a
      cleanup due at this call. Under the as-written horizon a due cleanup can delete an
      entry older than `cleanup_interval`, and the send is then allowed as a first one. */
  lemma DenialKeepsLastTime(c: Config, st: State, key: string, now: int, horizon: int)
    requires key in st.messages && GatePasses(c, st, now)
    requires st.messages[key].count >= c.maxDuplicates && now - st.messages[key].lastTime < c.timeout
    requires SurvivesCleanup(c, st, key, now, horizon)
    ensures !Step(c, st, key, now, horizon).0
    ensures Step(c, st, key, now, horizon).1.messages[key]
            == Entry(st.messages[key].lastTime, st.messages[key].count + 1)
  {
  }

  /** With the corrected horizon every entry still inside its timeout survives a cleanup. */
  lemma HorizonKeepsLiveEntries(c: Config, st: State, key: string, now: int)
    requires key in st.messages && now - st.messages[key].lastTime < c.timeout
    ensures SurvivesCleanup(c, st, key, now, Horizon(c))
  {
  }

  /** Once the timeout has passed, the entry restarts at (now, 1) and the send is allowed. */
  lemma ResetAfterTimeout(c: Config, st: State, key: string, now: int, horizon: int)
    requires key in st.messages && GatePasses(c, st, now)
    requires now - st.messages[key].lastTime >= c.timeout
    ensures Step(c, st, key, now, horizon).0
    ensures Step(c, st, key, now, horizon).1.messages[key] == Entry(now, 1)
  {
  }

  /** A global refusal returns before the per-key bookkeeping: messages and last_cleanup
      are untouched and only the expired timestamps are dropped. */
  lemma GlobalDenialTouchesNothing(c: Config, st: State, key: string, now: int, horizon: int)
    requires !GatePasses(c, st, now)
    ensures !Step(c, st, key, now, horizon).0
    ensures Step(c, st, key, now, horizon).1
            == st.(recentTimes := InWindow(st.recentTimes, now, c.globalLimitWindow))
  {
  }

  /** Only allowed sends are recorded in the global window, and never more than
      global_limit_count of them. */
  lemma GlobalCeiling(c: Config, st: State, key: string, now: int, horizon: int)
    requires GlobalActive(c) && |st.recentTimes| <= Max(0, c.globalLimitCount)
    ensures var (ok, st') := Step(c, st, key, now, horizon);
      && |st'.recentTimes| <= Max(0, c.globalLimitCount)
      && st'.recentTimes == InWindow(st.recentTimes, now, c.globalLimitWindow) + (if ok then [now] else [])
  {
  }

  /** get_stats: None for an unknown key; `blocked` when the count is above
      max_duplicates and the timeout has not run out. */
  function StatsOf(c: Config, m: map<string, Entry>, key: string, now: int): (r: Option<Stats>)
    ensures r.None? <==> key !in m
    ensures r.Some? ==> r.value.lastSent == m[key].lastTime && r.value.count == m[key].count
  {
    if key in m then
      var e := m[key];
      Some(Stats(e.lastTime, e.count, e.count > c.maxDuplicates && now - e.lastTime < c.timeout))
    else None
  }

  /** A key reported as blocked is refused by the next call at the same time, unless a
      cleanup due at that call deletes its entry. */
  lemma BlockedMeansDenied(c: Config, st: State, key: string, now: int, horizon: int)
    requires GatePasses(c, st, now)
    requires StatsOf(c, st.messages, key, now).Some? && StatsOf(c, st.messages, key, now).value.blocked
    requires SurvivesCleanup(c, st, key, now, horizon)
    ensures !Step(c, st, key, now, horizon).0
  {
  }

  /** A refusal on a key leaves that key reported as blocked, whatever the horizon. */
  lemma DenialReportsBlocked(c: Config, st: State, key: string, now: int, horizon: int)
    requires GatePasses(c, st, now) && !Step(c, st, key, now, horizon).0
    ensures var st' := Step(c, st, key, now, horizon).1;
      StatsOf(c, st'.messages, key, now).Some? && StatsOf(c, st'.messages, key, now).value.blocked
  {
  }

  // ---------------------------------------------------------------------------
  // The cleanup horizon

  /** With a horizon at least as long as the timeout, a cleanup never changes the verdict
      nor the entry stored for the key. */
  lemma {:induction false} CleanupKeepsVerdict(c: Config, m: map<string, Entry>, key: string, now: int, horizon: int)
    requires horizon >= c.timeout
    ensures Decide(c, Cleanup(m, now, horizon), key, now) == Decide(c, m, key, now)
  {
    if key in m && key !in Cleanup(m, now, horizon) {
      assert now - m[key].lastTime > horizon;
    }
  }

  /** The corrected cleanup horizon never changes a verdict. */
  lemma HorizonKeepsVerdicts(c: Config, st: State, key: string, now: int)
    requires GatePasses(c, st, now)
    ensures Step(c, st, key, now, Horizon(c)).0 == Decide(c, st.messages, key, now).0
  {
    CleanupKeepsVerdict(c, st.messages, key, now, Horizon(c));
  }

  /** As written, `cleanup_messages` drops the entries older than `cleanup_interval` alone.
      With the default 300 s timeout and 60 s interval, a duplicate of "A" 101 s after the
      first is refused by the limiter's horizon but let through by the as-written one,
      because the call for "B" at 100 removed the entry for "A". */
  lemma CleanupIntervalReadmitsDuplicate()
    ensures var c := DefaultConfig;
      var s0 := State(map[], [], 0);
      var s1 := Step(c, s0, "A", 0, c.cleanupInterval).1;
      var s2 := Step(c, s1, "B", 100, c.cleanupInterval).1;
      var t1 := Step(c, s0, "A", 0, Horizon(c)).1;
      var t2 := Step(c, t1, "B", 100, Horizon(c)).1;
      && Step(c, s2, "A", 101, c.cleanupInterval).0
      && !Step(c, t2, "A", 101, Horizon(c)).0
  {
    var c := DefaultConfig;
    var s0 := State(map[], [], 0);
    var s1 := Step(c, s0, "A", 0, c.cleanupInterval).1;
    assert s1.messages == map["A" := Entry(0, 1)];
    var s2 := Step(c, s1, "B", 100, c.cleanupInterval).1;
    assert Cleanup(s1.messages, 100, 60) == map[];
    assert "A" !in s2.messages;
    var t1 := Step(c, s0, "A", 0, Horizon(c)).1;
    var t2 := Step(c, t1, "B", 100, Horizon(c)).1;
    assert Cleanup(t1.messages, 100, 300) == t1.messages;
    assert t2.messages["A"] == Entry(0, 1);
  }

  // ---------------------------------------------------------------------------
  // The limiter object

  class MessageRateLimiter {
    var messages: map<string, Entry>
    var recentTimes: seq<int>
    var lastCleanup: int
    const timeout: int
    const maxDuplicates: int
    const cleanupInterval: int
    const globalLimitCount: int
    const globalLimitWindow: int

    function Cfg(): Config
    {
      Config(timeout, maxDuplicates, cleanupInterval, globalLimitCount, globalLimitWindow)
    }

    function Snapshot(): State
      reads this
    {
      State(messages, recentTimes, lastCleanup)
    }

    /** The global window never holds more than global_limit_count timestamps, and it is
        never filled while the ceiling is off. */
    predicate Valid()
      reads this
    {
      && (GlobalActive(Cfg()) ==> |recentTimes| <= Max(0, globalLimitCount))
      && (!GlobalActive(Cfg()) ==> recentTimes == [])
    }

    constructor (timeout: int, maxDuplicates: int, cleanupInterval: int,
                 globalLimitCount: int, globalLimitWindow: int, now: int)
      ensures Valid()
      ensures Cfg() == Config(timeout, maxDuplicates, cleanupInterval, globalLimitCount, globalLimitWindow)
      ensures Snapshot() == State(map[], [], now)
    {
      this.timeout := timeout;
      this.maxDuplicates := maxDuplicates;
      this.cleanupInterval := cleanupInterval;
      this.globalLimitCount := globalLimitCount;
      this.globalLimitWindow := globalLimitWindow;
      messages := map[];
      recentTimes := [];
      lastCleanup := now;
    }

    method ShouldSend(message: string, messageType: Option<string>, now: int) returns (allowed: bool)
      requires Valid()
      modifies this
      ensures Valid()
      ensures (allowed, Snapshot()) == Step(Cfg(), old(Snapshot()), Key(message, messageType), now, cleanupInterval)
    {
      var key := Key(message, messageType);
      ghost var st := Snapshot();
      if globalLimitCount != 0 && globalLimitWindow != 0 {
        var kept: seq<int> := [];
        var i := 0;
        while i < |recentTimes|
          invariant 0 <= i <= |recentTimes|
          invariant kept == InWindow(recentTimes[..i], now, globalLimitWindow)
        {
          assert recentTimes[..i + 1][..i] == recentTimes[..i];
          if now - recentTimes[i] < globalLimitWindow {
            kept := kept + [recentTimes[i]];
          }
          i := i + 1;
        }
        assert recentTimes[..i] == recentTimes;
        recentTimes := kept;
        if |recentTimes| >= globalLimitCount {
          return false;
        }
      }
      if now - lastCleanup > cleanupInterval {
        CleanupMessages(now);
      }
      if key in messages {
        var e := messages[key];
        if e.count >= maxDuplicates && now - e.lastTime < timeout {
          messages := messages[key := Entry(e.lastTime, e.count + 1)];
          return false;
        }
        if now - e.lastTime >= timeout {
          messages := messages[key := Entry(now, 1)];
        } else {
          messages := messages[key := Entry(e.lastTime, e.count + 1)];
        }
      } else {
        messages := messages[key := Entry(now, 1)];
      }
      if globalLimitCount != 0 && globalLimitWindow != 0 {
        recentTimes := recentTimes + [now];
      }
      return true;
    }

    /** Drops the entries older than `cleanup_interval` and records the cleanup time. */
    method CleanupMessages(now: int)
      requires Valid()
      modifies this
      ensures Valid()
      ensures messages == Cleanup(old(messages), now, cleanupInterval)
      ensures recentTimes == old(recentTimes) && lastCleanup == now
    {
      var stale := set k | k in messages && now - messages[k].lastTime > cleanupInterval;
      var rest := stale;
      while rest != {}
        invariant rest <= stale
        invariant recentTimes == old(recentTimes)
        invariant messages == map k | k in old(messages) && k !in stale - rest :: old(messages)[k]
        decreases |rest|
      {
        var k :| k in rest;
        messages := messages - {k};
        rest := rest - {k};
      }
      lastCleanup := now;
    }

    /** `get_stats`: a key reported as blocked is refused by `should_send` at the same
        time, unless the global gate refuses first or a cleanup due at that call deletes the
        key's entry (it is older than `cleanup_interval`). */
    function GetStats(message: string, messageType: Option<string>, now: int): (r: Option<Stats>)
      reads this
      ensures r.None? <==> Key(message, messageType) !in messages
      ensures r.Some? ==>
        r.value == Stats(messages[Key(message, messageType)].lastTime, messages[Key(message, messageType)].count,
                         r.value.blocked)
      ensures r.Some? && r.value.blocked ==>
        || !Step(Cfg(), Snapshot(), Key(message, messageType), now, cleanupInterval).0
        || !GatePasses(Cfg(), Snapshot(), now)
        || !SurvivesCleanup(Cfg(), Snapshot(), Key(message, messageType), now, cleanupInterval)
    {
      var key := Key(message, messageType);
      var r := StatsOf(Cfg(), messages, key, now);
      if r.Some? && r.value.blocked && GatePasses(Cfg(), Snapshot(), now)
         && SurvivesCleanup(Cfg(), Snapshot(), key, now, cleanupInterval) then
        BlockedMeansDenied(Cfg(), Snapshot(), key, now, cleanupInterval);
        r
      else r
    }
  }
}
