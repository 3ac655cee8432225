/** The stalled-players panel's bookkeeping: per player, how many "actor_stall" events
    were seen and from which reporting users, kept for a time-to-live that grows with the
    size of the problem. Arrival times are passed in as `now`, in whole seconds; the list
    control, dialogs and timers are not modelled. */
module Stalled {
  import opened Common
  import PyDict

  datatype Source = Source(count: int, firstSeen: int, lastSeen: int)

  datatype Player = Player(
    count: int,
    sources: PyDict.Dict<Value, Source>,
    lastSource: Value,
    firstTimestamp: int,
    lastTimestamp: int)

  type Table = PyDict.Dict<Value, Player>

  // ---------------------------------------------------------------------------
  // Sums over ordered dictionaries

  function SumBy<K, V>(d: PyDict.Dict<K, V>, f: V -> int): int
  {
    if d == [] then 0 else SumBy(d[..|d| - 1], f) + f(d[|d| - 1].1)
  }

  /** Replacing one entry's value changes the sum by the difference. */
  lemma {:induction false} SumByUpdate<K, V>(d: PyDict.Dict<K, V>, i: nat, x: (K, V), f: V -> int)
    requires i < |d|
    ensures SumBy(d[i := x], f) == SumBy(d, f) - f(d[i].1) + f(x.1)
    decreases |d|
  {
    var n := |d| - 1;
    if i < n {
      SumByUpdate(d[..n], i, x, f);
      assert d[i := x][..n] == d[..n][i := x];
    } else {
      assert d[i := x][..n] == d[..n];
    }
  }

  /** Writing `v` under `k` changes the sum by `f(v)` minus the old value's share. */
  lemma SumByPut<K, V>(d: PyDict.Dict<K, V>, k: K, v: V, f: V -> int)
    ensures var old_ := PyDict.Get(d, k);
      SumBy(PyDict.Put(d, k, v), f) == SumBy(d, f) - (if old_.Some? then f(old_.value) else 0) + f(v)
  {
    var i := PyDict.Find(d, k);
    if i < |d| {
      SumByUpdate(d, i, (k, v), f);
    } else {
      assert (d + [(k, v)])[..|d|] == d;
    }
  }

  function SourceCount(s: Source): int { s.count }
  function PlayerCount(p: Player): int { p.count }

  /** `get_total_stalls`: the sum of the players' counts. */
  function Total(t: Table): int
  {
    SumBy(t, PlayerCount)
  }

  // ---------------------------------------------------------------------------
  // Progressive time-to-live

  /** `max(src['count'] for src in sources, default=0)` */
  function MaxSource(sources: PyDict.Dict<Value, Source>): (r: int)
    ensures sources == [] ==> r == 0
    ensures forall i :: 0 <= i < |sources| ==> sources[i].1.count <= r
    ensures sources != [] ==> exists i :: 0 <= i < |sources| && sources[i].1.count == r
  {
    if sources == [] then 0
    else
      var last := sources[|sources| - 1].1.count;
      var init := sources[..|sources| - 1];
      if init == [] || MaxSource(init) < last then last else MaxSource(init)
  }

  /** The time-to-live for a player reported by `sourcesCount` users, `total` times, at
      most `maxSingle` times by one user. */
  function TtlOf(base: int, sourcesCount: int, total: int, maxSingle: int): int
  {
    var ttl := base
      + (if sourcesCount > 1 then (sourcesCount - 1) * 30 else 0)
      + (if total > 1 then (if total - 1 < 30 then total - 1 else 30) * 5 else 0)
      + (if maxSingle >= 10 then 60 else 0);
    if ttl < 600 then ttl else 600
  }

  /** `_calculate_progressive_ttl` */
  function Ttl(base: int, p: Player): int
  {
    TtlOf(base, |p.sources|, p.count, MaxSource(p.sources))
  }

  /** The time-to-live never exceeds ten minutes and, for a base within that, is never
      below the base. */
  lemma TtlBounds(base: int, sourcesCount: int, total: int, maxSingle: int)
    ensures TtlOf(base, sourcesCount, total, maxSingle) <= 600
    ensures base <= 600 ==> base <= TtlOf(base, sourcesCount, total, maxSingle)
  {
  }

  /** More sources, more stalls or more stalls from one source never shorten it. */
  lemma TtlMonotone(base: int, s1: int, t1: int, m1: int, s2: int, t2: int, m2: int)
    requires s1 <= s2 && t1 <= t2 && m1 <= m2
    ensures TtlOf(base, s1, t1, m1) <= TtlOf(base, s2, t2, m2)
  {
  }

  /** The stall bonus stops growing after 31 stalls and the source bonus adds 30 seconds
      per extra user, up to the ten-minute cap. */
  lemma TtlExamples()
    ensures TtlOf(30, 1, 1, 1) == 30
    ensures TtlOf(30, 1, 31, 5) == TtlOf(30, 1, 1000, 5) == 180
    ensures TtlOf(30, 3, 2, 1) == 30 + 60 + 5
    ensures TtlOf(30, 1, 10, 10) == 30 + 45 + 60
    ensures TtlOf(30, 30, 40, 40) == 600
  {
  }

  // ---------------------------------------------------------------------------
  // Remote events

  /** What `_handle_remote_event` makes of a payload: ignored, or a stall of `player`
      reported by `source`. A `raw_data` that is not a dictionary makes `.get` raise. */
  datatype Parsed = Ignore | Raise | Stall(player: Value, source: Value)

  function ParseEvent(ev: Value): (r: Parsed)
    ensures r.Stall? ==> Truthy(r.player) && Truthy(r.source)
    ensures r.Stall? ==> ev.Dict? && GetOr(ev.fields, "type", Null) == Str("actor_stall")
  {
    if !ev.Dict? || ev.fields == map[] || GetOr(ev.fields, "type", Null) != Str("actor_stall") then Ignore
    else
      var raw := GetOr(ev.fields, "raw_data", Dict(map[]));
      if !raw.Dict? then Raise
      else
        var player := GetOr(raw.fields, "player", Null);
        var source := GetOr(raw.fields, "username", Null);
        var stamp := GetOr(raw.fields, "timestamp", Null);
        if Truthy(player) && Truthy(source) && Truthy(stamp) then Stall(player, source) else Ignore
  }

  /** The entry a new player starts from. */
  function NewPlayer(source: Value, now: int): Player
  {
    Player(0, [], source, now, now)
  }

  function PlayerOr(t: Table, player: Value, source: Value, now: int): Player
  {
    var p := PyDict.Get(t, player);
    if p.Some? then p.value else NewPlayer(source, now)
  }

  function SourceOr(sources: PyDict.Dict<Value, Source>, source: Value, now: int): Source
  {
    var s := PyDict.Get(sources, source);
    if s.Some? then s.value else Source(0, now, now)
  }

  /** A player after one more stall reported by `source` at `now`: its count and that
      source's count go up by one, both stamped with the arrival time. */
  function Bumped(p: Player, source: Value, now: int): Player
  {
    var s := SourceOr(p.sources, source, now);
    var sources := PyDict.Put(p.sources, source, s.(count := s.count + 1, lastSeen := now));
    p.(count := p.count + 1, lastSource := source, lastTimestamp := now, sources := sources)
  }

  /** One accepted stall of `player` reported by `source`. */
  function Record(t: Table, player: Value, source: Value, now: int): Table
  {
    PyDict.Put(t, player, Bumped(PlayerOr(t, player, source, now), source, now))
  }

  /** Every player appears once, each with distinct sources whose counts add up to the
      player's count. */
  ghost predicate Consistent(t: Table)
  {
    PyDict.Valid(t) && forall i :: 0 <= i < |t| ==> PlayerOk(t[i].1)
  }

  /** A player's sources are distinct and their counts add up to the player's count. */
  ghost predicate PlayerOk(p: Player)
  {
    PyDict.Valid(p.sources) && p.count == SumBy(p.sources, SourceCount)
  }

  /** A stall adds one to the player's count, stamps it and keeps the counts adding up. */
  lemma BumpedOk(p: Player, source: Value, now: int)
    requires PlayerOk(p)
    ensures var b := Bumped(p, source, now);
      PlayerOk(b) && b.count == p.count + 1 && b.lastTimestamp == now && b.lastSource == source
  {
    var s := SourceOr(p.sources, source, now);
    var s' := s.(count := s.count + 1, lastSeen := now);
    var sources := PyDict.Put(p.sources, source, s');
    PyDict.PutGet(p.sources, source, s');
    SourceSum(p.sources, source, now);
    assert Bumped(p, source, now).sources == sources;
  }

  /** A stall adds one to the reporting source's count (a new source starts from zero)
      and leaves the other sources alone. */
  lemma BumpedSources(p: Player, source: Value, now: int)
    requires PyDict.Valid(p.sources)
    ensures var b := Bumped(p, source, now);
      var before := SourceOr(p.sources, source, now);
      PyDict.Get(b.sources, source) == Some(before.(count := before.count + 1, lastSeen := now)) &&
      (!PyDict.HasKey(p.sources, source) ==> before == Source(0, now, now)) &&
      forall other :: other != source ==> PyDict.Get(b.sources, other) == PyDict.Get(p.sources, other)
  {
    var s := SourceOr(p.sources, source, now);
    PyDict.PutGet(p.sources, source, s.(count := s.count + 1, lastSeen := now));
  }

  /** Bumping one source's count adds one to the sum of the counts. */
  lemma SourceSum(sources: PyDict.Dict<Value, Source>, source: Value, now: int)
    ensures var s := SourceOr(sources, source, now);
      SumBy(PyDict.Put(sources, source, s.(count := s.count + 1, lastSeen := now)), SourceCount)
      == SumBy(sources, SourceCount) + 1
  {
    var s := SourceOr(sources, source, now);
    SumByPut(sources, source, s.(count := s.count + 1, lastSeen := now), SourceCount);
  }

  /** A recorded stall bumps the player (a new one starts from zero) and leaves every other
      player as it was. */
  lemma RecordCounts(t: Table, player: Value, source: Value, now: int)
    requires Consistent(t)
    ensures var r := Record(t, player, source, now);
      var before := PlayerOr(t, player, source, now);
      PyDict.Valid(r) && PyDict.Get(r, player) == Some(Bumped(before, source, now)) &&
      (PyDict.HasKey(t, player) ==> |r| == |t|) &&
      (!PyDict.HasKey(t, player) ==> before == NewPlayer(source, now) && |r| == |t| + 1) &&
      forall other :: other != player ==> PyDict.Get(r, other) == PyDict.Get(t, other)
  {
    PyDict.PutGet(t, player, Bumped(PlayerOr(t, player, source, now), source, now));
  }

  /** The player a stall is added to has distinct sources adding up to its count. */
  lemma PlayerOrConsistent(t: Table, player: Value, source: Value, now: int)
    requires Consistent(t)
    ensures PlayerOk(PlayerOr(t, player, source, now))
  {
    var i := PyDict.Find(t, player);
    if i < |t| {
      assert PlayerOr(t, player, source, now) == t[i].1;
    }
  }

  /** Recording a stall keeps each player's count equal to the sum of its sources. */
  lemma RecordConsistent(t: Table, player: Value, source: Value, now: int)
    requires Consistent(t)
    ensures Consistent(Record(t, player, source, now))
  {
    var p' := Bumped(PlayerOr(t, player, source, now), source, now);
    PlayerOrConsistent(t, player, source, now);
    BumpedOk(PlayerOr(t, player, source, now), source, now);
    PutKeepsOk(t, player, p');
  }

  /** Writing a consistent player into a consistent table keeps it consistent. */
  lemma PutKeepsOk(t: Table, k: Value, p: Player)
    requires Consistent(t) && PlayerOk(p)
    ensures Consistent(PyDict.Put(t, k, p))
  {
    var r := PyDict.Put(t, k, p);
    PyDict.PutGet(t, k, p);
    PyDict.PutEntries(t, k, p);
    forall j | 0 <= j < |r| ensures PlayerOk(r[j].1) {
      if r[j] != (k, p) {
        assert r[j] == t[j];
      }
    }
  }

  /** Every accepted stall adds exactly one to the total. */
  lemma RecordTotal(t: Table, player: Value, source: Value, now: int)
    ensures Total(Record(t, player, source, now)) == Total(t) + 1
  {
    SumByPut(t, player, Bumped(PlayerOr(t, player, source, now), source, now), PlayerCount);
  }

  /** The sum of a player's source counts. */
  function SourcesTotal(p: Player): int
  {
    SumBy(p.sources, SourceCount)
  }

  /** In a consistent table the total of the players' counts is the total of all their
      sources' counts. */
  lemma {:induction false} TotalBySources(t: Table)
    requires forall i :: 0 <= i < |t| ==> PlayerOk(t[i].1)
    ensures Total(t) == SumBy(t, SourcesTotal)
  {
    if t != [] {
      TotalBySources(t[..|t| - 1]);
      assert PlayerOk(t[|t| - 1].1);
    }
  }

  // ---------------------------------------------------------------------------
  // Expiry

  /** A player expires when the time since its last stall exceeds its time-to-live. */
  predicate Expired(base: int, p: Player, now: int)
  {
    now - p.lastTimestamp > Ttl(base, p)
  }

  /** Whether a player survives the cleanup at `now`. */
  function Keep(base: int, now: int): Player -> bool
  {
    p => !Expired(base, p, now)
  }

  /** The players `_cleanup_expired_data` keeps, in their order. */
  function Kept(t: Table, base: int, now: int): Table
  {
    PyDict.Filter(t, Keep(base, now))
  }

  /** The names of the players it removes, in their order. */
  function ExpiredNames(t: Table, base: int, now: int): seq<Value>
  {
    PyDict.Rejected(t, Keep(base, now))
  }

  /** After the cleanup a player is present, with unchanged data, exactly when it was
      present and had not expired; the remaining table is still consistent. */
  lemma KeptProps(t: Table, base: int, now: int)
    requires Consistent(t)
    ensures Consistent(Kept(t, base, now))
    ensures forall k :: (PyDict.Get(Kept(t, base, now), k) ==
      (var p := PyDict.Get(t, k); if p.Some? && !Expired(base, p.value, now) then p else None))
  {
    var r := Kept(t, base, now);
    PyDict.FilterKeys(t, Keep(base, now));
    PyDict.FilterMembers(t, Keep(base, now));
    forall j | 0 <= j < |r| ensures PlayerOk(r[j].1) {
      assert r[j] in t;
    }
    forall k ensures PyDict.Get(r, k) ==
      (var p := PyDict.Get(t, k); if p.Some? && !Expired(base, p.value, now) then p else None)
    {
      if PyDict.HasKey(r, k) {
        var j := PyDict.Find(r, k);
        assert r[j] in t;
        var i :| 0 <= i < |t| && t[i] == r[j];
        PyDict.FindValid(t, i);
      } else if PyDict.HasKey(t, k) {
        var i := PyDict.Find(t, k);
        assert t[i] !in r;
        assert t[i] in t;
      }
    }
  }

  // ---------------------------------------------------------------------------
  // The tracker

  class StalledTracker {
    var stalledData: Table
    const baseTtl: int

    ghost predicate Valid()
      reads this
    {
      Consistent(stalledData)
    }

    constructor (baseTtl: int)
      ensures Valid() && stalledData == [] && this.baseTtl == baseTtl
    {
      stalledData := [];
      this.baseTtl := baseTtl;
    }

    /** `_handle_remote_event`: an accepted stall is recorded at arrival time `now`; any
        other payload changes nothing (`raised` when reading `raw_data` fails). */
    method HandleRemoteEvent(ev: Value, now: int) returns (raised: bool)
      requires Valid()
      modifies this
      ensures Valid()
      ensures raised <==> ParseEvent(ev).Raise?
      ensures ParseEvent(ev).Stall? ==>
        stalledData == Record(old(stalledData), ParseEvent(ev).player, ParseEvent(ev).source, now)
      ensures !ParseEvent(ev).Stall? ==> stalledData == old(stalledData)
      ensures Total(stalledData) == Total(old(stalledData)) + (if ParseEvent(ev).Stall? then 1 else 0)
    {
      var parsed := ParseEvent(ev);
      if parsed.Raise? {
        return true;
      }
      if parsed.Ignore? {
        return false;
      }
      RecordConsistent(stalledData, parsed.player, parsed.source, now);
      RecordTotal(stalledData, parsed.player, parsed.source, now);
      stalledData := Record(stalledData, parsed.player, parsed.source, now);
      return false;
    }

    /** `_cleanup_expired_data`: walks a snapshot of the players and deletes every one
        whose idle time exceeds its time-to-live. */
    method CleanupExpiredData(now: int) returns (expired: seq<Value>)
      requires Valid()
      modifies this
      ensures Valid()
      ensures stalledData == Kept(old(stalledData), baseTtl, now)
      ensures expired == ExpiredNames(old(stalledData), baseTtl, now)
    {
      var items := stalledData;
      var data := items;
      expired := [];
      var i := 0;
      while i < |items|
        invariant 0 <= i <= |items|
        invariant data == Kept(items[..i], baseTtl, now) + items[i..]
        invariant expired == ExpiredNames(items[..i], baseTtl, now)
      {
        PyDict.FilterWalkStep(items, i, Keep(baseTtl, now));
        var name := items[i].0;
        if !Keep(baseTtl, now)(items[i].1) {
          expired := expired + [name];
          data := PyDict.Remove(data, name);
        }
        i := i + 1;
      }
      assert items[..i] == items;
      KeptProps(items, baseTtl, now);
      stalledData := data;
    }

    /** `get_total_stalls`: the sum of the players' counts, which is also the number of
        stalls every reporting user has been credited with. */
    function GetTotalStalls(): (n: int)
      reads this
      requires Valid()
      ensures n == SumBy(stalledData, SourcesTotal)
    {
      TotalBySources(stalledData);
      Total(stalledData)
    }
  }
}
