/** The least-recently-used cache of player profiles. Entries are kept in an ordered
    dictionary from the least to the most recently used; the clock is passed in as `now`,
    and the debug messages published on the message bus are not modelled. */
module ProfileCache {
  import opened Common
  import PyDict

  /** What `add_profile` stores for a player. */
  datatype Entry = Entry(
    lastAccessed: int,
    profile: map<string, Value>,
    sourceType: string,
    origin: string,
    cachedAt: int,
    organization: Value,
    requestedBy: string,
    sourceUser: string)

  type Cache = PyDict.Dict<string, Entry>

  /** The entry `add_profile` builds: the organisation is the profile's `main_org_sid`
      when it has that key (whatever its value), else "Unknown". */
  function MakeEntry(profile: map<string, Value>, sourceType: string, origin: string,
                     requestedBy: string, sourceUser: string, now: int): (e: Entry)
    ensures "main_org_sid" in profile ==> e.organization == profile["main_org_sid"]
    ensures "main_org_sid" !in profile ==> e.organization == Str("Unknown")
    ensures e.lastAccessed == now && e.cachedAt == now && e.profile == profile
  {
    Entry(now, profile, sourceType, origin, now, GetOr(profile, "main_org_sid", Str("Unknown")),
          requestedBy, sourceUser)
  }

  /** Pop `k` (if there) and put it back with `e` at the most recent end. */
  function Touch(c: Cache, k: string, e: Entry): Cache
  {
    PyDict.Remove(c, k) + [(k, e)]
  }

  /** The eviction loop: drops the oldest entries until at most `max` remain. */
  function Evict(c: Cache, max: nat): (r: Cache)
    ensures |r| <= max && |r| <= |c|
    ensures |c| <= max ==> r == c
    ensures |c| > max ==> |r| == max
    ensures r == c[|c| - |r|..]
  {
    if |c| > max then c[|c| - max..] else c
  }

  /** `add_profile` on the contents, for a non-negative maximum. */
  function Added(c: Cache, k: string, e: Entry, max: nat): Cache
  {
    Evict(Touch(c, k, e), max)
  }

  lemma KeysSuffix(c: Cache, a: nat)
    requires a <= |c|
    ensures PyDict.Keys(c[a..]) == PyDict.Keys(c)[a..]
  {
  }

  /** Touching keeps the keys distinct, makes `k` the most recent entry with value `e`,
      leaves the other keys' values alone and changes the size only when `k` is new. */
  lemma TouchProps(c: Cache, k: string, e: Entry)
    requires PyDict.Valid(c)
    ensures PyDict.Valid(Touch(c, k, e))
    ensures Touch(c, k, e)[|Touch(c, k, e)| - 1] == (k, e)
    ensures |Touch(c, k, e)| == if PyDict.HasKey(c, k) then |c| else |c| + 1
    ensures PyDict.Get(Touch(c, k, e), k) == Some(e)
    ensures forall k' :: k' != k ==> PyDict.Get(Touch(c, k, e), k') == PyDict.Get(c, k')
  {
    var d := PyDict.Remove(c, k);
    PyDict.RemoveGet(c, k);
    var t := d + [(k, e)];
    assert PyDict.Keys(t) == PyDict.Keys(d) + [k];
    assert PyDict.Find(t, k) == |d|;
    forall k' | k' != k ensures PyDict.Get(t, k') == PyDict.Get(d, k') {
      if PyDict.HasKey(d, k') {
        assert PyDict.Find(t, k') == PyDict.Find(d, k');
      } else {
        assert !PyDict.HasKey(t, k');
      }
    }
  }

  /** Dropping the oldest entries keeps the players distinct. */
  lemma SuffixValid(t: Cache, a: nat)
    requires PyDict.Valid(t) && a <= |t|
    ensures PyDict.Valid(t[a..])
  {
    KeysSuffix(t, a);
    var ks := PyDict.Keys(t);
  }

  /** After `add_profile` the cache holds at most `max` entries without duplicate players,
      the most recent ones in their order. */
  lemma AddedValid(c: Cache, k: string, e: Entry, max: nat)
    requires PyDict.Valid(c)
    ensures var r := Added(c, k, e, max);
      var t := Touch(c, k, e);
      PyDict.Valid(r) && |r| <= max &&
      |r| == (if |t| <= max then |t| else max) && r == t[|t| - |r|..]
  {
    TouchProps(c, k, e);
    var t := Touch(c, k, e);
    SuffixValid(t, |t| - |Added(c, k, e, max)|);
  }

  /** Whenever there is room for one entry, the added player is the most recent one and
      reads back with the new entry. */
  lemma AddedNewest(c: Cache, k: string, e: Entry, max: nat)
    requires PyDict.Valid(c) && max >= 1
    ensures var r := Added(c, k, e, max);
      r[|r| - 1] == (k, e) && PyDict.Get(r, k) == Some(e)
  {
    AddedValid(c, k, e, max);
    var t := Touch(c, k, e);
    var r := Added(c, k, e, max);
    assert t[|t| - 1] == (k, e);
    assert r[|r| - 1] == t[|t| - 1];
    PyDict.LastGet(r);
  }

  /** A hit moves the player to the most recent end with a fresh access time; every
      other entry keeps its place relative to the rest. */
  function Hit(c: Cache, k: string, now: int): Cache
    requires PyDict.HasKey(c, k)
  {
    var e := PyDict.Get(c, k).value;
    Touch(c, k, e.(lastAccessed := now))
  }

  /** A hit keeps the size and the keys distinct, and puts the player last. */
  lemma HitProps(c: Cache, k: string, now: int)
    requires PyDict.Valid(c) && PyDict.HasKey(c, k)
    ensures PyDict.Valid(Hit(c, k, now)) && |Hit(c, k, now)| == |c|
    ensures Hit(c, k, now)[|c| - 1].0 == k
    ensures Hit(c, k, now)[..|c| - 1] == PyDict.Remove(c, k)
    ensures PyDict.Get(Hit(c, k, now), k) == Some(PyDict.Get(c, k).value.(lastAccessed := now))
  {
    TouchProps(c, k, PyDict.Get(c, k).value.(lastAccessed := now));
  }

  datatype Stats = Stats(totalProfiles: nat, maxSize: int, usagePercent: Option<real>, profiles: seq<string>)

  /** `get_cache_stats`: `usagePercent` is None where the division by a zero maximum
      raises. */
  function StatsOf(c: Cache, max: int): (s: Stats)
    ensures s.totalProfiles == |c| && s.profiles == PyDict.Keys(c)
    ensures s.usagePercent.None? <==> max == 0
    ensures max > 0 && |c| <= max && s.usagePercent.Some? ==> 0.0 <= s.usagePercent.value <= 100.0
  {
    var usage := if max == 0 then None else Some((|c| as real / max as real) * 100.0);
    Stats(|c|, max, usage, PyDict.Keys(c))
  }

  class ProfileCache {
    var cache: Cache
    const maxSize: int

    /** Distinct players, never more than the maximum (none when it is negative). */
    ghost predicate Valid()
      reads this
    {
      PyDict.Valid(cache) && |cache| <= (if maxSize < 0 then 0 else maxSize)
    }

    constructor (maxSize: int)
      ensures Valid() && cache == [] && this.maxSize == maxSize
    {
      cache := [];
      this.maxSize := maxSize;
    }

    /** `get_profile`: a hit refreshes the entry and returns it; a miss returns None and
        changes nothing. */
    method GetProfile(playerName: string, now: int) returns (r: Option<Entry>)
      requires Valid()
      modifies this
      ensures Valid()
      ensures r.Some? <==> PyDict.HasKey(old(cache), playerName)
      ensures r.Some? ==> cache == Hit(old(cache), playerName, now) && r == PyDict.Get(cache, playerName)
      ensures r.None? ==> cache == old(cache)
      ensures |cache| == |old(cache)|
    {
      var i := PyDict.Find(cache, playerName);
      if i < |cache| {
        HitProps(cache, playerName, now);
        cache := Hit(cache, playerName, now);
        return PyDict.Get(cache, playerName);
      }
      return None;
    }

    /** `add_profile`: the new entry goes to the most recent end and the oldest entries are
        evicted while the cache is over its maximum. With a negative maximum the loop runs
        out of entries and raises (`raised`), leaving the cache empty. */
    method AddProfile(playerName: string, profile: map<string, Value>, sourceType: string,
                      origin: string, requestedBy: string, sourceUser: string, now: int)
      returns (raised: bool)
      requires Valid()
      modifies this
      ensures Valid()
      ensures raised <==> maxSize < 0
      ensures maxSize >= 0 ==>
        cache == Added(old(cache), playerName, MakeEntry(profile, sourceType, origin, requestedBy, sourceUser, now), maxSize)
      ensures maxSize < 0 ==> cache == []
    {
      var e := MakeEntry(profile, sourceType, origin, requestedBy, sourceUser, now);
      TouchProps(cache, playerName, e);
      var t := Touch(cache, playerName, e);
      cache := t;
      var oldest := 0;
      while |cache| > maxSize
        invariant oldest <= |t| && cache == t[oldest..]
        invariant maxSize >= 0 ==> |cache| >= maxSize || oldest == 0
        decreases |cache|
      {
        if cache == [] {
          return true;
        }
        oldest := oldest + 1;
        cache := t[oldest..];
      }
      AddedValid(old(cache), playerName, e, maxSize);
      return false;
    }

    /** `remove_profile`: True exactly when the player was cached; the player is gone and
        every other entry stays. */
    method RemoveProfile(playerName: string) returns (removed: bool)
      requires Valid()
      modifies this
      ensures Valid()
      ensures removed <==> PyDict.HasKey(old(cache), playerName)
      ensures cache == PyDict.Remove(old(cache), playerName)
      ensures !PyDict.HasKey(cache, playerName)
      ensures forall k :: k != playerName ==> PyDict.Get(cache, k) == PyDict.Get(old(cache), k)
    {
      PyDict.RemoveGet(cache, playerName);
      removed := PyDict.HasKey(cache, playerName);
      cache := PyDict.Remove(cache, playerName);
    }

    /** `clear_cache` */
    method ClearCache()
      requires Valid()
      modifies this
      ensures Valid() && cache == []
    {
      cache := [];
    }

    function GetCacheStats(): Stats
      reads this
    {
      StatsOf(cache, maxSize)
    }
  }
}
