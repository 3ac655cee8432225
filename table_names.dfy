/** Table names of the Supabase log store: every log is written to a table named after
    its sheet or mode, made SQL-safe, and the manager keeps a cache of the tables it
    knows exist, refreshed from the server's schema listing once it is older than its
    time to live. The newer manager, when the listing fails, probes the tables it knows
    of one by one. The listing, the probes, table creation and the insert itself are
    network calls and come in as parameters; times are whole seconds passed as `now`. */
module TableNames {
  import opened Common

  // ---------------------------------------------------------------------------
  // _sanitize_table_name

  /** The characters a sanitised name is made of: `[a-z0-9_]`. */
  predicate TableChar(c: char)
  {
    'a' <= c <= 'z' || '0' <= c <= '9' || c == '_'
  }

  /** A name the sanitiser can return: 1 to 60 table characters, starting with a letter. */
  predicate ValidTableName(t: string)
  {
    1 <= |t| <= 60 && 'a' <= t[0] <= 'z' && forall i :: 0 <= i < |t| ==> TableChar(t[i])
  }

  /** One character after lowering and replacing everything outside `[a-z0-9]` by `_`. */
  function SanitizeChar(c: char): char
  {
    var l := LowerChar(c);
    if 'a' <= l <= 'z' || '0' <= l <= '9' then l else '_'
  }

  const MaxTableName := 60

  /** `_sanitize_table_name` on a string: "default_logs" for the empty name; otherwise
      the name lowered with every other character turned into `_`, prefixed with "t_"
      unless it starts with a letter, and cut to 60 characters. */
  function Sanitize(name: string): string
  {
    if name == "" then "default_logs"
    else
      var mapped := seq(|name|, i requires 0 <= i < |name| => SanitizeChar(name[i]));
      var prefixed := if 'a' <= mapped[0] <= 'z' then mapped else "t_" + mapped;
      if |prefixed| > MaxTableName then prefixed[..MaxTableName] else prefixed
  }

  /** Every sanitised name is a valid table name. */
  lemma SanitizeValid(name: string)
    ensures ValidTableName(Sanitize(name))
  {
    if name == "" {
      assert Sanitize(name) == "default_logs";
    }
  }

  /** The characters of the name reappear, sanitised, in their places (two places later
      when the name does not start with a letter), as far as the 60-character cut. */
  lemma SanitizeKeepsCharacters(name: string)
    requires name != ""
    ensures var shift := if 'a' <= SanitizeChar(name[0]) <= 'z' then 0 else 2;
      var r := Sanitize(name);
      |r| == (if |name| + shift > MaxTableName then MaxTableName else |name| + shift) &&
      (shift == 2 ==> r[..2] == "t_") &&
      forall i :: 0 <= i < |name| && i + shift < MaxTableName ==> r[i + shift] == SanitizeChar(name[i])
  {
  }

  /** A valid table name is left as it is. */
  lemma SanitizeFixesValid(t: string)
    requires ValidTableName(t)
    ensures Sanitize(t) == t
  {
    var mapped := seq(|t|, i requires 0 <= i < |t| => SanitizeChar(t[i]));
    assert mapped == t;
  }

  /** Sanitising twice gives the same name as sanitising once. */
  lemma SanitizeIdempotent(name: string)
    ensures Sanitize(Sanitize(name)) == Sanitize(name)
  {
    SanitizeValid(name);
    SanitizeFixesValid(Sanitize(name));
  }

  /** `_sanitize_table_name` on any value: a falsy value gives "default_logs"; a value
      other than a string has no `lower` and raises (`None`). */
  function SanitizeTableName(name: Value): (r: Option<string>)
    ensures r.Some? <==> !Truthy(name) || name.Str?
    ensures r.Some? ==> ValidTableName(r.value)
    ensures name.Str? ==> r == Some(Sanitize(name.s))
    ensures !Truthy(name) ==> r == Some("default_logs")
  {
    if !Truthy(name) then
      SanitizeValid("");
      Some("default_logs")
    else if name.Str? then
      SanitizeValid(name.s);
      Some(Sanitize(name.s))
    else None
  }

  // ---------------------------------------------------------------------------
  // choosing the table of a log

  /** `data.get('sheet') or data.get('mode') or "game_logs"` */
  function BaseName(data: map<string, Value>): (r: Value)
    ensures "sheet" in data && Truthy(data["sheet"]) ==> r == data["sheet"]
    ensures !("sheet" in data && Truthy(data["sheet"])) && "mode" in data && Truthy(data["mode"]) ==>
      r == data["mode"]
    ensures !("sheet" in data && Truthy(data["sheet"])) && !("mode" in data && Truthy(data["mode"])) ==>
      r == Str("game_logs")
    ensures Truthy(r)
  {
    Or(Or(GetOr(data, "sheet", Null), GetOr(data, "mode", Null)), Str("game_logs"))
  }

  // ---------------------------------------------------------------------------
  // the table cache

  /** The answer of a probe of one table in the newer manager's fallback: the table
      answered, the error said it does not exist, or any other error. */
  datatype Probe = Exists | Missing | Uncertain

  const StandardTables: seq<string> := ["game_logs", "default_logs"]

  /** The tables of a schema listing: every key that does not start with `_`. */
  function Listed(keys: set<string>): (r: set<string>)
    ensures forall t :: t in r <==> t in keys && !(|t| > 0 && t[0] == '_')
  {
    set t | t in keys && !(|t| > 0 && t[0] == '_')
  }

  /** The cache after `_refresh_table_cache_fallback`: the standard tables and every cached
      table are probed; those confirmed missing leave, those confirmed present join. */
  function Fallback(existing: set<string>, probe: string -> Probe): set<string>
  {
    var checks := (set t | t in StandardTables) + existing;
    (existing - set t | t in checks && probe(t) == Missing) + set t | t in checks && probe(t) == Exists
  }

  /** A table is cached after the fallback exactly when a probe confirmed it, or it was
      cached already and its probe was inconclusive. */
  lemma FallbackEffect(existing: set<string>, probe: string -> Probe)
    ensures forall t :: t in Fallback(existing, probe) <==>
      (probe(t) == Exists && (t in StandardTables || t in existing)) ||
      (probe(t) == Uncertain && t in existing)
  {
  }

  /** The probe results the fallback collects give the cache `Fallback` describes. */
  lemma FallbackFrom(existing: set<string>, checks: seq<string>, confirmed: set<string>,
                     nonexistent: set<string>, probe: string -> Probe)
    requires forall t :: t in checks <==> t in StandardTables || t in existing
    requires forall t :: t in confirmed <==> t in checks && probe(t) == Exists
    requires forall t :: t in nonexistent <==> t in checks && probe(t) == Missing
    ensures existing - nonexistent + confirmed == Fallback(existing, probe)
  {
  }

  /** The cache after `_refresh_table_cache` on a connected manager: the listing when it
      arrived; otherwise the fallback in the newer manager and no change in the older. */
  function Refreshed(existing: set<string>, listing: Option<set<string>>, probe: string -> Probe,
                     probesOnFailure: bool): set<string>
  {
    if listing.Some? then Listed(listing.value)
    else if probesOnFailure then Fallback(existing, probe)
    else existing
  }

  class SupabaseManager {
    var connected: bool
    var existingTables: set<string>
    var tableCacheTime: int
    var tableCacheTtl: int
    /** The newer manager probes tables when the schema listing fails; the older does not. */
    const probesOnFailure: bool

    /** `__init__`: not connected, nothing cached, cache time 0 and a TTL of 300 s. */
    constructor (probesOnFailure: bool)
      ensures !connected && existingTables == {} && tableCacheTime == 0 && tableCacheTtl == 300
      ensures this.probesOnFailure == probesOnFailure
    {
      connected := false;
      existingTables := {};
      tableCacheTime := 0;
      tableCacheTtl := 300;
      this.probesOnFailure := probesOnFailure;
    }

    /** The cache as `_table_exists` consults it at `now`: refreshed first when it is older
        than its time to live. */
    function CheckedCache(now: int, listing: Option<set<string>>, probe: string -> Probe): set<string>
      reads this
    {
      if connected && now - tableCacheTime > tableCacheTtl
      then Refreshed(existingTables, listing, probe, probesOnFailure)
      else existingTables
    }

    /** `_refresh_table_cache_fallback`: collects the tables to probe (the standard ones,
        then each cached one not among them), probes each, then removes the confirmed
        missing and adds the confirmed present. */
    method RefreshTableCacheFallback(now: int, probe: string -> Probe)
      modifies this
      ensures existingTables == Fallback(old(existingTables), probe)
      ensures tableCacheTime == now
      ensures connected == old(connected) && tableCacheTtl == old(tableCacheTtl)
    {
      tableCacheTime := now;
      var existing := existingTables;
      var checks := StandardTables;
      var rest := existing;
      while rest != {}
        invariant rest <= existing
        invariant forall t :: t in checks <==> t in StandardTables || t in existing - rest
        decreases |rest|
      {
        var t :| t in rest;
        if t !in checks {
          checks := checks + [t];
        }
        rest := rest - {t};
      }
      var confirmed: set<string> := {};
      var nonexistent: set<string> := {};
      var i := 0;
      while i < |checks|
        invariant 0 <= i <= |checks|
        invariant forall t :: t in confirmed <==> t in checks[..i] && probe(t) == Exists
        invariant forall t :: t in nonexistent <==> t in checks[..i] && probe(t) == Missing
      {
        assert checks[..i + 1] == checks[..i] + [checks[i]];
        match probe(checks[i]) {
          case Exists => confirmed := confirmed + {checks[i]};
          case Missing => nonexistent := nonexistent + {checks[i]};
          case Uncertain =>
        }
        i := i + 1;
      }
      assert checks[..i] == checks;
      FallbackFrom(existing, checks, confirmed, nonexistent, probe);
      existingTables := existing - nonexistent + confirmed;
    }

    /** `_refresh_table_cache`: nothing without a connection; the listing (`Some` keys when
        the schema request answered 200) replaces the cache and stamps the time; otherwise
        the newer manager falls back to probing and the older keeps its cache. */
    method RefreshTableCache(now: int, listing: Option<set<string>>, probe: string -> Probe)
      modifies this
      ensures !connected ==> existingTables == old(existingTables) && tableCacheTime == old(tableCacheTime)
      ensures connected ==> existingTables == Refreshed(old(existingTables), listing, probe, probesOnFailure)
      ensures connected && (listing.Some? || probesOnFailure) ==> tableCacheTime == now
      ensures connected && listing.None? && !probesOnFailure ==> tableCacheTime == old(tableCacheTime)
      ensures connected == old(connected) && tableCacheTtl == old(tableCacheTtl)
    {
      if !connected {
        return;
      }
      if listing.Some? {
        existingTables := Listed(listing.value);
        tableCacheTime := now;
        return;
      }
      if probesOnFailure {
        RefreshTableCacheFallback(now, probe);
      }
    }

    /** `_table_exists`: refreshes a cache older than its TTL, then looks the table up. */
    method TableExists(tableName: string, now: int, listing: Option<set<string>>, probe: string -> Probe)
      returns (r: bool)
      modifies this
      ensures existingTables == old(CheckedCache(now, listing, probe))
      ensures r <==> tableName in old(CheckedCache(now, listing, probe))
      ensures !(old(connected) && now - old(tableCacheTime) > old(tableCacheTtl)) ==>
        tableCacheTime == old(tableCacheTime)
      ensures connected == old(connected) && tableCacheTtl == old(tableCacheTtl)
    {
      if now - tableCacheTime > tableCacheTtl {
        RefreshTableCache(now, listing, probe);
      }
      r := tableName in existingTables;
    }

    /** `_create_table`: `creates` says whether the creating insert succeeds; a created
        table joins the cache. */
    method CreateTable(tableName: string, creates: bool) returns (ok: bool)
      modifies this
      ensures ok <==> connected && creates
      ensures existingTables == if ok then old(existingTables) + {tableName} else old(existingTables)
      ensures connected == old(connected) && tableCacheTime == old(tableCacheTime)
      ensures tableCacheTtl == old(tableCacheTtl)
    {
      if !connected || !creates {
        return false;
      }
      existingTables := existingTables + {tableName};
      return true;
    }

    /** `insert_log`: `table` is the table the log is sent to, if any, and `ok` the result;
        `creates` tells which table creations succeed and `inserted` whether the final
        insert reports no error. */
    method InsertLog(data: map<string, Value>, now: int, listing: Option<set<string>>,
                     probe: string -> Probe, creates: string -> bool, inserted: bool)
      returns (ok: bool, table: Option<string>)
      modifies this
      ensures ok <==> table.Some? && inserted
      ensures !old(connected) ==> table.None? && existingTables == old(existingTables)
      ensures !BaseName(data).Str? ==> table.None? && existingTables == old(existingTables)
      ensures table.Some? ==> ValidTableName(table.value) && table.value in existingTables
      ensures table.Some? ==>
        (table.value == Sanitize(BaseName(data).s) ||
         (table.value == "game_logs" && !creates(Sanitize(BaseName(data).s))))
      ensures old(connected) && BaseName(data).Str? ==>
        var name := Sanitize(BaseName(data).s);
        (name in old(CheckedCache(now, listing, probe)) || creates(name)) ==> table == Some(name)
      ensures old(connected) && BaseName(data).Str? && table.None? ==>
        !creates(Sanitize(BaseName(data).s)) && !creates("game_logs")
      ensures connected == old(connected)
    {
      if !connected {
        return false, None;
      }
      var base := BaseName(data);
      var sanitized := SanitizeTableName(base);
      if sanitized.None? {
        return false, None;
      }
      var tableName := sanitized.value;
      var known := TableExists(tableName, now, listing, probe);
      if !known {
        var created := CreateTable(tableName, creates(tableName));
        if !created {
          tableName := "game_logs";
          known := TableExists(tableName, now, listing, probe);
          if !known {
            created := CreateTable(tableName, creates(tableName));
            if !created {
              return false, None;
            }
          }
        }
      }
      SanitizeValid("game_logs");
      SanitizeFixesValid("game_logs");
      table := Some(tableName);
      ok := inserted;
    }
  }
}
