/** The in-memory side of the realtime bridge: the presence record it announces, the set of
    excluded contents, and the chain of filters a broadcast from another user goes through
    before it is re-emitted on the local message bus. The connection, the channels, the
    heartbeat and the reconnect logic are not modelled; the names currently present on the
    "general" channel, the notification settings and the clock are parameters. */
module RealtimeBridge {
  import opened Common

  // ---------------------------------------------------------------------------
  // Presence

  datatype Presence = Presence(username: Value, shard: Value, version: Value, status: Value, mode: Value)

  /** `_build_presence_dict`: every argument that is not None is used as given; the others
      come from the bridge, and the status from "online". */
  function PresenceDict(own: Presence, username: Value, shard: Value, version: Value,
                        status: Value, mode: Value): (p: Presence)
    ensures username != Null ==> p.username == username
    ensures shard != Null ==> p.shard == shard
    ensures version != Null ==> p.version == version
    ensures mode != Null ==> p.mode == mode
    ensures p.status != Null
  {
    Presence(
      if username != Null then username else own.username,
      if shard != Null then shard else own.shard,
      if version != Null then version else own.version,
      if status != Null then status else Str("online"),
      if mode != Null then mode else own.mode)
  }

  /** With no arguments the record is the bridge's own, online; and rebuilding a record
      from its own fields gives it back. */
  lemma PresenceDefaults(own: Presence, p: Presence)
    ensures PresenceDict(own, Null, Null, Null, Null, Null) == own.(status := Str("online"))
    ensures p == PresenceDict(own, Null, Null, Null, Null, Null) ==>
      PresenceDict(own, p.username, p.shard, p.version, p.status, p.mode) == p
  {
  }

  // ---------------------------------------------------------------------------
  // Content exclusions

  /** `update_content_exclusions`: `clearAll` empties the set; otherwise a non-empty
      content is added or discarded. */
  function UpdatedExclusions(excluded: set<string>, content: string, clearAll: bool, add: bool): (r: set<string>)
  {
    if clearAll then {}
    else if content != "" then (if add then excluded + {content} else excluded - {content})
    else excluded
  }

  /** Clearing leaves nothing; adding makes the content excluded and discarding makes it
      not excluded, and no other content changes; each is idempotent. */
  lemma ExclusionsProps(excluded: set<string>, content: string, clearAll: bool, add: bool)
    ensures var r := UpdatedExclusions(excluded, content, clearAll, add);
      (clearAll ==> r == {}) &&
      (!clearAll && content != "" ==> (content in r <==> add)) &&
      (!clearAll ==> forall c :: c != content ==> (c in r <==> c in excluded)) &&
      UpdatedExclusions(r, content, clearAll, add) == r
  {
  }

  // ---------------------------------------------------------------------------
  // The broadcast filter chain

  /** The mode and shard filters and the other settings the broadcast handler reads. */
  datatype Settings = Settings(
    filterByMode: bool,
    filterByShard: bool,
    includeUnknownMode: bool,
    includeUnknownShard: bool,
    currentMode: Value,
    currentShard: Value,
    excluded: set<string>,
    allowedSenders: set<string>,
    filterStalledIfOnline: bool)

  /** `[None, "", "Unknown"]` */
  predicate IsUnknown(v: Value)
  {
    v == Null || v == Str("") || v == Str("Unknown")
  }

  /** One of the two global filters: off, or an unknown value passes exactly when unknown
      values are included, and any other value must equal the current one. */
  predicate Passes(on: bool, includeUnknown: bool, current: Value, v: Value)
  {
    !on || (if IsUnknown(v) then includeUnknown else v == current)
  }

  /** `_passes_global_filters`; None where a filter is on and "raw_data" is not a
      dictionary, so that `.get` raises. */
  function PassesGlobalFilters(s: Settings, eventData: map<string, Value>): (r: Option<bool>)
    ensures !s.filterByMode && !s.filterByShard ==> r == Some(true)
  {
    var raw := GetOr(eventData, "raw_data", Dict(map[]));
    if !s.filterByMode && !s.filterByShard then Some(true)
    else if !raw.Dict? then None
    else Some(Passes(s.filterByMode, s.includeUnknownMode, s.currentMode, GetOr(raw.fields, "mode", Null)) &&
              Passes(s.filterByShard, s.includeUnknownShard, s.currentShard, GetOr(raw.fields, "shard", Null)))
  }

  /** The mode filter alone, on a readable "raw_data": an unknown mode passes exactly when
      unknown modes are included, and a known one exactly when it is the current mode. The
      shard filter alone behaves the same on the shard. */
  lemma GlobalFilterRule(s: Settings, eventData: map<string, Value>, raw: map<string, Value>)
    requires GetOr(eventData, "raw_data", Dict(map[])) == Dict(raw)
    ensures s.filterByMode && !s.filterByShard ==>
      var v := GetOr(raw, "mode", Null);
      (PassesGlobalFilters(s, eventData) == Some(true) <==>
        (IsUnknown(v) && s.includeUnknownMode) || (!IsUnknown(v) && v == s.currentMode))
    ensures !s.filterByMode && s.filterByShard ==>
      var v := GetOr(raw, "shard", Null);
      (PassesGlobalFilters(s, eventData) == Some(true) <==>
        (IsUnknown(v) && s.includeUnknownShard) || (!IsUnknown(v) && v == s.currentShard))
    ensures PassesGlobalFilters(s, eventData).Some?
  {
  }

  /** Python's `in` on a set of strings: a list or a dictionary is unhashable and raises. */
  predicate Hashable(v: Value)
  {
    !v.List? && !v.Dict?
  }

  predicate InStrings(v: Value, s: set<string>)
  {
    v.Str? && v.s in s
  }

  /** The filter that stopped a broadcast. */
  datatype Filter = GlobalFilters | ExcludedContent | SenderNotAllowed | StallOfOnlinePlayer

  /** What happens to a broadcast: an exception (caught and logged), suppression by a
      filter, a ping (recorded, never re-emitted) or re-emission on the local bus, with a
      desktop notification or not. */
  datatype Fate =
    | Raised
    | Suppressed(filter: Filter)
    | Pinged(recorded: Option<Value>)
    | Delivered(username: Value, eventData: Value, notify: bool)

  /** The fate, and the player whose profile was passed on as "actor_profile" first, if
      any (that happens before the filters, so also for a broadcast they stop). */
  datatype Outcome = Outcome(profile: Option<Value>, fate: Fate)

  /** The broadcast's sender and event once the payload has been unpacked, or None where
      unpacking raises. */
  function Unpack(payload: Value): Option<(Value, map<string, Value>)>
  {
    if !payload.Dict? then None
    else
      var bd := GetOr(payload.fields, "payload", Dict(map[]));
      if !bd.Dict? then None
      else
        var username := GetOr(bd.fields, "username", Str("Unknown"));
        var ed := GetOr(bd.fields, "event_data", payload);
        if !ed.Dict? then None else Some((username, ed.fields))
  }

  /** The "actor_profile" step: the profile's player, when the event is one and names
      one; None in the second component where its "raw_data" cannot be read. */
  function ProfileStep(ed: map<string, Value>): (Option<Value>, bool)
  {
    if GetOr(ed, "type", Null) != Str("actor_profile") then (None, true)
    else
      var raw := GetOr(ed, "raw_data", Dict(map[]));
      if !raw.Dict? then (None, false)
      else
        var name := GetOr(raw.fields, "player_name", Null);
        (if Truthy(name) then Some(name) else None, true)
  }

  /** The filters after the profile step, in the handler's order. */
  function FilterChain(s: Settings, username: Value, ed: map<string, Value>, usersOnline: seq<Value>,
                       notificationsEnabled: bool, notificationEvents: seq<Value>): Fate
  {
    var global := PassesGlobalFilters(s, ed);
    var content := GetOr(ed, "content", Null);
    var kind := GetOr(ed, "type", Null);
    if global.None? then Raised
    else if !global.value then Suppressed(GlobalFilters)
    else if Truthy(content) && !Hashable(content) then Raised
    else if Truthy(content) && InStrings(content, s.excluded) then Suppressed(ExcludedContent)
    else if s.allowedSenders != {} && !Hashable(username) then Raised
    else if s.allowedSenders != {} && !InStrings(username, s.allowedSenders) then Suppressed(SenderNotAllowed)
    else if s.filterStalledIfOnline && kind == Str("actor_stall") && !GetOr(ed, "raw_data", Dict(map[])).Dict? then Raised
    else if s.filterStalledIfOnline && kind == Str("actor_stall") &&
      var player := GetOr(GetOr(ed, "raw_data", Dict(map[])).fields, "player", Null);
      Truthy(player) && player in usersOnline
    then Suppressed(StallOfOnlinePlayer)
    else if kind == Str("ping") then
      var pinger := GetOr(ed, "username", Null);
      var stamp := GetOr(ed, "timestamp", Null);
      if Truthy(pinger) && Truthy(stamp) then (if Hashable(pinger) then Pinged(Some(pinger)) else Raised)
      else Pinged(None)
    else Delivered(username, Dict(ed), notificationsEnabled && kind in notificationEvents)
  }

  /** `_handle_realtime_event_broadcast` */
  function Broadcast(s: Settings, payload: Value, usersOnline: seq<Value>,
                     notificationsEnabled: bool, notificationEvents: seq<Value>): Outcome
  {
    var unpacked := Unpack(payload);
    if unpacked.None? then Outcome(None, Raised)
    else
      var (username, ed) := unpacked.value;
      var (profile, readable) := ProfileStep(ed);
      if !readable then Outcome(None, Raised)
      else Outcome(profile, FilterChain(s, username, ed, usersOnline, notificationsEnabled, notificationEvents))
  }

  /** A re-emitted broadcast passed every filter: the global filters, the content
      exclusions, the allowed senders and the online-stall filter; and it is not a ping. */
  lemma DeliveredPassedFilters(s: Settings, payload: Value, usersOnline: seq<Value>,
                               notificationsEnabled: bool, notificationEvents: seq<Value>)
    ensures var o := Broadcast(s, payload, usersOnline, notificationsEnabled, notificationEvents);
      o.fate.Delivered? ==>
        Unpack(payload).Some? &&
        var (username, ed) := Unpack(payload).value;
        var content := GetOr(ed, "content", Null);
        PassesGlobalFilters(s, ed) == Some(true) &&
        !(Truthy(content) && InStrings(content, s.excluded)) &&
        (s.allowedSenders == {} || InStrings(username, s.allowedSenders)) &&
        GetOr(ed, "type", Null) != Str("ping") &&
        !(s.filterStalledIfOnline && GetOr(ed, "type", Null) == Str("actor_stall") &&
          Truthy(GetOr(GetOr(ed, "raw_data", Dict(map[])).fields, "player", Null)) &&
          GetOr(GetOr(ed, "raw_data", Dict(map[])).fields, "player", Null) in usersOnline) &&
        o.fate == Delivered(username, Dict(ed), o.fate.notify)
  {
  }

  /** With every filter off, every readable broadcast that is not a ping is re-emitted. */
  lemma NoFiltersDeliver(s: Settings, payload: Value, usersOnline: seq<Value>,
                         notificationsEnabled: bool, notificationEvents: seq<Value>)
    requires !s.filterByMode && !s.filterByShard && s.excluded == {} && s.allowedSenders == {}
    requires !s.filterStalledIfOnline
    requires Unpack(payload).Some? && ProfileStep(Unpack(payload).value.1).1
    requires GetOr(Unpack(payload).value.1, "type", Null) != Str("ping")
    requires Hashable(GetOr(Unpack(payload).value.1, "content", Null))
    ensures Broadcast(s, payload, usersOnline, notificationsEnabled, notificationEvents).fate.Delivered?
  {
  }

  class RealtimeBridge {
    var username: Value
    var shard: Value
    var version: Value
    var lastActivity: map<Value, int>
    var filterStalledIfOnline: bool
    var filterBroadcastUsernames: set<string>
    var excludedRemoteContent: set<string>
    var filterByCurrentMode: bool
    var filterByCurrentShard: bool
    var includeUnknownMode: bool
    var includeUnknownShard: bool
    var currentMode: Value
    var currentShard: Value

    /** The state `__init__` sets up; `username` comes from the configuration. */
    constructor (username: Value)
      ensures this.username == username && shard == Null && version == Null
      ensures lastActivity == map[] && filterStalledIfOnline
      ensures filterBroadcastUsernames == {} && excludedRemoteContent == {}
      ensures !filterByCurrentMode && !filterByCurrentShard && includeUnknownMode && includeUnknownShard
      ensures currentMode == Str("Unknown") && currentShard == Str("Unknown")
    {
      this.username := username;
      shard := Null;
      version := Null;
      lastActivity := map[];
      filterStalledIfOnline := true;
      filterBroadcastUsernames := {};
      excludedRemoteContent := {};
      filterByCurrentMode := false;
      filterByCurrentShard := false;
      includeUnknownMode := true;
      includeUnknownShard := true;
      currentMode := Str("Unknown");
      currentShard := Str("Unknown");
    }

    function CurrentSettings(): Settings
      reads this
    {
      Settings(filterByCurrentMode, filterByCurrentShard, includeUnknownMode, includeUnknownShard,
               currentMode, currentShard, excludedRemoteContent, filterBroadcastUsernames,
               filterStalledIfOnline)
    }

    function BuildPresenceDict(username: Value, shard: Value, version: Value, status: Value, mode: Value): Presence
      reads this
    {
      PresenceDict(Presence(this.username, this.shard, this.version, Null, currentMode),
                   username, shard, version, status, mode)
    }

    /** `update_content_exclusions` */
    method UpdateContentExclusions(content: string, clearAll: bool, add: bool)
      modifies this
      ensures excludedRemoteContent == UpdatedExclusions(old(excludedRemoteContent), content, clearAll, add)
      ensures CurrentSettings() == old(CurrentSettings()).(excluded := excludedRemoteContent)
    {
      if clearAll {
        if excludedRemoteContent != {} {
          excludedRemoteContent := {};
        }
      } else if content != "" {
        if add {
          if content !in excludedRemoteContent {
            excludedRemoteContent := excludedRemoteContent + {content};
          }
        } else if content in excludedRemoteContent {
          excludedRemoteContent := excludedRemoteContent - {content};
        }
      }
    }

    /** `get_active_content_exclusions`: the excluded contents in sorted order. */
    method GetActiveContentExclusions() returns (r: seq<string>)
      ensures StrictlySorted(r) && |r| == |excludedRemoteContent|
      ensures forall c :: c in r <==> c in excludedRemoteContent
    {
      r := SortedList(excludedRemoteContent);
    }

    /** `_handle_realtime_event_broadcast` at time `now`: a ping with a sender and a stamp
        records the sender's last activity; nothing else changes the bridge. */
    method HandleRealtimeEventBroadcast(payload: Value, usersOnline: seq<Value>,
                                        notificationsEnabled: bool, notificationEvents: seq<Value>,
                                        now: int) returns (o: Outcome)
      modifies this
      ensures o == Broadcast(old(CurrentSettings()), payload, usersOnline, notificationsEnabled, notificationEvents)
      ensures CurrentSettings() == old(CurrentSettings())
      ensures o.fate.Pinged? && o.fate.recorded.Some? ==>
        lastActivity == old(lastActivity)[o.fate.recorded.value := now]
      ensures !(o.fate.Pinged? && o.fate.recorded.Some?) ==> lastActivity == old(lastActivity)
    {
      o := Broadcast(CurrentSettings(), payload, usersOnline, notificationsEnabled, notificationEvents);
      if o.fate.Pinged? && o.fate.recorded.Some? {
        lastActivity := lastActivity[o.fate.recorded.value := now];
      }
    }
  }
}
