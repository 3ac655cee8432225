# SCLogAnalyzer helpers, modelled in Dafny

SCLogAnalyzer follows the Star Citizen game log and turns what it finds into
notifications, shared logs, tournament bookkeeping and panel contents. This project
models the in-memory logic behind those features and proves what each part promises:

- `RateLimiter`: the message rate limiter. It suppresses duplicates per key within a timeout, applies a global ceiling over a rolling window, and cleans up stale keys. The limiter object runs the cleanup as written; the step functions take the cleanup horizon as a parameter, so the corrected horizon of the finding below is proved about them as well.
- `MessageBus` and `Events`: the named-subscriber bus with level and pattern filters and a bounded history, and the plain list-based event helper.
- `Config`: reading and writing the configuration by dotted key paths, plus the filtered and merged views of it.
- `Tournament`: participants, teams and status, with validation when a tournament is built from a dictionary, and the round trip through `to_dict`.
- `AlarmsTimers`: stopwatches and countdown alarms as state machines, the `MM:SS` formatting, and removal from the panel's collections.
- `ProfileCache`: the least-recently-used cache of player profiles.
- `Stalled`: counting of stalled players per reporting user, with a time to live that grows with the size of the problem.
- `ShardList`: the shard-change log and its deduplication.
- `SharedLogs`: the shared buffer of remote logs, newest first, at most 500 entries; the entry each remote log becomes; and the choice of profile target.
- `RealtimeBridge`: the presence record, the content exclusions and the filter chain that a broadcast from another user goes through.
- `Hotkeys`, `HotkeysLegacy` and `HotkeyCapture`: validation and conversion of hotkey combinations in the service and in the older manager, registration and press counting, and the capture widget's combination string.
- `TableNames`: SQL-safe table names, the cache of existing tables and the choice of table for each log insert.
- `EnsureAll`: the `all` field added to message data.

Two shared modules carry the Python semantics the helpers rely on:

- `Common`: loosely typed values and their truthiness, `split`, `strip`, `lower`, sorted order and `str(int)`.
- `PyDict`: insertion-ordered dictionaries, with Python's assignment and deletion semantics.

Clock readings, network answers and callback outcomes are parameters. Every time is a whole number of seconds passed in as `now`.

The older copy of the rate limiter (`src/helpers/rate_limiter.py`) has the same logic as
`src/helpers/core/rate_limiter.py`. The older shared-logs widget (`src/helpers/shared_logs_widget.py`)
builds entries and keeps its buffer the same way as `src/helpers/widgets/shared_logs_widget.py`.
One model serves each pair, and the rows below cite the newer file.

## Model

| member | source | states |
|---|---|---|
| Events.Reached | src/helpers/event_handlers.py:22-25 | the callbacks `emit` calls are a prefix of the subscribers: all of them when none raises, otherwise those up to and including the first that raises |
| Events.Event.constructor | src/helpers/event_handlers.py:9-10 | a new event has no subscribers |
| Events.Event.Subscribe | src/helpers/event_handlers.py:12-15 | the callback is appended only when absent, so every callback is registered at most once |
| Events.Event.Unsubscribe | src/helpers/event_handlers.py:17-20 | the callback is removed when present and every other subscriber stays, in order; unsubscribing an absent callback changes nothing |
| Events.Event.Emit | src/helpers/event_handlers.py:22-25 | the subscribers are called in subscription order until one raises; the exception reaches the caller exactly when some subscriber raises |
| Events.Event.Clear | src/helpers/event_handlers.py:27-29 | no subscriber is left |
| Events.ReachedAfterPrefix | src/helpers/event_handlers.py:22-25 | when the first raising callback is at position i, exactly the first i + 1 subscribers are called |
| Config.WalkIsReachOrDefault | src/helpers/config_utils.py:299-305 | a dotted `get` returns the default as soon as a step of the path meets a value that is not a dictionary or lacks the key |
| Config.WalkFindsReach | src/helpers/config_utils.py:299-305 | when every step of the path exists, a dotted `get` returns the value at its end, whatever the default |
| Config.WalkAfterSetPath | src/helpers/config_utils.py:322-331 | after storing a value under a path of keys, walking the same keys finds that value |
| Config.GetAfterSet | src/helpers/config_utils.py:296-331 | after `set(p, v)`, `get(p, d)` returns `v` for every default `d`, dotted or not |
| Config.SetLeavesOtherKeys | src/helpers/config_utils.py:320-331 | `set` touches only the top-level key its path starts with; every other key keeps its presence and value |
| Config.SetPathMakesDicts | src/helpers/config_utils.py:325-330 | after a dotted `set`, every proper prefix of the path leads to a dictionary (missing or non-dictionary steps were replaced by `{}`) |
| Config.ConfigManager.constructor | src/helpers/config_utils.py:127-131 | the manager holds the configuration it was given |
| Config.ConfigManager.Get | src/helpers/config_utils.py:284-305 | `get` follows the loop over the path and returns what the walk of the path gives; a key without dots is a plain top-level lookup with the default |
| Config.ConfigManager.Set | src/helpers/config_utils.py:307-332 | `set` returns True, stores the value under the path, and reading the path back gives the value |
| Config.ConfigManager.Filter | src/helpers/config_utils.py:267-282 | the result holds exactly the configuration's keys that are not listed, each with its value; the configuration is unchanged |
| Config.ConfigManager.GetAll | src/helpers/config_utils.py:438-442 | the configuration without the seven transient keys, every other key with its value |
| Config.ConfigManager.Update | src/helpers/config_utils.py:445-448 | the given keys take the given values and every other key keeps its value |
| MessageBus.ShouldProcess | src/helpers/message_bus.py:151-183 | a subscriber without filters processes every message; otherwise the level check, then the pattern check, decide; a truthy pattern value is tested with Python `in`: list membership, a dictionary key, a substring of a string (raising for a message without a pattern name), and raising for an int or a bool |
| MessageBus.PatternIn | src/helpers/message_bus.py:176-179 | the `in` test succeeds or raises by the kind of value: it is defined for lists, dictionaries and, given a pattern name, strings, and raises otherwise |
| MessageBus.SuffixIsSubstring | src/helpers/message_bus.py:176-179 | a pattern name that ends the filter string passes the substring test |
| MessageBus.PatternValueFilter | src/helpers/message_bus.py:176-179 | a string, list or dictionary pattern filter never raises on a message with a pattern name, and skips it exactly when the value is non-empty and does not contain the name |
| MessageBus.StringPatternIsSubstringTest | src/helpers/message_bus.py:176-179 | a filter string "player_death" lets a message of pattern "death" through |
| MessageBus.LevelFilterDrops | src/helpers/message_bus.py:169-173 | a level filter skips exactly the messages whose level value is below the minimum |
| MessageBus.PatternFilterDrops | src/helpers/message_bus.py:175-179 | a pattern filter skips a message exactly when the list is non-empty and the message's pattern name is not in it; it never raises |
| MessageBus.Names | src/helpers/message_bus.py:236-238 | the subscribers' names, position by position |
| MessageBus.SubscribeKeepsNamesUnique | src/helpers/message_bus.py:225-244 | subscribing keeps names unique, holds the new callback under the name, adds an entry only for a new name and keeps every subscriber of another name |
| MessageBus.UnsubscribeRemoves | src/helpers/message_bus.py:253 | the list comprehension keeps exactly the subscribers of other names |
| MessageBus.UnsubscribeIdempotent | src/helpers/message_bus.py:246-257 | unsubscribing a name twice is the same as once |
| MessageBus.Bounded | src/helpers/message_bus.py:185-196 | the history after eviction holds at most the bound and is the newest entries of the full history |
| MessageBus.NewestFirst | src/helpers/message_bus.py:309-319 | the selection holds exactly the history entries of at least the minimum level and of the given pattern name |
| MessageBus.Reverse | src/helpers/message_bus.py:310 | `reversed` keeps the length |
| MessageBus.Take | src/helpers/message_bus.py:322-323 | Python's `xs[:n]`: a prefix, of length n (or all) for n >= 0 and dropping -n entries from the end for n < 0 |
| MessageBus.GetHistory | src/helpers/message_bus.py:294-325 | `get_history` is the newest-first selection of matching messages, cut to `max_messages` when one is given |
| MessageBus.FiltersSelectNewestFirst | src/helpers/message_bus.py:309-319 | reversing and then applying the level and pattern comprehensions gives the matching messages, newest first |
| MessageBus.Recipients | src/helpers/message_bus.py:133-141 | the subscribers called for a message are exactly those whose filters let it through; a raising callback does not stop the others |
| MessageBus.UnfilteredReceivesAll | src/helpers/message_bus.py:163-167 | a subscriber without filters receives every message |
| MessageBus.MessageBus.constructor | src/helpers/message_bus.py:87-95 | no subscribers, no filters, an empty history and a bound of 1000 |
| MessageBus.MessageBus.Subscribe | src/helpers/message_bus.py:225-244 | the loop replaces the callback of an existing name or appends a new subscriber; names stay unique |
| MessageBus.MessageBus.Unsubscribe | src/helpers/message_bus.py:246-257 | the subscribers of that name and its filters are removed; names stay unique; the history is kept |
| MessageBus.MessageBus.SetFilter | src/helpers/message_bus.py:259-276 | the subscriber's filters gain (or replace) the given type, created empty first when missing |
| MessageBus.MessageBus.ClearFilter | src/helpers/message_bus.py:278-292 | with no type all the subscriber's filters go, otherwise only that type; an unknown subscriber changes nothing |
| MessageBus.MessageBus.AddToHistory | src/helpers/message_bus.py:185-196 | the message is appended and the oldest entries are evicted while over the bound, so the history stays within it |
| MessageBus.MessageBus.Deliver | src/helpers/message_bus.py:129-141 | one dequeued message is recorded in the history before being routed, then reaches exactly its recipients |
| MessageBus.MessageBus.Dispatch | src/helpers/message_bus.py:133-141 | the delivery loop calls, in registration order, exactly the subscribers whose filters accept the message |
| MessageBus.UnsubscribeKeepsDistinct | src/helpers/message_bus.py:253 | unsubscribing keeps names unique and leaves no subscriber under the removed name |
| ProfileCache.MakeEntry | src/helpers/data/profile_cache.py:102-113 | the stored entry carries the profile, both time stamps set to now, and as organisation the profile's `main_org_sid` when it has that key, else "Unknown" |
| ProfileCache.Evict | src/helpers/data/profile_cache.py:122-125 | the eviction loop leaves exactly the maximum number of entries when there are more, dropping only the oldest ones, and changes nothing when there is room |
| ProfileCache.TouchProps | src/helpers/data/profile_cache.py:115-120 | re-inserting a player keeps the players distinct, puts it at the most recent end with the new entry, keeps every other player's entry, and grows the cache only for a new player |
| ProfileCache.SuffixValid | src/helpers/data/profile_cache.py:122-125 | dropping the oldest entries keeps the players distinct |
| ProfileCache.AddedValid | src/helpers/data/profile_cache.py:115-125 | after `add_profile` the cache has distinct players, at most the maximum of them, and is the most recent part of the re-inserted cache |
| ProfileCache.AddedNewest | src/helpers/data/profile_cache.py:115-125 | with a maximum of at least one, the added player is the most recent entry and reads back with its new entry |
| ProfileCache.HitProps | src/helpers/data/profile_cache.py:64-70 | a hit keeps the size and the players distinct, moves the player to the most recent end with a fresh access time and leaves the others in their order |
| ProfileCache.StatsOf | src/helpers/data/profile_cache.py:175-183 | the statistics count the entries and list the players from oldest to newest; the usage percentage is undefined exactly when the maximum is 0 (the division raises) and lies within 0..100 when the cache is within a positive maximum |
| ProfileCache.ProfileCache.constructor | src/helpers/data/profile_cache.py:33-38 | an empty cache with the configured maximum |
| ProfileCache.ProfileCache.GetProfile | src/helpers/data/profile_cache.py:53-85 | a hit returns the refreshed entry and makes it the most recent; a miss returns None and changes nothing; the size never changes |
| ProfileCache.ProfileCache.AddProfile | src/helpers/data/profile_cache.py:87-139 | the entry is re-inserted at the most recent end and the oldest are evicted down to the maximum; with a negative maximum the loop empties the cache and raises |
| ProfileCache.ProfileCache.RemoveProfile | src/helpers/data/profile_cache.py:141-161 | returns True exactly when the player was cached; afterwards it is absent and every other player keeps its entry |
| ProfileCache.ProfileCache.ClearCache | src/helpers/data/profile_cache.py:163-173 | the cache is empty |
| RateLimiter.KeyTypeSeparates | src/helpers/core/rate_limiter.py:34 | the key is "type:message" for a given type, so one message under two different types is tracked under two different keys |
| RateLimiter.InWindow | src/helpers/core/rate_limiter.py:38 | the comprehension keeps exactly the timestamps younger than the window, in order |
| RateLimiter.Cleanup | src/helpers/core/rate_limiter.py:61-65 | the kept entries are exactly those not older than the horizon, each unchanged |
| RateLimiter.FirstSendAllowed | src/helpers/core/rate_limiter.py:54-55 | a key never seen is let through whenever the global gate passes, and recorded as (now, 1) |
| RateLimiter.DenialKeepsLastTime | src/helpers/core/rate_limiter.py:46-49 | within the timeout, once the count has reached max_duplicates and the entry survives any cleanup due at this call, the send is refused, the count goes up and last_time stays |
| RateLimiter.HorizonKeepsLiveEntries | src/helpers/core/rate_limiter.py:42-65 | with the corrected horizon a cleanup never removes an entry whose timeout is still running |
| RateLimiter.ResetAfterTimeout | src/helpers/core/rate_limiter.py:50-51 | once the timeout has elapsed the entry restarts at (now, 1) and the send is allowed |
| RateLimiter.GlobalDenialTouchesNothing | src/helpers/core/rate_limiter.py:37-40 | a global refusal returns before the cleanup and the per-key bookkeeping; only expired timestamps leave the window |
| RateLimiter.GlobalCeiling | src/helpers/core/rate_limiter.py:37-58 | the window only ever receives allowed sends and never holds more than global_limit_count timestamps |
| RateLimiter.StatsOf | src/helpers/core/rate_limiter.py:67-73 | `get_stats` is None exactly for an unknown key and otherwise reports its last time and count |
| RateLimiter.BlockedMeansDenied | src/helpers/core/rate_limiter.py:47-71 | a key reported blocked, whose entry survives any cleanup due at this call, is refused by a call at the same time that passes the global gate |
| RateLimiter.DenialReportsBlocked | src/helpers/core/rate_limiter.py:47-71 | after a per-key refusal the key is reported blocked, whatever the cleanup horizon |
| RateLimiter.CleanupKeepsVerdict | src/helpers/core/rate_limiter.py:42-55 | with a cleanup horizon at least the timeout, a cleanup changes neither the verdict nor the stored entry of the key |
| RateLimiter.HorizonKeepsVerdicts | src/helpers/core/rate_limiter.py:42-55 | with the corrected horizon every verdict is the per-key decision on the entries before the cleanup |
| RateLimiter.CleanupIntervalReadmitsDuplicate | src/helpers/core/rate_limiter.py:62 | with the defaults, the as-written cleanup lets a duplicate through 101 s after the first send, which the corrected horizon refuses |
| RateLimiter.MessageRateLimiter.constructor | src/helpers/core/rate_limiter.py:9-27 | no entries, an empty window and the last cleanup at creation time |
| RateLimiter.MessageRateLimiter.ShouldSend | src/helpers/core/rate_limiter.py:29-59 | the verdict and the new state are one step of the limiter with the cleanup horizon as written (cleanup_interval), and the window stays within global_limit_count |
| RateLimiter.MessageRateLimiter.CleanupMessages | src/helpers/core/rate_limiter.py:61-65 | the entries older than cleanup_interval are removed, the others stay unchanged, and last_cleanup is set |
| RateLimiter.MessageRateLimiter.GetStats | src/helpers/core/rate_limiter.py:67-73 | None exactly for an unknown key, otherwise its last time and count; a key reported blocked is refused by a call now unless the global gate refuses first or a due cleanup deletes its entry |
| RealtimeBridge.PresenceDict | src/helpers/core/realtime_bridge.py:324-332 | every argument that is not None is used as given, the others come from the bridge, and the status is never None ("online" by default) |
| RealtimeBridge.PresenceDefaults | src/helpers/core/realtime_bridge.py:324-332 | without arguments the record is the bridge's own, online; rebuilding a record from its own fields gives it back |
| RealtimeBridge.ExclusionsProps | src/helpers/core/realtime_bridge.py:815-832 | clearing leaves no exclusion; adding excludes the content and removing un-excludes it; no other content changes; each update is idempotent |
| RealtimeBridge.PassesGlobalFilters | src/helpers/core/realtime_bridge.py:843-866 | with both filters off every event passes |
| RealtimeBridge.GlobalFilterRule | src/helpers/core/realtime_bridge.py:849-864 | with only the mode (or only the shard) filter on, None, "" or "Unknown" passes exactly when unknown values are included and any other value exactly when it equals the current one |
| RealtimeBridge.DeliveredPassedFilters | src/helpers/core/realtime_bridge.py:577-632 | a re-emitted broadcast passed the global filters, is not excluded content, comes from an allowed sender, is not a stall of an online player and is not a ping |
| RealtimeBridge.NoFiltersDeliver | src/helpers/core/realtime_bridge.py:577-632 | with every filter off, every readable broadcast that is not a ping is re-emitted |
| RealtimeBridge.RealtimeBridge.constructor | src/helpers/core/realtime_bridge.py:69-102 | the initial filter settings: stall filter on, no allowed-sender or content filter, mode and shard filters off, unknown values included, current mode and shard "Unknown" |
| RealtimeBridge.RealtimeBridge.UpdateContentExclusions | src/helpers/core/realtime_bridge.py:815-832 | the exclusion set becomes the updated set and no other setting changes |
| RealtimeBridge.RealtimeBridge.GetActiveContentExclusions | src/helpers/core/realtime_bridge.py:834-835 | the excluded contents, each once, in increasing order |
| RealtimeBridge.RealtimeBridge.HandleRealtimeEventBroadcast | src/helpers/core/realtime_bridge.py:531-639 | the broadcast's fate follows the filter chain on the current settings; only a ping with a sender and a stamp records the sender's last activity, and no setting changes |
| ShardList.ParseShard | src/helpers/widgets/shard_list_widget.py:44-55 | four or more underscore-separated parts give the second and the last joined by "_"; fewer parts, or a value that is not a string, come back unchanged |
| ShardList.ParseShardIdempotent | src/helpers/widgets/shard_list_widget.py:44-55 | parsing a parsed shard changes nothing |
| ShardList.ParsedAccepted | src/helpers/widgets/shard_list_widget.py:88-92 | parsing never turns an accepted shard into an empty, "Unknown" or "None" one |
| ShardList.LatestShard | src/helpers/widgets/shard_list_widget.py:100-105 | the backward search finds no entry exactly when the player has none |
| ShardList.LastEntryTestRedundant | src/helpers/widgets/shard_list_widget.py:94-108 | the test against the log's last entry never decides anything: an entry is added exactly when the shard is accepted and differs from the player's latest |
| ShardList.AddEntryValid | src/helpers/widgets/shard_list_widget.py:87-113 | every entry holds an accepted shard and differs from the same player's previous entry, and adding a report keeps it so |
| ShardList.AddEntryIdempotent | src/helpers/widgets/shard_list_widget.py:94-113 | reporting the same shard again for a player adds nothing |
| ShardList.ReadUser | src/helpers/widgets/shard_list_widget.py:61-64 | a user is reported only with a truthy username and a truthy shard other than "Unknown" |
| ShardList.FirstNotADict | src/helpers/widgets/shard_list_widget.py:61-62 | the position of the first user on which `.get` raises, or the end of the list |
| ShardList.AfterUsersValid | src/helpers/widgets/shard_list_widget.py:60-65 | processing a list of users keeps the log valid |
| ShardList.ShardList.constructor | src/helpers/widgets/shard_list_widget.py:80 | the log starts empty |
| ShardList.ShardList.AddShardEntry | src/helpers/widgets/shard_list_widget.py:87-113 | the loop's result is the log with the parsed shard appended exactly when the report is admitted |
| ShardList.ShardList.OnUsersOnlineUpdated | src/helpers/widgets/shard_list_widget.py:60-65 | the users are reported in order up to the first one that is not a dictionary, where the handler raises |
| ShardList.ShardList.ClearShards | src/helpers/widgets/shard_list_widget.py:78-85 | the log is empty |
| ShardList.LatestShardAt | src/helpers/widgets/shard_list_widget.py:102-105 | where the backward search stops, the entry is the player's latest |
| SharedLogs.CreateLogEntry | src/helpers/widgets/shared_logs_widget.py:90-118 | a payload that is not a dictionary, or whose "metadata" or "raw_data" is not one, raises; otherwise content, shard and type come from "metadata" when present (defaults "", "Unknown", "Unknown") and else from the payload and "raw_data"; the mode and the local time come from "raw_data" with their defaults |
| SharedLogs.PushedProps | src/helpers/widgets/shared_logs_widget.py:80-85 | after one event the new entry is first, the older entries follow in order and only the oldest beyond 500 are dropped |
| SharedLogs.PushedAllNewest | src/helpers/widgets/shared_logs_widget.py:80-85 | after any series of events the buffer is the newest 500 entries of everything seen, newest first |
| SharedLogs.SharedLogs.constructor | src/helpers/widgets/shared_logs_widget.py:14-15 | the shared buffer starts empty |
| SharedLogs.SharedLogs.ProcessRemoteLog | src/helpers/widgets/shared_logs_widget.py:75-85 | an entry that can be built is put in front and the buffer is cut to 500; a payload that raises leaves the buffer unchanged; the buffer never holds more than 500 entries |
| SharedLogs.SharedLogs.GetLogCount | src/helpers/widgets/shared_logs_widget.py:294-296 | the count is the buffer's length, never above 500 |
| SharedLogs.SharedLogs.ClearLogs | src/helpers/widgets/shared_logs_widget.py:298-300 | the buffer is empty afterwards |
| SharedLogs.Run | src/helpers/widgets/shared_logs_widget.py:271 | the run from a position covers only name characters and stops at the first other character or the end |
| SharedLogs.BackOff | src/helpers/widgets/shared_logs_widget.py:271 | the greedy match backs off to the longest end of at least four characters that sits on a word boundary, or fails when none does |
| SharedLogs.MatchAt | src/helpers/widgets/shared_logs_widget.py:271 | a match starts and ends on word boundaries, is at least four characters long and holds only name characters |
| SharedLogs.FindAll | src/helpers/widgets/shared_logs_widget.py:271 | every token found is at least four name characters long |
| SharedLogs.Candidates | src/helpers/widgets/shared_logs_widget.py:272 | the candidates are exactly the tokens that are not "stalled" in any case |
| SharedLogs.FirstOtherProps | src/helpers/widgets/shared_logs_widget.py:271-292 | the profile target is the first token that is neither "stalled" nor the sender, compared without case; there is none exactly when every token is one of those two |
| Stalled.MaxSource | src/helpers/stalled_widget.py:116 | the largest source count, 0 when there are no sources: every source's count is at most it and, with sources, one of them reaches it |
| Stalled.TtlBounds | src/helpers/stalled_widget.py:97-121 | the time-to-live never exceeds 600 seconds and, for a base of at most 600, is never below the base |
| Stalled.TtlMonotone | src/helpers/stalled_widget.py:97-121 | more reporting users, more stalls or more stalls from one user never shorten the time-to-live |
| Stalled.TtlExamples | src/helpers/stalled_widget.py:97-121 | the stall bonus stops growing after 31 stalls, each extra user adds 30 seconds, ten stalls from one user add 60 seconds, and the result is capped at 600 |
| Stalled.ParseEvent | src/helpers/stalled_widget.py:123-139 | only a non-empty dictionary of type "actor_stall" whose raw data names a player, a reporting user and a timestamp, all truthy, is a stall |
| Stalled.BumpedOk | src/helpers/stalled_widget.py:155-172 | a stall adds one to the player's count, stamps it with the arrival time and the reporting user, and keeps the source counts adding up to the player's count |
| Stalled.BumpedSources | src/helpers/stalled_widget.py:162-172 | a stall adds one to the reporting user's count, a new user starting from zero with both stamps at the arrival time, and leaves every other user alone |
| Stalled.SourceSum | src/helpers/stalled_widget.py:170-172 | bumping one source adds exactly one to the sum of the source counts |
| Stalled.RecordCounts | src/helpers/stalled_widget.py:145-172 | a stall updates only the reported player, a new player starting from zero, and adds a key only for a new player |
| Stalled.PlayerOrConsistent | src/helpers/stalled_widget.py:146-155 | the player a stall is added to, new or existing, has its counts adding up |
| Stalled.RecordConsistent | src/helpers/stalled_widget.py:145-172 | recording a stall keeps every player's count equal to the sum of its source counts |
| Stalled.PutKeepsOk | src/helpers/stalled_widget.py:147-155 | writing a consistent player into a consistent table keeps it consistent |
| Stalled.RecordTotal | src/helpers/stalled_widget.py:157-158 | every accepted stall adds exactly one to the total |
| Stalled.TotalBySources | src/helpers/stalled_widget.py:400-403 | the total of the players' counts equals the total of all their sources' counts |
| Stalled.KeptProps | src/helpers/stalled_widget.py:189-203 | after the cleanup a player is present, unchanged, exactly when it was present and its idle time did not exceed its time-to-live |
| Stalled.StalledTracker.constructor | src/helpers/stalled_widget.py:17-25 | the tracker starts with no players and the given base time-to-live |
| Stalled.StalledTracker.HandleRemoteEvent | src/helpers/stalled_widget.py:123-175 | an accepted stall is recorded at the arrival time and adds one to the total; any other payload changes nothing, and a raw data that is not a dictionary raises |
| Stalled.StalledTracker.CleanupExpiredData | src/helpers/stalled_widget.py:189-203 | the loop over a snapshot deletes exactly the expired players, keeps the others in order and reports the deleted names in order |
| Stalled.StalledTracker.GetTotalStalls | src/helpers/stalled_widget.py:400-403 | the total stalls, which equals the sum over all players of their sources' counts |
| Tournament.ParseStatusExact | src/helpers/tournament/tournament.py:8-13 | a status value is accepted exactly when it is one of the four names "created", "active", "paused", "completed" |
| Tournament.NonBlank | src/helpers/tournament/tournament.py:33-37 | a name or creator passes exactly when it is a string that is not blank after stripping, and passes unchanged |
| Tournament.BuildIsWellFormed | src/helpers/tournament/tournament.py:18-43 | every tournament the constructor accepts has a non-blank name and creator |
| Tournament.BuildRefusesBlank | src/helpers/tournament/tournament.py:31-37 | an empty, None or whitespace-only name or creator raises |
| Tournament.BuildMissingKeys | src/helpers/tournament/tournament.py:18-26 | a missing "name" raises first; with a valid status a missing "created_by" raises next |
| Tournament.BuildTeamsMustBeDict | src/helpers/tournament/tournament.py:18-43 | once the other checks pass, the constructor refuses exactly a teams value that is not a dictionary |
| Tournament.RoundTrip | src/helpers/tournament/tournament.py:125-141 | building from `to_dict` gives back the same tournament, so its `to_dict` output is the same |
| Tournament.AddExistingChangesNothing | src/helpers/tournament/tournament.py:48-53 | adding a participant again returns False and changes nothing |
| Tournament.AddJoinsTeam | src/helpers/tournament/tournament.py:55-67 | a new participant is appended once and becomes a member of the named team, created if missing; other teams are unchanged and every team member stays a participant |
| Tournament.StripMember | src/helpers/tournament/tournament.py:82-84 | every team keeps its name and position and loses its first occurrence of the user |
| Tournament.DropEmpty | src/helpers/tournament/tournament.py:87 | the kept teams are exactly the teams with members |
| Tournament.DropEmptyValid | src/helpers/tournament/tournament.py:87 | dropping empty teams keeps the team names distinct |
| Tournament.RemoveAbsentChangesNothing | src/helpers/tournament/tournament.py:76-77 | removing a non-participant returns False and changes nothing |
| Tournament.RemoveLeavesNoTrace | src/helpers/tournament/tournament.py:79-90 | removing a participant takes them out of the participants and every team, leaves no empty team, keeps everyone else and keeps every team member a participant |
| Tournament.TeamOf | src/helpers/tournament/tournament.py:100-105 | the reported team holds the user; there is none exactly when no team holds them |
| Tournament.TeamOfHoldsUser | src/helpers/tournament/tournament.py:100-105 | looking the reported team up by name gives members that include the user |
| Tournament.UpdateStatusAcceptsFourNames | src/helpers/tournament/tournament.py:107-123 | the update succeeds exactly for the four names, sets the status to the one named, and otherwise leaves the tournament unchanged |
| Tournament.Tournament.constructor | src/helpers/tournament/tournament.py:18-27 | the object holds the fields of the record it is built from |
| Tournament.Tournament.AddParticipant | src/helpers/tournament/tournament.py:45-71 | the in-place update of the participants and the team is the change `Add` describes, with the same result |
| Tournament.Tournament.RemoveParticipant | src/helpers/tournament/tournament.py:73-94 | the in-place removal and the rebuilt teams dictionary are the change `Remove` describes, with the same result |
| Tournament.Tournament.StripMemberFromTeams | src/helpers/tournament/tournament.py:82-84 | the loop removes the user from each team in place and changes nothing else |
| Tournament.Tournament.DropEmptyTeams | src/helpers/tournament/tournament.py:87 | the comprehension keeps the non-empty teams in their order and changes nothing else |
| Tournament.Tournament.GetParticipantTeam | src/helpers/tournament/tournament.py:100-105 | the loop returns the first team in dictionary order that holds the user, or None |
| Tournament.Tournament.SetStatus | src/helpers/tournament/tournament.py:107-123 | the status changes exactly as `UpdateStatus` describes |
| Tournament.Tournament.ToDict | src/helpers/tournament/tournament.py:125-136 | the dictionary holds the tournament's fields, with the status by name |
| Tournament.FromDict | src/helpers/tournament/tournament.py:138-141 | a new tournament holding what the constructor builds, or the error it raises |
| Tournament.AddPutTwice | src/helpers/tournament/tournament.py:57-61 | creating the team and then appending the user is one write of the team's new member list |
| AlarmsTimers.Pad2Digits | src/helpers/widgets/alarms_timers_widget.py:30 | the two-digit padding of a non-negative number is all digits, at least two of them, exactly two below 100, and reads back as the number |
| AlarmsTimers.MinutesColonSecondsParse | src/helpers/widgets/alarms_timers_widget.py:30 | minutes and seconds written as MM:SS read back as minutes times 60 plus the seconds |
| AlarmsTimers.FormatTimeRoundTrip | src/helpers/widgets/alarms_timers_widget.py:17-30 | the text for a non-negative number of seconds reads back as that number |
| AlarmsTimers.FormatTimeShape | src/helpers/widgets/alarms_timers_widget.py:17-30 | the text is at least two minute digits holding seconds // 60, a colon and exactly two digits holding seconds % 60 |
| AlarmsTimers.Timer.ElapsedMonotone | src/helpers/widgets/alarms_timers_widget.py:113-126 | while the clock has only gone forward, the stopwatch reading is never negative and never goes backwards as the clock advances |
| AlarmsTimers.Timer.constructor | src/helpers/widgets/alarms_timers_widget.py:39-62 | a new stopwatch is stopped at zero with no start time and no laps |
| AlarmsTimers.Timer.Start | src/helpers/widgets/alarms_timers_widget.py:64-71 | a running stopwatch is left alone; otherwise it runs from now, whatever the clock reads; the reading does not jump, and whether the clock has only gone forward is recorded |
| AlarmsTimers.Timer.Stop | src/helpers/widgets/alarms_timers_widget.py:73-90 | a running stopwatch banks the span since its start, negative if the clock went back, and becomes paused with no start time; in any other state nothing changes; the reading does not jump |
| AlarmsTimers.Timer.Reset | src/helpers/widgets/alarms_timers_widget.py:92-99 | zero elapsed, no start or pause time, no laps, stopped |
| AlarmsTimers.Timer.Lap | src/helpers/widgets/alarms_timers_widget.py:101-111 | the current reading is appended to the laps and returned and nothing else changes; while the clock has only gone forward the reading is not negative and the laps stay in non-decreasing order |
| AlarmsTimers.Clamp | src/helpers/widgets/alarms_timers_widget.py:229-230 | the clamped time lies between 0 and 999 minutes and a time already inside is unchanged |
| AlarmsTimers.AlarmName | src/helpers/widgets/alarms_timers_widget.py:164 | a non-empty given name is used as it is |
| AlarmsTimers.Alarm.RemainingMonotone | src/helpers/widgets/alarms_timers_widget.py:242-256 | while running, from its start on, the time left never grows as the clock advances, never drops below zero and never exceeds the banked time |
| AlarmsTimers.Alarm.constructor | src/helpers/widgets/alarms_timers_widget.py:155-177 | a new alarm is paused with the full number of minutes left and its name or the default name |
| AlarmsTimers.Alarm.Start | src/helpers/widgets/alarms_timers_widget.py:179-190 | a running or expired alarm is left alone; a paused alarm with no time left expires; otherwise it runs from now |
| AlarmsTimers.Alarm.Pause | src/helpers/widgets/alarms_timers_widget.py:192-211 | a running alarm banks the time spent and becomes expired with zero left or paused; any other state is left alone |
| AlarmsTimers.Alarm.AdjustTime | src/helpers/widgets/alarms_timers_widget.py:213-240 | the time left becomes the current time left plus the change, clamped to 0..999 minutes; expired exactly when zero is left; a running alarm keeps running from now and an expired one given time becomes paused |
| AlarmsTimers.Alarm.IsExpired | src/helpers/widgets/alarms_timers_widget.py:258-273 | a running alarm whose time is up becomes expired with zero left; the answer is whether the alarm is expired |
| AlarmsTimers.Alarm.Reset | src/helpers/widgets/alarms_timers_widget.py:287-301 | back to the original or the given number of minutes, paused, with no start or pause time |
| AlarmsTimers.Items.constructor | src/helpers/widgets/alarms_timers_widget.py:319-321 | the panel starts with no timers and no alarms |
| AlarmsTimers.Items.RemoveItem | src/helpers/widgets/alarms_timers_widget.py:781-797 | the id is removed from the timers when it is a timer, otherwise from the alarms; every other entry stays |
| Hotkeys.CheckCombo | src/helpers/services/hotkey_manager.py:130-154 | the loop answers true exactly when the combination is a non-empty string whose '+'-parts, lowercased and stripped, are all non-empty and a known modifier, a known key or a single character |
| Hotkeys.ValidateCombination | src/helpers/services/hotkey_manager.py:120-128 | the combination itself when it is valid, otherwise the fallback |
| Hotkeys.ChosenValid | src/helpers/services/hotkey_manager.py:120-128 | with a valid default the chosen combination is always valid, and choosing again from it changes nothing |
| Hotkeys.ConvertEach | src/helpers/services/hotkey_manager.py:288-297 | one converted part per part, each the conversion of the stripped part |
| Hotkeys.ConvertedParts | src/helpers/services/hotkey_manager.py:253-297 | one converted part per '+'-part of the lowercased combination, in order |
| Hotkeys.ConvertLoop | src/helpers/services/hotkey_manager.py:288-297 | the loop appends the conversion of each stripped part, in order |
| Hotkeys.ConvertCombination | src/helpers/services/hotkey_manager.py:249-299 | the converted parts joined by '+' |
| Hotkeys.ConvertToPynputFormat | src/helpers/services/hotkey_manager.py:249-299 | the combination in the listener's notation: the converted parts joined by '+' |
| Hotkeys.StrippedPartsPlain | src/helpers/services/hotkey_manager.py:253-289 | no stripped part of a split combination holds a '+' |
| Hotkeys.ConvertedSplits | src/helpers/services/hotkey_manager.py:299 | converted parts free of '+' are exactly what splitting the joined result on '+' gives back |
| Hotkeys.SpecialKeyShape | src/helpers/services/hotkey_manager.py:257-292 | no special key name is a single character or starts with 'f', so the special-key table and the function-key rule never compete |
| Hotkeys.BracketPlain | src/helpers/services/hotkey_manager.py:294 | bracketing a part adds no '+' |
| Hotkeys.ModifierConverts | src/helpers/services/hotkey_manager.py:257-262 | every modifier, "win" included, converts to a bracketed name the listener knows |
| Hotkeys.NamedKeyConverts | src/helpers/services/hotkey_manager.py:263-268 | "space", "tab", "enter" and "escape" convert to bracketed names the listener knows |
| Hotkeys.FunctionKeyConverts | src/helpers/services/hotkey_manager.py:292-294 | a function key f1 to f12 converts to itself in angle brackets |
| Hotkeys.AcceptedPartConverts | src/helpers/services/hotkey_manager.py:288-297 | every part the validator accepts converts to a single character, a bracketed special name or a bracketed function key, with no '+' |
| Hotkeys.ValidComboConverts | src/helpers/services/hotkey_manager.py:249-299 | a valid combination converts to exactly one listener token per part |
| Hotkeys.ExpectedPut | src/helpers/services/hotkey_manager.py:103-108 | writing one event's metadata moves no other event |
| Hotkeys.PlacedFile | src/helpers/services/hotkey_manager.py:353-356 | filing one event into its category's group adds it there, creating the group if needed, and leaves every other placement alone |
| Hotkeys.ByCategoryPlaces | src/helpers/services/hotkey_manager.py:344-357 | every event is found under its own category with its metadata and under no other; categories are distinct and so are the events in each group |
| Hotkeys.RegisterDescribed | src/helpers/services/hotkey_manager.py:102-108 | after a registration every mapped event still has its metadata |
| Hotkeys.FileStep | src/helpers/services/hotkey_manager.py:354-356 | creating a missing group and then writing into it is one filing step |
| Hotkeys.HotkeyManager.constructor | src/helpers/services/hotkey_manager.py:23-45 | no hotkeys, no metadata, zero counters, focus required as configured, game not focused |
| Hotkeys.HotkeyManager.OnFocusChange | src/helpers/services/hotkey_manager.py:73-76 | records the focus state and changes nothing else |
| Hotkeys.HotkeyManager.RegisterHotkey | src/helpers/services/hotkey_manager.py:78-109 | the configured combination if valid, else the default, maps to the event, replacing an earlier event on it; the event's metadata is rewritten and the registered count is the number of mapped combinations |
| Hotkeys.HotkeyManager.Store | src/helpers/services/hotkey_manager.py:93-109 | the combination table gains or overwrites the one entry, the event's metadata is replaced, the registered count is the table size, and counters and focus are untouched |
| Hotkeys.HotkeyManager.OnHotkeyPressed | src/helpers/services/hotkey_manager.py:307-319 | every press is counted; it is blocked exactly when focus is required and the game is not focused, otherwise it succeeds; total presses stay equal to blocked plus successful |
| Hotkeys.HotkeyManager.GetHotkeysByCategory | src/helpers/services/hotkey_manager.py:344-357 | the loop builds the grouping `ByCategory` describes |
| HotkeysLegacy.LegacyPartPlain | src/helpers/hotkey_manager.py:268-273 | converting a part that holds no '+' yields a part that holds no '+', so joined parts split back apart |
| HotkeysLegacy.LegacyConvertToPynputFormat | src/helpers/hotkey_manager.py:261-277 | the result is the '+'-join of the converted parts of the lowercased combination, in order |
| HotkeysLegacy.LegacyConvertSplits | src/helpers/hotkey_manager.py:264-275 | the converted string splits on '+' into exactly one token per part: ctrl, alt, shift, cmd and win wrapped in angle brackets, any other part kept as stripped |
| HotkeysLegacy.ConvertersAgreeOnPart | src/helpers/hotkey_manager.py:268-273 | on ctrl, alt, shift, cmd and single characters the older converter gives the same token as the service converter |
| HotkeysLegacy.ConvertersAgree | src/helpers/hotkey_manager.py:261-277 | a combination made only of ctrl, alt, shift, cmd and single characters converts identically in both managers |
| HotkeysLegacy.ConvertersDiffer | src/helpers/hotkey_manager.py:270-273 | the older converter writes win as `<win>` (the service writes `<cmd>`) and leaves f5 unbracketed (the service writes `<f5>`) |
| HotkeysLegacy.LegacyHotkeyManager.constructor | src/helpers/hotkey_manager.py:23-67 | no hotkeys, all counters zero, focus requirement as configured and the game not focused |
| HotkeysLegacy.LegacyHotkeyManager.OnFocusChange | src/helpers/hotkey_manager.py:69-81 | only the focus flag changes, to the reported value |
| HotkeysLegacy.LegacyHotkeyManager.RegisterHotkey | src/helpers/hotkey_manager.py:83-131 | the configured combination, or the default when it is missing or invalid, now maps to the event, replacing an earlier event on the same combination; the registered count equals the table size |
| HotkeysLegacy.LegacyHotkeyManager.Store | src/helpers/hotkey_manager.py:97-107 | the table gains or overwrites the one entry and the registered count is the table size; counters and focus are untouched |
| HotkeysLegacy.LegacyHotkeyManager.OnHotkeyPressed | src/helpers/hotkey_manager.py:279-300 | every press counts; the event is emitted exactly when focus is not required or the game is focused, and the blocked or successful counter grows accordingly, keeping total = blocked + successful |
| HotkeyCapture.PresentMembers | src/helpers/hotkey_capture_widget.py:171-174 | the modifier loop keeps exactly the names of the order that are held |
| HotkeyCapture.OthersMembers | src/helpers/hotkey_capture_widget.py:176-179 | the second loop keeps exactly the sorted keys that are not modifiers |
| HotkeyCapture.HeldModifiers | src/helpers/hotkey_capture_widget.py:168-174 | the loop collects the held modifiers in ctrl, alt, shift, cmd order |
| HotkeyCapture.NonModifiers | src/helpers/hotkey_capture_widget.py:176-179 | the loop collects the non-modifier keys in the given sorted order |
| HotkeyCapture.KeysToString | src/helpers/hotkey_capture_widget.py:162-181 | the empty set gives ""; otherwise the result is the '+'-join of the held modifiers in fixed order followed by the other keys in sorted order, whatever sorted listing of the keys is used |
| HotkeyCapture.PresentRanked | src/helpers/hotkey_capture_widget.py:168-174 | keeping a subsequence of the modifier order keeps the modifiers strictly in that order |
| HotkeyCapture.OthersSorted | src/helpers/hotkey_capture_widget.py:176-179 | dropping the modifiers from a strictly sorted list leaves a strictly sorted list |
| HotkeyCapture.OrderedSides | src/helpers/hotkey_capture_widget.py:167-181 | the joined list is the modifiers first, strictly in ctrl, alt, shift, cmd order, then only non-modifiers in strictly increasing order |
| HotkeyCapture.OrderedDistinct | src/helpers/hotkey_capture_widget.py:167-181 | the joined list has no repeated key |
| HotkeyCapture.OrderedShape | src/helpers/hotkey_capture_widget.py:167-181 | the joined list holds exactly the held keys, each once, modifiers first in fixed order and the others sorted |
| HotkeyCapture.KeysToStringSplits | src/helpers/hotkey_capture_widget.py:162-181 | when no key holds '+', splitting the result on '+' gives back the ordered list, whose members are exactly the held keys |
| HotkeyCapture.ValidateHotkey | src/helpers/hotkey_capture_widget.py:210-241 | true exactly for a non-empty string whose lowercased, stripped '+'-parts are all non-empty and a widget modifier, a widget key (a-z, 0-9, f1-f24, space, enter, tab, escape, backspace) or a single character |
| HotkeyCapture.ManagerPartCaptured | src/helpers/hotkey_capture_widget.py:227-239 | every part the service validator accepts, except win, is accepted by the widget |
| HotkeyCapture.ManagerValidCaptured | src/helpers/hotkey_capture_widget.py:210-241 | every combination the service validator accepts that uses no win part is accepted by the widget |
| TableNames.SanitizeValid | src/helpers/supabase_manager.py:157-184 | every sanitised name is 1 to 60 characters of a-z, 0-9 and '_', starting with a letter |
| TableNames.SanitizeKeepsCharacters | src/helpers/supabase_manager.py:170-182 | each character reappears lowered or replaced by '_' at its place, two places later behind a "t_" prefix when the name does not start with a letter, up to the 60-character cut |
| TableNames.SanitizeFixesValid | src/helpers/supabase_manager.py:170-184 | a name that is already a valid table name comes back unchanged |
| TableNames.SanitizeIdempotent | src/helpers/supabase_manager.py:157-184 | sanitising a sanitised name changes nothing |
| TableNames.SanitizeTableName | src/helpers/supabase_manager.py:157-184 | a falsy value gives "default_logs", a string gives its sanitised form, any other value has no result (the call raises); every result is a valid table name |
| TableNames.BaseName | src/helpers/supabase_manager.py:266-270 | the sheet when it is truthy, else the mode when it is truthy, else "game_logs"; always truthy |
| TableNames.Listed | src/helpers/supabase_manager.py:143-144 | exactly the listed keys that do not start with '_' |
| TableNames.FallbackEffect | src/supabase_manager.py:119-176 | after the fallback a table is cached exactly when its probe confirmed it and it was a standard or cached table, or it was cached and its probe was inconclusive |
| TableNames.FallbackFrom | src/supabase_manager.py:169-173 | removing the confirmed-missing tables and adding the confirmed-present ones gives the fallback cache |
| TableNames.SupabaseManager.constructor | src/helpers/supabase_manager.py:54-61 | not connected, no cached tables, cache time 0 and a time to live of 300 seconds |
| TableNames.SupabaseManager.RefreshTableCacheFallback | src/supabase_manager.py:119-176 | the cache becomes the fallback cache of the old one and the cache time is now |
| TableNames.SupabaseManager.RefreshTableCache | src/supabase_manager.py:65-117 | nothing changes without a connection; a listing replaces the cache and stamps the time; a failed listing falls back to probing in the newer manager and leaves the cache and its time alone in the older |
| TableNames.SupabaseManager.TableExists | src/helpers/supabase_manager.py:186-200 | the cache is refreshed first when it is older than its time to live, and the answer is membership in the cache so obtained |
| TableNames.SupabaseManager.CreateTable | src/helpers/supabase_manager.py:202-249 | succeeds exactly when connected and the creating insert succeeds; a created table joins the cache |
| TableNames.SupabaseManager.InsertLog | src/helpers/supabase_manager.py:251-297 | no table without a connection or with a non-string base name; otherwise the log goes to its sanitised table when it is known or can be created, else to "game_logs"; the table used is valid and cached, and the insert fails only when no table could be had or the final insert reports an error |
| EnsureAll.EnsureAllField | src/helpers/__init__.py:6-18 | the copy always has `all`; data that already has `all` comes back as it is, otherwise `all` is appended after every existing entry with the text of the shown lines |
| EnsureAll.EnsureAllKeeps | src/helpers/__init__.py:11-18 | the copy is still a dictionary and every key other than `all` keeps its value; an existing `all` is kept, a missing one gets the generated text |
| EnsureAll.EnsureAllIdempotent | src/helpers/__init__.py:6-18 | applying it to its own result changes nothing |
| EnsureAll.ShownMembers | src/helpers/__init__.py:15-16 | the entries that yield a line are exactly those whose value is not None, whose key is not source, timestamp, player_name, org, enlisted or action, and whose value is not "None", "Unknown" or "" |
| EnsureAll.AllTextLines | src/helpers/__init__.py:13-17 | the text is the space-joined "key: value" lines of the shown entries, every shown entry yields a line and no other entry does; with nothing shown the text is empty |
| EnsureAll.ShownConcat | src/helpers/__init__.py:14-16 | the filter keeps the dictionary's order: the shown entries of two stretches of data are those of the first followed by those of the second |

## Left out

- Times are Python floats from `time.time()` and `datetime.now()`. Here they are whole seconds, so sub-second ordering and float rounding are not modelled.
- Python's Unicode behaviour of `str.lower()`, `str.isdigit()`, `str.isalpha()` and the `\w` class of `re` is not modelled. The model uses ASCII: a non-ASCII letter is lowered unchanged and is not a word character.
- Values are a small Python-like datatype. Python's `1 == True` and `hash(1) == hash(True)` are not modelled: an integer and a boolean are always different values. The text of a list or dictionary in `str()` is simplified.
- An unhashable value (a list or a dictionary) used as a dictionary key or set member makes Python raise part-way through an operation. The realtime bridge models this as an error result. The other modules treat such values like any other key.
- Nested dictionaries are updated in place in the source, so other references to the same sub-dictionary see the change. The model rebuilds them as values, so this aliasing is not captured. This affects `ConfigManager.set`, the by-category grouping of hotkeys, the nested `stalled_data` entries and the tournament's participant and team lists.
- Threads, locks, the message bus's worker thread and queue, and the singletons are left out. Each operation is modelled as running alone.
- Logging, `print` and the messages published on the bus for diagnostics are left out.
- The wx user interface of every panel is left out: lists, buttons, dialogs, refresh timers and key-code translation.
- The keyboard listener, the game focus detector and the listener restart after a registration are not modelled.
- Network calls are parameters of the operations that use them: the Supabase schema listing, the table probes, table creation, the insert, and the realtime channels. `connect()` and `is_connected()` are not modelled; the manager's `connected` field stands for them.
- `TableNames.SupabaseManager.InsertLog` passes the same `now` to its second table lookup, where the source reads the clock again.
- `TableNames.SupabaseManager.RefreshTableCacheFallback` probes the tables in the order of its list of checks. The source iterates a Python set in hash order; the final cache does not depend on that order.
- `HotkeyCapture.ValidateHotkey` and the service validator disagree in both directions. The Windows key is accepted only by the service; f13 to f24 and backspace only by the widget. The model proves only that the service's accepted combinations without `win` are accepted by the widget. The other direction is not stated as a lemma.
- Exceptions that cannot occur on string input are not modelled. Exceptions inside `register_hotkey` and inside the converters are examples.
- `Tournament.is_participant` is not part of this model.
- The timers' and alarms' `get_state`, `get_elapsed_time` and `get_remaining_time` are functions over the state and `now`; they are not methods.
- `Tournament.FromDict`: the "teams" value is either a dictionary of member lists or a value that is not a dictionary. A dictionary holding a value other than a list passes the constructor's `isinstance` check in the source, but it cannot be written here. Membership tests on such values would follow Python's `in` on arbitrary objects.
- Dictionaries under `Value` and the configuration held by `Config.ConfigManager` are Dafny maps, which have no order. So the insertion order of the dictionaries returned by `ConfigManager.Filter`, `ConfigManager.GetAll` and `ConfigManager.Update` is not modelled; their keys and values are.
- The stopwatch and the alarm accept any clock reading. A reading earlier than the one before is modelled as Python computes it. The stopwatch's ordering promises (reading never negative, laps non-decreasing) are stated only while the clock has not gone back.
- `TournamentStatus(value)` also accepts an enum member in Python. The model accepts only the four status strings.
- The `stop_listening`, `shutdown` and `start_listening` methods of both hotkey managers only drive the listener thread, and are not modelled.

## Findings

| source | as written | input that shows it | evidently intended | confidence | as-written member | corrected member |
|---|---|---|---|---|---|---|
| src/helpers/core/rate_limiter.py:62 | `cleanup_messages` drops every key whose last send is older than `cleanup_interval` (60 s by default), even when that key's `timeout` (300 s by default) has not run out, so the key's duplicate count is lost | default limiter; "A" at 0 s, "B" at 100 s (which runs the cleanup and removes "A"), "A" again at 101 s: allowed, although it is a duplicate inside the 300 s timeout | a cleanup never removes a key whose timeout is still running: entries are dropped only when older than both the cleanup interval and the timeout | medium, not executed | RateLimiter.CleanupIntervalReadmitsDuplicate | RateLimiter.HorizonKeepsVerdicts |
