/** The shard-change log of the shard list panel: one entry per change of a player's
    shard, oldest first. Shards arrive as `{mode}_{region}_{version}_{number}` and are
    shown as `region_number`. Arrival times are passed in as `now`; the list control and
    the auto-shard checkbox are not modelled. */
module ShardList {
  import opened Common

  /** `_parse_shard`: four or more underscore-separated parts give `region_number`
      (the second and the last part); anything else, including a value that is not a
      string, comes back unchanged. */
  function ParseShard(shard: Value): (r: Value)
    ensures !shard.Str? ==> r == shard
    ensures shard.Str? && |Split(shard.s, '_')| < 4 ==> r == shard
    ensures shard.Str? && |Split(shard.s, '_')| >= 4 ==>
      var parts := Split(shard.s, '_');
      r == Str(parts[1] + "_" + parts[|parts| - 1])
  {
    if shard.Str? then
      var parts := Split(shard.s, '_');
      if |parts| >= 4 then Str(parts[1] + "_" + parts[|parts| - 1]) else shard
    else shard
  }

  /** A parsed shard has two parts, so parsing it again leaves it as it is. */
  lemma ParseShardIdempotent(shard: Value)
    ensures ParseShard(ParseShard(shard)) == ParseShard(shard)
  {
    if shard.Str? {
      var parts := Split(shard.s, '_');
      if |parts| >= 4 {
        var two := [parts[1], parts[|parts| - 1]];
        SplitJoin(two, '_');
        assert Join(two, '_') == parts[1] + "_" + parts[|parts| - 1] by {
          assert two[1..] == [parts[|parts| - 1]];
        }
      }
    }
  }

  /** The shards `_add_shard_entry` refuses outright. */
  predicate Rejected(shard: Value)
  {
    !Truthy(shard) || shard == Str("Unknown") || shard == Str("None")
  }

  /** A parsed shard is never one of the refused ones. */
  lemma ParsedAccepted(shard: Value)
    requires !Rejected(shard)
    ensures !Rejected(ParseShard(shard))
  {
    if shard.Str? && |Split(shard.s, '_')| >= 4 {
      var parts := Split(shard.s, '_');
      var r := parts[1] + "_" + parts[|parts| - 1];
      assert r[|parts[1]|] == '_';
      assert '_' !in "Unknown" && '_' !in "None";
    }
  }

  datatype Entry = Entry(player: Value, shard: Value, timestamp: int)

  /** The shard of the player's latest entry, if any. */
  function LatestShard(data: seq<Entry>, player: Value): (r: Option<Value>)
    ensures r.None? <==> forall j :: 0 <= j < |data| ==> data[j].player != player
  {
    if data == [] then None
    else if data[|data| - 1].player == player then Some(data[|data| - 1].shard)
    else LatestShard(data[..|data| - 1], player)
  }

  /** Whether a report of `shard` for `player` adds an entry: the shard is not refused, the
      log does not end with exactly this player and parsed shard, and the player's latest
      shard differs from it. */
  predicate Admits(data: seq<Entry>, player: Value, shard: Value)
  {
    var parsed := ParseShard(shard);
    !Rejected(shard) &&
    !(data != [] && data[|data| - 1].player == player && data[|data| - 1].shard == parsed) &&
    LatestShard(data, player) != Some(parsed)
  }

  /** The log after a report. */
  function AddEntry(data: seq<Entry>, player: Value, shard: Value, now: int): seq<Entry>
  {
    if Admits(data, player, shard) then data + [Entry(player, ParseShard(shard), now)] else data
  }

  /** The test against the log's last entry never decides anything: the per-player test
      already refuses what it refuses. */
  lemma LastEntryTestRedundant(data: seq<Entry>, player: Value, shard: Value)
    ensures Admits(data, player, shard) <==>
      !Rejected(shard) && LatestShard(data, player) != Some(ParseShard(shard))
  {
  }

  /** Every entry's shard is a parsed, accepted one, and no entry repeats the shard of the
      same player's previous entry. */
  predicate Valid(data: seq<Entry>)
  {
    (forall j :: 0 <= j < |data| ==> !Rejected(data[j].shard)) &&
    forall j :: 0 <= j < |data| ==> LatestShard(data[..j], data[j].player) != Some(data[j].shard)
  }

  /** Adding a report keeps the log valid. */
  lemma AddEntryValid(data: seq<Entry>, player: Value, shard: Value, now: int)
    requires Valid(data)
    ensures Valid(AddEntry(data, player, shard, now))
  {
    var r := AddEntry(data, player, shard, now);
    if Admits(data, player, shard) {
      ParsedAccepted(shard);
      forall j | 0 <= j < |r|
        ensures LatestShard(r[..j], r[j].player) != Some(r[j].shard)
      {
        if j < |data| {
          assert r[..j] == data[..j];
        } else {
          assert r[..j] == data;
        }
      }
    }
  }

  /** Reporting the same shard twice for a player adds at most one entry. */
  lemma AddEntryIdempotent(data: seq<Entry>, player: Value, shard: Value, now: int, later: int)
    ensures var once := AddEntry(data, player, shard, now);
      AddEntry(once, player, shard, later) == once
  {
    var once := AddEntry(data, player, shard, now);
    if Admits(data, player, shard) {
      assert LatestShard(once, player) == Some(ParseShard(shard));
    }
  }

  /** What `_on_users_online_updated` reads from one user: the username and the shard when
      both are truthy and the shard is not "Unknown"; a user that is not a dictionary makes
      `.get` raise. */
  datatype UserReport = Skip | Report(player: Value, shard: Value) | NotADict

  function ReadUser(user: Value): (r: UserReport)
    ensures r.Report? ==> Truthy(r.player) && Truthy(r.shard) && r.shard != Str("Unknown")
  {
    if !user.Dict? then NotADict
    else
      var username := GetOr(user.fields, "username", Null);
      var shard := GetOr(user.fields, "shard", Null);
      if Truthy(username) && Truthy(shard) && shard != Str("Unknown") then Report(username, shard)
      else Skip
  }

  /** The log after the users in order, stopping at the first user that raises. */
  function AfterUsers(data: seq<Entry>, users: seq<Value>, now: int): seq<Entry>
  {
    if users == [] then data
    else
      var init := AfterUsers(data, users[..|users| - 1], now);
      match ReadUser(users[|users| - 1])
      case Report(player, shard) => AddEntry(init, player, shard, now)
      case _ => init
  }

  /** One more user is processed on top of the users before it. */
  lemma AfterUsersStep(data: seq<Entry>, users: seq<Value>, i: nat, now: int)
    requires i < |users|
    ensures AfterUsers(data, users[..i + 1], now) ==
      match ReadUser(users[i])
      case Report(player, shard) => AddEntry(AfterUsers(data, users[..i], now), player, shard, now)
      case _ => AfterUsers(data, users[..i], now)
  {
    assert users[..i + 1][..i] == users[..i];
  }

  /** Position of the first user that is not a dictionary, or the number of users. */
  function FirstNotADict(users: seq<Value>): (k: nat)
    ensures k <= |users|
    ensures k < |users| ==> ReadUser(users[k]).NotADict?
    ensures forall j :: 0 <= j < k ==> !ReadUser(users[j]).NotADict?
  {
    if users == [] then 0
    else if ReadUser(users[0]).NotADict? then 0
    else 1 + FirstNotADict(users[1..])
  }

  /** Processing a list of users keeps the log valid. */
  lemma {:induction false} AfterUsersValid(data: seq<Entry>, users: seq<Value>, now: int)
    requires Valid(data)
    ensures Valid(AfterUsers(data, users, now))
    decreases |users|
  {
    if users != [] {
      AfterUsersValid(data, users[..|users| - 1], now);
      var init := AfterUsers(data, users[..|users| - 1], now);
      var u := ReadUser(users[|users| - 1]);
      if u.Report? {
        AddEntryValid(init, u.player, u.shard, now);
      }
    }
  }

  class ShardList {
    var shardData: seq<Entry>

    constructor ()
      ensures shardData == []
    {
      shardData := [];
    }

    /** `_add_shard_entry`: searches the log backwards for the player's latest entry and
        appends the parsed shard when it is a change. */
    method AddShardEntry(player: Value, shard: Value, now: int)
      modifies this
      ensures shardData == AddEntry(old(shardData), player, shard, now)
    {
      if Rejected(shard) {
        return;
      }
      var parsed := ParseShard(shard);
      if shardData != [] {
        var last := shardData[|shardData| - 1];
        if last.player == player && last.shard == parsed {
          return;
        }
      }
      var latest: Option<Value> := None;
      var i := |shardData|;
      while i > 0
        invariant 0 <= i <= |shardData|
        invariant forall j :: i <= j < |shardData| ==> shardData[j].player != player
        invariant latest.None?
        decreases i
      {
        if shardData[i - 1].player == player {
          latest := Some(shardData[i - 1].shard);
          LatestShardAt(shardData, i - 1, player);
          break;
        }
        i := i - 1;
      }
      if latest != Some(parsed) {
        shardData := shardData + [Entry(player, parsed, now)];
      }
    }

    /** `_on_users_online_updated`: reports every user's shard in order; `raised` when a
        user is not a dictionary, which ends the walk there. */
    method OnUsersOnlineUpdated(users: seq<Value>, now: int) returns (raised: bool)
      modifies this
      ensures raised <==> FirstNotADict(users) < |users|
      ensures shardData == AfterUsers(old(shardData), users[..FirstNotADict(users)], now)
    {
      ghost var start := shardData;
      ghost var k := FirstNotADict(users);
      var i := 0;
      while i < |users|
        invariant 0 <= i <= k
        invariant shardData == AfterUsers(start, users[..i], now)
      {
        var u := ReadUser(users[i]);
        AfterUsersStep(start, users, i, now);
        if u.NotADict? {
          return true;
        }
        if u.Report? {
          AddShardEntry(u.player, u.shard, now);
        }
        i := i + 1;
      }
      assert users[..i] == users;
      return false;
    }

    /** `_on_clear_shards` */
    method ClearShards()
      modifies this
      ensures shardData == []
    {
      shardData := [];
    }
  }

  /** When the backward search stops at `i`, that entry is the player's latest. */
  lemma LatestShardAt(data: seq<Entry>, i: nat, player: Value)
    requires i < |data| && data[i].player == player
    requires forall j :: i < j < |data| ==> data[j].player != player
    ensures LatestShard(data, player) == Some(data[i].shard)
    decreases |data|
  {
    if i < |data| - 1 {
      LatestShardAt(data[..|data| - 1], i, player);
    }
  }
}
