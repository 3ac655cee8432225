/** The shared log of remote events shown by every shared-logs panel: one buffer, newest
    entry first, holding at most 500 entries; the entry each remote event becomes; and the
    choice of the player whose profile the context menu requests. The wall-clock stamp is
    passed in as text; the list controls and the listener instances are not modelled. */
module SharedLogs {
  import opened Common

  /** `_shared_max_logs` */
  const MaxLogs: nat := 500

  datatype Entry = Entry(
    timestampStr: string,
    localTime: string,
    username: Value,
    logType: Value,
    content: Value,
    shard: Value,
    mode: Value)

  /** Why `_create_log_entry` raises: the payload, its "metadata" or its "raw_data" is not a
      dictionary where `.get` is called on it. */
  datatype Error = PayloadNotADict | MetadataNotADict | RawDataNotADict

  /** `_create_log_entry`: with a "metadata" key, the content, shard and type come from
      the metadata; otherwise the content and type come from the payload and the shard from
      "raw_data". The mode always comes from "raw_data" ("Unknown" when absent) and the
      local time is its "datetime" as text ("Desconocido" when absent or falsy). */
  function CreateLogEntry(username: Value, logData: Value, stamp: string): (r: Result<Entry, Error>)
    ensures r.Err? <==>
      !logData.Dict? ||
      ("metadata" in logData.fields && !logData.fields["metadata"].Dict?) ||
      !GetOr(logData.fields, "raw_data", Dict(map[])).Dict?
    ensures r.Ok? ==> r.value.username == username && r.value.timestampStr == stamp
    ensures r.Ok? && "metadata" in logData.fields ==>
      var md := logData.fields["metadata"].fields;
      r.value.content == GetOr(md, "content", Str("")) &&
      r.value.shard == GetOr(md, "shard", Str("Unknown")) &&
      r.value.logType == GetOr(md, "type", Str("Unknown"))
    ensures r.Ok? && "metadata" !in logData.fields ==>
      r.value.content == GetOr(logData.fields, "content", Str("")) &&
      r.value.logType == GetOr(logData.fields, "type", Str("Unknown")) &&
      r.value.shard == (if "raw_data" in logData.fields then GetOr(logData.fields["raw_data"].fields, "shard", Str("Unknown")) else Str("Unknown"))
    ensures r.Ok? ==>
      var raw := GetOr(logData.fields, "raw_data", Dict(map[])).fields;
      r.value.mode == GetOr(raw, "mode", Str("Unknown")) &&
      (("datetime" !in raw || !Truthy(raw["datetime"])) ==> r.value.localTime == "Desconocido") &&
      ("datetime" in raw && Truthy(raw["datetime"]) ==> r.value.localTime == Display(raw["datetime"]))
  {
    if !logData.Dict? then Err(PayloadNotADict)
    else
      var raw := GetOr(logData.fields, "raw_data", Dict(map[]));
      var fromMetadata := "metadata" in logData.fields;
      if fromMetadata && !logData.fields["metadata"].Dict? then Err(MetadataNotADict)
      else if !raw.Dict? then Err(RawDataNotADict)
      else
        var md := if fromMetadata then logData.fields["metadata"].fields else map[];
        var content := if fromMetadata then GetOr(md, "content", Str("")) else GetOr(logData.fields, "content", Str(""));
        var shard := if fromMetadata then GetOr(md, "shard", Str("Unknown")) else GetOr(raw.fields, "shard", Str("Unknown"));
        var logType := if fromMetadata then GetOr(md, "type", Str("Unknown")) else GetOr(logData.fields, "type", Str("Unknown"));
        var mode := GetOr(raw.fields, "mode", Str("Unknown"));
        var local := GetOr(raw.fields, "datetime", Str("Desconocido"));
        var localStr := if Truthy(local) then Display(local) else "Desconocido";
        Ok(Entry(stamp, localStr, username, logType, content, shard, mode))
  }

  /** The buffer after one entry: the entry in front, cut to the maximum. */
  function Pushed(buffer: seq<Entry>, e: Entry): seq<Entry>
  {
    var b := [e] + buffer;
    if |b| > MaxLogs then b[..MaxLogs] else b
  }

  /** The newest entry is first, the older ones follow in their order, and only the oldest
      are dropped, never more than needed to fit. */
  lemma PushedProps(buffer: seq<Entry>, e: Entry)
    ensures var r := Pushed(buffer, e);
      r[0] == e && |r| <= MaxLogs && |r| == (if |buffer| + 1 <= MaxLogs then |buffer| + 1 else MaxLogs) &&
      r[1..] == buffer[..|r| - 1]
  {
    var r := Pushed(buffer, e);
    assert ([e] + buffer)[1..] == buffer;
  }

  function Reverse<T>(xs: seq<T>): (r: seq<T>)
    ensures |r| == |xs|
    ensures forall i :: 0 <= i < |xs| ==> r[i] == xs[|xs| - 1 - i]
  {
    if xs == [] then [] else [xs[|xs| - 1]] + Reverse(xs[..|xs| - 1])
  }

  /** The buffer after a series of entries, oldest first. */
  function PushedAll(buffer: seq<Entry>, es: seq<Entry>): seq<Entry>
  {
    if es == [] then buffer else Pushed(PushedAll(buffer, es[..|es| - 1]), es[|es| - 1])
  }

  function Cut(xs: seq<Entry>): seq<Entry>
  {
    if |xs| > MaxLogs then xs[..MaxLogs] else xs
  }

  /** After any series of remote events the buffer is the newest 500 of everything seen,
      newest first. */
  lemma {:induction false} PushedAllNewest(buffer: seq<Entry>, es: seq<Entry>)
    requires |buffer| <= MaxLogs
    ensures PushedAll(buffer, es) == Cut(Reverse(es) + buffer)
    decreases |es|
  {
    if es == [] {
      assert Reverse(es) + buffer == buffer;
    } else {
      var init := es[..|es| - 1];
      var last := es[|es| - 1];
      PushedAllNewest(buffer, init);
      assert Reverse(es) == [last] + Reverse(init);
      CutPush(Reverse(init) + buffer, last);
      assert [last] + (Reverse(init) + buffer) == Reverse(es) + buffer;
    }
  }

  lemma CutPush(xs: seq<Entry>, e: Entry)
    ensures Pushed(Cut(xs), e) == Cut([e] + xs)
  {
    if |xs| > MaxLogs {
      assert ([e] + xs[..MaxLogs])[..MaxLogs] == ([e] + xs)[..MaxLogs];
    }
  }

  // ---------------------------------------------------------------------------
  // The profile request from the context menu

  /** `\w` on the characters a log line carries: ASCII letters, digits and `_`. */
  predicate IsWord(c: char)
  {
    'A' <= c <= 'Z' || 'a' <= c <= 'z' || '0' <= c <= '9' || c == '_'
  }

  /** The class `[A-Za-z0-9_-]` */
  predicate IsNameChar(c: char)
  {
    IsWord(c) || c == '-'
  }

  /** `\b` at position `i`: a word character on exactly one side. */
  predicate Boundary(s: string, i: nat)
    requires i <= |s|
  {
    (i > 0 && IsWord(s[i - 1])) != (i < |s| && IsWord(s[i]))
  }

  /** The length of the run of name characters starting at `i`. */
  function Run(s: string, i: nat): (n: nat)
    requires i <= |s|
    ensures i + n <= |s|
    ensures forall k :: i <= k < i + n ==> IsNameChar(s[k])
    ensures i + n < |s| ==> !IsNameChar(s[i + n])
    decreases |s| - i
  {
    if i < |s| && IsNameChar(s[i]) then 1 + Run(s, i + 1) else 0
  }

  /** The greedy match of `[A-Za-z0-9_-]{4,}\b` from `i`, backing off one character at a
      time until the end sits on a boundary: the end of the match, if any. */
  function BackOff(s: string, i: nat, j: nat): (r: Option<nat>)
    requires i + 4 <= j <= |s|
    ensures r.Some? ==> i + 4 <= r.value <= j && Boundary(s, r.value)
    ensures r.Some? ==> forall k :: r.value < k <= j ==> !Boundary(s, k)
    ensures r.None? ==> forall k :: i + 4 <= k <= j ==> !Boundary(s, k)
    decreases j
  {
    if Boundary(s, j) then Some(j)
    else if j == i + 4 then None
    else BackOff(s, i, j - 1)
  }

  /** The match of `\b[A-Za-z0-9_-]{4,}\b` starting at `i`, if any: its end. */
  function MatchAt(s: string, i: nat): (r: Option<nat>)
    requires i <= |s|
    ensures r.Some? ==> i + 4 <= r.value <= |s| && Boundary(s, i) && Boundary(s, r.value)
    ensures r.Some? ==> forall k :: i <= k < r.value ==> IsNameChar(s[k])
  {
    if Boundary(s, i) && Run(s, i) >= 4 then BackOff(s, i, i + Run(s, i)) else None
  }

  /** `re.findall(r'\b[A-Za-z0-9_-]{4,}\b', s[i..])`: scans left to right and resumes after
      each match. */
  function FindAll(s: string, i: nat): (tokens: seq<string>)
    requires i <= |s|
    ensures forall t :: t in tokens ==> |t| >= 4 && forall k :: 0 <= k < |t| ==> IsNameChar(t[k])
    decreases |s| - i
  {
    if i == |s| then []
    else
      var m := MatchAt(s, i);
      if m.Some? then [s[i..m.value]] + FindAll(s, m.value) else FindAll(s, i + 1)
  }

  /** The candidates: every token except "stalled", in any case. */
  function Candidates(tokens: seq<string>): (r: seq<string>)
    ensures forall t :: t in r <==> t in tokens && Lower(t) != "stalled"
  {
    if tokens == [] then []
    else (if Lower(tokens[0]) != "stalled" then [tokens[0]] else []) + Candidates(tokens[1..])
  }

  /** The first candidate that is not the sender, in any case. */
  function FirstOther(candidates: seq<string>, sender: string): Option<string>
  {
    if candidates == [] then None
    else if Lower(candidates[0]) != Lower(sender) then Some(candidates[0])
    else FirstOther(candidates[1..], sender)
  }

  /** `_on_get_profile`'s target: None when the content names nobody else. */
  function ProfileTarget(content: string, sender: string): Option<string>
  {
    FirstOther(Candidates(FindAll(content, 0)), sender)
  }

  /** A token the profile request passes over: "stalled" or the sender, in any case. */
  predicate Skipped(t: string, sender: string)
  {
    Lower(t) == "stalled" || Lower(t) == Lower(sender)
  }

  /** `v` is token `i`, is not passed over, and every token before it is. */
  predicate TargetAt(tokens: seq<string>, i: int, v: string, sender: string)
  {
    0 <= i < |tokens| && tokens[i] == v && !Skipped(v, sender) &&
    forall j :: 0 <= j < i ==> Skipped(tokens[j], sender)
  }

  /** The target is a token of the content, is neither "stalled" nor the sender in any
      case, and every token before it is one of those two; there is no target exactly when
      every token is one of them. */
  lemma {:induction false} FirstOtherProps(tokens: seq<string>, sender: string)
    ensures var r := FirstOther(Candidates(tokens), sender);
      (r.Some? ==> exists i :: TargetAt(tokens, i, r.value, sender)) &&
      (r.None? <==> forall j :: 0 <= j < |tokens| ==> Skipped(tokens[j], sender))
    decreases |tokens|
  {
    if tokens != [] {
      var rest := tokens[1..];
      FirstOtherProps(rest, sender);
      var r := FirstOther(Candidates(tokens), sender);
      var t0 := tokens[0];
      if !Skipped(t0, sender) {
        assert Candidates(tokens) == [t0] + Candidates(rest);
        assert r == Some(t0);
        assert TargetAt(tokens, 0, t0, sender);
      } else {
        assert r == FirstOther(Candidates(rest), sender) by {
          if Lower(t0) != "stalled" {
            assert Candidates(tokens) == [t0] + Candidates(rest);
          } else {
            assert Candidates(tokens) == Candidates(rest);
          }
        }
        if r.Some? {
          var i :| TargetAt(rest, i, r.value, sender);
          assert TargetAt(tokens, i + 1, r.value, sender) by {
            forall j | 0 <= j < i + 1 ensures Skipped(tokens[j], sender) {
              if j > 0 {
                assert tokens[j] == rest[j - 1];
              }
            }
          }
        }
        assert forall j :: 1 <= j < |tokens| ==> tokens[j] == rest[j - 1];
      }
    }
  }

  class SharedLogs {
    /** `SharedLogsWidget._shared_log_entries`, newest first. */
    var entries: seq<Entry>

    ghost predicate Valid()
      reads this
    {
      |entries| <= MaxLogs
    }

    constructor ()
      ensures Valid() && entries == []
    {
      entries := [];
    }

    /** `_process_remote_log`: the new entry goes in front and the buffer is cut to the
        maximum; a payload `_create_log_entry` raises on leaves the buffer alone. */
    method ProcessRemoteLog(username: Value, logData: Value, stamp: string) returns (raised: bool)
      requires Valid()
      modifies this
      ensures Valid()
      ensures raised <==> CreateLogEntry(username, logData, stamp).Err?
      ensures !raised ==> entries == Pushed(old(entries), CreateLogEntry(username, logData, stamp).value)
      ensures raised ==> entries == old(entries)
    {
      var r := CreateLogEntry(username, logData, stamp);
      if r.Err? {
        return true;
      }
      entries := [r.value] + entries;
      if |entries| > MaxLogs {
        entries := entries[..MaxLogs];
      }
      return false;
    }

    /** `get_log_count` */
    function GetLogCount(): (n: nat)
      reads this
      requires Valid()
      ensures n <= MaxLogs
    {
      |entries|
    }

    /** `clear_logs` and `_on_clear_logs` */
    method ClearLogs()
      modifies this
      ensures Valid() && entries == []
    {
      entries := [];
    }
  }
}
