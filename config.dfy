/** ConfigManager: reading and writing the configuration dictionary by dotted key paths
    such as "regex_patterns.player_death". Loading and saving the file are not modelled. */
module Config {
  import opened Common

  /** The keys `get_all` leaves out. */
  const TransientKeys: seq<string> :=
    ["use_discord", "use_googlesheet", "process_once", "process_all",
     "live_discord_webhook", "ac_discord_webhook", "renew"]

  /** Follows `keys` down through nested dictionaries; `default` as soon as a step meets
      something that is not a dictionary or lacks the key. */
  function Walk(v: Value, keys: seq<string>, default: Value): Value
  {
    if keys == [] then v
    else if !v.Dict? || keys[0] !in v.fields then default
    else Walk(v.fields[keys[0]], keys[1..], default)
  }

  /** The value found by following `keys`, when every step succeeds. */
  function Reach(v: Value, keys: seq<string>): Option<Value>
  {
    if keys == [] then Some(v)
    else if !v.Dict? || keys[0] !in v.fields then None
    else Reach(v.fields[keys[0]], keys[1..])
  }

  /** The walk gives the reached value when the path exists, and the default as soon as
      some step meets a non-dictionary or a missing key. */
  lemma {:induction false} WalkIsReachOrDefault(v: Value, keys: seq<string>, default: Value, i: nat)
    requires i < |keys| && Reach(v, keys[..i]).Some?
    ensures var x := Reach(v, keys[..i]).value;
      (!x.Dict? || keys[i] !in x.fields) ==> Walk(v, keys, default) == default
    decreases i
  {
    if i > 0 {
      assert keys[..i][0] == keys[0] && keys[..i][1..] == keys[1..][..i - 1];
      WalkIsReachOrDefault(v.fields[keys[0]], keys[1..], default, i - 1);
    }
  }

  lemma {:induction false} WalkFindsReach(v: Value, keys: seq<string>, default: Value)
    requires Reach(v, keys).Some?
    ensures Walk(v, keys, default) == Reach(v, keys).value
    decreases |keys|
  {
    if keys != [] {
      WalkFindsReach(v.fields[keys[0]], keys[1..], default);
    }
  }

  /** `get(key_path, default)`. */
  function Lookup(c: map<string, Value>, path: string, default: Value): Value
  {
    if '.' !in path then GetOr(c, path, default) else Walk(Dict(c), Split(path, '.'), default)
  }

  /** Stores `v` under the path `keys` (at least one key), turning every missing or
      non-dictionary step on the way into an empty dictionary. */
  function SetPath(m: map<string, Value>, keys: seq<string>, v: Value): map<string, Value>
    requires |keys| >= 1
    decreases |keys|
  {
    if |keys| == 1 then m[keys[0] := v]
    else
      var k := keys[0];
      var inner := if k in m && m[k].Dict? then m[k].fields else map[];
      m[k := Dict(SetPath(inner, keys[1..], v))]
  }

  /** `set(key_path, value)` on the configuration. */
  function Store(c: map<string, Value>, path: string, v: Value): map<string, Value>
  {
    if '.' !in path then c[path := v] else SetPath(c, Split(path, '.'), v)
  }

  /** Reading a path back after setting it gives the value that was set. */
  lemma {:induction false} WalkAfterSetPath(m: map<string, Value>, keys: seq<string>, v: Value, default: Value)
    requires |keys| >= 1
    ensures Walk(Dict(SetPath(m, keys, v)), keys, default) == v
    decreases |keys|
  {
    if |keys| > 1 {
      var k := keys[0];
      var inner := if k in m && m[k].Dict? then m[k].fields else map[];
      WalkAfterSetPath(inner, keys[1..], v, default);
    }
  }

  lemma GetAfterSet(c: map<string, Value>, path: string, v: Value, default: Value)
    ensures Lookup(Store(c, path, v), path, default) == v
  {
    if '.' in path {
      WalkAfterSetPath(c, Split(path, '.'), v, default);
    }
  }

  /** Setting a path touches only the top-level key it starts with. */
  lemma SetLeavesOtherKeys(c: map<string, Value>, path: string, v: Value, k: string)
    requires k != Split(path, '.')[0]
    ensures k in Store(c, path, v) <==> k in c
    ensures k in c ==> Store(c, path, v)[k] == c[k]
  {
    if '.' !in path {
      SplitNoSeparator(path, '.');
    }
  }

  /** Setting a dotted path makes every step before the last a dictionary. */
  lemma {:induction false} SetPathMakesDicts(m: map<string, Value>, keys: seq<string>, v: Value, i: nat)
    requires 1 <= i < |keys|
    ensures Walk(Dict(SetPath(m, keys, v)), keys[..i], Null).Dict?
    decreases i
  {
    var k := keys[0];
    var inner := if k in m && m[k].Dict? then m[k].fields else map[];
    assert keys[..i][0] == k;
    if i > 1 {
      SetPathMakesDicts(inner, keys[1..], v, i - 1);
      assert keys[..i][1..] == keys[1..][..i - 1];
    }
  }

  class ConfigManager {
    var config: map<string, Value>

    constructor (initial: map<string, Value>)
      ensures config == initial
    {
      config := initial;
    }

    /** `get`: a key without dots is looked up at the top level; a dotted path is walked. */
    method Get(path: string, default: Value) returns (r: Value)
      ensures r == Lookup(config, path, default)
      ensures '.' !in path ==> r == if path in config then config[path] else default
    {
      if '.' !in path {
        return GetOr(config, path, default);
      }
      var keys := Split(path, '.');
      var v := Dict(config);
      var i := 0;
      while i < |keys|
        invariant 0 <= i <= |keys|
        invariant Walk(Dict(config), keys, default) == Walk(v, keys[i..], default)
      {
        if !v.Dict? || keys[i] !in v.fields {
          return default;
        }
        assert keys[i..][1..] == keys[i + 1..];
        v := v.fields[keys[i]];
        i := i + 1;
      }
      return v;
    }

    /** `set`: always succeeds. */
    method Set(path: string, value: Value) returns (ok: bool)
      modifies this
      ensures ok
      ensures config == Store(old(config), path, value)
      ensures forall d :: Lookup(config, path, d) == value
    {
      config := Store(config, path, value);
      forall d ensures Lookup(config, path, d) == value {
        GetAfterSet(old(config), path, value, d);
      }
      return true;
    }

    /** `filter`: every key except the listed ones, with its value; the configuration
        itself is not changed. */
    method Filter(keyPaths: seq<string>) returns (r: map<string, Value>)
      ensures forall k :: k in r <==> k in config && k !in keyPaths
      ensures forall k :: k in r ==> r[k] == config[k]
    {
      r := map[];
      var rest := config.Keys;
      while rest != {}
        invariant rest <= config.Keys
        invariant forall k :: k in r <==> k in config && k !in rest && k !in keyPaths
        invariant forall k :: k in r ==> r[k] == config[k]
        decreases |rest|
      {
        var k :| k in rest;
        if k !in keyPaths {
          r := r[k := config[k]];
        }
        rest := rest - {k};
      }
    }

    /** `get_all`: the configuration without the transient keys. */
    method GetAll() returns (r: map<string, Value>)
      ensures forall k :: k in r <==> k in config && k !in TransientKeys
      ensures forall k :: k in r ==> r[k] == config[k]
    {
      r := Filter(TransientKeys);
    }

    /** `update`: the given keys take the given values, the others keep theirs. */
    method Update(newConfig: map<string, Value>)
      modifies this
      ensures config == old(config) + newConfig
      ensures forall k :: k in newConfig ==> config[k] == newConfig[k]
      ensures forall k :: k in old(config) && k !in newConfig ==> config[k] == old(config)[k]
    {
      config := config + newConfig;
    }
  }
}
