/** The message bus: named subscribers, per-subscriber filters and a bounded history
    of the messages delivered. The worker thread and its queue are not modelled; one
    message taken from the queue is routed by `Deliver`. */
module MessageBus {
  import opened Common

  datatype Level = Debug | Info | Warning | Error | Critical

  /** `MessageLevel.X.value`: 1 for DEBUG up to 5 for CRITICAL. */
  function LevelValue(l: Level): int
  {
    match l
    case Debug => 1
    case Info => 2
    case Warning => 3
    case Error => 4
    case Critical => 5
  }

  datatype Message = Message(content: string, timestamp: string, level: Level, patternName: Option<string>)

  /** A callback is known by an identifier; what it does is not modelled. */
  type Callback = nat

  datatype Subscriber = Subscriber(name: string, callback: Callback)

  /** What may be stored under a filter type. */
  datatype FilterValue =
    | MinLevel(level: Level)
    | PatternNames(names: seq<string>)
    | Other(v: Value)

  /** Outcome of `_should_process_message` inside the delivery loop's `try`. */
  datatype Verdict = Process | Skip | Raises

  const MaxHistorySize := 1000

  /** Python's `x in s` on two strings: `x` occurs in `s` as a contiguous piece. */
  predicate Substring(x: string, s: string)
    decreases |s|
  {
    |x| <= |s| && (s[..|x|] == x || (|s| > 0 && Substring(x, s[1..])))
  }

  /** A string occurs in any string that ends with it. */
  lemma {:induction false} SuffixIsSubstring(x: string, s: string)
    requires |x| <= |s| && s[|s| - |x|..] == x
    ensures Substring(x, s)
    decreases |s|
  {
    if s[..|x|] != x {
      assert s[1..][|s[1..]| - |x|..] == s[|s| - |x|..];
      SuffixIsSubstring(x, s[1..]);
    }
  }

  /** `pattern_name in patterns` for a filter value stored as a plain value: a substring
      test on a string, membership in a list, a key test on a dictionary. `None` when
      Python raises: a None pattern name tested against a string, or a value that is not
      a container (an int or a bool). */
  function PatternIn(p: Option<string>, x: Value): (r: Option<bool>)
    ensures (x.List? || x.Dict? || (x.Str? && p.Some?)) <==> r.Some?
  {
    match x
    case Str(s) => if p.Some? then Some(Substring(p.value, s)) else None
    case List(items) => Some((if p.Some? then Str(p.value) else Null) in items)
    case Dict(fields) => Some(p.Some? && p.value in fields)
    case _ => None
  }

  /** The filter checks of `_should_process_message`. A value under 'level' that is not a
      level, or a level under 'patterns', makes the check raise; a plain value under
      'patterns' is tested with Python's `in` when it is truthy. */
  function ShouldProcess(f: map<string, FilterValue>, m: Message): (v: Verdict)
    ensures f == map[] ==> v == Process
  {
    if f == map[] then Process
    else
      var levelCheck :=
        if "level" !in f then Process
        else match f["level"]
          case MinLevel(min) => if LevelValue(m.level) < LevelValue(min) then Skip else Process
          case _ => Raises;
      if levelCheck != Process then levelCheck
      else if "patterns" !in f then Process
      else match f["patterns"]
        case PatternNames(ps) => if ps != [] && (m.patternName.None? || m.patternName.value !in ps) then Skip else Process
        case Other(x) =>
          if !Truthy(x) then Process
          else (match PatternIn(m.patternName, x)
            case None => Raises
            case Some(found) => if found then Process else Skip)
        case MinLevel(_) => Raises
  }

  /** A level filter drops exactly the messages below its minimum level. */
  lemma LevelFilterDrops(f: map<string, FilterValue>, m: Message, min: Level)
    requires "level" in f && f["level"] == MinLevel(min)
    ensures LevelValue(m.level) < LevelValue(min) ==> ShouldProcess(f, m) == Skip
    ensures LevelValue(m.level) >= LevelValue(min) && "patterns" !in f ==> ShouldProcess(f, m) == Process
  {
  }

  /** A non-empty pattern list drops the messages whose pattern is not in it, and an
      empty one drops nothing. */
  lemma PatternFilterDrops(f: map<string, FilterValue>, m: Message, ps: seq<string>)
    requires "patterns" in f && f["patterns"] == PatternNames(ps) && "level" !in f
    ensures ShouldProcess(f, m) == Skip <==> ps != [] && !(m.patternName.Some? && m.patternName.value in ps)
    ensures ShouldProcess(f, m) != Raises
  {
  }

  /** A pattern filter held as a string, a list or a dictionary never raises on a message
      that has a pattern name, and skips it exactly when the value is non-empty and does
      not contain the name. */
  lemma PatternValueFilter(f: map<string, FilterValue>, m: Message, x: Value)
    requires "patterns" in f && f["patterns"] == Other(x) && "level" !in f
    requires x.Str? || x.List? || x.Dict?
    requires m.patternName.Some?
    ensures ShouldProcess(f, m) != Raises
    ensures ShouldProcess(f, m) == Skip <==> Truthy(x) && PatternIn(m.patternName, x) == Some(false)
  {
  }

  /** A pattern filter set to the string "player_death" lets a message of pattern "death"
      through, since Python tests a substring there. */
  lemma StringPatternIsSubstringTest(content: string, timestamp: string, level: Level)
    ensures ShouldProcess(map["patterns" := Other(Str("player_death"))],
                          Message(content, timestamp, level, Some("death"))) == Process
  {
    var s := "player_death";
    assert s[|s| - 5..] == "death";
    SuffixIsSubstring("death", s);
  }

  function Names(subs: seq<Subscriber>): (r: seq<string>)
    ensures |r| == |subs| && forall i :: 0 <= i < |subs| ==> r[i] == subs[i].name
  {
    seq(|subs|, i requires 0 <= i < |subs| => subs[i].name)
  }

  /** `subscribe`: an existing name gets the new callback in its place, a new one is appended. */
  function Subscribed(subs: seq<Subscriber>, name: string, cb: Callback): (r: seq<Subscriber>)
  {
    var i := IndexOf(Names(subs), name);
    if i < |subs| then subs[i := Subscriber(name, cb)] else subs + [Subscriber(name, cb)]
  }

  /** Subscribing keeps names unique, registers the callback under the name, and adds an
      entry only for a new name. */
  lemma SubscribeKeepsNamesUnique(subs: seq<Subscriber>, name: string, cb: Callback)
    requires Distinct(Names(subs))
    ensures var r := Subscribed(subs, name, cb);
      && Distinct(Names(r))
      && Subscriber(name, cb) in r
      && |r| == |subs| + (if name in Names(subs) then 0 else 1)
      && forall s :: s in subs && s.name != name ==> s in r
  {
    var r := Subscribed(subs, name, cb);
    var i := IndexOf(Names(subs), name);
    if i < |subs| {
      assert Names(r) == Names(subs);
    } else {
      assert Names(r) == Names(subs) + [name];
    }
  }

  /** The subscribers other than `name`, in registration order. */
  function Unsubscribed(subs: seq<Subscriber>, name: string): (r: seq<Subscriber>)
  {
    if subs == [] then []
    else
      var last := subs[|subs| - 1];
      Unsubscribed(subs[..|subs| - 1], name) + (if last.name == name then [] else [last])
  }

  /** `unsubscribe` removes exactly the entries under `name`. */
  lemma {:induction false} UnsubscribeRemoves(subs: seq<Subscriber>, name: string)
    ensures forall s :: s in Unsubscribed(subs, name) <==> s in subs && s.name != name
    decreases |subs|
  {
    if subs != [] {
      UnsubscribeRemoves(subs[..|subs| - 1], name);
      assert subs == subs[..|subs| - 1] + [subs[|subs| - 1]];
    }
  }

  /** Unsubscribing twice is the same as once. */
  lemma {:induction false} UnsubscribeIdempotent(subs: seq<Subscriber>, name: string)
    ensures Unsubscribed(Unsubscribed(subs, name), name) == Unsubscribed(subs, name)
    decreases |subs|
  {
    if subs != [] {
      var init := subs[..|subs| - 1];
      var last := subs[|subs| - 1];
      UnsubscribeIdempotent(init, name);
      var u := Unsubscribed(init, name);
      if last.name != name {
        assert Unsubscribed(subs, name) == u + [last];
        assert (u + [last])[..|u + [last]| - 1] == u;
        assert (u + [last])[|u + [last]| - 1] == last;
        assert Unsubscribed(u + [last], name) == Unsubscribed(u, name) + [last];
      } else {
        assert Unsubscribed(subs, name) == u;
      }
    }
  }

  // ---------------------------------------------------------------------------
  // History

  /** The last `max` messages of `h` (all of them when there are fewer). */
  function Bounded(h: seq<Message>, max: nat): (r: seq<Message>)
    ensures |r| <= max || r == h
    ensures |r| == if |h| <= max then |h| else max
  {
    if |h| > max then h[|h| - max..] else h
  }

  predicate LevelOk(m: Message, minLevel: Option<Level>)
  {
    minLevel.None? || LevelValue(m.level) >= LevelValue(minLevel.value)
  }

  predicate PatternOk(m: Message, pattern: Option<string>)
  {
    pattern.None? || m.patternName == Some(pattern.value)
  }

  /** The history entries matching the level and pattern filters, newest first. */
  function NewestFirst(h: seq<Message>, minLevel: Option<Level>, pattern: Option<string>): (r: seq<Message>)
    ensures forall m :: m in r <==> m in h && LevelOk(m, minLevel) && PatternOk(m, pattern)
  {
    if h == [] then []
    else
      var last := h[|h| - 1];
      assert h == h[..|h| - 1] + [last];
      (if LevelOk(last, minLevel) && PatternOk(last, pattern) then [last] else [])
      + NewestFirst(h[..|h| - 1], minLevel, pattern)
  }

  function Reverse(h: seq<Message>): (r: seq<Message>)
    ensures |r| == |h|
  {
    if h == [] then [] else [h[|h| - 1]] + Reverse(h[..|h| - 1])
  }

  /** `[m for m in ms if m.level.value >= min_level.value]`, applied when a minimum is given. */
  function LevelStage(ms: seq<Message>, minLevel: Option<Level>): seq<Message>
  {
    if ms == [] then []
    else (if LevelOk(ms[0], minLevel) then [ms[0]] else []) + LevelStage(ms[1..], minLevel)
  }

  /** `[m for m in ms if m.pattern_name == pattern_name]`, applied when a pattern is given. */
  function PatternStage(ms: seq<Message>, pattern: Option<string>): seq<Message>
  {
    if ms == [] then []
    else (if PatternOk(ms[0], pattern) then [ms[0]] else []) + PatternStage(ms[1..], pattern)
  }

  /** Python's `xs[:n]`, where a negative `n` drops elements from the end. */
  function Take(xs: seq<Message>, n: int): (r: seq<Message>)
    ensures n >= 0 ==> |r| == if n <= |xs| then n else |xs|
    ensures n < 0 ==> |r| == if |xs| + n >= 0 then |xs| + n else 0
    ensures r == xs[..|r|]
  {
    if n >= 0 then (if n <= |xs| then xs[..n] else xs)
    else if |xs| + n >= 0 then xs[..|xs| + n] else []
  }

  /** `get_history`: reverse, filter by level, filter by pattern, cut to max_messages.
      The result is the newest-first selection of matching messages. */
  function GetHistory(h: seq<Message>, maxMessages: Option<int>, minLevel: Option<Level>, pattern: Option<string>)
    : (r: seq<Message>)
    ensures var all := NewestFirst(h, minLevel, pattern);
      r == if maxMessages.Some? then Take(all, maxMessages.value) else all
  {
    var filtered := PatternStage(LevelStage(Reverse(h), minLevel), pattern);
    FiltersSelectNewestFirst(h, minLevel, pattern);
    if maxMessages.Some? then Take(filtered, maxMessages.value) else filtered
  }

  lemma {:induction false} FiltersSelectNewestFirst(h: seq<Message>, minLevel: Option<Level>, pattern: Option<string>)
    ensures PatternStage(LevelStage(Reverse(h), minLevel), pattern) == NewestFirst(h, minLevel, pattern)
    decreases |h|
  {
    if h != [] {
      var init, last := h[..|h| - 1], h[|h| - 1];
      FiltersSelectNewestFirst(init, minLevel, pattern);
      var rev := Reverse(h);
      assert rev[0] == last && rev[1..] == Reverse(init);
      var byLevelInit := LevelStage(Reverse(init), minLevel);
      if LevelOk(last, minLevel) {
        var byLevel := [last] + byLevelInit;
        assert LevelStage(rev, minLevel) == byLevel;
        assert byLevel[0] == last && byLevel[1..] == byLevelInit;
      } else {
        assert LevelStage(rev, minLevel) == byLevelInit;
      }
    }
  }

  // ---------------------------------------------------------------------------
  // Delivery

  function FiltersOf(filters: map<string, map<string, FilterValue>>, name: string): map<string, FilterValue>
  {
    if name in filters then filters[name] else map[]
  }

  /** The subscribers whose callback is called for `m`, in registration order. A callback
      that raises is caught and changes nothing for the others. */
  function Recipients(subs: seq<Subscriber>, filters: map<string, map<string, FilterValue>>, m: Message)
    : (r: seq<Subscriber>)
    ensures forall s :: s in r <==> s in subs && ShouldProcess(FiltersOf(filters, s.name), m) == Process
    ensures |r| <= |subs|
  {
    if subs == [] then []
    else
      var last := subs[|subs| - 1];
      assert subs == subs[..|subs| - 1] + [last];
      Recipients(subs[..|subs| - 1], filters, m)
      + (if ShouldProcess(FiltersOf(filters, last.name), m) == Process then [last] else [])
  }

  /** A subscriber without filters receives every message. */
  lemma UnfilteredReceivesAll(subs: seq<Subscriber>, filters: map<string, map<string, FilterValue>>, m: Message, s: Subscriber)
    requires s in subs && FiltersOf(filters, s.name) == map[]
    ensures s in Recipients(subs, filters, m)
  {
  }

  class MessageBus {
    var subscribers: seq<Subscriber>
    var filters: map<string, map<string, FilterValue>>
    var history: seq<Message>
    const maxHistorySize: nat

    /** Subscriber names are unique and the history is within its bound. */
    predicate Valid()
      reads this
    {
      Distinct(Names(subscribers)) && |history| <= maxHistorySize
    }

    constructor ()
      ensures Valid()
      ensures subscribers == [] && filters == map[] && history == [] && maxHistorySize == MaxHistorySize
    {
      subscribers := [];
      filters := map[];
      history := [];
      maxHistorySize := MaxHistorySize;
    }

    method Subscribe(name: string, callback: Callback)
      requires Valid()
      modifies this
      ensures Valid()
      ensures subscribers == Subscribed(old(subscribers), name, callback)
      ensures filters == old(filters) && history == old(history)
    {
      SubscribeKeepsNamesUnique(subscribers, name, callback);
      var i := 0;
      while i < |subscribers|
        invariant 0 <= i <= |subscribers|
        invariant forall j :: 0 <= j < i ==> subscribers[j].name != name
      {
        if subscribers[i].name == name {
          assert IndexOf(Names(subscribers), name) == i;
          subscribers := subscribers[i := Subscriber(name, callback)];
          return;
        }
        i := i + 1;
      }
      assert name !in Names(subscribers);
      subscribers := subscribers + [Subscriber(name, callback)];
    }

    method Unsubscribe(name: string)
      requires Valid()
      modifies this
      ensures Valid()
      ensures subscribers == Unsubscribed(old(subscribers), name)
      ensures filters == old(filters) - {name} && history == old(history)
    {
      var kept: seq<Subscriber> := [];
      var i := 0;
      while i < |subscribers|
        invariant 0 <= i <= |subscribers|
        invariant kept == Unsubscribed(subscribers[..i], name)
      {
        assert subscribers[..i + 1][..i] == subscribers[..i];
        if subscribers[i].name != name {
          kept := kept + [subscribers[i]];
        }
        i := i + 1;
      }
      assert subscribers[..i] == subscribers;
      UnsubscribeKeepsDistinct(subscribers, name);
      subscribers := kept;
      if name in filters {
        filters := filters - {name};
      }
    }

    method SetFilter(name: string, filterType: string, value: FilterValue)
      modifies this
      ensures filters == old(filters)[name := FiltersOf(old(filters), name)[filterType := value]]
      ensures subscribers == old(subscribers) && history == old(history)
    {
      if name !in filters {
        filters := filters[name := map[]];
      }
      filters := filters[name := filters[name][filterType := value]];
    }

    /** `clear_filter`: with no type every filter of the subscriber goes, otherwise that type only. */
    method ClearFilter(name: string, filterType: Option<string>)
      modifies this
      ensures name !in old(filters) ==> filters == old(filters)
      ensures name in old(filters) && filterType.None? ==> filters == old(filters) - {name}
      ensures name in old(filters) && filterType.Some? ==>
        filters == old(filters)[name := old(filters)[name] - {filterType.value}]
      ensures subscribers == old(subscribers) && history == old(history)
    {
      if name in filters {
        if filterType.None? {
          filters := filters - {name};
        } else if filterType.value in filters[name] {
          filters := filters[name := filters[name] - {filterType.value}];
        } else {
          assert filters[name] - {filterType.value} == filters[name];
        }
      }
    }

    /** Appends the message and evicts the oldest entries while over the bound. */
    method AddToHistory(m: Message)
      requires Valid()
      modifies this
      ensures Valid()
      ensures history == Bounded(old(history) + [m], maxHistorySize)
      ensures subscribers == old(subscribers) && filters == old(filters)
    {
      ghost var full := history + [m];
      ghost var k := 0;
      history := history + [m];
      while |history| > maxHistorySize
        invariant 0 <= k <= |full| && history == full[k..]
        invariant k > 0 ==> |history| >= maxHistorySize
        invariant subscribers == old(subscribers) && filters == old(filters)
        decreases |history|
      {
        history := history[1..];
        k := k + 1;
      }
    }

    /** One message taken from the queue: recorded in the history, then offered to each
        subscriber in registration order. Returns the subscribers whose callback was called. */
    method Deliver(m: Message) returns (called: seq<Subscriber>)
      requires Valid()
      modifies this
      ensures Valid()
      ensures history == Bounded(old(history) + [m], maxHistorySize)
      ensures called == Recipients(subscribers, filters, m)
      ensures subscribers == old(subscribers) && filters == old(filters)
    {
      AddToHistory(m);
      called := Dispatch(m);
    }

    /** The delivery loop: every subscriber in registration order, each called when its
        filters let the message through. */
    method Dispatch(m: Message) returns (called: seq<Subscriber>)
      ensures called == Recipients(subscribers, filters, m)
    {
      called := [];
      var i := 0;
      while i < |subscribers|
        invariant 0 <= i <= |subscribers|
        invariant called == Recipients(subscribers[..i], filters, m)
      {
        var s := subscribers[i];
        assert subscribers[..i + 1][..i] == subscribers[..i];
        assert subscribers[..i + 1][i] == s;
        var verdict := ShouldProcess(FiltersOf(filters, s.name), m);
        if verdict == Process {
          called := called + [s];
        }
        i := i + 1;
      }
      assert subscribers[..i] == subscribers;
    }
  }

  /** Unsubscribing keeps the names unique and leaves none under the removed name. */
  lemma {:induction false} UnsubscribeKeepsDistinct(subs: seq<Subscriber>, name: string)
    requires Distinct(Names(subs))
    ensures Distinct(Names(Unsubscribed(subs, name)))
    ensures name !in Names(Unsubscribed(subs, name))
    decreases |subs|
  {
    if subs != [] {
      var init := subs[..|subs| - 1];
      var last := subs[|subs| - 1];
      assert Names(init) == Names(subs)[..|subs| - 1];
      UnsubscribeKeepsDistinct(init, name);
      if last.name != name {
        LastNameIsNew(subs);
        UnsubscribedNames(init, name, last.name);
        NamesAppend(Unsubscribed(init, name), last);
      }
    }
  }

  /** With unique names, the last subscriber's name is not used before it. */
  lemma LastNameIsNew(subs: seq<Subscriber>)
    requires subs != [] && Distinct(Names(subs))
    ensures subs[|subs| - 1].name !in Names(subs[..|subs| - 1])
  {
    var init := subs[..|subs| - 1];
    forall j | 0 <= j < |init| ensures Names(init)[j] != subs[|subs| - 1].name {
      assert Names(subs)[j] == init[j].name;
    }
  }

  /** Unsubscribing introduces no name. */
  lemma UnsubscribedNames(subs: seq<Subscriber>, name: string, n: string)
    requires n !in Names(subs)
    ensures n !in Names(Unsubscribed(subs, name))
  {
    var u := Unsubscribed(subs, name);
    UnsubscribeRemoves(subs, name);
    forall i | 0 <= i < |u| ensures u[i].name != n {
      assert u[i] in subs;
      var j :| 0 <= j < |subs| && subs[j] == u[i];
      assert Names(subs)[j] == u[i].name;
    }
  }

  /** Adding a subscriber under a new name keeps the names unique. */
  lemma NamesAppend(subs: seq<Subscriber>, s: Subscriber)
    requires Distinct(Names(subs)) && s.name !in Names(subs)
    ensures Distinct(Names(subs + [s]))
  {
    assert Names(subs + [s]) == Names(subs) + [s.name];
  }
}
