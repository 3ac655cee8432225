/** `ensure_all_field`: a copy of a message's data in which the key `all` holds one line
    per meaningful entry, for message templates that print `{all}`. */
module EnsureAll {
  import opened Common
  import PyDict

  /** Keys whose entries never appear in the `all` text. */
  const HiddenKeys: seq<string> := ["source", "timestamp", "player_name", "org", "enlisted", "action"]

  /** An entry appears in the `all` text: its value is not None, its key is not hidden and
      its value is not the string "None", "Unknown" or "". */
  predicate Shown(k: string, v: Value)
  {
    v != Null && k !in HiddenKeys && v != Str("None") && v != Str("Unknown") && v != Str("")
  }

  /** The shown entries, in the dictionary's order. */
  function ShownEntries(d: PyDict.Dict<string, Value>): (r: PyDict.Dict<string, Value>)
    ensures |r| <= |d|
  {
    if d == [] then []
    else
      var last := d[|d| - 1];
      ShownEntries(d[..|d| - 1]) + (if Shown(last.0, last.1) then [last] else [])
  }

  /** The shown entries are exactly the entries of the data that are shown. */
  lemma {:induction false} ShownMembers(d: PyDict.Dict<string, Value>)
    ensures forall e :: e in ShownEntries(d) <==> e in d && Shown(e.0, e.1)
  {
    if d != [] {
      var init := d[..|d| - 1];
      var last := d[|d| - 1];
      ShownMembers(init);
      assert d == init + [last];
    }
  }

  /** `f"{k}: {v}\n"` */
  function Line(k: string, v: Value): string
  {
    k + ": " + Display(v) + "\n"
  }

  /** The text of `all`: the lines of the shown entries joined by single spaces. */
  function AllText(d: PyDict.Dict<string, Value>): string
  {
    var shown := ShownEntries(d);
    Join(seq(|shown|, i requires 0 <= i < |shown| => Line(shown[i].0, shown[i].1)), ' ')
  }

  /** `ensure_all_field`: the data as it is when it has `all`; otherwise the data with
      `all` added last. */
  function EnsureAllField(data: PyDict.Dict<string, Value>): (r: PyDict.Dict<string, Value>)
    ensures PyDict.HasKey(r, "all")
    ensures PyDict.HasKey(data, "all") ==> r == data
    ensures !PyDict.HasKey(data, "all") ==> r == data + [("all", Str(AllText(data)))]
  {
    if PyDict.HasKey(data, "all") then data
    else PyDict.Put(data, "all", Str(AllText(data)))
  }

  /** Every other key keeps its value, and the copy is still a dictionary. */
  lemma EnsureAllKeeps(data: PyDict.Dict<string, Value>)
    requires PyDict.Valid(data)
    ensures PyDict.Valid(EnsureAllField(data))
    ensures forall k :: k != "all" ==> PyDict.Get(EnsureAllField(data), k) == PyDict.Get(data, k)
    ensures PyDict.HasKey(data, "all") ==>
      PyDict.Get(EnsureAllField(data), "all") == PyDict.Get(data, "all")
    ensures !PyDict.HasKey(data, "all") ==>
      PyDict.Get(EnsureAllField(data), "all") == Some(Str(AllText(data)))
  {
    if !PyDict.HasKey(data, "all") {
      PyDict.PutGet(data, "all", Str(AllText(data)));
    }
  }

  /** Applying it twice is the same as once. */
  lemma EnsureAllIdempotent(data: PyDict.Dict<string, Value>)
    ensures EnsureAllField(EnsureAllField(data)) == EnsureAllField(data)
  {
  }

  /** The lines of `all` come from the shown entries only, one line per entry, each
      naming its key and value; with nothing shown the text is empty. */
  lemma AllTextLines(data: PyDict.Dict<string, Value>)
    ensures var shown := ShownEntries(data);
      AllText(data) == Join(seq(|shown|, i requires 0 <= i < |shown| => Line(shown[i].0, shown[i].1)), ' ') &&
      (forall i :: 0 <= i < |shown| ==> shown[i] in data && Shown(shown[i].0, shown[i].1)) &&
      (forall e :: e in data && Shown(e.0, e.1) ==> e in shown) &&
      (shown == [] ==> AllText(data) == "")
  {
    var shown := ShownEntries(data);
    ShownMembers(data);
    forall i | 0 <= i < |shown|
      ensures shown[i] in data && Shown(shown[i].0, shown[i].1)
    {
      assert shown[i] in shown;
    }
  }

  /** Showing entries keeps their order: the shown entries of two stretches of data are
      those of the first, then those of the second. */
  lemma {:induction false} ShownConcat(a: PyDict.Dict<string, Value>, b: PyDict.Dict<string, Value>)
    ensures ShownEntries(a + b) == ShownEntries(a) + ShownEntries(b)
    decreases |b|
  {
    if b == [] {
      assert a + b == a;
    } else {
      var init := b[..|b| - 1];
      var last := b[|b| - 1];
      ShownConcat(a, init);
      assert (a + b)[..|a + b| - 1] == a + init;
      assert (a + b)[|a + b| - 1] == last;
      calc {
        ShownEntries(a + b);
        ShownEntries(a + init) + (if Shown(last.0, last.1) then [last] else []);
        ShownEntries(a) + ShownEntries(init) + (if Shown(last.0, last.1) then [last] else []);
        ShownEntries(a) + ShownEntries(b);
      }
    }
  }
}
