/** The hotkey capture widget: the keys held down are written as one combination string,
    modifiers first in a fixed order and the other keys sorted, and a typed combination
    is checked against the widget's own sets of names. The wx controls and key-code
    translation are not modelled. */
module HotkeyCapture {
  import opened Common
  import Hotkeys

  // ---------------------------------------------------------------------------
  // _keys_to_string

  const ModifierOrder: seq<string> := ["ctrl", "alt", "shift", "cmd"]

  /** The position of a modifier in `ModifierOrder`; 4 for any other key. */
  function Rank(key: string): nat
  {
    match key
    case "ctrl" => 0
    case "alt" => 1
    case "shift" => 2
    case "cmd" => 3
    case _ => 4
  }

  /** The names of `order` that are among the keys, in the order of `order`. */
  function Present(order: seq<string>, keys: set<string>): (r: seq<string>)
    ensures |r| <= |order|
  {
    if order == [] then []
    else
      var last := order[|order| - 1];
      Present(order[..|order| - 1], keys) + (if last in keys then [last] else [])
  }

  /** The keys of `sorted` that are not modifiers, in their order. */
  function Others(sorted: seq<string>): (r: seq<string>)
    ensures |r| <= |sorted|
  {
    if sorted == [] then []
    else
      var last := sorted[|sorted| - 1];
      Others(sorted[..|sorted| - 1]) + (if last in ModifierOrder then [] else [last])
  }

  /** `Present` keeps exactly the names of `order` that are held. */
  lemma {:induction false} PresentMembers(order: seq<string>, keys: set<string>)
    ensures forall x :: x in Present(order, keys) <==> x in order && x in keys
  {
    if order != [] {
      var init := order[..|order| - 1];
      PresentMembers(init, keys);
      assert order == init + [order[|order| - 1]];
    }
  }

  /** `Others` keeps exactly the keys of `sorted` that are not modifiers. */
  lemma {:induction false} OthersMembers(sorted: seq<string>)
    ensures forall x :: x in Others(sorted) <==> x in sorted && x !in ModifierOrder
  {
    if sorted != [] {
      var init := sorted[..|sorted| - 1];
      OthersMembers(init);
      assert sorted == init + [sorted[|sorted| - 1]];
    }
  }

  lemma OthersStep(sorted: seq<string>, j: nat)
    requires j < |sorted|
    ensures Others(sorted[..j + 1]) ==
      Others(sorted[..j]) + (if sorted[j] in ModifierOrder then [] else [sorted[j]])
  {
    assert sorted[..j + 1][..j] == sorted[..j];
  }

  /** `sorted` is `sorted(keys)`: the keys in increasing order. */
  ghost predicate SortedOf(sorted: seq<string>, keys: set<string>)
  {
    StrictlySorted(sorted) && forall x :: x in sorted <==> x in keys
  }

  /** The list `_keys_to_string` joins, given the sorted keys. */
  function Ordered(keys: set<string>, sorted: seq<string>): seq<string>
  {
    Present(ModifierOrder, keys) + Others(sorted)
  }

  /** The first loop of `_keys_to_string`: the held modifiers, in `ModifierOrder`. */
  method HeldModifiers(keys: set<string>) returns (ordered: seq<string>)
    ensures ordered == Present(ModifierOrder, keys)
  {
    ordered := [];
    var i := 0;
    while i < |ModifierOrder|
      invariant 0 <= i <= |ModifierOrder|
      invariant ordered == Present(ModifierOrder[..i], keys)
    {
      assert ModifierOrder[..i + 1][..i] == ModifierOrder[..i];
      if ModifierOrder[i] in keys {
        ordered := ordered + [ModifierOrder[i]];
      }
      i := i + 1;
    }
    assert ModifierOrder[..i] == ModifierOrder;
  }

  /** The second loop of `_keys_to_string`: the sorted keys that are not modifiers. */
  method NonModifiers(sorted: seq<string>) returns (others: seq<string>)
    ensures others == Others(sorted)
  {
    others := [];
    var j := 0;
    while j < |sorted|
      invariant 0 <= j <= |sorted|
      invariant others == Others(sorted[..j])
    {
      OthersStep(sorted, j);
      if sorted[j] !in ModifierOrder {
        others := others + [sorted[j]];
      }
      j := j + 1;
    }
    assert sorted[..j] == sorted;
  }

  /** `_keys_to_string`: the empty set gives the empty string; otherwise the modifiers that
      are held, in `ModifierOrder`, then every other key in sorted order, joined by `+`. */
  method KeysToString(keys: set<string>) returns (s: string)
    ensures keys == {} ==> s == ""
    ensures forall sorted :: SortedOf(sorted, keys) ==> s == Join(Ordered(keys, sorted), '+')
  {
    if keys == {} {
      forall sorted | SortedOf(sorted, keys)
        ensures "" == Join(Ordered(keys, sorted), '+')
      {
        SameMembersEmpty(sorted, []);
        PresentMembers(ModifierOrder, keys);
        SameMembersEmpty(Present(ModifierOrder, keys), []);
      }
      return "";
    }
    var ordered := HeldModifiers(keys);
    var sorted := SortedList(keys);
    var others := NonModifiers(sorted);
    ordered := ordered + others;
    s := Join(ordered, '+');
    forall other | SortedOf(other, keys)
      ensures s == Join(Ordered(keys, other), '+')
    {
      SortedUnique(sorted, other);
    }
  }

  /** Strictly increasing in rank. */
  predicate Ranked(xs: seq<string>)
  {
    forall i, j :: 0 <= i < j < |xs| ==> Rank(xs[i]) < Rank(xs[j])
  }

  /** Keeping some names of a list ordered by rank leaves it ordered by rank. */
  lemma {:induction false} PresentRanked(order: seq<string>, keys: set<string>)
    requires Ranked(order)
    ensures Ranked(Present(order, keys))
  {
    if order != [] {
      var init := order[..|order| - 1];
      var last := order[|order| - 1];
      PresentRanked(init, keys);
      PresentMembers(init, keys);
      var p := Present(init, keys);
      forall i | 0 <= i < |p|
        ensures Rank(p[i]) < Rank(last)
      {
        assert p[i] in init;
        var k :| 0 <= k < |init| && init[k] == p[i];
        assert order[k] == p[i];
      }
      var r := Present(order, keys);
      assert r == p + (if last in keys then [last] else []);
      forall i, j | 0 <= i < j < |r|
        ensures Rank(r[i]) < Rank(r[j])
      {
        if j < |p| {
          assert r[i] == p[i] && r[j] == p[j];
          assert Rank(p[i]) < Rank(p[j]);
        } else {
          assert r[i] == p[i] && r[j] == last;
          assert Rank(p[i]) < Rank(last);
        }
      }
    }
  }

  /** Keeping some keys of a sorted list leaves it sorted. */
  lemma {:induction false} OthersSorted(sorted: seq<string>)
    requires StrictlySorted(sorted)
    ensures StrictlySorted(Others(sorted))
  {
    if sorted != [] {
      var init := sorted[..|sorted| - 1];
      var last := sorted[|sorted| - 1];
      OthersSorted(init);
      OthersMembers(init);
      var o := Others(init);
      forall i | 0 <= i < |o|
        ensures Less(o[i], last)
      {
        assert o[i] in init;
      }
    }
  }

  /** The held modifiers come first, in rank order; the other keys follow, sorted. */
  lemma OrderedSides(keys: set<string>, sorted: seq<string>)
    requires SortedOf(sorted, keys)
    ensures var o := Ordered(keys, sorted);
      var n := |Present(ModifierOrder, keys)|;
      n <= |o| &&
      (forall i :: 0 <= i < n ==> o[i] in ModifierOrder) &&
      (forall i :: n <= i < |o| ==> o[i] !in ModifierOrder) &&
      (forall i, j :: 0 <= i < j < n ==> Rank(o[i]) < Rank(o[j])) &&
      (forall i, j :: n <= i < j < |o| ==> Less(o[i], o[j]))
  {
    var o := Ordered(keys, sorted);
    var p := Present(ModifierOrder, keys);
    var q := Others(sorted);
    var n := |p|;
    PresentRanked(ModifierOrder, keys);
    OthersSorted(sorted);
    PresentMembers(ModifierOrder, keys);
    OthersMembers(sorted);
    forall i | 0 <= i < n
      ensures o[i] == p[i] && o[i] in ModifierOrder
    {
      assert p[i] in p;
    }
    forall i | n <= i < |o|
      ensures o[i] == q[i - n] && o[i] !in ModifierOrder
    {
      assert q[i - n] in q;
    }
  }

  /** The joined list holds each held key exactly once. */
  lemma OrderedDistinct(keys: set<string>, sorted: seq<string>)
    requires SortedOf(sorted, keys)
    ensures var o := Ordered(keys, sorted);
      (forall x :: x in o <==> x in keys) && Distinct(o)
  {
    var o := Ordered(keys, sorted);
    var n := |Present(ModifierOrder, keys)|;
    OrderedSides(keys, sorted);
    PresentMembers(ModifierOrder, keys);
    OthersMembers(sorted);
    forall i, j | 0 <= i < j < |o|
      ensures o[i] != o[j]
    {
      if j < n {
        assert Rank(o[i]) < Rank(o[j]);
      } else if n <= i {
        LessIrreflexive(o[i]);
        assert Less(o[i], o[j]);
      }
    }
  }

  /** The joined list holds each key exactly once; the held modifiers come first, in the
      order ctrl, alt, shift, cmd, and the other keys follow in increasing order. */
  lemma OrderedShape(keys: set<string>, sorted: seq<string>)
    requires SortedOf(sorted, keys)
    ensures var o := Ordered(keys, sorted);
      var n := |Present(ModifierOrder, keys)|;
      n <= |o| &&
      (forall x :: x in o <==> x in keys) &&
      Distinct(o) &&
      (forall i :: 0 <= i < n ==> o[i] in ModifierOrder) &&
      (forall i :: n <= i < |o| ==> o[i] !in ModifierOrder) &&
      (forall i, j :: 0 <= i < j < n ==> Rank(o[i]) < Rank(o[j])) &&
      (forall i, j :: n <= i < j < |o| ==> Less(o[i], o[j]))
  {
    OrderedSides(keys, sorted);
    OrderedDistinct(keys, sorted);
  }

  /** When no key holds a `+`, splitting the string on `+` gives the joined list back,
      so the combination names exactly the keys held. */
  lemma KeysToStringSplits(keys: set<string>, sorted: seq<string>)
    requires SortedOf(sorted, keys)
    requires keys != {}
    requires forall k :: k in keys ==> '+' !in k
    ensures Split(Join(Ordered(keys, sorted), '+'), '+') == Ordered(keys, sorted)
    ensures forall x :: x in Split(Join(Ordered(keys, sorted), '+'), '+') <==> x in keys
  {
    OrderedShape(keys, sorted);
    var o := Ordered(keys, sorted);
    var k :| k in keys;
    assert k in o;
    forall i | 0 <= i < |o|
      ensures '+' !in o[i]
    {
      assert o[i] in o;
    }
    SplitJoin(o, '+');
  }

  // ---------------------------------------------------------------------------
  // validate_hotkey

  const CaptureModifiers: set<string> := {"ctrl", "alt", "shift", "cmd"}

  const CaptureFunctionKeys: set<string> :=
    {"f1", "f2", "f3", "f4", "f5", "f6", "f7", "f8", "f9", "f10", "f11", "f12",
     "f13", "f14", "f15", "f16", "f17", "f18", "f19", "f20", "f21", "f22", "f23", "f24"}

  const CaptureNamedKeys: set<string> := {"space", "enter", "tab", "escape", "backspace"}

  const CaptureKeys: set<string> := Hotkeys.Alphanumerics + CaptureFunctionKeys + CaptureNamedKeys

  /** What `validate_hotkey` accepts: the service's rule over the widget's names. */
  predicate CaptureValid(hotkey: Value)
  {
    Hotkeys.Accepted(hotkey, CaptureModifiers, CaptureKeys)
  }

  /** `validate_hotkey`: false for a value that is not a string, an empty string or a
      combination with an empty or unknown part longer than one character. */
  method ValidateHotkey(hotkey: Value) returns (ok: bool)
    ensures ok <==> CaptureValid(hotkey)
  {
    ok := Hotkeys.CheckCombo(hotkey, CaptureModifiers, CaptureKeys);
  }

  /** A part the service accepts is accepted by the widget, unless it is `win`. */
  lemma ManagerPartCaptured(part: string)
    requires Hotkeys.PartAccepted(part, Hotkeys.Modifiers, Hotkeys.Keys)
    requires part != "win"
    ensures Hotkeys.PartAccepted(part, CaptureModifiers, CaptureKeys)
  {
    if part in Hotkeys.FunctionKeys {
      assert part in CaptureFunctionKeys;
    } else if part in Hotkeys.NamedKeys {
      assert part in CaptureNamedKeys;
    }
  }

  /** Every combination the service accepts and that does not use the Windows key is also
      accepted by the capture widget. */
  lemma ManagerValidCaptured(combo: Value)
    requires Hotkeys.ValidCombo(combo)
    requires forall i :: 0 <= i < |Hotkeys.Parts(combo.s)| ==> Strip(Hotkeys.Parts(combo.s)[i]) != "win"
    ensures CaptureValid(combo)
  {
    var parts := Hotkeys.Parts(combo.s);
    forall i | 0 <= i < |parts|
      ensures Hotkeys.PartAccepted(Strip(parts[i]), CaptureModifiers, CaptureKeys)
    {
      ManagerPartCaptured(Strip(parts[i]));
    }
  }
}
