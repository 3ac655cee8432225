/** The hotkey manager service: combinations such as "ctrl+alt+1" come from the
    configuration (falling back to each hotkey's default when the configured one is
    malformed), are mapped to the event they emit, converted to the listener's
    `<ctrl>+<alt>+1` notation, and presses are counted and blocked while the game window
    is not focused. The configuration lookup is a parameter; the keyboard listener, the
    focus detector and the message bus are not modelled. */
module Hotkeys {
  import opened Common
  import PyDict

  // ---------------------------------------------------------------------------
  // validation

  /** The '+'-separated parts of a combination after lowercasing, before stripping. */
  function Parts(s: string): (ps: seq<string>)
    ensures |ps| >= 1
  {
    Split(Lower(s), '+')
  }

  /** A stripped part is accepted when it is non-empty and a known modifier, a known key
      or a single character. */
  predicate PartAccepted(part: string, modifiers: set<string>, keys: set<string>)
  {
    |part| > 0 && (part in modifiers || part in keys || |part| == 1)
  }

  /** A combination is accepted when it is a non-empty string all of whose stripped parts
      are accepted. */
  predicate Accepted(combo: Value, modifiers: set<string>, keys: set<string>)
  {
    combo.Str? && |combo.s| > 0 && PartsAccepted(Parts(combo.s), modifiers, keys)
  }

  predicate PartsAccepted(parts: seq<string>, modifiers: set<string>, keys: set<string>)
  {
    forall i :: 0 <= i < |parts| ==> PartAccepted(Strip(parts[i]), modifiers, keys)
  }

  /** The loop of `_is_valid_combo_format` (and of its older and capture-widget copies,
      which differ only in the sets of names): stops at the first part that is empty or
      unknown and longer than one character. */
  method CheckCombo(combo: Value, modifiers: set<string>, keys: set<string>) returns (ok: bool)
    ensures ok <==> Accepted(combo, modifiers, keys)
  {
    if !combo.Str? || |combo.s| == 0 {
      return false;
    }
    var parts := Parts(combo.s);
    var i := 0;
    while i < |parts|
      invariant 0 <= i <= |parts|
      invariant forall j :: 0 <= j < i ==> PartAccepted(Strip(parts[j]), modifiers, keys)
    {
      var part := Strip(parts[i]);
      if |part| == 0 {
        return false;
      }
      if part !in modifiers && part !in keys {
        if |part| != 1 {
          return false;
        }
      }
      forall j | 0 <= j < i + 1
        ensures PartAccepted(Strip(parts[j]), modifiers, keys)
      {
        if j == i {
          assert Strip(parts[j]) == part;
        }
      }
      i := i + 1;
    }
    return true;
  }

  const Modifiers: set<string> := {"ctrl", "alt", "shift", "cmd", "win"}

  const Alphanumerics: set<string> :=
    {"a", "b", "c", "d", "e", "f", "g", "h", "i", "j", "k", "l", "m",
     "n", "o", "p", "q", "r", "s", "t", "u", "v", "w", "x", "y", "z",
     "0", "1", "2", "3", "4", "5", "6", "7", "8", "9"}

  const FunctionKeys: set<string> :=
    {"f1", "f2", "f3", "f4", "f5", "f6", "f7", "f8", "f9", "f10", "f11", "f12"}

  const NamedKeys: set<string> := {"space", "tab", "enter", "escape"}

  const Keys: set<string> := Alphanumerics + FunctionKeys + NamedKeys

  predicate ValidCombo(combo: Value)
  {
    Accepted(combo, Modifiers, Keys)
  }

  /** `_validate_combination`: the combination itself when it is valid, else the
      fallback. */
  method ValidateCombination(combo: Value, fallback: string) returns (r: string)
    ensures r == Chosen(combo, fallback)
  {
    var ok := CheckCombo(combo, Modifiers, Keys);
    if !ok {
      return fallback;
    }
    return combo.s;
  }

  /** The combination a registration ends up with. */
  function Chosen(combo: Value, fallback: string): string
  {
    if ValidCombo(combo) then combo.s else fallback
  }

  /** With a valid default, whatever the configuration holds, the chosen combination is
      valid; and choosing again from the chosen one changes nothing. */
  lemma ChosenValid(combo: Value, fallback: string)
    requires ValidCombo(Str(fallback))
    ensures ValidCombo(Str(Chosen(combo, fallback)))
    ensures Chosen(Str(Chosen(combo, fallback)), fallback) == Chosen(combo, fallback)
  {
  }

  // ---------------------------------------------------------------------------
  // conversion to the listener's notation

  /** The `special_keys` table: the names the listener writes between angle brackets
      (`win` is written as `<cmd>`, `escape` and `esc` as `<esc>`, `enter` and `return`
      as `<enter>`). */
  function SpecialKey(part: string): Option<string>
  {
    match part
    case "ctrl" => Some("<ctrl>")
    case "alt" => Some("<alt>")
    case "shift" => Some("<shift>")
    case "cmd" => Some("<cmd>")
    case "win" => Some("<cmd>")
    case "escape" => Some("<esc>")
    case "esc" => Some("<esc>")
    case "enter" => Some("<enter>")
    case "return" => Some("<enter>")
    case "space" => Some("<space>")
    case "tab" => Some("<tab>")
    case "backspace" => Some("<backspace>")
    case "delete" => Some("<delete>")
    case "home" => Some("<home>")
    case "end" => Some("<end>")
    case "page_up" => Some("<page_up>")
    case "page_down" => Some("<page_down>")
    case "up" => Some("<up>")
    case "down" => Some("<down>")
    case "left" => Some("<left>")
    case "right" => Some("<right>")
    case "insert" => Some("<insert>")
    case "caps_lock" => Some("<caps_lock>")
    case "scroll_lock" => Some("<scroll_lock>")
    case "num_lock" => Some("<num_lock>")
    case "print_screen" => Some("<print_screen>")
    case "pause" => Some("<pause>")
    case "menu" => Some("<menu>")
    case _ => None
  }

  /** `str.isdigit()` on ASCII text. */
  predicate IsDigits(s: string)
  {
    s != [] && forall i :: 0 <= i < |s| ==> '0' <= s[i] <= '9'
  }

  /** One stripped part in the listener's notation: a special name by its mapping, `f`
      followed by digits in brackets, anything else as it is. */
  function ConvertPart(part: string): string
  {
    match SpecialKey(part)
    case Some(name) => name
    case None =>
      if |part| > 1 && part[0] == 'f' && IsDigits(part[1..]) then "<" + part + ">"
      else part
  }

  /** Every part of `parts`, stripped and converted by `convert`. */
  function ConvertEach(parts: seq<string>, convert: string -> string): (r: seq<string>)
    ensures |r| == |parts|
    ensures forall i :: 0 <= i < |r| ==> r[i] == convert(Strip(parts[i]))
  {
    seq(|parts|, i requires 0 <= i < |parts| => convert(Strip(parts[i])))
  }

  /** Every stripped part of `combination`, converted by `convert`. */
  function ConvertedParts(combination: string, convert: string -> string): (r: seq<string>)
    ensures |r| == |Parts(combination)|
    ensures forall i :: 0 <= i < |r| ==> r[i] == convert(Strip(Parts(combination)[i]))
  {
    ConvertEach(Parts(combination), convert)
  }

  /** The loop of the conversion: each part stripped and converted, in order. */
  method ConvertLoop(parts: seq<string>, convert: string -> string) returns (converted: seq<string>)
    ensures converted == ConvertEach(parts, convert)
  {
    ghost var all := ConvertEach(parts, convert);
    converted := [];
    var i := 0;
    while i < |parts|
      invariant 0 <= i <= |parts|
      invariant |converted| == i
      invariant forall k :: 0 <= k < i ==> converted[k] == all[k]
    {
      converted := converted + [convert(Strip(parts[i]))];
      i := i + 1;
    }
  }

  /** The conversion shared by `_convert_to_pynput_format` and its older copy: strips
      and converts each part and joins them with '+'. */
  method ConvertCombination(combination: string, convert: string -> string) returns (r: string)
    ensures r == Join(ConvertedParts(combination, convert), '+')
  {
    var converted := ConvertLoop(Parts(combination), convert);
    return Join(converted, '+');
  }

  /** `_convert_to_pynput_format` */
  method ConvertToPynputFormat(combination: string) returns (r: string)
    ensures r == Join(ConvertedParts(combination, ConvertPart), '+')
  {
    r := ConvertCombination(combination, ConvertPart);
  }

  /** A part of a split string has no '+', and stripping keeps it that way. */
  lemma StrippedPartsPlain(combination: string)
    ensures forall i :: 0 <= i < |Parts(combination)| ==> '+' !in Strip(Parts(combination)[i])
  {
    forall i | 0 <= i < |Parts(combination)|
      ensures '+' !in Strip(Parts(combination)[i])
    {
      var p := Parts(combination)[i];
      var l := LStrip(p);
      assert forall c :: c in RStrip(l) ==> c in l;
      assert forall c :: c in l ==> c in p;
    }
  }

  /** Converted parts free of '+' make the converted combination split back into exactly
      those parts. */
  lemma ConvertedSplits(combination: string, convert: string -> string)
    requires forall i :: 0 <= i < |Parts(combination)| ==> '+' !in ConvertedParts(combination, convert)[i]
    ensures Split(Join(ConvertedParts(combination, convert), '+'), '+') ==
      ConvertedParts(combination, convert)
  {
    SplitJoin(ConvertedParts(combination, convert), '+');
  }

  /** No special name is a single character or starts with 'f'. */
  lemma SpecialKeyShape(part: string)
    ensures SpecialKey(part).Some? ==> |part| >= 2 && part[0] != 'f'
  {
    if SpecialKey(part).Some? {
      SpecialKeyLong(part);
      SpecialKeyNoF(part);
    }
  }

  lemma SpecialKeyLong(part: string)
    requires SpecialKey(part).Some?
    ensures |part| >= 2
  {
  }

  lemma SpecialKeyNoF(part: string)
    requires SpecialKey(part).Some?
    ensures part[0] != 'f'
  {
  }

  /** Special names the listener understands between brackets. */
  const BracketedNames: set<string> :=
    {"<ctrl>", "<alt>", "<shift>", "<cmd>", "<esc>", "<enter>", "<space>", "<tab>"}

  /** Bracketing adds no '+'. */
  lemma BracketPlain(p: string)
    requires '+' !in p
    ensures '+' !in "<" + p + ">"
  {
    var t := "<" + p + ">";
    forall j | 0 <= j < |t| ensures t[j] != '+' {
      if 0 < j < |t| - 1 {
        assert t[j] == p[j - 1];
      }
    }
  }

  lemma BracketedPlain(t: string)
    requires t in BracketedNames
    ensures '+' !in t
  {
  }

  /** A token of the listener's notation: a single character, a bracketed special name
      or a bracketed function key. */
  predicate ListenerToken(t: string)
  {
    |t| == 1 || t in BracketedNames ||
    (|t| >= 3 && t[0] == '<' && t[|t| - 1] == '>' && t[1..|t| - 1] in FunctionKeys)
  }

  lemma ModifierConverts(part: string)
    requires part in Modifiers
    ensures ConvertPart(part) in BracketedNames
  {
  }

  lemma NamedKeyConverts(part: string)
    requires part in NamedKeys
    ensures ConvertPart(part) in BracketedNames
  {
  }

  lemma FunctionKeyShape(part: string)
    requires part in FunctionKeys
    ensures |part| >= 2 && part[0] == 'f' && IsDigits(part[1..])
  {
  }

  lemma FunctionKeyConverts(part: string)
    requires part in FunctionKeys
    ensures ConvertPart(part) == "<" + part + ">"
  {
    FunctionKeyShape(part);
    SpecialKeyShape(part);
  }

  /** A part accepted by the validator converts to a token of the listener's notation,
      adding no '+'. */
  lemma AcceptedPartConverts(part: string)
    requires PartAccepted(part, Modifiers, Keys) && '+' !in part
    ensures ListenerToken(ConvertPart(part)) && '+' !in ConvertPart(part)
  {
    if |part| == 1 {
      SpecialKeyShape(part);
    } else if part in Modifiers {
      ModifierConverts(part);
      BracketedPlain(ConvertPart(part));
    } else if part in FunctionKeys {
      FunctionKeyConverts(part);
      var t := "<" + part + ">";
      assert t[1..|t| - 1] == part;
      BracketPlain(part);
    } else if part in NamedKeys {
      NamedKeyConverts(part);
      BracketedPlain(ConvertPart(part));
    } else {
      assert false;
    }
  }

  /** A valid combination converts to '+'-separated tokens of the listener's notation,
      one per part of the combination. */
  lemma ValidComboConverts(combination: string)
    requires ValidCombo(Str(combination))
    ensures var tokens := Split(Join(ConvertedParts(combination, ConvertPart), '+'), '+');
      |tokens| == |Parts(combination)| &&
      forall i :: 0 <= i < |tokens| ==> ListenerToken(tokens[i])
  {
    StrippedPartsPlain(combination);
    var parts := Parts(combination);
    forall i | 0 <= i < |parts|
      ensures ListenerToken(ConvertedParts(combination, ConvertPart)[i])
      ensures '+' !in ConvertedParts(combination, ConvertPart)[i]
    {
      AcceptedPartConverts(Strip(parts[i]));
    }
    ConvertedSplits(combination, ConvertPart);
  }

  // ---------------------------------------------------------------------------
  // the manager

  datatype Metadata = Metadata(
    description: string,
    category: string,
    defaultCombination: string,
    currentCombination: string)

  /** `get_hotkeys_by_category`'s result, built entry by entry: each event goes into the
      group of its category, a group being created when the category is first seen. */
  function ByCategory(meta: PyDict.Dict<string, Metadata>): PyDict.Dict<string, PyDict.Dict<string, Metadata>>
  {
    if meta == [] then []
    else
      var groups := ByCategory(meta[..|meta| - 1]);
      var last := meta[|meta| - 1];
      PyDict.Put(groups, last.1.category, PyDict.Put(GroupOf(groups, last.1.category), last.0, last.1))
  }

  /** The group of category `c`, empty when there is none yet. */
  function GroupOf(groups: PyDict.Dict<string, PyDict.Dict<string, Metadata>>, c: string): PyDict.Dict<string, Metadata>
  {
    match PyDict.Get(groups, c)
    case Some(g) => g
    case None => []
  }

  type Groups = PyDict.Dict<string, PyDict.Dict<string, Metadata>>

  /** The metadata found for event `e` under category `c`. */
  function Placed(groups: Groups, c: string, e: string): Option<Metadata>
  {
    match PyDict.Get(groups, c)
    case Some(g) => PyDict.Get(g, e)
    case None => None
  }

  /** Where an event belongs: under its own category, with its metadata. */
  function Expected(meta: PyDict.Dict<string, Metadata>, c: string, e: string): Option<Metadata>
  {
    var m := PyDict.Get(meta, e);
    if m.Some? && m.value.category == c then m else None
  }

  /** Categories are distinct and so are the events within each group. */
  ghost predicate GroupsValid(groups: Groups)
  {
    PyDict.Valid(groups) && forall j :: 0 <= j < |groups| ==> PyDict.Valid(groups[j].1)
  }

  /** Registering a new event moves no other event. */
  lemma ExpectedPut(meta: PyDict.Dict<string, Metadata>, e0: string, m0: Metadata)
    requires PyDict.Valid(meta)
    ensures forall c, e ::
              Expected(PyDict.Put(meta, e0, m0), c, e) ==
              (if e == e0 then (if m0.category == c then Some(m0) else None)
               else Expected(meta, c, e))
  {
    PyDict.PutGet(meta, e0, m0);
  }

  /** Filing one event into its category's group. */
  lemma PlacedFile(groups: Groups, e0: string, m0: Metadata)
    requires GroupsValid(groups)
    ensures var c0 := m0.category;
      var r := PyDict.Put(groups, c0, PyDict.Put(GroupOf(groups, c0), e0, m0));
      GroupsValid(r) &&
      forall c, e :: Placed(r, c, e) ==
        (if c == c0 && e == e0 then Some(m0)
         else if c == c0 then Placed(groups, c0, e) else Placed(groups, c, e))
  {
    var c0 := m0.category;
    var group := GroupOf(groups, c0);
    assert PyDict.Valid(group) by {
      if PyDict.HasKey(groups, c0) {
        var k := PyDict.Find(groups, c0);
        assert group == groups[k].1;
      }
    }
    var group' := PyDict.Put(group, e0, m0);
    PyDict.PutGet(group, e0, m0);
    var r := PyDict.Put(groups, c0, group');
    PyDict.PutGet(groups, c0, group');
    PyDict.PutEntries(groups, c0, group');
    forall j | 0 <= j < |r| ensures PyDict.Valid(r[j].1) {
      if r[j] != (c0, group') {
        assert r[j] == groups[j];
      }
    }
    forall c, e
      ensures Placed(r, c, e) ==
        (if c == c0 && e == e0 then Some(m0)
         else if c == c0 then Placed(groups, c0, e) else Placed(groups, c, e))
    {
      if c == c0 && e != e0 {
        assert Placed(r, c, e) == PyDict.Get(group, e);
        if !PyDict.HasKey(groups, c0) {
          assert !PyDict.HasKey(group, e);
        }
      }
    }
  }

  /** Grouping by category finds each event under its own category, with its metadata,
      and under no other; categories are distinct and so are the events in each group. */
  lemma {:induction false} ByCategoryPlaces(meta: PyDict.Dict<string, Metadata>)
    requires PyDict.Valid(meta)
    ensures GroupsValid(ByCategory(meta))
    ensures forall c, e :: Placed(ByCategory(meta), c, e) == Expected(meta, c, e)
    decreases |meta|
  {
    if meta != [] {
      var init := meta[..|meta| - 1];
      var e0 := meta[|meta| - 1].0;
      var m0 := meta[|meta| - 1].1;
      PyDict.PutLast(meta);
      ExpectedPut(init, e0, m0);
      ByCategoryPlaces(init);
      var groups := ByCategory(init);
      PlacedFile(groups, e0, m0);
      var r := ByCategory(meta);
      assert r == PyDict.Put(groups, m0.category, PyDict.Put(GroupOf(groups, m0.category), e0, m0));
      forall c, e ensures Placed(r, c, e) == Expected(meta, c, e) {
        if e == e0 {
          assert Expected(init, c, e0) == None;
        }
      }
    }
  }

  /** Combinations and events are distinct keys and every mapped event has its
      metadata. */
  ghost predicate Described(hotkeys: PyDict.Dict<string, string>, metadata: PyDict.Dict<string, Metadata>)
  {
    PyDict.Valid(hotkeys) && PyDict.Valid(metadata) &&
    forall i :: 0 <= i < |hotkeys| ==> PyDict.HasKey(metadata, hotkeys[i].1)
  }

  /** Mapping a combination to an event and writing the event's metadata keeps every
      mapped event described. */
  lemma RegisterDescribed(hotkeys: PyDict.Dict<string, string>, metadata: PyDict.Dict<string, Metadata>,
                          combination: string, eventName: string, entry: Metadata)
    requires Described(hotkeys, metadata)
    ensures Described(PyDict.Put(hotkeys, combination, eventName), PyDict.Put(metadata, eventName, entry))
  {
    PyDict.PutGet(hotkeys, combination, eventName);
    PyDict.PutGet(metadata, eventName, entry);
    PyDict.PutEntries(hotkeys, combination, eventName);
    var meta' := PyDict.Put(metadata, eventName, entry);
    forall k | PyDict.HasKey(metadata, k) ensures PyDict.HasKey(meta', k) {
      if k != eventName {
        assert PyDict.Get(meta', k) == PyDict.Get(metadata, k);
      }
    }
  }

  /** One more entry is filed into the groups of the entries before it. */
  lemma ByCategoryStep(meta: PyDict.Dict<string, Metadata>, i: nat)
    requires i < |meta|
    ensures var groups := ByCategory(meta[..i]);
      var c := meta[i].1.category;
      ByCategory(meta[..i + 1]) == PyDict.Put(groups, c, PyDict.Put(GroupOf(groups, c), meta[i].0, meta[i].1))
  {
    assert meta[..i + 1][..i] == meta[..i];
  }

  /** Creating a missing group and then writing into it is one step of `ByCategory`. */
  lemma FileStep(groups: Groups, e: string, m: Metadata)
    ensures var c := m.category;
      var groups' := if PyDict.HasKey(groups, c) then groups else PyDict.Put(groups, c, []);
      PyDict.Put(groups', c, PyDict.Put(GroupOf(groups', c), e, m)) ==
      PyDict.Put(groups, c, PyDict.Put(GroupOf(groups, c), e, m))
  {
    var c := m.category;
    if !PyDict.HasKey(groups, c) {
      var groups' := PyDict.Put(groups, c, []);
      assert PyDict.Keys(groups')[|groups|] == c;
      assert PyDict.Find(groups', c) == |groups|;
      PyDict.PutPut(groups, c, [], PyDict.Put([], e, m));
    }
  }

  class HotkeyManager {
    var hotkeys: PyDict.Dict<string, string>
    var metadata: PyDict.Dict<string, Metadata>
    var registeredHotkeys: nat
    var totalPresses: nat
    var blockedPresses: nat
    var successfulPresses: nat
    var gameFocusRequired: bool
    var isGameFocused: bool

    /** Keys are distinct, the registered count is the number of mapped combinations,
        every press is either blocked or successful, and every mapped event has its
        metadata. */
    ghost predicate Valid()
      reads this
    {
      Described(hotkeys, metadata) &&
      registeredHotkeys == |hotkeys| &&
      totalPresses == blockedPresses + successfulPresses
    }

    /** `__init__`: `focusRequired` is the configured `game_focus_required`, already
        turned off when the focus detector could not be started. */
    constructor (focusRequired: bool)
      ensures Valid()
      ensures hotkeys == [] && metadata == []
      ensures registeredHotkeys == 0 && totalPresses == 0
      ensures gameFocusRequired == focusRequired && !isGameFocused
    {
      hotkeys := [];
      metadata := [];
      registeredHotkeys := 0;
      totalPresses := 0;
      blockedPresses := 0;
      successfulPresses := 0;
      gameFocusRequired := focusRequired;
      isGameFocused := false;
    }

    /** `_on_focus_change` */
    method OnFocusChange(focused: bool)
      modifies this
      ensures isGameFocused == focused
      ensures hotkeys == old(hotkeys) && metadata == old(metadata)
      ensures registeredHotkeys == old(registeredHotkeys)
      ensures totalPresses == old(totalPresses) && blockedPresses == old(blockedPresses)
      ensures successfulPresses == old(successfulPresses)
      ensures gameFocusRequired == old(gameFocusRequired)
    {
      isGameFocused := focused;
    }

    /** `register_hotkey`: `configured` is the configuration's `hotkeys.<event>` entry,
        if any. The chosen combination maps to the event, replacing an earlier event on
        the same combination, and the event's metadata is (re)written. */
    method RegisterHotkey(defaultCombination: string, eventName: string, description: string,
                          category: string, configured: Option<Value>)
      requires Valid()
      modifies this
      ensures Valid()
      ensures var actual := Chosen(if configured.Some? then configured.value else Str(defaultCombination), defaultCombination);
        hotkeys == PyDict.Put(old(hotkeys), actual, eventName) &&
        metadata == PyDict.Put(old(metadata), eventName,
          Metadata(description, category, defaultCombination, actual))
      ensures registeredHotkeys == |hotkeys|
      ensures totalPresses == old(totalPresses) && blockedPresses == old(blockedPresses)
      ensures successfulPresses == old(successfulPresses)
      ensures gameFocusRequired == old(gameFocusRequired) && isGameFocused == old(isGameFocused)
    {
      var combo := if configured.Some? then configured.value else Str(defaultCombination);
      var actual := ValidateCombination(combo, defaultCombination);
      Store(actual, eventName, Metadata(description, category, defaultCombination, actual));
    }

    /** The bookkeeping of `register_hotkey` once the combination is chosen. */
    method Store(actual: string, eventName: string, entry: Metadata)
      requires Valid()
      modifies this
      ensures Valid()
      ensures hotkeys == PyDict.Put(old(hotkeys), actual, eventName)
      ensures metadata == PyDict.Put(old(metadata), eventName, entry)
      ensures registeredHotkeys == |hotkeys|
      ensures totalPresses == old(totalPresses) && blockedPresses == old(blockedPresses)
      ensures successfulPresses == old(successfulPresses)
      ensures gameFocusRequired == old(gameFocusRequired) && isGameFocused == old(isGameFocused)
    {
      RegisterDescribed(hotkeys, metadata, actual, eventName, entry);
      hotkeys := PyDict.Put(hotkeys, actual, eventName);
      metadata := PyDict.Put(metadata, eventName, entry);
      registeredHotkeys := |hotkeys|;
    }

    /** `_on_hotkey_pressed`: every press is counted; it is blocked, and the event not
        emitted, exactly when focus is required and the game is not focused. */
    method OnHotkeyPressed(eventName: string) returns (emitted: bool)
      requires Valid()
      modifies this
      ensures Valid()
      ensures emitted <==> !(gameFocusRequired && !isGameFocused)
      ensures totalPresses == old(totalPresses) + 1
      ensures blockedPresses == old(blockedPresses) + (if emitted then 0 else 1)
      ensures successfulPresses == old(successfulPresses) + (if emitted then 1 else 0)
      ensures hotkeys == old(hotkeys) && metadata == old(metadata)
      ensures registeredHotkeys == old(registeredHotkeys)
      ensures gameFocusRequired == old(gameFocusRequired) && isGameFocused == old(isGameFocused)
    {
      totalPresses := totalPresses + 1;
      if gameFocusRequired && !isGameFocused {
        blockedPresses := blockedPresses + 1;
        return false;
      }
      successfulPresses := successfulPresses + 1;
      return true;
    }

    /** `get_hotkeys_by_category` */
    method GetHotkeysByCategory() returns (r: PyDict.Dict<string, PyDict.Dict<string, Metadata>>)
      ensures r == ByCategory(metadata)
    {
      var meta := metadata;
      r := [];
      var i := 0;
      while i < |meta|
        invariant 0 <= i <= |meta|
        invariant r == ByCategory(meta[..i])
      {
        var eventName := meta[i].0;
        var entry := meta[i].1;
        var category := entry.category;
        ByCategoryStep(meta, i);
        FileStep(r, eventName, entry);
        if !PyDict.HasKey(r, category) {
          r := PyDict.Put(r, category, []);
        }
        r := PyDict.Put(r, category, PyDict.Put(GroupOf(r, category), eventName, entry));
        i := i + 1;
      }
      assert meta[..i] == meta;
    }
  }
}
