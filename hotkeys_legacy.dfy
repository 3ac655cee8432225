/** The older hotkey manager: the same configuration-first registration and press
    counting as the service, without per-event metadata, and a converter that brackets
    only the modifier names. The combination validator is the service's, unchanged. */
module HotkeysLegacy {
  import opened Common
  import PyDict
  import Hotkeys

  const BracketedModifiers: set<string> := {"ctrl", "alt", "shift", "cmd", "win"}

  /** One stripped part in the older converter: a modifier between angle brackets, any
      other part as it is. */
  function LegacyConvertPart(part: string): string
  {
    if part in BracketedModifiers then "<" + part + ">" else part
  }

  /** Converting a part adds no `+`. */
  lemma LegacyPartPlain(part: string)
    requires '+' !in part
    ensures '+' !in LegacyConvertPart(part)
  {
    if part in BracketedModifiers {
      Hotkeys.BracketPlain(part);
    }
  }

  /** `_convert_to_pynput_format` of the older manager */
  method LegacyConvertToPynputFormat(combination: string) returns (r: string)
    ensures r == Join(Hotkeys.ConvertedParts(combination, LegacyConvertPart), '+')
  {
    r := Hotkeys.ConvertCombination(combination, LegacyConvertPart);
  }

  /** The older conversion of any combination splits back into one converted part per
      part of the combination: a bracketed modifier, or the stripped part itself. */
  lemma {:induction false} LegacyConvertSplits(combination: string)
    ensures var tokens := Split(Join(Hotkeys.ConvertedParts(combination, LegacyConvertPart), '+'), '+');
      var parts := Hotkeys.Parts(combination);
      |tokens| == |parts| &&
      forall i :: 0 <= i < |tokens| ==>
        tokens[i] == (if Strip(parts[i]) in BracketedModifiers then "<" + Strip(parts[i]) + ">"
                      else Strip(parts[i]))
  {
    Hotkeys.StrippedPartsPlain(combination);
    var parts := Hotkeys.Parts(combination);
    var converted := Hotkeys.ConvertedParts(combination, LegacyConvertPart);
    forall i | 0 <= i < |parts|
      ensures '+' !in converted[i]
    {
      LegacyPartPlain(Strip(parts[i]));
    }
    Hotkeys.ConvertedSplits(combination, LegacyConvertPart);
  }

  /** On ctrl, alt, shift, cmd and single characters the two converters agree. */
  lemma ConvertersAgreeOnPart(part: string)
    requires part in {"ctrl", "alt", "shift", "cmd"} || |part| == 1
    ensures Hotkeys.ConvertPart(part) == LegacyConvertPart(part)
  {
    Hotkeys.SpecialKeyShape(part);
  }

  /** A combination made only of ctrl, alt, shift, cmd and single characters converts
      the same way in both managers. */
  lemma ConvertersAgree(combination: string)
    requires forall i :: 0 <= i < |Hotkeys.Parts(combination)| ==>
      var p := Strip(Hotkeys.Parts(combination)[i]);
      p in {"ctrl", "alt", "shift", "cmd"} || |p| == 1
    ensures Hotkeys.ConvertedParts(combination, Hotkeys.ConvertPart) ==
      Hotkeys.ConvertedParts(combination, LegacyConvertPart)
  {
    var parts := Hotkeys.Parts(combination);
    forall i | 0 <= i < |parts|
      ensures Hotkeys.ConvertPart(Strip(parts[i])) == LegacyConvertPart(Strip(parts[i]))
    {
      ConvertersAgreeOnPart(Strip(parts[i]));
    }
  }

  /** The converters differ on the Windows key, which the service writes as `<cmd>`, and
      on function keys, which only the service brackets. */
  lemma ConvertersDiffer()
    ensures Hotkeys.ConvertPart("win") == "<cmd>" && LegacyConvertPart("win") == "<win>"
    ensures Hotkeys.ConvertPart("f5") == "<f5>" && LegacyConvertPart("f5") == "f5"
  {
    Hotkeys.FunctionKeyConverts("f5");
  }

  class LegacyHotkeyManager {
    var hotkeys: PyDict.Dict<string, string>
    var registeredHotkeys: nat
    var totalPresses: nat
    var blockedPresses: nat
    var successfulPresses: nat
    var gameFocusRequired: bool
    var isGameFocused: bool

    ghost predicate Valid()
      reads this
    {
      PyDict.Valid(hotkeys) &&
      registeredHotkeys == |hotkeys| &&
      totalPresses == blockedPresses + successfulPresses
    }

    /** `__init__`: `focusRequired` is the configured `game_focus_required`, already
        turned off when the focus detector could not be started. */
    constructor (focusRequired: bool)
      ensures Valid()
      ensures hotkeys == [] && registeredHotkeys == 0 && totalPresses == 0
      ensures gameFocusRequired == focusRequired && !isGameFocused
    {
      hotkeys := [];
      registeredHotkeys := 0;
      totalPresses := 0;
      blockedPresses := 0;
      successfulPresses := 0;
      gameFocusRequired := focusRequired;
      isGameFocused := false;
    }

    /** `_on_focus_change` */
    method OnFocusChange(focused: bool)
      modifies this
      ensures isGameFocused == focused
      ensures hotkeys == old(hotkeys) && registeredHotkeys == old(registeredHotkeys)
      ensures totalPresses == old(totalPresses) && blockedPresses == old(blockedPresses)
      ensures successfulPresses == old(successfulPresses)
      ensures gameFocusRequired == old(gameFocusRequired)
    {
      isGameFocused := focused;
    }

    /** `register_hotkey`: the configured combination, or the default when it is missing
        or invalid, maps to the event; a later registration on the same combination
        replaces the earlier event. */
    method RegisterHotkey(defaultCombination: string, eventName: string, description: string,
                          configured: Option<Value>)
      requires Valid()
      modifies this
      ensures Valid()
      ensures hotkeys == PyDict.Put(old(hotkeys),
        Hotkeys.Chosen(if configured.Some? then configured.value else Str(defaultCombination), defaultCombination),
        eventName)
      ensures totalPresses == old(totalPresses) && blockedPresses == old(blockedPresses)
      ensures successfulPresses == old(successfulPresses)
      ensures gameFocusRequired == old(gameFocusRequired) && isGameFocused == old(isGameFocused)
    {
      var combo := if configured.Some? then configured.value else Str(defaultCombination);
      var actual := Hotkeys.ValidateCombination(combo, defaultCombination);
      Store(actual, eventName);
    }

    /** The bookkeeping of `register_hotkey` once the combination is chosen. */
    method Store(actual: string, eventName: string)
      requires Valid()
      modifies this
      ensures Valid()
      ensures hotkeys == PyDict.Put(old(hotkeys), actual, eventName)
      ensures totalPresses == old(totalPresses) && blockedPresses == old(blockedPresses)
      ensures successfulPresses == old(successfulPresses)
      ensures gameFocusRequired == old(gameFocusRequired) && isGameFocused == old(isGameFocused)
    {
      PyDict.PutGet(hotkeys, actual, eventName);
      hotkeys := PyDict.Put(hotkeys, actual, eventName);
      registeredHotkeys := |hotkeys|;
    }

    /** `_on_hotkey_pressed`: blocked exactly when focus is required and the game is not
        focused; every press is counted. */
    method OnHotkeyPressed(eventName: string) returns (emitted: bool)
      requires Valid()
      modifies this
      ensures Valid()
      ensures emitted <==> !(gameFocusRequired && !isGameFocused)
      ensures totalPresses == old(totalPresses) + 1
      ensures blockedPresses == old(blockedPresses) + (if emitted then 0 else 1)
      ensures successfulPresses == old(successfulPresses) + (if emitted then 1 else 0)
      ensures hotkeys == old(hotkeys) && registeredHotkeys == old(registeredHotkeys)
      ensures gameFocusRequired == old(gameFocusRequired) && isGameFocused == old(isGameFocused)
    {
      totalPresses := totalPresses + 1;
      if gameFocusRequired && !isGameFocused {
        blockedPresses := blockedPresses + 1;
        return false;
      }
      successfulPresses := successfulPresses + 1;
      return true;
    }
  }
}
