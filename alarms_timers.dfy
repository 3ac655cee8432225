/** The stopwatches and countdown alarms of the alarms-and-timers panel. Clock readings
    are passed in as `now`, in whole seconds; the panel itself (lists, buttons, refresh
    timer) is not modelled. */
module AlarmsTimers {
  import opened Common

  // ---------------------------------------------------------------------------
  // format_time

  /** `f"{n:02d}"`: at least two characters, zero-padded; a negative number keeps its sign. */
  function Pad2(n: int): (r: string)
  {
    if 0 <= n < 10 then "0" + NatToString(n) else IntToString(n)
  }

  /** `format_time`: minutes and seconds as MM:SS, using floor division and a remainder that
      is never negative. */
  function FormatTime(seconds: int): (r: string)
  {
    MinutesColonSeconds(seconds / 60, seconds % 60)
  }

  function MinutesColonSeconds(minutes: int, secs: int): string
  {
    Pad2(minutes) + ":" + Pad2(secs)
  }

  predicate AllDigits(s: string)
  {
    forall i :: 0 <= i < |s| ==> '0' <= s[i] <= '9'
  }

  /** Minutes and seconds given as digit strings, in seconds. */
  function MinutesSeconds(mm: string, ss: string): Option<int>
  {
    if AllDigits(mm) && AllDigits(ss) then Some(DigitsValue(mm) * 60 + DigitsValue(ss)) else None
  }

  /** Reads an MM:SS text back into seconds. */
  function ParseTime(t: string): Option<int>
  {
    var i := IndexOf(t, ':');
    if i == |t| then None else MinutesSeconds(t[..i], t[i + 1..])
  }

  lemma {:induction false} Pad2Digits(n: nat)
    ensures |Pad2(n)| >= 2 && AllDigits(Pad2(n))
    ensures DigitsValue(Pad2(n)) == n
    ensures n < 100 ==> |Pad2(n)| == 2
  {
    var s := Pad2(n);
    NatToStringValue(n);
    if n < 10 {
      var c := NatToString(n);
      assert c[..0] == [];
      assert s == ['0', c[0]] && s[..1] == ['0'];
      assert DigitsValue(['0']) == 0 by { assert ['0'][..0] == []; }
    } else {
      if n < 100 {
        assert NatToString(n) == NatToString(n / 10) + [DigitChar(n % 10)];
      }
    }
  }

  /** The first colon of `mm + ":" + ss` is the one between them when `mm` has none. */
  lemma {:induction false} FirstColon(mm: string, ss: string)
    requires ':' !in mm
    ensures IndexOf(mm + ":" + ss, ':') == |mm|
  {
    var t := mm + ":" + ss;
    var r := IndexOf(t, ':');
    assert t[|mm|] == ':';
  }

  /** Two digit strings around a colon read back as minutes and seconds. */
  lemma {:induction false} ParseTimeJoin(mm: string, ss: string)
    requires AllDigits(mm) && AllDigits(ss)
    ensures ParseTime(mm + ":" + ss) == MinutesSeconds(mm, ss)
  {
    var t := mm + ":" + ss;
    assert forall j :: 0 <= j < |mm| ==> mm[j] != ':';
    FirstColon(mm, ss);
    var i := IndexOf(t, ':');
    assert t[..i] == mm;
    assert t[i + 1..] == ss;
  }

  /** Minutes and seconds written with a colon read back as minutes times 60 plus
      seconds. */
  lemma {:induction false} MinutesColonSecondsParse(minutes: nat, secs: nat)
    ensures ParseTime(MinutesColonSeconds(minutes, secs)) == Some(minutes * 60 + secs)
  {
    var mm, ss := Pad2(minutes), Pad2(secs);
    Pad2Digits(minutes);
    Pad2Digits(secs);
    ParseTimeJoin(mm, ss);
    assert MinutesColonSeconds(minutes, secs) == mm + ":" + ss;
    assert MinutesSeconds(mm, ss) == Some(minutes * 60 + secs);
  }

  /** A non-negative duration reads back from its MM:SS text as the same number of
      seconds. */
  lemma {:induction false} FormatTimeRoundTrip(seconds: nat)
    ensures ParseTime(FormatTime(seconds)) == Some(seconds)
  {
    var t := FormatTime(seconds);
    var q, r := seconds / 60, seconds % 60;
    MinutesColonSecondsParse(q, r);
    var v := ParseTime(t);
    assert v == Some(q * 60 + r);
    DivMod60(seconds);
    assert v.value == seconds;
  }

  lemma DivMod60(n: nat)
    ensures n / 60 * 60 + n % 60 == n
  {
  }

  /** The text is two or more minute digits, a colon and exactly two second digits whose
      value is below 60. */
  lemma {:induction false} FormatTimeShape(seconds: nat)
    ensures var t := FormatTime(seconds);
      |t| >= 5 && t[|t| - 3] == ':' && AllDigits(t[..|t| - 3]) && AllDigits(t[|t| - 2..]) &&
      DigitsValue(t[|t| - 2..]) == seconds % 60 && DigitsValue(t[..|t| - 3]) == seconds / 60
  {
    var mm := Pad2(seconds / 60);
    var ss := Pad2(seconds % 60);
    Pad2Digits(seconds / 60);
    Pad2Digits(seconds % 60);
    var t := MinutesColonSeconds(seconds / 60, seconds % 60);
    assert t[|t| - 2..] == ss;
    assert t[..|t| - 3] == mm;
  }

  // ---------------------------------------------------------------------------
  // Timer: a stopwatch with laps

  datatype TimerState = TimerRunning | TimerPaused | TimerStopped

  predicate NonDecreasing(xs: seq<int>)
  {
    forall i, j :: 0 <= i < j < |xs| ==> xs[i] <= xs[j]
  }

  class Timer {
    const id: string
    const name: string
    const createdAt: int
    var state: TimerState
    var elapsed: int
    var startTime: Option<int>
    var pauseTime: Option<int>
    var laps: seq<int>
    /** The latest clock reading this timer has been given. */
    ghost var seen: int
    /** Every clock reading so far was no earlier than the one before it. The wall clock
        the source reads can go back (a daylight-saving change, a clock adjustment); the
        stopwatch then banks a negative span, and its ordering promises lapse. */
    ghost var forward: bool

    /** A timer runs exactly when it has a start time. While the clock has only gone
        forward, the banked time is not negative, the start is no later than the clock and
        the laps were taken in order, none ahead of the current reading. */
    ghost predicate Valid()
      reads this
    {
      (state == TimerRunning <==> startTime.Some?) &&
      (forward ==>
        elapsed >= 0 &&
        (startTime.Some? ==> startTime.value <= seen) &&
        NonDecreasing(laps) &&
        (laps != [] ==> laps[|laps| - 1] <= ElapsedAt(seen)))
    }

    /** `get_elapsed_time` at clock reading `now`. */
    function ElapsedAt(now: int): int
      reads this
    {
      if state == TimerRunning && startTime.Some? then elapsed + (now - startTime.value)
      else elapsed
    }

    /** While the clock has only gone forward, the reading is not negative and never goes
        backwards as the clock advances. */
    lemma ElapsedMonotone(t1: int, t2: int)
      requires Valid() && forward && seen <= t1 <= t2
      ensures 0 <= ElapsedAt(t1) <= ElapsedAt(t2)
    {
    }

    constructor (id: string, name: string, now: int)
      ensures Valid() && seen == now && forward
      ensures this.id == id && this.name == name && createdAt == now
      ensures state == TimerStopped && elapsed == 0 && startTime == None && laps == []
    {
      this.id := id;
      this.name := name;
      createdAt := now;
      state := TimerStopped;
      elapsed := 0;
      startTime := None;
      pauseTime := None;
      laps := [];
      seen := now;
      forward := true;
    }

    /** `start`: nothing while running; otherwise runs from `now`. The reading is the same
        just before and just after. */
    method Start(now: int)
      requires Valid()
      modifies this
      ensures Valid() && seen == now && forward == (old(forward) && now >= old(seen))
      ensures old(state) == TimerRunning ==> state == old(state) && startTime == old(startTime)
      ensures old(state) != TimerRunning ==> state == TimerRunning && startTime == Some(now)
      ensures elapsed == old(elapsed) && laps == old(laps) && pauseTime == old(pauseTime)
      ensures ElapsedAt(now) == old(ElapsedAt(now))
    {
      Advance(now);
      if state == TimerRunning {
        return;
      }
      startTime := Some(now);
      state := TimerRunning;
    }

    /** `stop` (and its alias `pause`): a running timer banks the span since its start and
        becomes paused; otherwise nothing changes. */
    method Stop(now: int)
      requires Valid()
      modifies this
      ensures Valid() && seen == now && forward == (old(forward) && now >= old(seen))
      ensures old(state) != TimerRunning ==>
        state == old(state) && elapsed == old(elapsed) && startTime == old(startTime) && pauseTime == old(pauseTime)
      ensures old(state) == TimerRunning ==>
        state == TimerPaused && elapsed == old(elapsed) + (now - old(startTime).value) &&
        startTime == None && pauseTime == Some(now)
      ensures laps == old(laps)
      ensures ElapsedAt(now) == old(ElapsedAt(now))
    {
      Advance(now);
      if state != TimerRunning {
        return;
      }
      if startTime.Some? {
        elapsed := elapsed + (now - startTime.value);
      }
      pauseTime := Some(now);
      state := TimerPaused;
      startTime := None;
    }

    /** `reset`: zero, no laps, stopped. */
    method Reset()
      requires Valid()
      modifies this
      ensures Valid() && seen == old(seen) && forward == old(forward)
      ensures elapsed == 0 && startTime == None && pauseTime == None && laps == [] && state == TimerStopped
    {
      elapsed := 0;
      startTime := None;
      pauseTime := None;
      laps := [];
      state := TimerStopped;
    }

    /** `lap`: records and returns the current reading. While the clock has only gone
        forward, the reading is not negative and the laps stay in order. */
    method Lap(now: int) returns (t: int)
      requires Valid()
      modifies this
      ensures Valid() && seen == now && forward == (old(forward) && now >= old(seen))
      ensures t == old(ElapsedAt(now))
      ensures laps == old(laps) + [t]
      ensures forward ==> t >= 0 && NonDecreasing(laps)
      ensures state == old(state) && elapsed == old(elapsed) && startTime == old(startTime)
      ensures pauseTime == old(pauseTime)
    {
      t := ElapsedAt(now);
      Advance(now);
      laps := laps + [t];
    }

    /** Takes the clock reading `now`: the reading becomes the latest seen, and the clock
        stops counting as forward once a reading is earlier than the one before. */
    ghost method Advance(now: int)
      requires Valid()
      modifies this
      ensures Valid() && seen == now && forward == (old(forward) && now >= old(seen))
      ensures state == old(state) && elapsed == old(elapsed) && startTime == old(startTime)
      ensures pauseTime == old(pauseTime) && laps == old(laps)
    {
      if forward && now >= seen {
        ElapsedMonotone(seen, now);
      }
      forward := forward && now >= seen;
      seen := now;
    }

    function GetLaps(): seq<int>
      reads this
    {
      laps
    }
  }

  // ---------------------------------------------------------------------------
  // Alarm: a countdown

  datatype AlarmState = AlarmRunning | AlarmPaused | AlarmExpired

  /** The largest settable remaining time: 999 minutes. */
  const MaxSeconds := 999 * 60

  function Clamp(x: int): (r: int)
    ensures 0 <= r <= MaxSeconds
    ensures 0 <= x <= MaxSeconds ==> r == x
  {
    if x < 0 then 0 else if x > MaxSeconds then MaxSeconds else x
  }

  /** `name or f"{minutes}min Alarm"`. */
  function AlarmName(minutes: int, name: Option<string>): (r: string)
    ensures name.Some? && name.value != "" ==> r == name.value
  {
    if name.Some? && name.value != "" then name.value else IntToString(minutes) + "min Alarm"
  }

  class Alarm {
    const id: string
    const name: string
    const createdAt: int
    var state: AlarmState
    var totalMinutes: int
    var remaining: int
    var startTime: Option<int>
    var pauseTime: Option<int>

    /** A running alarm has a start time and had time left at its start; an expired one
        has none left. */
    ghost predicate Valid()
      reads this
    {
      (state == AlarmRunning ==> startTime.Some? && remaining > 0) &&
      (state == AlarmExpired ==> remaining <= 0)
    }

    /** `get_remaining_time` at clock reading `now`. */
    function RemainingAt(now: int): int
      reads this
    {
      if state == AlarmRunning && startTime.Some? then
        var left := remaining - (now - startTime.value);
        if left < 0 then 0 else left
      else remaining
    }

    /** While running, from its start on, the time left never grows as the clock advances
        and never drops below zero. */
    lemma RemainingMonotone(t1: int, t2: int)
      requires Valid() && state == AlarmRunning && startTime.value <= t1 <= t2
      ensures 0 <= RemainingAt(t2) <= RemainingAt(t1) <= remaining
    {
    }

    constructor (id: string, minutes: int, name: Option<string>, now: int)
      ensures Valid()
      ensures this.id == id && this.name == AlarmName(minutes, name) && createdAt == now
      ensures state == AlarmPaused && totalMinutes == minutes && remaining == minutes * 60
      ensures startTime == None && pauseTime == None
    {
      this.id := id;
      this.name := AlarmName(minutes, name);
      createdAt := now;
      state := AlarmPaused;
      totalMinutes := minutes;
      remaining := minutes * 60;
      startTime := None;
      pauseTime := None;
    }

    /** `start`: nothing when running or expired; a paused alarm with no time left expires;
        otherwise it runs from `now`. */
    method Start(now: int)
      requires Valid()
      modifies this
      ensures Valid()
      ensures old(state) != AlarmPaused ==> state == old(state) && startTime == old(startTime)
      ensures old(state) == AlarmPaused && old(remaining) <= 0 ==> state == AlarmExpired && startTime == old(startTime)
      ensures old(state) == AlarmPaused && old(remaining) > 0 ==> state == AlarmRunning && startTime == Some(now)
      ensures remaining == old(remaining) && totalMinutes == old(totalMinutes) && pauseTime == old(pauseTime)
      ensures RemainingAt(now) == old(RemainingAt(now))
    {
      if state == AlarmRunning || state == AlarmExpired {
        return;
      }
      if remaining <= 0 {
        state := AlarmExpired;
        return;
      }
      startTime := Some(now);
      state := AlarmRunning;
    }

    /** `pause`: a running alarm banks the time spent; when none is left it becomes expired
        with zero remaining, otherwise paused. Nothing happens in any other state. */
    method Pause(now: int)
      requires Valid()
      modifies this
      ensures Valid()
      ensures old(state) != AlarmRunning ==>
        state == old(state) && remaining == old(remaining) && startTime == old(startTime) && pauseTime == old(pauseTime)
      ensures old(state) == AlarmRunning ==>
        remaining == old(RemainingAt(now)) &&
        (remaining == 0 <==> state == AlarmExpired) &&
        (state == AlarmExpired || state == AlarmPaused) &&
        startTime == None && pauseTime == Some(now)
      ensures totalMinutes == old(totalMinutes)
      ensures RemainingAt(now) == old(RemainingAt(now))
    {
      if state != AlarmRunning {
        return;
      }
      if startTime.Some? {
        remaining := remaining - (now - startTime.value);
        if remaining <= 0 {
          remaining := 0;
          state := AlarmExpired;
        } else {
          state := AlarmPaused;
        }
      }
      pauseTime := Some(now);
      startTime := None;
    }

    /** `adjust_time`: the time left at `now` plus the given minutes, clamped to
        [0, 999 minutes]. Zero left means expired; an expired alarm given time becomes
        paused; a running alarm keeps running from `now`. */
    method AdjustTime(deltaMinutes: int, now: int)
      requires Valid()
      modifies this
      ensures Valid()
      ensures remaining == Clamp(old(RemainingAt(now)) + deltaMinutes * 60)
      ensures 0 <= remaining <= MaxSeconds
      ensures state == AlarmExpired <==> remaining == 0
      ensures remaining > 0 && old(state) == AlarmRunning ==> state == AlarmRunning && startTime == Some(now)
      ensures remaining > 0 && old(state) != AlarmRunning ==> state == AlarmPaused
      ensures totalMinutes == old(totalMinutes)
    {
      var wasRunning := state == AlarmRunning;
      if wasRunning {
        Pause(now);
      }
      remaining := Clamp(remaining + deltaMinutes * 60);
      if remaining <= 0 {
        state := AlarmExpired;
      } else if state == AlarmExpired {
        state := AlarmPaused;
      }
      if wasRunning && state != AlarmExpired {
        Start(now);
      }
    }

    /** `is_expired`: a running alarm whose time is up becomes expired with zero left. */
    method IsExpired(now: int) returns (expired: bool)
      requires Valid()
      modifies this
      ensures Valid()
      ensures expired <==> state == AlarmExpired
      ensures old(state) == AlarmRunning && old(RemainingAt(now)) == 0 ==> expired && remaining == 0
      ensures old(state) == AlarmRunning && old(RemainingAt(now)) > 0 ==> state == AlarmRunning && remaining == old(remaining)
      ensures old(state) != AlarmRunning ==> state == old(state) && remaining == old(remaining)
      ensures startTime == old(startTime) && pauseTime == old(pauseTime) && totalMinutes == old(totalMinutes)
    {
      if state == AlarmRunning {
        var left := RemainingAt(now);
        if left <= 0 {
          remaining := 0;
          state := AlarmExpired;
        }
      }
      return state == AlarmExpired;
    }

    /** `reset`: back to the original (or the newly given) number of minutes, paused. */
    method Reset(minutes: Option<int>)
      requires Valid()
      modifies this
      ensures Valid()
      ensures totalMinutes == if minutes.Some? then minutes.value else old(totalMinutes)
      ensures remaining == totalMinutes * 60 && state == AlarmPaused
      ensures startTime == None && pauseTime == None
    {
      if minutes.Some? {
        totalMinutes := minutes.value;
      }
      remaining := totalMinutes * 60;
      startTime := None;
      pauseTime := None;
      state := AlarmPaused;
    }
  }

  // ---------------------------------------------------------------------------
  // The panel's collections of timers and alarms

  class Items {
    var timers: map<string, Timer>
    var alarms: map<string, Alarm>

    constructor ()
      ensures timers == map[] && alarms == map[]
    {
      timers := map[];
      alarms := map[];
    }

    /** `remove_item`: the id goes from the timers if it is one, otherwise from the alarms;
        every other entry stays. */
    method RemoveItem(itemId: string)
      modifies this
      ensures itemId in old(timers) ==> timers == old(timers) - {itemId} && alarms == old(alarms)
      ensures itemId !in old(timers) ==> timers == old(timers) && alarms == old(alarms) - {itemId}
      ensures itemId !in timers && (itemId !in old(timers) ==> itemId !in alarms)
    {
      if itemId in timers {
        timers := timers - {itemId};
        return;
      }
      if itemId in alarms {
        alarms := alarms - {itemId};
        return;
      }
    }
  }
}
