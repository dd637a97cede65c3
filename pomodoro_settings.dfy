/**
 * The Pomodoro settings screen: three text buffers, seeded from the store,
 * and a save that writes all three durations to the store only when every
 * buffer reads as a positive number, and writes none of them otherwise.
 */
module PomodoroSettings {
  import opened Basics
  import opened Numerals
  import opened PomodoroContext

  /** `Number(s)` when it is a number greater than 0, otherwise nothing (NaN or not positive). */
  function PositiveNumber(s: string): (r: Option<int>)
    ensures r.Some? <==> ParseNumber(s).Some? && ParseNumber(s).value > 0
    ensures r.Some? ==> r.value > 0 && r.value == ParseNumber(s).value
  {
    match ParseNumber(s)
    case Some(n) => if n > 0 then Some(n) else None
    case None => None
  }

  /**
   * The validation in `handleSave`: the three durations, each equal to its
   * parsed input, exactly when all three inputs read as positive numbers.
   */
  function ValidatedDurations(pomodoro: string, shortBreak: string, longBreak: string): (r: Option<Durations>)
    ensures r.Some? <==>
      PositiveNumber(pomodoro).Some? && PositiveNumber(shortBreak).Some? && PositiveNumber(longBreak).Some?
    ensures r.Some? ==>
      r.value.pomodoro == ParseNumber(pomodoro).value &&
      r.value.shortBreak == ParseNumber(shortBreak).value &&
      r.value.longBreak == ParseNumber(longBreak).value
    ensures r.Some? ==> r.value.pomodoro > 0 && r.value.shortBreak > 0 && r.value.longBreak > 0
  {
    match (PositiveNumber(pomodoro), PositiveNumber(shortBreak), PositiveNumber(longBreak))
    case (Some(p), Some(s), Some(l)) => Some(Durations(p, s, l))
    case _ => None
  }

  predicate Positive(d: Durations)
  {
    d.pomodoro > 0 && d.shortBreak > 0 && d.longBreak > 0
  }

  /** Saving the buffers as they were seeded keeps positive durations exactly as they are. */
  lemma SaveSeededBuffers(d: Durations)
    requires Positive(d)
    ensures ValidatedDurations(IntToString(d.pomodoro), IntToString(d.shortBreak), IntToString(d.longBreak)) == Some(d)
  {
    ParseNumberOfString(d.pomodoro);
    ParseNumberOfString(d.shortBreak);
    ParseNumberOfString(d.longBreak);
  }

  /** Saving the buffers as they were seeded is rejected when some stored duration is not positive. */
  lemma SaveSeededBuffersRejectsNonPositive(d: Durations)
    requires !Positive(d)
    ensures ValidatedDurations(IntToString(d.pomodoro), IntToString(d.shortBreak), IntToString(d.longBreak)).None?
  {
    ParseNumberOfString(d.pomodoro);
    ParseNumberOfString(d.shortBreak);
    ParseNumberOfString(d.longBreak);
  }

  /** An empty buffer reads as 0 and so blocks the save. */
  lemma EmptyInputRejected(shortBreak: string, longBreak: string)
    ensures ValidatedDurations("", shortBreak, longBreak).None?
  {
  }

  /** The settings screen's buffers, over the shared store. */
  class SettingsScreen {
    const store: PomodoroStore
    var inputPomodoroTime: string
    var inputShortBreakTime: string
    var inputLongBreakTime: string

    /** The buffers start as the string forms of the store's current durations. */
    constructor (store: PomodoroStore)
      ensures this.store == store
      ensures inputPomodoroTime == IntToString(store.pomodoroTime)
      ensures inputShortBreakTime == IntToString(store.shortBreakTime)
      ensures inputLongBreakTime == IntToString(store.longBreakTime)
    {
      this.store := store;
      inputPomodoroTime := IntToString(store.pomodoroTime);
      inputShortBreakTime := IntToString(store.shortBreakTime);
      inputLongBreakTime := IntToString(store.longBreakTime);
    }

    /** What the buffers hold as validated durations, if they all read as positive numbers. */
    function Pending(): (r: Option<Durations>)
      reads this
    {
      ValidatedDurations(inputPomodoroTime, inputShortBreakTime, inputLongBreakTime)
    }

    /**
     * `handleSave`: all three durations are written, or none. `saved` tells
     * which of the two alerts is shown.
     */
    method HandleSave() returns (saved: bool)
      modifies store
      ensures saved <==> old(Pending()).Some?
      ensures saved ==> store.Settings() == old(Pending()).value
      ensures !saved ==> store.Settings() == old(store.Settings())
      ensures store.cyclesCompleted == old(store.cyclesCompleted)
    {
      var newPomodoroTime := ParseNumber(inputPomodoroTime);
      var newShortBreakTime := ParseNumber(inputShortBreakTime);
      var newLongBreakTime := ParseNumber(inputLongBreakTime);
      if newPomodoroTime.Some? && newPomodoroTime.value > 0 &&
         newShortBreakTime.Some? && newShortBreakTime.value > 0 &&
         newLongBreakTime.Some? && newLongBreakTime.value > 0
      {
        store.SetPomodoroTime(newPomodoroTime.value);
        store.SetShortBreakTime(newShortBreakTime.value);
        store.SetLongBreakTime(newLongBreakTime.value);
        saved := true;
      } else {
        saved := false;
      }
    }
  }
}
