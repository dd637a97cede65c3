/**
 * The configuration store shared through React context: three durations in
 * minutes and the count of completed focus cycles. Each field has a setter
 * that overwrites it; nothing is validated here.
 */
module PomodoroContext {

  /** The three configured durations, in minutes. */
  datatype Durations = Durations(pomodoro: int, shortBreak: int, longBreak: int)

  /** The default durations the provider starts with. */
  function DefaultDurations(): (d: Durations)
    ensures d.pomodoro == 25 && d.shortBreak == 5 && d.longBreak == 15
  {
    Durations(25, 5, 15)
  }

  class PomodoroStore {
    var pomodoroTime: int
    var shortBreakTime: int
    var longBreakTime: int
    var cyclesCompleted: int

    /** The durations as one value. */
    function Settings(): (r: Durations)
      reads this
    {
      Durations(pomodoroTime, shortBreakTime, longBreakTime)
    }

    /** The provider's initial state: 25, 5 and 15 minutes, no cycle completed. */
    constructor ()
      ensures Settings() == DefaultDurations()
      ensures cyclesCompleted == 0
    {
      pomodoroTime := 25;
      shortBreakTime := 5;
      longBreakTime := 15;
      cyclesCompleted := 0;
    }

    method SetPomodoroTime(time: int)
      modifies this
      ensures pomodoroTime == time
      ensures shortBreakTime == old(shortBreakTime) && longBreakTime == old(longBreakTime)
      ensures cyclesCompleted == old(cyclesCompleted)
    {
      pomodoroTime := time;
    }

    method SetShortBreakTime(time: int)
      modifies this
      ensures shortBreakTime == time
      ensures pomodoroTime == old(pomodoroTime) && longBreakTime == old(longBreakTime)
      ensures cyclesCompleted == old(cyclesCompleted)
    {
      shortBreakTime := time;
    }

    method SetLongBreakTime(time: int)
      modifies this
      ensures longBreakTime == time
      ensures pomodoroTime == old(pomodoroTime) && shortBreakTime == old(shortBreakTime)
      ensures cyclesCompleted == old(cyclesCompleted)
    {
      longBreakTime := time;
    }

    /** The only setter that changes the cycle count. */
    method SetCyclesCompleted(cycles: int)
      modifies this
      ensures cyclesCompleted == cycles
      ensures Settings() == old(Settings())
    {
      cyclesCompleted := cycles;
    }
  }
}
