/**
 * The maze session store of the Vue front end (src/stores/maze.ts): the
 * status of the current level, the level counter, the maze size, the
 * seconds elapsed, and the interval timer that counts them.
 *
 * The host's interval timers are explicit: `running` is the set of
 * interval handles the host is running for this store, a new handle is a
 * parameter of the operations that install one, and `Tick` is the host
 * calling back one of them.
 */
module MazeStore {
  import opened Wrappers
  import Stats

  datatype GameStatus = Idle | Playing | GameOver | Victory

  class MazeSession {
    var status: GameStatus
    var level: int
    var mazeSize: int
    var time: int
    var timerInterval: Option<int>
    /** The interval handles the host is running for this store. */
    var running: set<int>
    /** The statistics store wins and losses are reported to. */
    const stats: Stats.StatsStore

    /**
     * A level is in play exactly when a timer is installed; that timer is
     * the only one running, so time never advances twice per second and
     * never advances outside play.
     */
    ghost predicate Valid()
      reads this, stats
    {
      stats.Valid() && level >= 1 &&
      (status == Playing <==> timerInterval.Some?) &&
      (timerInterval.Some? ==> timerInterval.value > 0 && running == {timerInterval.value}) &&
      (timerInterval.None? ==> running == {})
    }

    constructor (stats: Stats.StatsStore)
      requires stats.Valid()
      ensures Valid() && this.stats == stats
      ensures status == Idle && level == 1 && mazeSize == 11 && time == 0
      ensures timerInterval == None && running == {}
    {
      this.stats := stats;
      status := Idle;
      level := 1;
      mazeSize := 11;
      time := 0;
      timerInterval := None;
      running := {};
    }

    /**
     * Starts the current level at the size the settings ask for, with the
     * clock at zero: any running timer is cleared and the host's new
     * interval `handle` (a positive number, as the host hands out) installed.
     */
    method StartLevel(currentMazeSize: int, handle: int)
      requires Valid() && handle > 0
      modifies this
      ensures Valid()
      ensures status == Playing && mazeSize == currentMazeSize && time == 0
      ensures timerInterval == Some(handle) && running == {handle}
      ensures level == old(level)
    {
      if timerInterval.Some? {
        running := running - {timerInterval.value};
      }
      status := Playing;
      mazeSize := currentMazeSize;
      time := 0;
      timerInterval := Some(handle);
      running := running + {handle};
    }

    /** The host calling back interval h: the store's own timer adds one second. */
    method Tick(h: int)
      requires Valid()
      modifies this
      ensures Valid()
      ensures time == if h in old(running) then old(time) + 1 else old(time)
      ensures old(status) != Playing ==> time == old(time)
      ensures status == old(status) && level == old(level) && mazeSize == old(mazeSize)
      ensures timerInterval == old(timerInterval) && running == old(running)
    {
      if h in running {
        time := time + 1;
      }
    }

    /** The ball reached the exit: the timer stops and the win is reported with the time taken. */
    method Win()
      requires Valid()
      modifies this, stats
      ensures Valid()
      ensures status == Victory && timerInterval == None && running == {}
      ensures stats.log == old(stats.log) + [Stats.Win(old(time))]
      ensures level == old(level) && mazeSize == old(mazeSize) && time == old(time)
    {
      if timerInterval.Some? {
        running := running - {timerInterval.value};
        timerInterval := None;
      }
      status := Victory;
      stats.RecordWin(time);
    }

    /** The level is lost: the timer stops and the loss is reported. */
    method GameOver()
      requires Valid()
      modifies this, stats
      ensures Valid()
      ensures status == GameStatus.GameOver && timerInterval == None && running == {}
      ensures stats.log == old(stats.log) + [Stats.Loss]
      ensures level == old(level) && mazeSize == old(mazeSize) && time == old(time)
    {
      if timerInterval.Some? {
        running := running - {timerInterval.value};
        timerInterval := None;
      }
      status := GameStatus.GameOver;
      stats.RecordLoss();
    }

    /** On to the next level, started as StartLevel starts one. */
    method NextLevel(currentMazeSize: int, handle: int)
      requires Valid() && handle > 0
      modifies this
      ensures Valid()
      ensures level == old(level) + 1
      ensures status == Playing && mazeSize == currentMazeSize && time == 0
      ensures timerInterval == Some(handle) && running == {handle}
    {
      level := level + 1;
      StartLevel(currentMazeSize, handle);
    }

    /** Back to level 1 and idle, with the timer stopped; the maze size and the time shown are kept. */
    method ResetGame()
      requires Valid()
      modifies this
      ensures Valid()
      ensures status == Idle && level == 1 && timerInterval == None && running == {}
      ensures mazeSize == old(mazeSize) && time == old(time)
    {
      if timerInterval.Some? {
        running := running - {timerInterval.value};
        timerInterval := None;
      }
      level := 1;
      status := Idle;
    }

    /** The current level again, from the start. */
    method RestartLevel(currentMazeSize: int, handle: int)
      requires Valid() && handle > 0
      modifies this
      ensures Valid()
      ensures level == old(level)
      ensures status == Playing && mazeSize == currentMazeSize && time == 0
      ensures timerInterval == Some(handle) && running == {handle}
    {
      StartLevel(currentMazeSize, handle);
    }

    /** The settings' difficulty changed: only an idle store takes the new maze size. */
    method OnDifficultyChanged(currentMazeSize: int)
      requires Valid()
      modifies this
      ensures Valid()
      ensures mazeSize == if old(status) == Idle then currentMazeSize else old(mazeSize)
      ensures status == old(status) && level == old(level) && time == old(time)
      ensures timerInterval == old(timerInterval) && running == old(running)
    {
      if status == Idle {
        mazeSize := currentMazeSize;
      }
    }
  }
}
