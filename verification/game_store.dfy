/**
 * The game session store of the React front end (src/stores/gameStore.ts):
 * the game state machine, the current level and maze size, the settings,
 * and a bounded log of completed levels with a best-time query.
 */
module GameStore {
  import opened Wrappers
  import opened Difficulty

  datatype GameState = Idle | Playing | Paused | Victory | Transitioning

  datatype CameraMode = Follow | Fixed

  datatype Settings = Settings(difficulty: Difficulty, soundEnabled: bool, showTimer: bool, cameraMode: CameraMode)

  /** One completed level; `date` is the host clock's timestamp, taken as given. */
  datatype LevelRecord = LevelRecord(level: int, time: real, difficulty: Difficulty, date: string)

  /** How many records the log keeps. */
  const MaxRecords: nat := 100

  /*
   * Settings toggles.
   */

  function ToggleSound(s: Settings): (t: Settings)
    ensures t.soundEnabled == !s.soundEnabled
    ensures t.(soundEnabled := s.soundEnabled) == s
  {
    s.(soundEnabled := !s.soundEnabled)
  }

  function ToggleTimer(s: Settings): (t: Settings)
    ensures t.showTimer == !s.showTimer
    ensures t.(showTimer := s.showTimer) == s
  {
    s.(showTimer := !s.showTimer)
  }

  function ToggleCameraMode(s: Settings): (t: Settings)
    ensures t.cameraMode != s.cameraMode
    ensures t.(cameraMode := s.cameraMode) == s
  {
    s.(cameraMode := if s.cameraMode == Follow then Fixed else Follow)
  }

  /** Every settings toggle undoes itself. */
  lemma TogglesAreInvolutions(s: Settings)
    ensures ToggleSound(ToggleSound(s)) == s
    ensures ToggleTimer(ToggleTimer(s)) == s
    ensures ToggleCameraMode(ToggleCameraMode(s)) == s
  {
  }

  /*
   * The record log.
   */

  /** r is what remains of s once a prefix is dropped. */
  predicate IsSuffix<T(==)>(r: seq<T>, s: seq<T>)
  {
    |r| <= |s| && s[|s| - |r|..] == r
  }

  /** The last n elements of s, or all of s when it is shorter. */
  function Last<T(==)>(s: seq<T>, n: nat): (r: seq<T>)
    ensures |r| == if |s| < n then |s| else n
    ensures IsSuffix(r, s)
  {
    if |s| <= n then s else s[|s| - n..]
  }

  /** Trimming before an append and trimming after it agree: the log only ever drops its oldest entries. */
  lemma LastAppend<T>(s: seq<T>, x: T, n: nat)
    requires n > 0
    ensures Last(Last(s, n) + [x], n) == Last(s + [x], n)
  {
  }

  /** The log after appending r and keeping the newest MaxRecords entries. */
  function AddRecord(records: seq<LevelRecord>, r: LevelRecord): (log: seq<LevelRecord>)
    ensures |log| == if |records| < MaxRecords then |records| + 1 else MaxRecords
    ensures log[|log| - 1] == r
    ensures IsSuffix(log[..|log| - 1], records)
  {
    Last(records + [r], MaxRecords)
  }

  /** The record is for the given level and difficulty. */
  predicate Matches(r: LevelRecord, level: int, d: Difficulty)
  {
    r.level == level && r.difficulty == d
  }

  /** The times of the records matching a level and difficulty, in log order. */
  function MatchingTimes(records: seq<LevelRecord>, level: int, d: Difficulty): (times: seq<real>)
    ensures forall r :: r in records && Matches(r, level, d) ==> r.time in times
    ensures forall t :: t in times ==> exists r :: r in records && Matches(r, level, d) && r.time == t
  {
    if records == [] then []
    else
      var rest := MatchingTimes(records[..|records| - 1], level, d);
      var r := records[|records| - 1];
      if Matches(r, level, d) then rest + [r.time] else rest
  }

  /** The least element of a non-empty sequence. */
  function Min(s: seq<real>): (m: real)
    requires |s| > 0
    ensures m in s && forall x :: x in s ==> m <= x
  {
    if |s| == 1 then s[0]
    else
      var m := Min(s[1..]);
      assert s == [s[0]] + s[1..];
      if s[0] < m then s[0] else m
  }

  /**
   * The best time recorded for a level at a difficulty: None when no record
   * matches, otherwise the time of a matching record that no matching
   * record beats.
   */
  function BestTime(records: seq<LevelRecord>, level: int, d: Difficulty): (best: Option<real>)
    ensures best.None? <==> forall r :: r in records ==> !Matches(r, level, d)
    ensures best.Some? ==> exists r :: r in records && Matches(r, level, d) && r.time == best.value
    ensures best.Some? ==> forall r :: r in records && Matches(r, level, d) ==> best.value <= r.time
  {
    var times := MatchingTimes(records, level, d);
    if |times| == 0 then None else Some(Min(times))
  }

  /*
   * The store.
   */

  class Store {
    var gameState: GameState
    var level: int
    var mazeSize: int
    var elapsedTime: real
    var settings: Settings
    var isDarkMode: bool
    var records: seq<LevelRecord>
    /** Every record ever added, oldest first. */
    ghost var history: seq<LevelRecord>

    /**
     * The level counts from 1, the maze size is odd, and the log holds the
     * newest MaxRecords records ever added. The maze size need not lie in
     * the current difficulty's range: a reload restores the settings but
     * not the size, so a stored harder difficulty meets the default size.
     */
    ghost predicate Valid()
      reads this
    {
      level >= 1 &&
      mazeSize % 2 == 1 &&
      records == Last(history, MaxRecords)
    }

    constructor ()
      ensures Valid()
      ensures gameState == Idle && level == 1 && mazeSize == Config(Medium).startSize && elapsedTime == 0.0
      ensures settings == Settings(Medium, true, true, Follow) && isDarkMode
      ensures records == [] && history == []
    {
      gameState := Idle;
      level := 1;
      mazeSize := Config(Medium).startSize;
      elapsedTime := 0.0;
      settings := Settings(Medium, true, true, Follow);
      isDarkMode := true;
      records := [];
      history := [];
    }

    method SetGameState(state: GameState)
      requires Valid()
      modifies this
      ensures Valid()
      ensures gameState == state
      ensures level == old(level) && mazeSize == old(mazeSize) && elapsedTime == old(elapsedTime)
      ensures settings == old(settings) && isDarkMode == old(isDarkMode)
      ensures records == old(records) && history == old(history)
    {
      gameState := state;
    }

    /** Starts a run at level 1 of the current difficulty. */
    method StartGame()
      requires Valid()
      modifies this
      ensures Valid()
      ensures gameState == Playing && level == 1 && elapsedTime == 0.0
      ensures mazeSize == Config(settings.difficulty).startSize
      ensures settings == old(settings) && isDarkMode == old(isDarkMode)
      ensures records == old(records) && history == old(history)
    {
      gameState := Playing;
      level := 1;
      mazeSize := Config(settings.difficulty).startSize;
      elapsedTime := 0.0;
    }

    /** Appends a record for the given level and time at the current difficulty, keeping the newest MaxRecords. */
    method AddRecordFor(lvl: int, time: real, date: string)
      requires Valid()
      modifies this
      ensures Valid()
      ensures history == old(history) + [LevelRecord(lvl, time, settings.difficulty, date)]
      ensures records == AddRecord(old(records), LevelRecord(lvl, time, settings.difficulty, date))
      ensures gameState == old(gameState) && level == old(level) && mazeSize == old(mazeSize)
      ensures elapsedTime == old(elapsedTime) && settings == old(settings) && isDarkMode == old(isDarkMode)
    {
      var r := LevelRecord(lvl, time, settings.difficulty, date);
      LastAppend(history, r, MaxRecords);
      records := AddRecord(records, r);
      history := history + [r];
    }

    /**
     * Logs the level just finished with its time, moves to the next level
     * and its maze size, and enters the transition animation. The host's
     * timestamp for the record is `date`.
     */
    method NextLevel(date: string)
      requires Valid()
      modifies this
      ensures Valid()
      ensures history == old(history) + [LevelRecord(old(level), old(elapsedTime), settings.difficulty, date)]
      ensures records == AddRecord(old(records), LevelRecord(old(level), old(elapsedTime), settings.difficulty, date))
      ensures level == old(level) + 1 && mazeSize == LevelSize(settings.difficulty, level)
      ensures elapsedTime == 0.0 && gameState == Transitioning
      ensures settings == old(settings) && isDarkMode == old(isDarkMode)
    {
      var newLevel := level + 1;
      var newSize := LevelSize(settings.difficulty, newLevel);
      AddRecordFor(level, elapsedTime, date);
      level := newLevel;
      mazeSize := newSize;
      elapsedTime := 0.0;
      gameState := Transitioning;
    }

    /** The end of the transition animation: the delayed callback sets the state back to playing, whatever it is by then. */
    method FinishTransition()
      requires Valid()
      modifies this
      ensures Valid()
      ensures gameState == Playing
      ensures level == old(level) && mazeSize == old(mazeSize) && elapsedTime == old(elapsedTime)
      ensures settings == old(settings) && isDarkMode == old(isDarkMode)
      ensures records == old(records) && history == old(history)
    {
      gameState := Playing;
    }

    /** Back to the start screen at level 1 of the current difficulty. */
    method ResetGame()
      requires Valid()
      modifies this
      ensures Valid()
      ensures gameState == Idle && level == 1 && elapsedTime == 0.0
      ensures mazeSize == Config(settings.difficulty).startSize
      ensures settings == old(settings) && isDarkMode == old(isDarkMode)
      ensures records == old(records) && history == old(history)
    {
      gameState := Idle;
      level := 1;
      elapsedTime := 0.0;
      mazeSize := Config(settings.difficulty).startSize;
    }

    method SetElapsedTime(time: real)
      requires Valid()
      modifies this
      ensures Valid()
      ensures elapsedTime == time
      ensures gameState == old(gameState) && level == old(level) && mazeSize == old(mazeSize)
      ensures settings == old(settings) && isDarkMode == old(isDarkMode)
      ensures records == old(records) && history == old(history)
    {
      elapsedTime := time;
    }

    /** Switches difficulty; the maze size becomes the new difficulty's start size, and the level is kept. */
    method SetDifficulty(d: Difficulty)
      requires Valid()
      modifies this
      ensures Valid()
      ensures settings == old(settings).(difficulty := d)
      ensures mazeSize == Config(d).startSize
      ensures gameState == old(gameState) && level == old(level) && elapsedTime == old(elapsedTime)
      ensures isDarkMode == old(isDarkMode) && records == old(records) && history == old(history)
    {
      settings := settings.(difficulty := d);
      mazeSize := Config(d).startSize;
    }

    method ToggleSoundSetting()
      requires Valid()
      modifies this
      ensures Valid()
      ensures settings == ToggleSound(old(settings))
      ensures gameState == old(gameState) && level == old(level) && mazeSize == old(mazeSize)
      ensures elapsedTime == old(elapsedTime) && isDarkMode == old(isDarkMode)
      ensures records == old(records) && history == old(history)
    {
      settings := ToggleSound(settings);
    }

    method ToggleTimerSetting()
      requires Valid()
      modifies this
      ensures Valid()
      ensures settings == ToggleTimer(old(settings))
      ensures gameState == old(gameState) && level == old(level) && mazeSize == old(mazeSize)
      ensures elapsedTime == old(elapsedTime) && isDarkMode == old(isDarkMode)
      ensures records == old(records) && history == old(history)
    {
      settings := ToggleTimer(settings);
    }

    method ToggleCameraModeSetting()
      requires Valid()
      modifies this
      ensures Valid()
      ensures settings == ToggleCameraMode(old(settings))
      ensures gameState == old(gameState) && level == old(level) && mazeSize == old(mazeSize)
      ensures elapsedTime == old(elapsedTime) && isDarkMode == old(isDarkMode)
      ensures records == old(records) && history == old(history)
    {
      settings := ToggleCameraMode(settings);
    }

    method ToggleDarkMode()
      requires Valid()
      modifies this
      ensures Valid()
      ensures isDarkMode == !old(isDarkMode)
      ensures gameState == old(gameState) && level == old(level) && mazeSize == old(mazeSize)
      ensures elapsedTime == old(elapsedTime) && settings == old(settings)
      ensures records == old(records) && history == old(history)
    {
      isDarkMode := !isDarkMode;
    }

    /** The best time logged for a level at a difficulty, or None. */
    function GetBestTime(lvl: int, d: Difficulty): (best: Option<real>)
      reads this
      ensures best.None? <==> forall r :: r in records ==> !Matches(r, lvl, d)
      ensures best.Some? ==> exists r :: r in records && Matches(r, lvl, d) && r.time == best.value
      ensures best.Some? ==> forall r :: r in records && Matches(r, lvl, d) ==> best.value <= r.time
    {
      BestTime(records, lvl, d)
    }

    /**
     * The ball reaching the exit (src/components/GameCanvas.tsx): only a
     * level in play advances; in any other state nothing changes.
     */
    method ReachExit(date: string)
      requires Valid()
      modifies this
      ensures Valid()
      ensures old(gameState) == Playing ==>
        history == old(history) + [LevelRecord(old(level), old(elapsedTime), settings.difficulty, date)] &&
        records == AddRecord(old(records), LevelRecord(old(level), old(elapsedTime), settings.difficulty, date)) &&
        level == old(level) + 1 && mazeSize == LevelSize(settings.difficulty, level) &&
        elapsedTime == 0.0 && gameState == Transitioning
      ensures old(gameState) != Playing ==>
        gameState == old(gameState) && level == old(level) && mazeSize == old(mazeSize) &&
        elapsedTime == old(elapsedTime) && records == old(records) && history == old(history)
      ensures settings == old(settings) && isDarkMode == old(isDarkMode)
    {
      if gameState == Playing {
        NextLevel(date);
      }
    }
  }

  /** The log after any sequence of additions is the newest MaxRecords of them. */
  lemma {:induction false} LogKeepsNewest(records: seq<LevelRecord>, added: seq<LevelRecord>)
    ensures FoldAdd(Last(records, MaxRecords), added) == Last(records + added, MaxRecords)
    decreases |added|
  {
    if added != [] {
      var init, x := added[..|added| - 1], added[|added| - 1];
      calc {
        FoldAdd(Last(records, MaxRecords), added);
        AddRecord(FoldAdd(Last(records, MaxRecords), init), x);
        { LogKeepsNewest(records, init); }
        Last(Last(records + init, MaxRecords) + [x], MaxRecords);
        { LastAppend(records + init, x, MaxRecords); }
        Last((records + init) + [x], MaxRecords);
        { assert (records + init) + [x] == records + added; }
        Last(records + added, MaxRecords);
      }
    }
  }

  /** The log after AddRecord is applied to each of `added` in turn. */
  function FoldAdd(records: seq<LevelRecord>, added: seq<LevelRecord>): (log: seq<LevelRecord>)
    ensures |log| <= |records| + |added|
    ensures |records| <= MaxRecords ==> |log| <= MaxRecords
  {
    if added == [] then records
    else AddRecord(FoldAdd(records, added[..|added| - 1]), added[|added| - 1])
  }
}
