# Maze game core in Dafny

This project models the core of a 3-D ball-in-a-maze browser game. The game has two front ends, React with zustand and Vue with pinia. Both share a maze generator. Each front end keeps its session state in small stores.

- **Maze generator** (`maze_generator.dfy`, module `MazeGenerator`). It builds a square grid of odd side. The grid starts as all walls. The generator carves passages by recursive backtracking from cell (1, 1) over the cells whose coordinates are both odd, which form the lattice. It then opens one exit cell in the right-hand boundary. Two queries read a maze: the list of wall cells and the exit test for the ball's position. The carving is a recursive method over an `array2<bool>`. A ghost set follows the open cells, and a ghost map records the spanning tree the carving builds. The proofs show these things:
  - the finished maze keeps its boundary except for the exit;
  - it never opens a cell with both coordinates even;
  - it opens every lattice cell;
  - it opens exactly one connector per tree link;
  - every open cell, the exit included, is reachable from (1, 1);
  - distinct links open distinct connectors, so the passages form a tree.
- **Difficulty table** (`difficulty.dfy`, module `Difficulty`). This is the start size, size increment and maximum size of the four difficulties. It also holds the level-size formula `min(startSize + (level - 1) * sizeIncrement, maxSize)`. The proofs cover clamping, monotonicity and odd parity, and show that every size suits the generator as given.
- **Game store** (`game_store.dfy`, module `GameStore`). This is the React session store: the game state machine, the level, the maze size, the elapsed time, the settings with their toggles, and a log of completed levels. The log keeps the newest 100 records and answers a best-time query. The transition animation's delayed callback is the explicit operation `FinishTransition`. The exit handler of the canvas advances only a level in play; that is `ReachExit`.
- **Statistics store** (`stats.dfy`, module `Stats`). These are the Vue win/loss counters, the streaks and the best time, plus the derived win rate and average time. Every counter is tied to a reference definition over a ghost log of wins, losses and resets.
- **Maze session store** (`maze_store.dfy`, module `MazeStore`). This is the Vue status machine over idle, playing, victory and game over, with the level counter and the once-a-second timer. The host's interval timers are explicit:
  - the set `running` holds the handles the host runs for the store;
  - the handle of a new interval is a parameter;
  - `Tick` is the host calling an interval back.

  The invariant says a level is in play exactly when one timer, and only one, is running.

Some source behaviour is modelled as written, though a reader may not expect it:
- `FinishTransition` sets the state to playing whatever the state is when the delayed callback fires. This includes after a reset during the animation.
- `SetDifficulty` resets the maze size to the new start size but keeps the level.
- The session store's `ResetGame` leaves the maze size and the displayed time as they were.

## Model

| member | source | states |
|---|---|---|
| MazeGenerator.MazeSize | src/utils/mazeGenerator.ts:7 | the side used is odd and is the dimension or one more |
| MazeGenerator.Shuffle | src/utils/mazeGenerator.ts:19-30 | the shuffled directions are a permutation of the four lattice steps (±2, 0), (0, ±2), for every sequence of random draws |
| MazeGenerator.Carve | src/utils/mazeGenerator.ts:15-43 | carving opens the cell and keeps the ghost open set equal to the non-wall cells; it only grows the open set; afterwards every lattice neighbour of every finished cell is open, and every open cell is a lattice cell or the connector of a tree link (a cell is entered only while it is a wall, and the shrinking set of walls bounds the recursion) |
| MazeGenerator.CarveToward | src/utils/mazeGenerator.ts:32-41 | one turn of the direction loop: afterwards the neighbour in that direction is open or lies outside the interior, and the carving invariants hold |
| MazeGenerator.LinkNext | src/utils/mazeGenerator.ts:37-40 | a recursive step opens exactly one connector, which is not a lattice cell and lies inside the ring, and adds exactly one tree link from the new lattice cell to the current one; the tree stays rooted at (1, 1) |
| MazeGenerator.LatticeOpen | src/utils/mazeGenerator.ts:15-46 | once carving from (1, 1) has returned, every interior cell with both coordinates odd is open |
| MazeGenerator.CarvingDone | src/utils/mazeGenerator.ts:46 | after carve(1, 1) the tree spans every lattice cell but the root, and the open cells are exactly the lattice cells and the connectors of tree links |
| MazeGenerator.GenerateMaze | src/utils/mazeGenerator.ts:5-52 | the grid has side MazeSize(dimension); its non-wall cells are exactly the lattice cells, the tree connectors and the exit; the boundary is wall except the exit (size-1, size-2); no cell with both coordinates even is opened |
| MazeGenerator.RouteIsOpen | src/utils/mazeGenerator.ts:15-46 | the way from (1, 1) down the carving tree to any lattice cell runs through open, side-sharing cells |
| MazeGenerator.Reachable | src/utils/mazeGenerator.ts:46-49 | every open cell of the finished maze, the exit included, is reachable from (1, 1) by a path of open cells |
| MazeGenerator.ConnectorsDistinct | src/utils/mazeGenerator.ts:37-40 | two different tree links never open the same connector, so there is one connector per non-root lattice cell and the passages have no loop |
| MazeGenerator.GetMazeWalls | src/utils/mazeGenerator.ts:57-69 | the list holds exactly the wall cells, each once, in strictly increasing x-then-y order |
| Rounding.Round | src/utils/mazeGenerator.ts:75-76 | floor(v + 0.5), which is also what Math.round computes, is the integer within half of v, halves rounding up |
| MazeGenerator.IsExit | src/utils/mazeGenerator.ts:74-78 | the position is an exit exactly when x is at least mazeSize - 0.5 and y is within half a cell of row mazeSize - 2 |
| Difficulty.Config | src/types/game.ts:14-47 | every start size is at least 3, at most the maximum, and odd; every maximum is odd; every increment is 2; the increment divides maximum minus start |
| Difficulty.HarderIsLarger | src/types/game.ts:15-46 | start and maximum sizes strictly increase from easy to medium to hard to extreme |
| Difficulty.LevelSize | src/stores/gameStore.ts:75-78 | the size never exceeds the maximum, is at least the start size from level 1 on, is odd, and equals the maximum exactly from the cap level on |
| Difficulty.LevelSizeMonotone | src/stores/gameStore.ts:75-78 | a later level never has a smaller maze |
| Difficulty.LevelSizeStep | src/stores/gameStore.ts:75-78 | below the cap each level adds exactly one increment |
| Difficulty.MediumProgression | src/types/game.ts:23-30 | medium runs 9, 11, ..., 19 and reaches 21 at level 7 |
| Difficulty.LevelSizeFitsGenerator | src/stores/gameStore.ts:75-78 | every level size is at least 3 and already odd, so the generator does not change it |
| GameStore.ToggleSound | src/stores/gameStore.ts:112-115 | flips sound and changes no other setting |
| GameStore.ToggleTimer | src/stores/gameStore.ts:117-120 | flips the timer display and changes no other setting |
| GameStore.ToggleCameraMode | src/stores/gameStore.ts:122-128 | alternates follow and fixed and changes no other setting |
| GameStore.TogglesAreInvolutions | src/stores/gameStore.ts:112-128 | each toggle applied twice restores the settings |
| GameStore.Last | src/stores/gameStore.ts:143 | slice(-n) keeps min(length, n) elements and they are a suffix |
| GameStore.LastAppend | src/stores/gameStore.ts:143 | trimming before an append gives the same log as trimming after it |
| GameStore.AddRecord | src/stores/gameStore.ts:142-144 | the new length is min(old + 1, 100), the last entry is the new record, and the rest is a suffix of the old log |
| GameStore.LogKeepsNewest | src/stores/gameStore.ts:143 | after any run of additions the log is the newest 100 records ever added |
| GameStore.MatchingTimes | src/stores/gameStore.ts:148-150 | the times listed are exactly those of records matching the level and difficulty |
| GameStore.Min | src/stores/gameStore.ts:152 | the minimum is an element and is at most every element |
| GameStore.BestTime | src/stores/gameStore.ts:147-153 | None exactly when no record matches; otherwise the time of a matching record that is at most every matching time |
| GameStore.Store.constructor | src/stores/gameStore.ts:43-56 | idle, level 1, the medium start size, time 0, medium / sound on / timer on / follow camera, dark mode, no records |
| GameStore.Store.SetGameState | src/stores/gameStore.ts:59 | sets the state and nothing else |
| GameStore.Store.StartGame | src/stores/gameStore.ts:61-69 | playing, level 1, the difficulty's start size, time 0; settings and records unchanged |
| GameStore.Store.AddRecordFor | src/stores/gameStore.ts:133-145 | appends a record with the current difficulty and keeps the newest 100; nothing else changes |
| GameStore.Store.NextLevel | src/stores/gameStore.ts:71-92 | logs the old level and elapsed time, then level + 1, the level's size, time 0 and transitioning; settings unchanged |
| GameStore.Store.FinishTransition | src/stores/gameStore.ts:91 | the delayed callback sets playing and nothing else |
| GameStore.Store.ResetGame | src/stores/gameStore.ts:94-99 | idle, level 1, time 0, the difficulty's start size; settings and records unchanged |
| GameStore.Store.SetElapsedTime | src/stores/gameStore.ts:101 | sets the elapsed time and nothing else |
| GameStore.Store.SetDifficulty | src/stores/gameStore.ts:104-110 | changes only the difficulty setting and the maze size, to the new start size |
| GameStore.Store.ToggleSoundSetting | src/stores/gameStore.ts:112-115 | applies ToggleSound to the settings and changes nothing else |
| GameStore.Store.ToggleTimerSetting | src/stores/gameStore.ts:117-120 | applies ToggleTimer to the settings and changes nothing else |
| GameStore.Store.ToggleCameraModeSetting | src/stores/gameStore.ts:122-128 | applies ToggleCameraMode to the settings and changes nothing else |
| GameStore.Store.ToggleDarkMode | src/stores/gameStore.ts:130 | flips dark mode and nothing else |
| GameStore.Store.GetBestTime | src/stores/gameStore.ts:147-153 | None exactly when no stored record matches; otherwise the time of a matching record, at most every matching time |
| GameStore.Store.ReachExit | src/components/GameCanvas.tsx:215-219 | while playing, logs the finished level and its time, moves to the next level and its size, zeroes the time and enters the transition, as NextLevel does; in any other state nothing changes |
| Stats.CountsAgree | src/stores/stats.ts:61-89 | games equal wins plus losses, and the current streak is at most the wins, whatever the history |
| Stats.LongestIsMax | src/stores/stats.ts:66-68 | the longest streak is the largest streak reached at any point, resets and losses included |
| Stats.BestIsMin | src/stores/stats.ts:69-71 | the best time is at most 999999 and every winning time, and is 999999 or one of those times |
| Stats.AfterWin | src/stores/stats.ts:61-71 | a win adds one game, one win, its time and one streak, and takes the maxima and minima of the records |
| Stats.AfterLoss | src/stores/stats.ts:75-80 | a loss adds one game and one loss, breaks the streak, and keeps the longest streak and the best time |
| Stats.AfterReset | src/stores/stats.ts:82-89 | a reset zeroes the counters and the streak and keeps the longest streak and the best time |
| Stats.PercentBounds | src/stores/stats.ts:14-17 | a rounded percentage of wins out of games lies in 0..100 |
| Stats.StatsStore.constructor | src/stores/stats.ts:6-12 | all counters 0 and the best time 999999 |
| Stats.StatsStore.RecordWin | src/stores/stats.ts:61-73 | games, wins and streak +1, time added, longest = max(old longest, streak), best = min(old best, time) |
| Stats.StatsStore.RecordLoss | src/stores/stats.ts:75-80 | games and losses +1, streak 0, longest streak and best time unchanged |
| Stats.StatsStore.ResetStats | src/stores/stats.ts:82-89 | counters, time and streak 0; best time and longest streak kept |
| Stats.StatsStore.WinRate | src/stores/stats.ts:14-17 | 0 before any game, otherwise the rounded percentage of wins, always in 0..100 |
| Stats.StatsStore.AverageTime | src/stores/stats.ts:19-22 | 0 before any win, otherwise the rounded mean winning time |
| MazeStore.MazeSession.constructor | src/stores/maze.ts:15-19 | idle, level 1, size 11, time 0, no timer |
| MazeStore.MazeSession.StartLevel | src/stores/maze.ts:23-33 | playing, the settings' size, time 0; the old timer is cleared and the new one is the only one running |
| MazeStore.MazeSession.Tick | src/stores/maze.ts:30-32 | the store's running timer adds exactly one second; no other handle, and nothing outside play, changes the time |
| MazeStore.MazeSession.Win | src/stores/maze.ts:35-44 | the timer is cleared, the status is victory, and exactly one win with the elapsed time is reported |
| MazeStore.MazeSession.GameOver | src/stores/maze.ts:46-54 | the timer is cleared, the status is game over, and exactly one loss is reported |
| MazeStore.MazeSession.NextLevel | src/stores/maze.ts:56-59 | level + 1, then as StartLevel |
| MazeStore.MazeSession.ResetGame | src/stores/maze.ts:61-68 | the timer is cleared, level 1, idle; maze size and time kept |
| MazeStore.MazeSession.RestartLevel | src/stores/maze.ts:70-72 | as StartLevel with the level kept |
| MazeStore.MazeSession.OnDifficultyChanged | src/stores/maze.ts:86-93 | the maze size follows the settings only while idle |

## Left out

- Rendering, physics and input are not part of this model. That covers the React and Vue components, the Rapier ball physics, the keyboard and touch controls, and the `ballSpeed` and `friction` entries of the difficulty table, which are floating-point tuning.
- Sound (`playWin`, `playError`) is an external effect and is left out.
- Persistence is left out as an external effect. That covers the zustand `persist` middleware, `saveToStorage`, `loadFromStorage`, `loadProgress` and the `localStorage` write in `win`. Because a reload restores the settings but not the maze size, the game store's invariant asks only that the size be odd, not that it lie in the current difficulty's range.
- The settings store (src/stores/settings.ts) and the size presets it reads (src/utils/constants.ts) are not part of this model. The maze session store receives `currentMazeSize` as a parameter.
- `Math.random` is the parameter `pick`, reduced into range as `floor(random * (i + 1))` is. Each cell is carved once, so every sequence of draws is covered.
- `new Date().toISOString()` is the `date` parameter of the operations that add a record.
- Real-time scheduling is not modelled. The 1.5 s transition timeout is the operation `FinishTransition`. The one-second interval is `Tick`, and the host's interval handles are the parameter `handle`. The canvas's 100 ms elapsed-time interval becomes calls of `SetElapsedTime` with whatever value the host computes.
- MazeGenerator.GenerateMaze requires a dimension of at least 2. For 0 and 1 the side is 1, and the first carving step indexes past the grid. A negative dimension gives a negative side, and building the grid of that side fails.
- MazeGenerator.GetMazeWalls works on a rectangular `array2`. A ragged JavaScript array of arrays is not modelled.
- MazeGenerator.IsExit works on exact reals, not IEEE doubles. NaN and infinite positions are not modelled.
- GameStore.BestTime works on exact reals. `Math.min` over doubles, including NaN, is not modelled.
- Stats.StatsStore.WinRate computes the percentage on exact reals, so double rounding of `wins / games * 100` is not modelled. Times are whole seconds, as the session store counts them.
- Stats.StatsStore.AverageTime likewise rounds an exact real quotient.
- MazeStore.MazeSession.StartLevel requires the new interval handle to be positive, as the host's handles are. Under that requirement the store's truthiness test on the handle is the same as testing for a handle.
