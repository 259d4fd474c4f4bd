/**
 * The win/loss statistics store of the Vue front end (src/stores/stats.ts):
 * game counters, the total time of won games, the current and longest
 * winning streaks and the best winning time, with the derived win rate
 * and average time.
 *
 * Each counter is tied to a reference definition over the log of
 * everything the store has been told, so that what a counter means can be
 * stated independently of how the store updates it.
 */
module Stats {
  import opened Rounding

  /** What the store can be told: a game won in the given time, a game lost, or a reset. */
  datatype Event = Win(time: int) | Loss | Reset

  /** The best time before any win. */
  const NoBestTime: int := 999999

  /*
   * Reference definitions over the event log. The counters count since
   * the last reset; the longest streak and the best time survive resets.
   */

  function Games(log: seq<Event>): nat
  {
    if log == [] then 0
    else match log[|log| - 1]
      case Reset => 0
      case _ => Games(log[..|log| - 1]) + 1
  }

  function Wins(log: seq<Event>): nat
  {
    if log == [] then 0
    else match log[|log| - 1]
      case Reset => 0
      case Win(_) => Wins(log[..|log| - 1]) + 1
      case Loss => Wins(log[..|log| - 1])
  }

  function Losses(log: seq<Event>): nat
  {
    if log == [] then 0
    else match log[|log| - 1]
      case Reset => 0
      case Win(_) => Losses(log[..|log| - 1])
      case Loss => Losses(log[..|log| - 1]) + 1
  }

  /** The sum of the winning times since the last reset. */
  function TimePlayed(log: seq<Event>): int
  {
    if log == [] then 0
    else match log[|log| - 1]
      case Reset => 0
      case Win(t) => TimePlayed(log[..|log| - 1]) + t
      case Loss => TimePlayed(log[..|log| - 1])
  }

  /** The number of wins at the end of the log with no loss or reset after them. */
  function Streak(log: seq<Event>): nat
  {
    if log == [] then 0
    else match log[|log| - 1]
      case Win(_) => Streak(log[..|log| - 1]) + 1
      case _ => 0
  }

  /** The largest streak reached at any point of the log. */
  function Longest(log: seq<Event>): nat
  {
    if log == [] then 0
    else
      var before := Longest(log[..|log| - 1]);
      if Streak(log) > before then Streak(log) else before
  }

  /** The least winning time in the whole log, or NoBestTime when that is smaller. */
  function Best(log: seq<Event>): int
  {
    if log == [] then NoBestTime
    else
      var before := Best(log[..|log| - 1]);
      match log[|log| - 1]
      case Win(t) => if t < before then t else before
      case _ => before
  }

  /** Every game counted since the last reset is a win or a loss, and a streak is made of counted wins. */
  lemma {:induction false} CountsAgree(log: seq<Event>)
    ensures Games(log) == Wins(log) + Losses(log)
    ensures Streak(log) <= Wins(log)
  {
    if log != [] {
      CountsAgree(log[..|log| - 1]);
    }
  }

  /** The longest streak is the largest of the streaks at every prefix of the log. */
  lemma {:induction false} LongestIsMax(log: seq<Event>)
    ensures forall k :: 0 <= k <= |log| ==> Streak(log[..k]) <= Longest(log)
    ensures exists k :: 0 <= k <= |log| && Streak(log[..k]) == Longest(log)
  {
    if log == [] {
      assert log[..0] == log;
    } else {
      var init := log[..|log| - 1];
      LongestIsMax(init);
      assert log[..|log|] == log;
      forall k | 0 <= k <= |log| ensures Streak(log[..k]) <= Longest(log) {
        if k < |log| {
          assert log[..k] == init[..k];
        }
      }
      var j :| 0 <= j <= |init| && Streak(init[..j]) == Longest(init);
      if Longest(log) == Longest(init) {
        assert log[..j] == init[..j];
      }
    }
  }

  /** The best time is no larger than NoBestTime or any winning time, and is one of them. */
  lemma {:induction false} BestIsMin(log: seq<Event>)
    ensures Best(log) <= NoBestTime
    ensures forall i :: 0 <= i < |log| && log[i].Win? ==> Best(log) <= log[i].time
    ensures Best(log) == NoBestTime || exists i :: 0 <= i < |log| && log[i].Win? && log[i].time == Best(log)
  {
    if log != [] {
      var init := log[..|log| - 1];
      BestIsMin(init);
      assert forall i :: 0 <= i < |init| ==> log[i] == init[i];
    }
  }

  /** A win moves each reference definition by that win alone. */
  lemma AfterWin(log: seq<Event>, t: int)
    ensures Games(log + [Win(t)]) == Games(log) + 1 && Wins(log + [Win(t)]) == Wins(log) + 1
    ensures Losses(log + [Win(t)]) == Losses(log) && TimePlayed(log + [Win(t)]) == TimePlayed(log) + t
    ensures Streak(log + [Win(t)]) == Streak(log) + 1
    ensures Longest(log + [Win(t)]) == if Streak(log) + 1 > Longest(log) then Streak(log) + 1 else Longest(log)
    ensures Best(log + [Win(t)]) == if t < Best(log) then t else Best(log)
  {
  }

  /** A loss moves each reference definition by that loss alone. */
  lemma AfterLoss(log: seq<Event>)
    ensures Games(log + [Loss]) == Games(log) + 1 && Wins(log + [Loss]) == Wins(log)
    ensures Losses(log + [Loss]) == Losses(log) + 1 && TimePlayed(log + [Loss]) == TimePlayed(log)
    ensures Streak(log + [Loss]) == 0 && Longest(log + [Loss]) == Longest(log) && Best(log + [Loss]) == Best(log)
  {
  }

  /** A reset clears the counters and the streak and keeps the longest streak and the best time. */
  lemma AfterReset(log: seq<Event>)
    ensures Games(log + [Reset]) == 0 && Wins(log + [Reset]) == 0
    ensures Losses(log + [Reset]) == 0 && TimePlayed(log + [Reset]) == 0
    ensures Streak(log + [Reset]) == 0 && Longest(log + [Reset]) == Longest(log) && Best(log + [Reset]) == Best(log)
  {
  }

  /** A rounded percentage of w out of g, where w <= g, lies in 0..100. */
  lemma PercentBounds(w: int, g: int)
    requires 0 <= w <= g && g > 0
    ensures 0 <= Round(w as real / g as real * 100.0) <= 100
  {
  }

  class StatsStore {
    var totalGames: int
    var totalWins: int
    var totalLosses: int
    var bestTime: int
    var totalTimePlayed: int
    var currentStreak: int
    var longestStreak: int
    /** Everything the store has been told, oldest first. */
    ghost var log: seq<Event>

    /** Each field is its reference definition over the log. */
    ghost predicate Valid()
      reads this
    {
      totalGames == Games(log) && totalWins == Wins(log) && totalLosses == Losses(log) &&
      bestTime == Best(log) && totalTimePlayed == TimePlayed(log) &&
      currentStreak == Streak(log) && longestStreak == Longest(log)
    }

    constructor ()
      ensures Valid() && log == []
      ensures totalGames == 0 && totalWins == 0 && totalLosses == 0 && totalTimePlayed == 0
      ensures currentStreak == 0 && longestStreak == 0 && bestTime == NoBestTime
    {
      totalGames, totalWins, totalLosses := 0, 0, 0;
      bestTime := NoBestTime;
      totalTimePlayed := 0;
      currentStreak, longestStreak := 0, 0;
      log := [];
    }

    /** A game won in `time`: one more game, win and streak, and the records updated. */
    method RecordWin(time: int)
      requires Valid()
      modifies this
      ensures Valid() && log == old(log) + [Win(time)]
      ensures totalGames == old(totalGames) + 1 && totalWins == old(totalWins) + 1
      ensures totalLosses == old(totalLosses) && totalTimePlayed == old(totalTimePlayed) + time
      ensures currentStreak == old(currentStreak) + 1
      ensures longestStreak == if currentStreak > old(longestStreak) then currentStreak else old(longestStreak)
      ensures bestTime == if time < old(bestTime) then time else old(bestTime)
    {
      AfterWin(log, time);
      CountsAgree(log);
      log := log + [Win(time)];
      totalGames := totalGames + 1;
      totalWins := totalWins + 1;
      totalTimePlayed := totalTimePlayed + time;
      currentStreak := currentStreak + 1;
      if currentStreak > longestStreak {
        longestStreak := currentStreak;
      }
      if time < bestTime {
        bestTime := time;
      }
    }

    /** A game lost: one more game and loss, and the streak broken. */
    method RecordLoss()
      requires Valid()
      modifies this
      ensures Valid() && log == old(log) + [Loss]
      ensures totalGames == old(totalGames) + 1 && totalLosses == old(totalLosses) + 1
      ensures totalWins == old(totalWins) && totalTimePlayed == old(totalTimePlayed)
      ensures currentStreak == 0 && longestStreak == old(longestStreak) && bestTime == old(bestTime)
    {
      AfterLoss(log);
      log := log + [Loss];
      totalGames := totalGames + 1;
      totalLosses := totalLosses + 1;
      currentStreak := 0;
    }

    /** Clears the counters and the streak; the best time and the longest streak are kept. */
    method ResetStats()
      requires Valid()
      modifies this
      ensures Valid() && log == old(log) + [Reset]
      ensures totalGames == 0 && totalWins == 0 && totalLosses == 0 && totalTimePlayed == 0
      ensures currentStreak == 0
      ensures longestStreak == old(longestStreak) && bestTime == old(bestTime)
    {
      AfterReset(log);
      totalGames, totalWins, totalLosses, totalTimePlayed, currentStreak := 0, 0, 0, 0, 0;
      log := log + [Reset];
    }

    /** The percentage of counted games won, rounded; 0 before any game. */
    function WinRate(): (rate: int)
      requires Valid()
      reads this
      ensures totalGames == 0 ==> rate == 0
      ensures totalGames > 0 ==>
        rate as real - 0.5 <= totalWins as real / totalGames as real * 100.0 < rate as real + 0.5
      ensures 0 <= rate <= 100
    {
      CountsAgree(log);
      if totalGames == 0 then 0
      else
        PercentBounds(totalWins, totalGames);
        Round(totalWins as real / totalGames as real * 100.0)
    }

    /** The mean time of the counted wins, rounded; 0 before any win. */
    function AverageTime(): (average: int)
      reads this
      ensures totalWins == 0 ==> average == 0
      ensures totalWins != 0 ==>
        average as real - 0.5 <= totalTimePlayed as real / totalWins as real < average as real + 0.5
    {
      if totalWins == 0 then 0 else Round(totalTimePlayed as real / totalWins as real)
    }
  }
}
