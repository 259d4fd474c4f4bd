/**
 * The difficulty table (src/types/game.ts) and the size of the maze at a
 * given level, which grows by a fixed increment from a start size and is
 * clamped at a maximum (src/stores/gameStore.ts, nextLevel).
 */
module Difficulty {
  import MazeGenerator

  datatype Difficulty = Easy | Medium | Hard | Extreme

  /** The sizing part of a difficulty's configuration; ball speed and friction are physics tuning. */
  datatype SizeConfig = SizeConfig(name: string, startSize: int, sizeIncrement: int, maxSize: int)

  /** The table row for a difficulty. */
  function Config(d: Difficulty): (c: SizeConfig)
    ensures 3 <= c.startSize <= c.maxSize
    ensures c.startSize % 2 == 1 && c.maxSize % 2 == 1 && c.sizeIncrement == 2
    ensures (c.maxSize - c.startSize) % c.sizeIncrement == 0
  {
    match d
    case Easy => SizeConfig("Easy", 7, 2, 15)
    case Medium => SizeConfig("Medium", 9, 2, 21)
    case Hard => SizeConfig("Hard", 11, 2, 27)
    case Extreme => SizeConfig("Extreme", 13, 2, 35)
  }

  /** The position of a difficulty from easiest to hardest. */
  function Rank(d: Difficulty): nat
  {
    match d
    case Easy => 0
    case Medium => 1
    case Hard => 2
    case Extreme => 3
  }

  /** Both the start size and the maximum size grow strictly with the difficulty. */
  lemma HarderIsLarger(a: Difficulty, b: Difficulty)
    requires Rank(a) < Rank(b)
    ensures Config(a).startSize < Config(b).startSize
    ensures Config(a).maxSize < Config(b).maxSize
  {
  }

  /** The first level whose maze has the maximum size. */
  function CapLevel(d: Difficulty): (level: int)
    ensures level >= 1
  {
    (Config(d).maxSize - Config(d).startSize) / Config(d).sizeIncrement + 1
  }

  /** The maze size at a level: startSize + (level - 1) * sizeIncrement, but never above maxSize. */
  function LevelSize(d: Difficulty, level: int): (size: int)
    ensures size <= Config(d).maxSize && size % 2 == 1
    ensures level >= 1 ==> Config(d).startSize <= size
    ensures size == Config(d).maxSize <==> level >= CapLevel(d)
  {
    var c := Config(d);
    var grown := c.startSize + (level - 1) * c.sizeIncrement;
    if grown < c.maxSize then grown else c.maxSize
  }

  /** A later level never has a smaller maze. */
  lemma LevelSizeMonotone(d: Difficulty, a: int, b: int)
    requires a <= b
    ensures LevelSize(d, a) <= LevelSize(d, b)
  {
  }

  /** Below the cap each level adds exactly one increment. */
  lemma LevelSizeStep(d: Difficulty, level: int)
    requires level < CapLevel(d)
    ensures LevelSize(d, level + 1) == LevelSize(d, level) + Config(d).sizeIncrement
  {
  }

  /** On medium the sizes run 9, 11, ..., and reach 21 at level 7. */
  lemma MediumProgression()
    ensures LevelSize(Medium, 1) == 9 && LevelSize(Medium, 2) == 11
    ensures CapLevel(Medium) == 7 && LevelSize(Medium, 6) == 19 && LevelSize(Medium, 7) == 21
  {
  }

  /** Every level size is already odd and at least 3, so the generator uses it as given. */
  lemma LevelSizeFitsGenerator(d: Difficulty, level: int)
    requires level >= 1
    ensures LevelSize(d, level) >= 3
    ensures MazeGenerator.MazeSize(LevelSize(d, level)) == LevelSize(d, level)
  {
  }
}
