/**
 * Maze generation by recursive backtracking (src/utils/mazeGenerator.ts), and
 * the two read-only queries the renderer and the physics loop make of a maze:
 * the list of wall cells and the exit test.
 *
 * A maze is a square `array2<bool>` indexed `maze[x, y]`; `true` is a wall.
 * The cells with both coordinates odd form the lattice the carving walks on;
 * two lattice cells two steps apart are joined by the connector between them.
 */
module MazeGenerator {
  import opened Rounding

  type Cell = (int, int)

  /** The cell carving starts from. */
  const Root: Cell := (1, 1)

  /** The four lattice steps, in the order the generator lists them: left, right, down, up. */
  const Directions: seq<Cell> := [(-2, 0), (2, 0), (0, -2), (0, 2)]

  /** The side length actually used for a requested dimension: the least odd number not below it. */
  function MazeSize(dimension: int): (size: int)
    ensures size % 2 == 1
    ensures dimension <= size <= dimension + 1
  {
    if dimension % 2 == 0 then dimension + 1 else dimension
  }

  /** The boundary cell opened as the level's exit, on the right edge one row below the corner. */
  function ExitCell(size: int): Cell
  {
    (size - 1, size - 2)
  }

  predicate Interior(size: int, c: Cell)
  {
    0 < c.0 < size - 1 && 0 < c.1 < size - 1
  }

  predicate Lattice(size: int, c: Cell)
  {
    Interior(size, c) && c.0 % 2 == 1 && c.1 % 2 == 1
  }

  /** A cell the carving may open: inside the ring, and not with both coordinates even. */
  predicate Carvable(size: int, c: Cell)
  {
    Interior(size, c) && (c.0 % 2 == 1 || c.1 % 2 == 1)
  }

  function Step(c: Cell, d: Cell): Cell
  {
    (c.0 + d.0, c.1 + d.1)
  }

  /** b is one lattice step away from a. */
  predicate LatticeStep(a: Cell, b: Cell)
  {
    (b.0 - a.0, b.1 - a.1) in Directions
  }

  /** The connector between two cells one lattice step apart. */
  function Between(a: Cell, b: Cell): Cell
  {
    ((a.0 + b.0) / 2, (a.1 + b.1) / 2)
  }

  ghost predicate Square(maze: array2<bool>)
  {
    maze.Length0 == maze.Length1
  }

  ghost function Grid(size: int): set<Cell>
  {
    set i, j | 0 <= i < size && 0 <= j < size :: (i, j)
  }

  predicate InGrid(size: int, c: Cell)
  {
    0 <= c.0 < size && 0 <= c.1 < size
  }

  /** c lies inside the array and holds a wall. */
  predicate WallAt(maze: array2<bool>, c: Cell)
    reads maze
  {
    0 <= c.0 < maze.Length0 && 0 <= c.1 < maze.Length1 && maze[c.0, c.1]
  }

  /**
   * The ghost set `open` is exactly the set of non-wall cells of `maze`, so
   * Grid(size) - open is the set of walls: it shrinks with every call of
   * Carve, which is why carving ends.
   */
  ghost predicate Mirrors(maze: array2<bool>, open: set<Cell>)
    reads maze
  {
    Square(maze) &&
    (forall c :: c in open ==> InGrid(maze.Length0, c)) &&
    (forall c :: InGrid(maze.Length0, c) ==> (WallAt(maze, c) <==> c !in open))
  }

  /** The lattice neighbour of c in direction d is open, or is not an interior cell. */
  ghost predicate StepOpen(size: int, open: set<Cell>, c: Cell, d: Cell)
  {
    Interior(size, Step(c, d)) ==> Step(c, d) in open
  }

  /** Every interior lattice neighbour of c is open. */
  ghost predicate NeighboursOpen(size: int, open: set<Cell>, c: Cell)
  {
    StepOpen(size, open, c, Directions[0]) && StepOpen(size, open, c, Directions[1]) &&
    StepOpen(size, open, c, Directions[2]) && StepOpen(size, open, c, Directions[3])
  }

  /** An open lattice cell that is no longer on the carving stack has every lattice neighbour open. */
  ghost predicate Settled(size: int, open: set<Cell>, stack: set<Cell>, c: Cell)
  {
    Lattice(size, c) && c in open && c !in stack ==> NeighboursOpen(size, open, c)
  }

  ghost predicate AllSettled(size: int, open: set<Cell>, stack: set<Cell>)
  {
    forall c :: Settled(size, open, stack, c)
  }

  /*
   * The carving as a spanning tree. Every carved lattice cell other than the
   * root records the cell it was carved from and its distance from the root;
   * the distance makes the parent relation well founded.
   */
  datatype Link = Link(parent: Cell, depth: nat)

  type Tree = map<Cell, Link>

  ghost predicate LinkOk(tree: Tree, c: Cell)
  {
    c in tree ==>
      c != Root && c.0 % 2 == 1 && c.1 % 2 == 1 && LatticeStep(tree[c].parent, c) &&
      if tree[c].parent == Root then tree[c].depth == 1
      else tree[c].parent in tree && tree[c].depth == tree[tree[c].parent].depth + 1
  }

  ghost predicate RootedTree(tree: Tree)
  {
    forall c :: LinkOk(tree, c)
  }

  /** a was carved from b. */
  ghost predicate Joins(tree: Tree, a: Cell, b: Cell)
  {
    a in tree && tree[a].parent == b
  }

  /** a and b are the two cells on either side of c, along one axis; c is even on that axis. */
  predicate Flanks(c: Cell, a: Cell, b: Cell)
  {
    (c.0 % 2 == 0 && ((a == (c.0 - 1, c.1) && b == (c.0 + 1, c.1)) || (a == (c.0 + 1, c.1) && b == (c.0 - 1, c.1)))) ||
    (c.1 % 2 == 0 && ((a == (c.0, c.1 - 1) && b == (c.0, c.1 + 1)) || (a == (c.0, c.1 + 1) && b == (c.0, c.1 - 1))))
  }

  /** The connector c is the edge between a linked cell and its parent. */
  ghost predicate TreeEdge(tree: Tree, c: Cell)
  {
    (c.0 % 2 == 0 && (Joins(tree, (c.0 - 1, c.1), (c.0 + 1, c.1)) || Joins(tree, (c.0 + 1, c.1), (c.0 - 1, c.1)))) ||
    (c.1 % 2 == 0 && (Joins(tree, (c.0, c.1 - 1), (c.0, c.1 + 1)) || Joins(tree, (c.0, c.1 + 1), (c.0, c.1 - 1))))
  }

  /**
   * Cell c agrees with the tree: an open lattice cell other than the root is
   * linked; a linked cell is a lattice cell that is open (unless it is
   * `pending`, the one about to be carved), and so are its parent and the
   * connector to it; an open connector is the edge of some link.
   */
  ghost predicate CellCarved(size: int, open: set<Cell>, tree: Tree, pending: Cell, c: Cell)
  {
    (c in open ==> Carvable(size, c)) &&
    (Lattice(size, c) && c in open && c != Root ==> c in tree) &&
    (c in tree ==>
       Lattice(size, c) && (c in open || c == pending) &&
       Lattice(size, tree[c].parent) && tree[c].parent in open &&
       Between(c, tree[c].parent) in open) &&
    (Interior(size, c) && !Lattice(size, c) && c in open ==> TreeEdge(tree, c))
  }

  ghost predicate CarvedAlong(size: int, open: set<Cell>, tree: Tree, pending: Cell)
  {
    forall c :: CellCarved(size, open, tree, pending, c)
  }

  /**
   * Fisher–Yates shuffle of the four directions. The host's random source is
   * `pick`, asked for the swap partner of position i while carving from
   * (x, y); its answer is reduced into 0..i as floor(random * (i + 1)) is.
   * Each cell is carved once, so this covers every sequence of random draws.
   */
  method Shuffle(x: int, y: int, pick: (Cell, nat) -> nat) returns (directions: seq<Cell>)
    ensures |directions| == 4
    ensures multiset(directions) == multiset(Directions)
  {
    var a := new Cell[4](k requires 0 <= k < 4 => Directions[k]);
    assert a[..] == Directions;
    var i := a.Length - 1;
    while i > 0
      invariant 0 <= i < a.Length
      invariant multiset(a[..]) == multiset(Directions)
    {
      var j := pick((x, y), i) % (i + 1);
      a[i], a[j] := a[j], a[i];
      i := i - 1;
    }
    directions := a[..];
  }

  /** Depth of a carved lattice cell in the tree; the root has depth 0. */
  ghost function Depth(tree: Tree, c: Cell): nat
  {
    if c in tree then tree[c].depth else 0
  }

  /** Sets the cell c to open, keeping the ghost set of open cells in step. */
  method Open(maze: array2<bool>, c: Cell, ghost open: set<Cell>) returns (ghost open': set<Cell>)
    requires Mirrors(maze, open) && InGrid(maze.Length0, c)
    modifies maze
    ensures open' == open + {c} && Mirrors(maze, open')
  {
    maze[c.0, c.1] := false;
    open' := open + {c};
    forall e | InGrid(maze.Length0, e) ensures WallAt(maze, e) <==> e !in open' {
      assert e != c ==> WallAt(maze, e) == old(WallAt(maze, e));
    }
  }

  /** Opening the cell p about to be carved keeps the maze and the tree in step, and puts p on the stack. */
  lemma OpenPending(size: int, open: set<Cell>, stack: set<Cell>, tree: Tree, p: Cell)
    requires Lattice(size, p) && (p != Root ==> p in tree)
    requires AllSettled(size, open, stack) && CarvedAlong(size, open, tree, p)
    ensures AllSettled(size, open + {p}, stack + {p}) && CarvedAlong(size, open + {p}, tree, p)
  {
    forall c ensures CellCarved(size, open + {p}, tree, p, c) {
      assert CellCarved(size, open, tree, p, c);
    }
    forall c ensures Settled(size, open + {p}, stack + {p}, c) {
      assert Settled(size, open, stack, c);
    }
  }

  /** The cells one step and half a step from the lattice cell p in direction d. */
  lemma StepFacts(size: int, p: Cell, d: Cell, next: Cell, conn: Cell)
    requires Lattice(size, p) && d in Directions && Interior(size, next)
    requires next == (p.0 + d.0, p.1 + d.1) && conn == (p.0 + d.0 / 2, p.1 + d.1 / 2)
    ensures Lattice(size, next) && LatticeStep(p, next) && next != p
    ensures Carvable(size, conn) && !Lattice(size, conn) && conn != next && conn != p
    ensures Between(next, p) == conn && Flanks(conn, next, p)
  {
  }

  /** Linking the wall cell next to its carved neighbour p keeps the tree rooted. */
  lemma LinkTree(size: int, open: set<Cell>, tree: Tree, p: Cell, next: Cell)
    requires Lattice(size, p) && p in open && Lattice(size, next) && LatticeStep(p, next) && next !in open
    requires next != Root && RootedTree(tree) && CarvedAlong(size, open, tree, p)
    ensures RootedTree(tree[next := Link(p, Depth(tree, p) + 1)])
  {
    var tree2 := tree[next := Link(p, Depth(tree, p) + 1)];
    assert CellCarved(size, open, tree, p, next);
    assert CellCarved(size, open, tree, p, p);
    assert LinkOk(tree, Root);
    assert LinkOk(tree, next);
    forall c ensures LinkOk(tree2, c) {
      assert LinkOk(tree, c);
    }
  }

  /** Opening the connector conn and linking next to p keeps the open cells and the tree in step. */
  lemma LinkCarved(size: int, open: set<Cell>, tree: Tree, p: Cell, next: Cell, conn: Cell)
    requires Lattice(size, p) && p in open && Lattice(size, next) && next !in open
    requires Carvable(size, conn) && !Lattice(size, conn) && Between(next, p) == conn && Flanks(conn, next, p)
    requires CarvedAlong(size, open, tree, p)
    ensures CarvedAlong(size, open + {conn}, tree[next := Link(p, Depth(tree, p) + 1)], next)
  {
    var tree2 := tree[next := Link(p, Depth(tree, p) + 1)];
    var open2 := open + {conn};
    assert CellCarved(size, open, tree, p, next);
    forall c ensures CellCarved(size, open2, tree2, next, c) {
      assert CellCarved(size, open, tree, p, c);
      if c == conn {
        assert Joins(tree2, next, p);
      }
    }
  }

  /** Opening a connector, which is not a lattice cell, leaves every lattice cell as settled as it was. */
  lemma LinkSettled(size: int, open: set<Cell>, stack: set<Cell>, conn: Cell)
    requires !Lattice(size, conn) && AllSettled(size, open, stack)
    ensures AllSettled(size, open + {conn}, stack)
  {
    forall c ensures Settled(size, open + {conn}, stack, c) {
      assert Settled(size, open, stack, c);
    }
  }

  /**
   * Carving from the open cell p in direction d into the interior wall cell
   * next opens exactly one connector, conn, which is not a lattice cell, and
   * adds exactly one link, next -> p, to the tree.
   */
  lemma LinkNext(size: int, open: set<Cell>, stack: set<Cell>, tree: Tree, p: Cell, d: Cell, next: Cell, conn: Cell)
    requires Lattice(size, p) && p in open && Root in open
    requires d in Directions && next == (p.0 + d.0, p.1 + d.1) && conn == (p.0 + d.0 / 2, p.1 + d.1 / 2)
    requires Interior(size, next) && next !in open
    requires RootedTree(tree) && CarvedAlong(size, open, tree, p) && AllSettled(size, open, stack)
    ensures InGrid(size, conn) && conn != next && Lattice(size, next) && next != Root
    ensures RootedTree(tree[next := Link(p, Depth(tree, p) + 1)])
    ensures CarvedAlong(size, open + {conn}, tree[next := Link(p, Depth(tree, p) + 1)], next)
    ensures AllSettled(size, open + {conn}, stack)
  {
    StepFacts(size, p, d, next, conn);
    LinkTree(size, open, tree, p, next);
    LinkCarved(size, open, tree, p, next, conn);
    LinkSettled(size, open, stack, conn);
  }

  /** Once the pending cell is open, which cell was pending no longer matters. */
  lemma PendingDone(size: int, open: set<Cell>, tree: Tree, p: Cell, q: Cell)
    requires p in open && CarvedAlong(size, open, tree, p)
    ensures CarvedAlong(size, open, tree, q)
  {
    forall c ensures CellCarved(size, open, tree, q, c) {
      assert CellCarved(size, open, tree, p, c);
    }
  }

  /** A cell whose neighbours are all open may leave the stack. */
  lemma Settle(size: int, open: set<Cell>, stack: set<Cell>, p: Cell)
    requires AllSettled(size, open, stack + {p}) && NeighboursOpen(size, open, p)
    ensures AllSettled(size, open, stack)
  {
    forall c ensures Settled(size, open, stack, c) {
      assert Settled(size, open, stack + {p}, c);
    }
  }

  /**
   * Opens (x, y) and, in shuffled order, every lattice neighbour that is
   * still a wall together with the connector leading to it, recursing into
   * each. The ghost parameters follow the carving: `open` mirrors the maze,
   * `stack` holds the cells whose calls are still running, and `tree` the
   * links made so far; the call returns them extended.
   */
  method Carve(maze: array2<bool>, x: int, y: int, pick: (Cell, nat) -> nat,
               ghost open: set<Cell>, ghost stack: set<Cell>, ghost tree: Tree)
    returns (ghost open': set<Cell>, ghost tree': Tree)
    requires Mirrors(maze, open)
    requires Lattice(maze.Length0, (x, y)) && (x, y) !in open
    requires (x, y) != Root ==> Root in open && (x, y) in tree
    requires AllSettled(maze.Length0, open, stack)
    requires RootedTree(tree) && CarvedAlong(maze.Length0, open, tree, (x, y))
    modifies maze
    decreases Grid(maze.Length0) - open - {(x, y)}, 1
    ensures Mirrors(maze, open') && open <= open' && (x, y) in open'
    ensures AllSettled(maze.Length0, open', stack)
    ensures RootedTree(tree') && CarvedAlong(maze.Length0, open', tree', (x, y))
  {
    var size := maze.Length0;
    open' := Open(maze, (x, y), open);
    OpenPending(size, open, stack, tree, (x, y));
    var directions := Shuffle(x, y, pick);
    tree' := tree;
    for k := 0 to |directions|
      invariant Mirrors(maze, open') && open + {(x, y)} <= open' && Root in open'
      invariant forall d :: d in directions[..k] ==> StepOpen(size, open', (x, y), d)
      invariant AllSettled(size, open', stack + {(x, y)})
      invariant RootedTree(tree') && CarvedAlong(size, open', tree', (x, y))
    {
      assert directions[k] in multiset(directions);
      open', tree' := CarveToward(maze, x, y, directions[k], pick, open', stack + {(x, y)}, tree');
      assert directions[..k + 1] == directions[..k] + [directions[k]];
    }
    assert directions[..|directions|] == directions;
    forall t | 0 <= t < 4 ensures StepOpen(size, open', (x, y), Directions[t]) {
      assert Directions[t] in multiset(directions);
    }
    Settle(size, open', stack, (x, y));
  }

  /**
   * One turn of carve's loop: when the lattice neighbour of the open cell
   * (x, y) in direction d is an interior wall, opens the connector between
   * them and carves from the neighbour. Afterwards that neighbour is open
   * (or was never an interior cell).
   */
  method CarveToward(maze: array2<bool>, x: int, y: int, d: Cell, pick: (Cell, nat) -> nat,
                     ghost open: set<Cell>, ghost stack: set<Cell>, ghost tree: Tree)
    returns (ghost open': set<Cell>, ghost tree': Tree)
    requires Mirrors(maze, open) && Lattice(maze.Length0, (x, y)) && (x, y) in open && Root in open
    requires d in Directions && AllSettled(maze.Length0, open, stack)
    requires RootedTree(tree) && CarvedAlong(maze.Length0, open, tree, (x, y))
    modifies maze
    decreases Grid(maze.Length0) - open, 0
    ensures Mirrors(maze, open') && open <= open'
    ensures StepOpen(maze.Length0, open', (x, y), d)
    ensures AllSettled(maze.Length0, open', stack)
    ensures RootedTree(tree') && CarvedAlong(maze.Length0, open', tree', (x, y))
  {
    var size := maze.Length0;
    var (dx, dy) := d;
    var nx, ny := x + dx, y + dy;
    open', tree' := open, tree;
    if nx > 0 && nx < size - 1 && ny > 0 && ny < size - 1 && maze[nx, ny] {
      assert WallAt(maze, (nx, ny));
      ghost var conn := (x + dx / 2, y + dy / 2);
      LinkNext(size, open, stack, tree, (x, y), d, (nx, ny), conn);
      ghost var open2 := Open(maze, (x + dx / 2, y + dy / 2), open);
      open', tree' := Carve(maze, nx, ny, pick, open2, stack, tree[(nx, ny) := Link((x, y), Depth(tree, (x, y)) + 1)]);
      PendingDone(size, open', tree', (nx, ny), (x, y));
    } else if nx > 0 && nx < size - 1 && ny > 0 && ny < size - 1 {
      assert !WallAt(maze, (nx, ny));
    }
  }

  /** An open lattice cell was reached from the root, so by induction every lattice cell was. */
  lemma {:induction false} LatticeOpen(size: int, open: set<Cell>, c: Cell)
    requires Root in open && AllSettled(size, open, {}) && Lattice(size, c)
    ensures c in open
    decreases c.0 + c.1
  {
    if c != Root {
      var (b, d) := if c.0 > 1 then ((c.0 - 2, c.1), Directions[1]) else ((c.0, c.1 - 2), Directions[3]);
      LatticeOpen(size, open, b);
      assert Settled(size, open, {}, b);
      assert Step(b, d) == c;
    }
  }

  /*
   * The finished maze, described by its carving tree alone.
   */

  /** Every lattice cell but the root is in the tree, linked to the cell it was carved from. */
  ghost predicate SpanningTree(size: int, tree: Tree)
  {
    RootedTree(tree) && forall c :: c in tree <==> Lattice(size, c) && c != Root
  }

  /** The cells carving opens: the lattice cells and the connectors of tree links. */
  ghost predicate Carved(size: int, tree: Tree, c: Cell)
  {
    Lattice(size, c) || (Interior(size, c) && TreeEdge(tree, c))
  }

  /** The cells of the finished maze that are not walls: the carved cells and the exit. */
  ghost predicate Passage(size: int, tree: Tree, c: Cell)
  {
    c == ExitCell(size) || Carved(size, tree, c)
  }

  /** A tree edge names the link it carries: a cell joined to its parent, on either side of the connector. */
  lemma EdgeLink(tree: Tree, c: Cell) returns (a: Cell, b: Cell)
    requires TreeEdge(tree, c)
    ensures Joins(tree, a, b) && Flanks(c, a, b) && Between(a, b) == c
  {
    if c.0 % 2 == 0 && Joins(tree, (c.0 - 1, c.1), (c.0 + 1, c.1)) {
      a, b := (c.0 - 1, c.1), (c.0 + 1, c.1);
    } else if c.0 % 2 == 0 && Joins(tree, (c.0 + 1, c.1), (c.0 - 1, c.1)) {
      a, b := (c.0 + 1, c.1), (c.0 - 1, c.1);
    } else if Joins(tree, (c.0, c.1 - 1), (c.0, c.1 + 1)) {
      a, b := (c.0, c.1 - 1), (c.0, c.1 + 1);
    } else {
      a, b := (c.0, c.1 + 1), (c.0, c.1 - 1);
    }
  }

  /** When carving from the root returns, the open cells are exactly the carved cells, and the tree spans the lattice. */
  lemma CarvingDone(size: int, open: set<Cell>, tree: Tree)
    requires Root in open && AllSettled(size, open, {})
    requires RootedTree(tree) && CarvedAlong(size, open, tree, Root)
    ensures SpanningTree(size, tree)
    ensures forall c :: c in open <==> Carved(size, tree, c)
  {
    forall c ensures c in tree <==> Lattice(size, c) && c != Root {
      assert CellCarved(size, open, tree, Root, c);
      assert LinkOk(tree, c);
      if Lattice(size, c) {
        LatticeOpen(size, open, c);
      }
    }
    forall c ensures c in open <==> Carved(size, tree, c) {
      assert CellCarved(size, open, tree, Root, c);
      if Lattice(size, c) {
        LatticeOpen(size, open, c);
      } else if Interior(size, c) && TreeEdge(tree, c) {
        var a, b := EdgeLink(tree, c);
        assert CellCarved(size, open, tree, Root, a);
      }
    }
  }

  /**
   * Builds a maze of side MazeSize(dimension): all walls, carved from (1, 1),
   * then the exit opened in the right-hand boundary. The ghost result is
   * the carving tree. Dimensions 0 and 1 give a side of 1, where the first
   * carving step indexes past the grid; a negative dimension gives a
   * negative side, for which no grid can be built at all.
   */
  method GenerateMaze(dimension: int, pick: (Cell, nat) -> nat) returns (maze: array2<bool>, ghost tree: Tree)
    requires dimension >= 2
    ensures fresh(maze)
    ensures Square(maze) && maze.Length0 == MazeSize(dimension)
    ensures SpanningTree(maze.Length0, tree)
    ensures forall c :: InGrid(maze.Length0, c) ==> (WallAt(maze, c) <==> !Passage(maze.Length0, tree, c))
    ensures forall c :: InGrid(maze.Length0, c) && !Interior(maze.Length0, c) ==> (WallAt(maze, c) <==> c != ExitCell(maze.Length0))
    ensures forall c :: InGrid(maze.Length0, c) && c.0 % 2 == 0 && c.1 % 2 == 0 ==> WallAt(maze, c)
  {
    var size := MazeSize(dimension);
    maze := new bool[size, size]((_, _) => true);
    ghost var open;
    open, tree := Carve(maze, 1, 1, pick, {}, {}, map[]);
    CarvingDone(size, open, tree);
    open := Open(maze, (size - 1, size - 2), open);
  }

  /*
   * Paths through the finished maze.
   */

  /** a and b share a side. */
  predicate Adjacent(a: Cell, b: Cell)
  {
    (a.0 == b.0 && (a.1 - b.1 == 1 || b.1 - a.1 == 1)) || (a.1 == b.1 && (a.0 - b.0 == 1 || b.0 - a.0 == 1))
  }

  /** A walk from cell to side-sharing cell that stays on passages. */
  ghost predicate OpenPath(size: int, tree: Tree, path: seq<Cell>)
  {
    |path| > 0 &&
    (forall i :: 0 <= i < |path| ==> Passage(size, tree, path[i])) &&
    (forall i :: 0 < i < |path| ==> Adjacent(path[i - 1], path[i]))
  }

  /** The way from the root down the tree to c: each link contributes its connector and its cell. */
  ghost function Route(tree: Tree, c: Cell): (route: seq<Cell>)
    requires RootedTree(tree) && (c == Root || c in tree)
    ensures |route| > 0 && route[0] == Root && route[|route| - 1] == c
    decreases if c in tree then tree[c].depth else 0
  {
    if c !in tree then [Root]
    else
      assert LinkOk(tree, c) && LinkOk(tree, Root);
      var p := tree[c].parent;
      Route(tree, p) + [Between(c, p), c]
  }

  /** The connector of a lattice step lies between its two ends. */
  lemma StepFlanks(p: Cell, c: Cell)
    requires LatticeStep(p, c) && c.0 % 2 == 1 && c.1 % 2 == 1
    ensures Flanks(Between(c, p), c, p)
    ensures Adjacent(p, Between(c, p)) && Adjacent(Between(c, p), c)
  {
  }

  /** The way down the tree is a path through the maze. */
  lemma {:induction false} RouteIsOpen(size: int, tree: Tree, c: Cell)
    requires size >= 3 && SpanningTree(size, tree) && (c == Root || c in tree)
    ensures OpenPath(size, tree, Route(tree, c))
    decreases if c in tree then tree[c].depth else 0
  {
    if c in tree {
      assert LinkOk(tree, c);
      var p := tree[c].parent;
      RouteIsOpen(size, tree, p);
      StepFlanks(p, c);
      var conn := Between(c, p);
      assert Joins(tree, c, p) && TreeEdge(tree, conn);
      assert Route(tree, c) == Route(tree, p) + [conn, c];
    } else {
      assert Route(tree, c) == [Root];
    }
  }

  /** Every passage of the finished maze, the exit included, can be reached from (1, 1). */
  lemma Reachable(size: int, tree: Tree, c: Cell) returns (path: seq<Cell>)
    requires size >= 3 && size % 2 == 1 && SpanningTree(size, tree) && Passage(size, tree, c)
    ensures OpenPath(size, tree, path) && path[0] == Root && path[|path| - 1] == c
  {
    if Lattice(size, c) {
      RouteIsOpen(size, tree, c);
      path := Route(tree, c);
    } else if c == ExitCell(size) {
      var last := (size - 2, size - 2);
      RouteIsOpen(size, tree, last);
      path := Route(tree, last) + [c];
    } else {
      var a, b := EdgeLink(tree, c);
      assert LinkOk(tree, a) && LinkOk(tree, Root);
      RouteIsOpen(size, tree, a);
      path := Route(tree, a)[..|Route(tree, a)| - 1];
      assert Route(tree, a) == Route(tree, b) + [c, a];
    }
  }

  /**
   * Distinct tree links open distinct connectors, so the carved passages
   * hold exactly one connector per non-root lattice cell: the maze is a
   * tree, with no loops.
   */
  lemma ConnectorsDistinct(tree: Tree, a: Cell, b: Cell)
    requires RootedTree(tree) && a in tree && b in tree && a != b
    ensures Between(a, tree[a].parent) != Between(b, tree[b].parent)
  {
    assert LinkOk(tree, a) && LinkOk(tree, b);
    var pa, pb := tree[a].parent, tree[b].parent;
    StepFlanks(pa, a);
    StepFlanks(pb, b);
  }

  /*
   * Queries on a maze.
   */

  /** Column-major order: by x first, then by y. */
  predicate Before(a: Cell, b: Cell)
  {
    a.0 < b.0 || (a.0 == b.0 && a.1 < b.1)
  }

  /** Lists the wall cells, each once, column by column and upward within a column. */
  method GetMazeWalls(maze: array2<bool>) returns (walls: seq<Cell>)
    ensures forall c :: c in walls <==> WallAt(maze, c)
    ensures forall k :: 0 < k < |walls| ==> Before(walls[k - 1], walls[k])
  {
    walls := [];
    for x := 0 to maze.Length0
      invariant forall c :: c in walls <==> WallAt(maze, c) && c.0 < x
      invariant forall k :: 0 < k < |walls| ==> Before(walls[k - 1], walls[k])
      invariant |walls| > 0 ==> walls[|walls| - 1].0 < x
    {
      for y := 0 to maze.Length1
        invariant forall c :: c in walls <==> WallAt(maze, c) && (c.0 < x || (c.0 == x && c.1 < y))
        invariant forall k :: 0 < k < |walls| ==> Before(walls[k - 1], walls[k])
        invariant |walls| > 0 ==> Before(walls[|walls| - 1], (x, y))
      {
        if maze[x, y] {
          walls := walls + [(x, y)];
        }
      }
    }
  }

  /**
   * The ball at (x, y) has left through the exit: it stands in the exit's
   * row and at or past the column just outside the maze.
   */
  function IsExit(x: real, y: real, mazeSize: int): (exit: bool)
    ensures exit <==> (mazeSize as real - 0.5 <= x && (mazeSize - 2) as real - 0.5 <= y < (mazeSize - 2) as real + 0.5)
  {
    Round(x) >= mazeSize && Round(y) == mazeSize - 2
  }
}
