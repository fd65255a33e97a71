/**
 * Cells, obstacles and the grid of the robot's arena (entities/Entity.py):
 * the interior-cell check, obstacle equality, the viewpoints from which an
 * obstacle's marked face can be photographed, and the clearance predicate
 * that decides whether the robot may stand on a cell.
 */
module Entity {

  /** Headings. Cardinal directions are even; 8 marks an obstacle with no target face. */
  const NORTH: int := 0
  const EAST: int := 2
  const SOUTH: int := 4
  const WEST: int := 6
  const SKIP: int := 8

  /** The arena constants WIDTH, HEIGHT and EXPANDED_CELL; their values are configuration. */
  datatype Consts = Consts(width: int, height: int, expandedCell: int)

  predicate IsCardinal(d: int) {
    d == NORTH || d == EAST || d == SOUTH || d == WEST
  }

  /** Unit step along a cardinal heading: north is +y, east is +x. */
  function DX(d: int): int {
    if d == EAST then 1 else if d == WEST then -1 else 0
  }

  function DY(d: int): int {
    if d == NORTH then 1 else if d == SOUTH then -1 else 0
  }

  /** The strict interior of a sizeX by sizeY board: the outermost ring is excluded. */
  predicate InInterior(sizeX: int, sizeY: int, x: int, y: int) {
    x > 0 && y > 0 && x < sizeX - 1 && y < sizeY - 1
  }

  /** is_valid_cell: the interior check against the arena constants. */
  predicate IsValidCell(k: Consts, x: int, y: int) {
    InInterior(k.width, k.height, x, y)
  }

  lemma InteriorExcludesBorder(sizeX: int, sizeY: int, x: int, y: int)
    ensures InInterior(sizeX, sizeY, x, y) <==> 1 <= x <= sizeX - 2 && 1 <= y <= sizeY - 2
    ensures x == 0 || y == 0 || x == sizeX - 1 || y == sizeY - 1 ==> !InInterior(sizeX, sizeY, x, y)
  {
  }

  /** A robot pose; screenshotId is -1 unless the pose photographs that obstacle. */
  datatype CellState = CellState(x: int, y: int, direction: int, screenshotId: int, penalty: int) {

    predicate CmpPosition(x': int, y': int) {
      x == x' && y == y'
    }

    predicate IsEq(x': int, y': int, d: int) {
      x == x' && y == y' && direction == d
    }
  }

  lemma IsEqRefinesPosition(c: CellState, x: int, y: int, d: int)
    ensures c.IsEq(x, y, d) <==> c.CmpPosition(x, y) && c.direction == d
    ensures c.IsEq(x, y, d) <==> c.(screenshotId := 0, penalty := 0) == CellState(x, y, d, 0, 0)
  {
  }

  function Abs(n: int): nat {
    if n < 0 then -n else n
  }

  function Max(a: int, b: int): int {
    if a >= b then a else b
  }

  datatype Obstacle = Obstacle(x: int, y: int, direction: int, obstacleId: int) {

    /** Obstacle.__eq__: same place and same marked side; the id is not compared. */
    predicate SameAs(other: Obstacle) {
      x == other.x && y == other.y && direction == other.direction
    }

    /** The pose at offset j in front of the marked face, looking back at it. */
    function Candidate(j: int): CellState
      requires IsCardinal(direction)
    {
      if direction == NORTH then CellState(x, y + j, SOUTH, obstacleId, -(j * j))
      else if direction == SOUTH then CellState(x, y - j, NORTH, obstacleId, -(j * j))
      else if direction == EAST then CellState(x + j, y, WEST, obstacleId, -(j * j))
      else CellState(x - j, y, EAST, obstacleId, -(j * j))
    }

    /** How far a cell lies in front of the marked face, along the face's heading. */
    function Depth(c: CellState): int {
      if direction == NORTH then c.y - y
      else if direction == SOUTH then y - c.y
      else if direction == EAST then c.x - x
      else if direction == WEST then x - c.x
      else 0
    }

    /** The valid candidates at offsets 4 .. n-1, in increasing offset. */
    function ViewsUpTo(k: Consts, n: int): seq<CellState>
      requires IsCardinal(direction) && 4 <= n <= 7
      decreases n
    {
      if n == 4 then []
      else
        var c := Candidate(n - 1);
        ViewsUpTo(k, n - 1) + if IsValidCell(k, c.x, c.y) then [c] else []
    }

    /** get_view_state as a value: empty unless the obstacle faces a cardinal direction. */
    function ViewStates(k: Consts): seq<CellState> {
      if IsCardinal(direction) then ViewsUpTo(k, 7) else []
    }

    method GetViewState(k: Consts) returns (cells: seq<CellState>)
      ensures cells == ViewStates(k)
    {
      cells := [];
      if direction == NORTH {
        for j := 4 to 7
          invariant cells == ViewsUpTo(k, j)
        {
          var cellX, cellY := x, y + j;
          if IsValidCell(k, cellX, cellY) {
            cells := cells + [CellState(cellX, cellY, SOUTH, obstacleId, -(j * j))];
          }
        }
      } else if direction == SOUTH {
        for j := 4 to 7
          invariant cells == ViewsUpTo(k, j)
        {
          var cellX, cellY := x, y - j;
          if IsValidCell(k, cellX, cellY) {
            cells := cells + [CellState(cellX, cellY, NORTH, obstacleId, -(j * j))];
          }
        }
      } else if direction == EAST {
        for j := 4 to 7
          invariant cells == ViewsUpTo(k, j)
        {
          var cellX, cellY := x + j, y;
          if IsValidCell(k, cellX, cellY) {
            cells := cells + [CellState(cellX, cellY, WEST, obstacleId, -(j * j))];
          }
        }
      } else if direction == WEST {
        for j := 4 to 7
          invariant cells == ViewsUpTo(k, j)
        {
          var cellX, cellY := x - j, y;
          if IsValidCell(k, cellX, cellY) {
            cells := cells + [CellState(cellX, cellY, EAST, obstacleId, -(j * j))];
          }
        }
      }
    }
  }

  lemma SameAsIgnoresId(a: Obstacle, b: Obstacle)
    ensures a.SameAs(b) <==> a.(obstacleId := 0) == b.(obstacleId := 0)
    ensures a.SameAs(b) <==> b.SameAs(a)
  {
  }

  /** A candidate sits j cells in front of the face, looks back at it and costs -(j*j). */
  lemma CandidateGeometry(ob: Obstacle, j: int)
    requires IsCardinal(ob.direction)
    ensures var c := ob.Candidate(j);
      && c.x == ob.x + j * DX(ob.direction) && c.y == ob.y + j * DY(ob.direction)
      && ob.Depth(c) == j
      && (ob.direction - c.direction) % 8 == 4
      && c.screenshotId == ob.obstacleId
      && c.penalty == -(j * j)
  {
  }

  /** The candidates kept up to offset n: exactly the valid ones among offsets 4 .. n-1. */
  lemma {:induction false} ViewsUpToMembers(ob: Obstacle, k: Consts, n: int)
    requires IsCardinal(ob.direction) && 4 <= n <= 7
    ensures var cells := ob.ViewsUpTo(k, n);
      && |cells| <= n - 4
      && (forall c :: c in cells <==>
            exists j :: 4 <= j < n && c == ob.Candidate(j) && IsValidCell(k, c.x, c.y))
    decreases n
  {
    if n > 4 {
      ViewsUpToMembers(ob, k, n - 1);
      var c := ob.Candidate(n - 1);
      var prev := ob.ViewsUpTo(k, n - 1);
      var cells := ob.ViewsUpTo(k, n);
      assert cells == prev + if IsValidCell(k, c.x, c.y) then [c] else [];
      forall c' | c' in cells
        ensures exists j :: 4 <= j < n && c' == ob.Candidate(j) && IsValidCell(k, c'.x, c'.y)
      {
        if c' !in prev {
          assert c' == c;
        }
      }
      forall c' | exists j :: 4 <= j < n && c' == ob.Candidate(j) && IsValidCell(k, c'.x, c'.y)
        ensures c' in cells
      {
        var j :| 4 <= j < n && c' == ob.Candidate(j) && IsValidCell(k, c'.x, c'.y);
        if j < n - 1 {
          assert c' in prev;
        }
      }
    }
  }

  /** The candidates kept up to offset n lie at depths 4 .. n-1, in increasing depth. */
  lemma {:induction false} ViewsUpToOrder(ob: Obstacle, k: Consts, n: int)
    requires IsCardinal(ob.direction) && 4 <= n <= 7
    ensures var cells := ob.ViewsUpTo(k, n);
      && (forall i, i' :: 0 <= i < i' < |cells| ==> ob.Depth(cells[i]) < ob.Depth(cells[i']))
      && (forall i :: 0 <= i < |cells| ==> 4 <= ob.Depth(cells[i]) < n)
    decreases n
  {
    if n > 4 {
      ViewsUpToOrder(ob, k, n - 1);
      CandidateGeometry(ob, n - 1);
      var c := ob.Candidate(n - 1);
      var prev := ob.ViewsUpTo(k, n - 1);
      var cells := ob.ViewsUpTo(k, n);
      assert cells == prev + if IsValidCell(k, c.x, c.y) then [c] else [];
      assert forall i :: 0 <= i < |prev| ==> cells[i] == prev[i];
    }
  }

  /**
   * The viewpoints of an obstacle facing a cardinal direction: at most three,
   * all valid cells, each looking back at the face from 4, 5 or 6 cells away
   * along the face's heading with penalty -(k*k), tagged with the obstacle id, in
   * increasing distance, and every valid such cell is among them.
   */
  lemma ViewStatesCharacterised(ob: Obstacle, k: Consts)
    ensures !IsCardinal(ob.direction) ==> ob.ViewStates(k) == []
    ensures IsCardinal(ob.direction) ==>
      var cells := ob.ViewStates(k);
      && |cells| <= 3
      && (forall i :: 0 <= i < |cells| ==>
            && IsValidCell(k, cells[i].x, cells[i].y)
            && 4 <= ob.Depth(cells[i]) <= 6
            && cells[i] == ob.Candidate(ob.Depth(cells[i])))
      && (forall i, i' :: 0 <= i < i' < |cells| ==> ob.Depth(cells[i]) < ob.Depth(cells[i']))
      && (forall j :: 4 <= j <= 6 && IsValidCell(k, ob.Candidate(j).x, ob.Candidate(j).y) ==>
            ob.Candidate(j) in cells)
  {
    if IsCardinal(ob.direction) {
      var cells := ob.ViewStates(k);
      ViewsUpToMembers(ob, k, 7);
      ViewsUpToOrder(ob, k, 7);
      forall i | 0 <= i < |cells|
        ensures cells[i] == ob.Candidate(ob.Depth(cells[i]))
      {
        var c := cells[i];
        assert c in cells;
        var j :| 4 <= j < 7 && c == ob.Candidate(j) && IsValidCell(k, c.x, c.y);
        CandidateGeometry(ob, j);
      }
      forall j | 4 <= j <= 6 && IsValidCell(k, ob.Candidate(j).x, ob.Candidate(j).y)
        ensures ob.Candidate(j) in cells
      {
        var c := ob.Candidate(j);
        assert 4 <= j < 7 && c == ob.Candidate(j) && IsValidCell(k, c.x, c.y);
      }
    }
  }


  // ---- Clearance (Grid.reachable) ----

  function Manhattan(ob: Obstacle, x: int, y: int): nat {
    Abs(ob.x - x) + Abs(ob.y - y)
  }

  function Chebyshev(ob: Obstacle, x: int, y: int): int {
    Max(Abs(ob.x - x), Abs(ob.y - y))
  }

  /** The fixed map exemption: an obstacle at x = 4, y <= 4 never blocks a cell with x < 4, y < 4. */
  predicate FourBypass(ob: Obstacle, x: int, y: int) {
    ob.x == 4 && ob.y <= 4 && x < 4 && y < 4
  }

  /** Whether one obstacle makes (x, y) unsafe; turning needs Chebyshev clearance 2*e+1, driving 2. */
  predicate Blocks(ob: Obstacle, x: int, y: int, turn: bool, preTurn: bool, e: int) {
    && !FourBypass(ob, x, y)
    && Manhattan(ob, x, y) < 4
    && ((turn && Chebyshev(ob, x, y) < e * 2 + 1)
        || (preTurn && Chebyshev(ob, x, y) < e * 2 + 1)
        || Chebyshev(ob, x, y) < 2)
  }

  predicate Clear(obstacles: seq<Obstacle>, e: int, x: int, y: int, turn: bool, preTurn: bool) {
    forall ob :: ob in obstacles ==> !Blocks(ob, x, y, turn, preTurn, e)
  }

  /** reachable as a value: inside the board and blocked by no obstacle. */
  predicate Safe(obstacles: seq<Obstacle>, sizeX: int, sizeY: int, e: int,
                 x: int, y: int, turn: bool, preTurn: bool) {
    InInterior(sizeX, sizeY, x, y) && Clear(obstacles, e, x, y, turn, preTurn)
  }

  lemma OutsideIsUnreachable(obstacles: seq<Obstacle>, sizeX: int, sizeY: int, e: int,
                             x: int, y: int, turn: bool, preTurn: bool)
    requires !InInterior(sizeX, sizeY, x, y)
    ensures !Safe(obstacles, sizeX, sizeY, e, x, y, turn, preTurn)
  {
  }

  lemma EmptyGridIsReachable(sizeX: int, sizeY: int, e: int, x: int, y: int, turn: bool, preTurn: bool)
    requires InInterior(sizeX, sizeY, x, y)
    ensures Safe([], sizeX, sizeY, e, x, y, turn, preTurn)
  {
  }

  /** Removing an obstacle that cannot block the cell never changes the verdict. */
  lemma HarmlessObstacleIrrelevant(a: seq<Obstacle>, ob: Obstacle, b: seq<Obstacle>, sizeX: int, sizeY: int,
                                   e: int, x: int, y: int, turn: bool, preTurn: bool)
    requires Manhattan(ob, x, y) >= 4 || FourBypass(ob, x, y)
    ensures Safe(a + [ob] + b, sizeX, sizeY, e, x, y, turn, preTurn) == Safe(a + b, sizeX, sizeY, e, x, y, turn, preTurn)
  {
    assert !Blocks(ob, x, y, turn, preTurn, e);
    assert forall o :: o in a + [ob] + b <==> o in a + b || o == ob;
  }

  lemma CloseObstacleBlocks(obstacles: seq<Obstacle>, ob: Obstacle, sizeX: int, sizeY: int,
                            e: int, x: int, y: int, turn: bool, preTurn: bool)
    requires ob in obstacles && !FourBypass(ob, x, y)
    requires Manhattan(ob, x, y) < 4 && Chebyshev(ob, x, y) < 2
    ensures !Safe(obstacles, sizeX, sizeY, e, x, y, turn, preTurn)
  {
  }

  /** A cell that is safe while turning is safe when driving straight. */
  lemma TurningIsStricter(obstacles: seq<Obstacle>, sizeX: int, sizeY: int, e: int,
                          x: int, y: int, turn: bool, preTurn: bool)
    ensures Safe(obstacles, sizeX, sizeY, e, x, y, turn, preTurn) ==> Safe(obstacles, sizeX, sizeY, e, x, y, false, false)
  {
  }

  // ---- The obstacle list ----

  predicate Contains(obstacles: seq<Obstacle>, ob: Obstacle) {
    exists o :: o in obstacles && o.SameAs(ob)
  }

  predicate DuplicateFree(obstacles: seq<Obstacle>) {
    forall i, j :: 0 <= i < j < |obstacles| ==> !obstacles[i].SameAs(obstacles[j])
  }

  /** add_obstacle as a value: a duplicate (by SameAs) leaves the list alone, otherwise append. */
  function WithObstacle(obstacles: seq<Obstacle>, ob: Obstacle): (r: seq<Obstacle>)
    ensures Contains(obstacles, ob) ==> r == obstacles
    ensures !Contains(obstacles, ob) ==> |r| == |obstacles| + 1 && r[..|obstacles|] == obstacles && r[|obstacles|] == ob
    ensures Contains(r, ob)
    ensures DuplicateFree(obstacles) ==> DuplicateFree(r)
  {
    if Contains(obstacles, ob) then obstacles
    else
      var r := obstacles + [ob];
      assert r[|obstacles|] == ob && ob in r && ob.SameAs(ob);
      assert forall i :: 0 <= i < |obstacles| ==> r[i] in obstacles;
      r
  }

  /** The obstacles get_view_obstacle_positions plans for: those not marked SKIP, in order. */
  function Targets(obstacles: seq<Obstacle>): (r: seq<Obstacle>)
    ensures |r| <= |obstacles|
    ensures forall o :: o in r <==> o in obstacles && o.direction != SKIP
  {
    if obstacles == [] then []
    else
      var last := obstacles[|obstacles| - 1];
      assert obstacles == obstacles[..|obstacles| - 1] + [last];
      Targets(obstacles[..|obstacles| - 1]) + if last.direction != SKIP then [last] else []
  }

  /** For each target, its viewpoints that pass reachable with both turn flags off. */
  function ViewTable(obstacles: seq<Obstacle>, sizeX: int, sizeY: int, k: Consts, targets: seq<Obstacle>): seq<seq<CellState>> {
    seq(|targets|, i requires 0 <= i < |targets| => SafeViews(obstacles, sizeX, sizeY, k.expandedCell, targets[i].ViewStates(k)))
  }

  lemma ViewTableSnoc(obstacles: seq<Obstacle>, sizeX: int, sizeY: int, k: Consts, targets: seq<Obstacle>, ob: Obstacle)
    ensures ViewTable(obstacles, sizeX, sizeY, k, targets + [ob])
      == ViewTable(obstacles, sizeX, sizeY, k, targets) + [SafeViews(obstacles, sizeX, sizeY, k.expandedCell, ob.ViewStates(k))]
  {
  }

  /** The viewpoints that pass reachable with both turn flags off, in their original order. */
  function SafeViews(obstacles: seq<Obstacle>, sizeX: int, sizeY: int, e: int, cells: seq<CellState>): (r: seq<CellState>)
    ensures |r| <= |cells|
    ensures forall c :: c in r <==> c in cells && Safe(obstacles, sizeX, sizeY, e, c.x, c.y, false, false)
  {
    if cells == [] then []
    else
      var last := cells[|cells| - 1];
      assert cells == cells[..|cells| - 1] + [last];
      SafeViews(obstacles, sizeX, sizeY, e, cells[..|cells| - 1])
        + if Safe(obstacles, sizeX, sizeY, e, last.x, last.y, false, false) then [last] else []
  }

  /** Cells lie strictly further in front of ob's face as the list goes on. */
  predicate DepthIncreasing(ob: Obstacle, cells: seq<CellState>) {
    forall i, i' :: 0 <= i < i' < |cells| ==> ob.Depth(cells[i]) < ob.Depth(cells[i'])
  }

  /** Filtering keeps the viewpoints in increasing distance from the face. */
  lemma {:induction false} SafeViewsKeepOrder(ob: Obstacle, obstacles: seq<Obstacle>, sizeX: int, sizeY: int,
                                              e: int, cells: seq<CellState>)
    requires DepthIncreasing(ob, cells)
    ensures DepthIncreasing(ob, SafeViews(obstacles, sizeX, sizeY, e, cells))
  {
    if cells != [] {
      var init := cells[..|cells| - 1];
      var last := cells[|cells| - 1];
      assert forall i :: 0 <= i < |init| ==> init[i] == cells[i];
      SafeViewsKeepOrder(ob, obstacles, sizeX, sizeY, e, init);
      var r' := SafeViews(obstacles, sizeX, sizeY, e, init);
      forall c | c in r' ensures ob.Depth(c) < ob.Depth(last) {
        var i :| 0 <= i < |init| && init[i] == c;
        assert cells[i] == c;
      }
      var r := SafeViews(obstacles, sizeX, sizeY, e, cells);
      assert r == r' + if Safe(obstacles, sizeX, sizeY, e, last.x, last.y, false, false) then [last] else [];
      forall i, i' | 0 <= i < i' < |r| ensures ob.Depth(r[i]) < ob.Depth(r[i']) {
        assert r[i] == r'[i] && r'[i] in r';
        if i' < |r'| {
          assert r[i'] == r'[i'];
        } else {
          assert r[i'] == last;
        }
      }
    }
  }

  /** The grid: its size and the obstacle list that add_obstacle and reset_obstacles maintain. */
  class Grid {
    const sizeX: int
    const sizeY: int
    var obstacles: seq<Obstacle>

    /** No two obstacles on the grid sit at one place with one marked face. */
    predicate Valid()
      reads this
    {
      DuplicateFree(obstacles)
    }

    constructor (sizeX: int, sizeY: int)
      ensures this.sizeX == sizeX && this.sizeY == sizeY && obstacles == []
      ensures Valid()
    {
      this.sizeX := sizeX;
      this.sizeY := sizeY;
      obstacles := [];
    }

    method AddObstacle(ob: Obstacle)
      modifies this
      ensures obstacles == WithObstacle(old(obstacles), ob)
      ensures old(Valid()) ==> Valid()
    {
      var toAdd := true;
      var i := 0;
      while i < |obstacles|
        invariant 0 <= i <= |obstacles|
        invariant forall j :: 0 <= j < i ==> !obstacles[j].SameAs(ob)
      {
        if obstacles[i].SameAs(ob) {
          toAdd := false;
          break;
        }
        i := i + 1;
      }
      if toAdd {
        obstacles := obstacles + [ob];
      }
    }

    method ResetObstacles()
      modifies this
      ensures obstacles == [] && Valid()
    {
      obstacles := [];
    }

    predicate IsValidCoord(x: int, y: int) {
      InInterior(sizeX, sizeY, x, y)
    }

    method Reachable(k: Consts, x: int, y: int, turn: bool := false, preTurn: bool := false) returns (r: bool)
      ensures r == Safe(obstacles, sizeX, sizeY, k.expandedCell, x, y, turn, preTurn)
    {
      if !IsValidCoord(x, y) {
        return false;
      }
      var i := 0;
      while i < |obstacles|
        invariant 0 <= i <= |obstacles|
        invariant Clear(obstacles[..i], k.expandedCell, x, y, turn, preTurn)
      {
        var ob := obstacles[i];
        assert obstacles[..i + 1] == obstacles[..i] + [ob];
        if ob.x == 4 && ob.y <= 4 && x < 4 && y < 4 {
          i := i + 1;
          continue;
        }
        if Abs(ob.x - x) + Abs(ob.y - y) >= 4 {
          i := i + 1;
          continue;
        }
        assert ob in obstacles && !FourBypass(ob, x, y) && Manhattan(ob, x, y) < 4;
        if turn && Max(Abs(ob.x - x), Abs(ob.y - y)) < k.expandedCell * 2 + 1 {
          return false;
        }
        if preTurn && Max(Abs(ob.x - x), Abs(ob.y - y)) < k.expandedCell * 2 + 1 {
          return false;
        } else if Max(Abs(ob.x - x), Abs(ob.y - y)) < 2 {
          return false;
        }
        i := i + 1;
      }
      assert obstacles[..i] == obstacles;
      return true;
    }

    /** The list comprehension of get_view_obstacle_positions: keep the cells reachable with default flags. */
    method ReachableViews(k: Consts, candidates: seq<CellState>) returns (viewStates: seq<CellState>)
      ensures viewStates == SafeViews(obstacles, sizeX, sizeY, k.expandedCell, candidates)
    {
      viewStates := [];
      var j := 0;
      while j < |candidates|
        invariant 0 <= j <= |candidates|
        invariant viewStates == SafeViews(obstacles, sizeX, sizeY, k.expandedCell, candidates[..j])
      {
        var ok := Reachable(k, candidates[j].x, candidates[j].y);
        assert candidates[..j + 1][..j] == candidates[..j];
        if ok {
          viewStates := viewStates + [candidates[j]];
        }
        j := j + 1;
      }
      assert candidates[..j] == candidates;
    }

    method GetViewObstaclePositions(k: Consts) returns (positions: seq<seq<CellState>>)
      ensures |positions| == |Targets(obstacles)|
      ensures forall i :: 0 <= i < |positions| ==>
        positions[i] == SafeViews(obstacles, sizeX, sizeY, k.expandedCell, Targets(obstacles)[i].ViewStates(k))
    {
      positions := [];
      var n := 0;
      while n < |obstacles|
        invariant 0 <= n <= |obstacles|
        invariant positions == ViewTable(obstacles, sizeX, sizeY, k, Targets(obstacles[..n]))
      {
        var obstacle := obstacles[n];
        assert obstacles[..n + 1][..n] == obstacles[..n];
        if obstacle.direction == SKIP {
          assert Targets(obstacles[..n + 1]) == Targets(obstacles[..n]);
          n := n + 1;
          continue;
        }
        var candidates := obstacle.GetViewState(k);
        var viewStates := ReachableViews(k, candidates);
        assert Targets(obstacles[..n + 1]) == Targets(obstacles[..n]) + [obstacle];
        ViewTableSnoc(obstacles, sizeX, sizeY, k, Targets(obstacles[..n]), obstacle);
        positions := positions + [viewStates];
        n := n + 1;
      }
      assert obstacles[..n] == obstacles;
    }
  }
}
